/** Singly linked lists threaded through a table: `next[x]` is the entry after entry x, -1 is NULL. */
module Links {
  import opened Lists

  /** The i-th element as a link: -1 past the end. */
  function At(list: seq<nat>, i: nat): int {
    if i < |list| then list[i] else -1
  }

  function Last(list: seq<nat>): int {
    if list == [] then -1 else list[|list| - 1]
  }

  /** The list that starts at `head` is `list`. */
  ghost predicate Chain(head: int, next: seq<int>, list: seq<nat>) {
    && (forall i :: 0 <= i < |list| ==> list[i] < |next|)
    && head == At(list, 0) && forall i: nat :: i < |list| ==> Link(next, list, i)
  }

  /** The i-th element leads to the one after it. */
  ghost predicate Link(next: seq<int>, list: seq<nat>, i: nat)
    requires i < |list|
  {
    list[i] < |next| && next[list[i]] == At(list, i + 1)
  }

  /** Entries that are on a list keep their links, so the list stays what it is. */
  lemma SameChain(head: int, next: seq<int>, next': seq<int>, list: seq<nat>)
    requires Chain(head, next, list) && |next'| == |next|
    requires forall x :: x in list ==> next'[x] == next[x]
    ensures Chain(head, next', list)
  {
    forall i: nat | i < |list| ensures Link(next', list, i) {
      assert list[i] in list && Link(next, list, i);
    }
  }

  lemma AppendChain(head: int, next: seq<int>, next': seq<int>, list: seq<nat>, p: nat)
    requires Chain(head, next, list) && Distinct(list) && p !in list && p < |next| == |next'|
    requires next'[p] == -1
    requires list != [] ==> next'[list[|list| - 1]] == p
    requires forall i :: 0 <= i < |list| - 1 ==> next'[list[i]] == next[list[i]]
    ensures Chain(if list == [] then p else head, next', list + [p])
  {
    var l := list + [p];
    forall i: nat | i < |l| ensures Link(next', l, i) {
      if i < |list| { assert Link(next, list, i); }
    }
  }

  lemma PrependChain(head: int, next: seq<int>, list: seq<nat>, p: nat)
    requires Chain(head, next, list) && p !in list && p < |next|
    ensures Chain(p, next[p := head], [p] + list)
  {
    var l, n := [p] + list, next[p := head];
    forall i: nat | i < |l| ensures Link(n, l, i) {
      if i > 0 { assert l[i] == list[i - 1] && l[i] in list && Link(next, list, i - 1); }
    }
  }

  lemma DropFirst(head: int, next: seq<int>, list: seq<nat>)
    requires Chain(head, next, list) && list != []
    ensures Chain(next[list[0]], next, DropAt(list, 0))
  {
    var l := DropAt(list, 0);
    DropAtIs(list, 0);
    assert Link(next, list, 0);
    forall i: nat | i < |l| ensures Link(next, l, i) {
      assert Link(next, list, i + 1);
    }
  }

  lemma DropLater(head: int, next: seq<int>, list: seq<nat>, i: nat)
    requires Chain(head, next, list) && Distinct(list) && 0 < i < |list|
    ensures list[i - 1] < |next| && list[i] < |next|
    ensures Chain(head, next[list[i - 1] := next[list[i]]], DropAt(list, i))
  {
    DropAtIs(list, i);
    assert Link(next, list, i) && Link(next, list, i - 1);
    var l, n := DropAt(list, i), next[list[i - 1] := next[list[i]]];
    forall k: nat | k < |l| ensures Link(n, l, k) {
      var at := if k < i then k else k + 1;
      assert Link(next, list, at);
      assert at != i - 1 ==> list[at] != list[i - 1];
    }
  }

  lemma DropLast(list: seq<nat>, i: nat)
    requires i < |list|
    ensures Last(DropAt(list, i)) == if i < |list| - 1 then Last(list) else if i == 0 then -1 else list[i - 1]
  {
  }

  /** What the links say is the only list they say. */
  lemma {:induction false} ChainUnique(head: int, next: seq<int>, a: seq<nat>, b: seq<nat>, k: nat)
    requires Chain(head, next, a) && Chain(head, next, b) && k < |a|
    ensures k < |b| && a[k] == b[k]
  {
    if k > 0 {
      ChainUnique(head, next, a, b, k - 1);
      assert Link(next, a, k - 1) && Link(next, b, k - 1);
    }
  }

  /** Several lists threaded through one link field: no entry is on two of them, or on one twice. */
  ghost predicate Threads(head: seq<int>, next: seq<int>, lists: seq<seq<nat>>) {
    && |head| == |lists|
    && (forall k :: 0 <= k < |lists| ==> Chain(head[k], next, lists[k]) && Distinct(lists[k]))
    && forall j, k, x :: 0 <= j < |lists| && 0 <= k < |lists| && x in lists[j] && x in lists[k] ==> j == k
  }

  predicate OnNone(lists: seq<seq<nat>>, p: nat) {
    forall k :: 0 <= k < |lists| ==> p !in lists[k]
  }

  lemma ThreadsUpdate(head: seq<int>, next: seq<int>, lists: seq<seq<nat>>, k: nat,
                      h: int, next': seq<int>, list: seq<nat>)
    requires Threads(head, next, lists) && k < |lists| && |next'| == |next|
    requires Chain(h, next', list) && Distinct(list)
    requires forall j, x :: 0 <= j < |lists| && j != k && x in lists[j] ==> x !in list && next'[x] == next[x]
    ensures Threads(head[k := h], next', lists[k := list])
  {
    forall j | 0 <= j < |lists| && j != k ensures Chain(head[j], next', lists[j]) {
      SameChain(head[j], next, next', lists[j]);
    }
  }

  lemma ThreadsAppend(head: seq<int>, next: seq<int>, lists: seq<seq<nat>>, k: nat, p: nat)
    requires Threads(head, next, lists) && k < |lists| && p < |next| && OnNone(lists, p)
    ensures lists[k] == [] ==> Threads(head[k := p], next[p := -1], lists[k := lists[k] + [p]])
    ensures lists[k] != [] ==> Threads(head, next[Last(lists[k]) := p][p := -1], lists[k := lists[k] + [p]])
  {
    var list := lists[k];
    var next' := (if list == [] then next else next[Last(list) := p])[p := -1];
    assert list != [] ==> Last(list) in list;
    AppendChain(head[k], next, next', list, p);
    AppendDistinct(list, p);
    ThreadsUpdate(head, next, lists, k, if list == [] then p else head[k], next', list + [p]);
    assert list != [] ==> head[k := head[k]] == head;
  }

  lemma ThreadsPrepend(head: seq<int>, next: seq<int>, lists: seq<seq<nat>>, k: nat, p: nat)
    requires Threads(head, next, lists) && k < |lists| && p < |next| && OnNone(lists, p)
    ensures Threads(head[k := p], next[p := head[k]], lists[k := [p] + lists[k]])
  {
    PrependChain(head[k], next, lists[k], p);
    AppendDistinct(lists[k], p);
    ThreadsUpdate(head, next, lists, k, p, next[p := head[k]], [p] + lists[k]);
  }

  lemma ThreadsDrop(head: seq<int>, next: seq<int>, lists: seq<seq<nat>>, k: nat, i: nat)
    requires Threads(head, next, lists) && k < |lists| && i < |lists[k]|
    ensures var list := lists[k];
      if i == 0 then Threads(head[k := next[list[0]]], next, lists[k := DropAt(list, 0)])
      else Threads(head, next[list[i - 1] := next[list[i]]], lists[k := DropAt(list, i)])
  {
    var list := lists[k];
    DropAtDistinct(list, i);
    if i == 0 {
      DropFirst(head[k], next, list);
      ThreadsUpdate(head, next, lists, k, next[list[0]], next, DropAt(list, 0));
    } else {
      assert list[i - 1] in list;
      DropLater(head[k], next, list, i);
      ThreadsUpdate(head, next, lists, k, head[k], next[list[i - 1] := next[list[i]]], DropAt(list, i));
      assert head[k := head[k]] == head;
    }
  }

  /** Entries that are on no list have no link. */
  ghost predicate LooseEnds(next: seq<int>, lists: seq<seq<nat>>) {
    forall p :: 0 <= p < |next| && OnNone(lists, p) ==> next[p] == -1
  }

  /** Appending an entry without a link: the last entry's link, or the head, is all that changes. */
  lemma ThreadsJoin(head: seq<int>, next: seq<int>, lists: seq<seq<nat>>, k: nat, p: nat)
    requires Threads(head, next, lists) && LooseEnds(next, lists) && k < |lists| && p < |next| && OnNone(lists, p)
    ensures var joined := lists[k := lists[k] + [p]];
      && (lists[k] == [] ==> Threads(head[k := p], next, joined) && LooseEnds(next, joined))
      && (lists[k] != [] ==> Last(lists[k]) < |next|)
      && (lists[k] != [] ==> Threads(head, next[Last(lists[k]) := p], joined))
      && (lists[k] != [] ==> LooseEnds(next[Last(lists[k]) := p], joined))
  {
    var list := lists[k];
    var joined := lists[k := list + [p]];
    ThreadsAppend(head, next, lists, k, p);
    forall x | OnNone(joined, x) ensures OnNone(lists, x) && x !in list + [p] {
      assert joined[k] == list + [p];
      forall j | 0 <= j < |lists| ensures x !in lists[j] {
        assert x !in joined[j];
      }
    }
    if list == [] {
      assert next[p := -1] == next;
    } else {
      assert Last(list) in list;
      assert next[Last(list) := p][p := -1] == next[Last(list) := p];
      assert forall x :: x !in list + [p] ==> x != Last(list);
    }
  }

  /** Taking an entry out and clearing its link. */
  lemma ThreadsLeave(head: seq<int>, next: seq<int>, lists: seq<seq<nat>>, k: nat, i: nat)
    requires Threads(head, next, lists) && LooseEnds(next, lists) && k < |lists| && i < |lists[k]|
    ensures var list, left := lists[k], lists[k := DropAt(lists[k], i)];
      && (i == 0 ==> Threads(head[k := next[list[0]]], next[list[0] := -1], left)
                     && LooseEnds(next[list[0] := -1], left))
      && (i > 0 ==> Threads(head, next[list[i - 1] := next[list[i]]][list[i] := -1], left)
                    && LooseEnds(next[list[i - 1] := next[list[i]]][list[i] := -1], left))
  {
    var list, left := lists[k], lists[k := DropAt(lists[k], i)];
    var x := list[i];
    ThreadsDrop(head, next, lists, k, i);
    DropAtDistinct(list, i);
    assert OnNone(left, x);
    forall y | OnNone(left, y) && y != x ensures OnNone(lists, y) {
      forall j | 0 <= j < |lists| ensures y !in lists[j] {
        assert y !in left[j];
      }
    }
    if i == 0 {
      ThreadsLoose(head[k := next[x]], next, left, x, -1);
    } else {
      ThreadsLoose(head, next[list[i - 1] := next[x]], left, x, -1);
      assert list[i - 1] in left[k];
    }
  }

  /** Changing the link of an entry that is on no list. */
  lemma ThreadsLoose(head: seq<int>, next: seq<int>, lists: seq<seq<nat>>, p: nat, v: int)
    requires Threads(head, next, lists) && p < |next| && OnNone(lists, p)
    ensures Threads(head, next[p := v], lists)
  {
    forall j | 0 <= j < |lists| ensures Chain(head[j], next[p := v], lists[j]) {
      SameChain(head[j], next, next[p := v], lists[j]);
    }
  }
}
