/** A doubly linked list threaded through a table, with -1 as NULL. */
module DoubleLinks {
  import opened Lists
  import opened Links

  ghost predicate Doubly(front: int, rear: int, next: seq<int>, prev: seq<int>, list: seq<nat>) {
    && Chain(front, next, list) && Distinct(list)
    && |prev| == |next| && rear == Last(list) && Back(prev, list)
  }

  ghost predicate Back(prev: seq<int>, list: seq<nat>) {
    forall i: nat :: i < |list| ==> BackAt(prev, list, i)
  }

  ghost predicate BackAt(prev: seq<int>, list: seq<nat>, i: nat)
    requires i < |list|
  {
    list[i] < |prev| && prev[list[i]] == if i == 0 then -1 else list[i - 1]
  }

  lemma EndsOf(front: int, rear: int, next: seq<int>, prev: seq<int>, list: seq<nat>, i: nat)
    requires Doubly(front, rear, next, prev, list) && i < |list|
    ensures next[list[i]] == At(list, i + 1) && prev[list[i]] == (if i == 0 then -1 else list[i - 1])
    ensures next[list[i]] == -1 <==> i == |list| - 1
    ensures -1 <= next[list[i]] < |next| && -1 <= prev[list[i]] < |next|
  {
    assert BackAt(prev, list, i) && Link(next, list, i);
  }

  lemma BackDrop(prev: seq<int>, list: seq<nat>, i: nat, prev': seq<int>)
    requires Distinct(list) && i < |list| && Back(prev, list) && |prev'| == |prev|
    requires forall x :: 0 <= x < |prev| && (i + 1 == |list| || x != list[i + 1]) ==> prev'[x] == prev[x]
    requires forall k :: 0 <= k < |list| ==> list[k] < |prev|
    requires i + 1 < |list| ==> prev'[list[i + 1]] == prev[list[i]]
    ensures Back(prev', DropAt(list, i))
  {
    var l := DropAt(list, i);
    forall k: nat | k < |l| ensures BackAt(prev', l, k) {
      var at := if k < i then k else k + 1;
      assert l[k] == list[at];
      assert BackAt(prev, list, at);
      if at == i + 1 {
        assert BackAt(prev, list, i);
        assert k == 0 || l[k - 1] == list[i - 1];
      } else {
        assert i + 1 < |list| ==> list[at] != list[i + 1];
        assert k == 0 || l[k - 1] == list[at - 1];
      }
    }
  }

  /** Taking out an entry that has both neighbours, one, or none. */
  lemma DoublyDrop(front: int, rear: int, next: seq<int>, prev: seq<int>, list: seq<nat>, i: nat)
    requires Doubly(front, rear, next, prev, list) && i < |list|
    ensures var n, p := next[list[i]], prev[list[i]];
      && -1 <= n < |next| && -1 <= p < |next|
      && Doubly(if p == -1 then n else front, if n == -1 then p else rear,
                if p == -1 then next else next[p := n], if n == -1 then prev else prev[n := p], DropAt(list, i))
  {
    EndsOf(front, rear, next, prev, list, i);
    DropAtDistinct(list, i);
    var n, p := next[list[i]], prev[list[i]];
    if i == 0 {
      DropFirst(front, next, list);
    } else {
      DropLater(front, next, list, i);
    }
    DropLast(list, i);
    BackDrop(prev, list, i, if n == -1 then prev else prev[n := p]);
  }

  lemma DoublyFront(front: int, rear: int, next: seq<int>, prev: seq<int>, list: seq<nat>, x: nat)
    requires Doubly(front, rear, next, prev, list) && x < |next| && x !in list
    ensures front != -1 ==> 0 <= front < |next|
    ensures Doubly(x, if front == -1 then x else rear, next[x := front],
                   if front == -1 then prev[x := -1] else prev[x := -1][front := x], [x] + list)
  {
    PrependChain(front, next, list, x);
    AppendDistinct(list, x);
    var l := [x] + list;
    var prev' := if front == -1 then prev[x := -1] else prev[x := -1][front := x];
    forall k: nat | k < |l| ensures BackAt(prev', l, k) {
      if k > 0 {
        assert l[k] == list[k - 1] && l[k] in list;
        assert BackAt(prev, list, k - 1);
      }
    }
  }

  lemma DoublyRear(front: int, rear: int, next: seq<int>, prev: seq<int>, list: seq<nat>, x: nat)
    requires Doubly(front, rear, next, prev, list) && x < |next| && x !in list
    ensures rear != -1 ==> 0 <= rear < |next|
    ensures Doubly(if rear == -1 then x else front, x, if rear == -1 then next[x := -1] else next[x := -1][rear := x],
                   prev[x := rear], list + [x])
  {
    var next' := if rear == -1 then next[x := -1] else next[x := -1][rear := x];
    assert list != [] ==> rear in list;
    AppendChain(front, next, next', list, x);
    AppendDistinct(list, x);
    var l := list + [x];
    var prev' := prev[x := rear];
    forall k: nat | k < |l| ensures BackAt(prev', l, k) {
      if k < |list| {
        assert l[k] == list[k] && l[k] in list;
        assert BackAt(prev, list, k);
        assert k == 0 || l[k - 1] == list[k - 1];
      } else {
        assert k == 0 || l[k - 1] == list[k - 1];
      }
    }
  }
}
