/**
 runqueues_ok of kernel/debug.c: the kernel's own check of its scheduling queues. It is shown to accept
 exactly the tables whose links form the queues that the invariant ReadyOk of module Rendezvous demands,
 also when the links hold garbage.
 */
module RunqueuesCheck {
  import opened Lists
  import opened Links
  import opened Rendezvous

  /** The links form the queues `lists`, and these hold each runnable process once, by priority. */
  ghost predicate Good(rts: seq<set<Flag>>, prio: seq<nat>, head: seq<int>, tail: seq<int>, next: seq<int>,
                       lists: seq<seq<nat>>)
    requires |rts| == |prio| == |next| && |head| == |tail|
  {
    && |lists| == |head|
    && ReadyLists(rts, prio, lists)
    && forall k :: 0 <= k < |lists| ==> Chain(head[k], next, lists[k]) && tail[k] == Last(lists[k])
  }

  /** The links that start at `head` and end at `tail` form `list`, a queue of runnable processes of priority q. */
  ghost predicate GoodQueue(rts: seq<set<Flag>>, prio: seq<nat>, next: seq<int>, q: nat, head: int, tail: int, list: seq<nat>)
    requires |rts| == |prio| == |next|
  {
    && Chain(head, next, list) && tail == Last(list) && Distinct(list)
    && forall p: nat :: p in list ==> p < |next| && rts[p] == {} && prio[p] == q
  }

  /** The i-th process of the part of a queue that has been walked leads to the one after it, the last one to `xp`. */
  ghost predicate WalkedAt(next: seq<int>, list: seq<nat>, xp: int, i: nat)
    requires i < |list|
  {
    list[i] < |next| && next[list[i]] == if i + 1 < |list| then list[i + 1] else xp
  }

  ghost predicate Walked(next: seq<int>, list: seq<nat>, xp: int) {
    forall i: nat :: i < |list| ==> WalkedAt(next, list, xp, i)
  }

  lemma WalkOn(next: seq<int>, list: seq<nat>, xp: nat)
    requires Walked(next, list, xp) && xp < |next|
    ensures Walked(next, list + [xp], next[xp])
  {
    forall i: nat | i < |list| + 1 ensures WalkedAt(next, list + [xp], next[xp], i) {
      if i < |list| { assert WalkedAt(next, list, xp, i); }
    }
  }

  lemma WalkEnds(next: seq<int>, list: seq<nat>)
    requires Walked(next, list, -1)
    ensures Chain(At(list, 0), next, list)
  {
    forall i: nat | i < |list| ensures list[i] < |next| && Link(next, list, i) {
      assert WalkedAt(next, list, -1, i);
    }
  }

  ghost predicate AllGood(rts: seq<set<Flag>>, prio: seq<nat>, next: seq<int>, head: seq<int>, tail: seq<int>,
                          lists: seq<seq<nat>>)
    requires |rts| == |prio| == |next| && |lists| <= |head| == |tail|
  {
    forall k {:trigger lists[k]} :: 0 <= k < |lists| ==> GoodQueue(rts, prio, next, k, head[k], tail[k], lists[k])
  }

  lemma AllGoodSnoc(rts: seq<set<Flag>>, prio: seq<nat>, next: seq<int>, head: seq<int>, tail: seq<int>,
                    lists: seq<seq<nat>>, list: seq<nat>)
    requires |rts| == |prio| == |next| && |lists| < |head| == |tail| && AllGood(rts, prio, next, head, tail, lists)
    requires GoodQueue(rts, prio, next, |lists|, head[|lists|], tail[|lists|], list)
    ensures AllGood(rts, prio, next, head, tail, lists + [list])
  {
  }

  lemma AllGoodUnique(rts: seq<set<Flag>>, prio: seq<nat>, next: seq<int>, head: seq<int>, tail: seq<int>,
                      a: seq<seq<nat>>, b: seq<seq<nat>>, k: nat)
    requires |rts| == |prio| == |next| && k < |a| == |b| == |head| == |tail|
    requires AllGood(rts, prio, next, head, tail, a) && AllGood(rts, prio, next, head, tail, b)
    ensures a[k] == b[k]
  {
    forall i | 0 <= i < |a[k]| ensures i < |b[k]| && a[k][i] == b[k][i] {
      ChainUnique(head[k], next, a[k], b[k], i);
    }
    if |a[k]| < |b[k]| {
      ChainUnique(head[k], next, b[k], a[k], |a[k]|);
    }
  }

  lemma GoodTail(rts: seq<set<Flag>>, prio: seq<nat>, next: seq<int>, q: nat, head: int, tail: int, list: seq<nat>)
    requires |rts| == |prio| == |next| && -1 <= tail < |next| && tail != -1
    ensures GoodQueue(rts, prio, next, q, head, tail, list) ==> next[tail] == -1
  {
    if GoodQueue(rts, prio, next, q, head, tail, list) {
      assert Link(next, list, |list| - 1);
    }
  }

  /** The processes marked found are the ones on the queues looked at, and there are `l` of them. */
  ghost predicate Marked(prio: seq<nat>, found: seq<bool>, l: nat, lists: seq<seq<nat>>)
    requires |found| == |prio|
  {
    && (forall p :: 0 <= p < |prio| ==> (found[p] <==> prio[p] < |lists| && p in lists[prio[p]]))
    && l == |set p: nat | p < |found| && found[p]|
  }

  lemma MarkOne(prio: seq<nat>, found: seq<bool>, l: nat, lists: seq<seq<nat>>, q: nat, p: nat)
    requires |found| == |prio| && Marked(prio, found, l, lists) && q < |lists|
    requires p < |prio| && prio[p] == q && !found[p]
    ensures Marked(prio, found[p := true], l + 1, lists[q := lists[q] + [p]])
    ensures l + 1 <= |prio|
  {
    var f := found[p := true];
    var before, after := (set x: nat | x < |found| && found[x]), (set x: nat | x < |f| && f[x]);
    assert after == before + {p};
    SubsetSize(after, Upto(|prio|));
  }

  /** The part of the check that looks at one queue; `expected` is any list that the queue might form. */
  method CheckQueue(rts: seq<set<Flag>>, prio: seq<nat>, next: seq<int>, q: nat, head: int, tail: int,
                    found0: seq<bool>, l0: nat, ghost lists: seq<seq<nat>>, ghost expected: seq<nat>)
    returns (ok: bool, found: seq<bool>, l: nat, ghost list: seq<nat>)
    requires |rts| == |prio| == |next| == |found0| && -1 <= tail < |next| && q == |lists|
    requires Marked(prio, found0, l0, lists) && l0 <= |next|
    ensures |found| == |next| && l <= |next|
    ensures ok ==> GoodQueue(rts, prio, next, q, head, tail, list) && Marked(prio, found, l, lists + [list])
    ensures GoodQueue(rts, prio, next, q, head, tail, expected) ==> ok
  {
    var n := |next|;
    found, l, list := found0, l0, [];
    if head != -1 && tail == -1 {
      return false, found, l, list;
    }
    if head == -1 && tail != -1 {
      return false, found, l, list;
    }
    if tail != -1 && next[tail] != -1 {
      GoodTail(rts, prio, next, q, head, tail, expected);
      return false, found, l, list;
    }
    var xp := head;
    ghost var good := GoodQueue(rts, prio, next, q, head, tail, expected);
    assert Marked(prio, found, l, lists + [[]]);
    while xp != -1
      invariant |found| == n && l <= n
      invariant Marked(prio, found, l, lists + [list])
      invariant Distinct(list) && forall p: nat :: p in list ==> p < n && rts[p] == {} && prio[p] == q
      invariant head == if list == [] then xp else list[0]
      invariant Walked(next, list, xp)
      invariant xp == -1 ==> tail == Last(list)
      invariant good ==> |list| <= |expected| && list == expected[..|list|] && xp == At(expected, |list|)
      decreases n - l
    {
      if xp < 0 || xp >= n {
        return false, found, l, list;
      }
      assert good ==> xp in expected;
      if SlotFree in rts[xp] || rts[xp] != {} {
        return false, found, l, list;
      }
      if prio[xp] != q {
        return false, found, l, list;
      }
      assert (lists + [list])[q] == list;
      if found[xp] {
        assert xp in list;
        return false, found, l, list;
      }
      MarkOne(prio, found, l, lists + [list], q, xp);
      assert (lists + [list])[q := list + [xp]] == lists + [list + [xp]];
      found := found[xp := true];
      if next[xp] == -1 && tail != xp {
        if good { assert Link(next, expected, |list|); }
        return false, found, l, list;
      }
      if l > n {                         // l++ > MAX_LOOP: never, each process is found once
        return false, found, l, list;
      }
      l := l + 1;
      if good { assert Link(next, expected, |list|); }
      WalkOn(next, list, xp);
      list := list + [xp];
      xp := next[xp];
    }
    WalkEnds(next, list);
    ok := true;
  }

  /** The loop over the queues; `some` are queues that the links might form. */
  method CheckQueues(rts: seq<set<Flag>>, prio: seq<nat>, head: seq<int>, tail: seq<int>, next: seq<int>,
                     ghost some: seq<seq<nat>>)
    returns (ok: bool, found: seq<bool>, l: nat, ghost lists: seq<seq<nat>>)
    requires |rts| == |prio| == |next| && |head| == |tail|
    requires SlotsOrNull(tail, |next|)
    ensures ok ==> |found| == |next| && |lists| == |head| && Marked(prio, found, l, lists) && AllGood(rts, prio, next, head, tail, lists)
    ensures |some| == |head| && AllGood(rts, prio, next, head, tail, some) ==> ok
  {
    var n := |next|;
    ghost var good := |some| == |head| && AllGood(rts, prio, next, head, tail, some);
    found, l, lists := seq(n, _ => false), 0, [];     // p_found
    assert (set p: nat | p < |found| && found[p]) == {};
    var q := 0;
    while q < |head|
      invariant q == |lists| <= |head| && |found| == n && l <= n
      invariant Marked(prio, found, l, lists) && AllGood(rts, prio, next, head, tail, lists)
    {
      ghost var list;
      ghost var expected := if good then some[q] else [];
      assert good ==> GoodQueue(rts, prio, next, q, head[q], tail[q], expected);
      ok, found, l, list := CheckQueue(rts, prio, next, q, head[q], tail[q], found, l, lists, expected);
      if !ok {
        return;
      }
      AllGoodSnoc(rts, prio, next, head, tail, lists, list);
      lists := lists + [list];
      q := q + 1;
    }
    ok := true;
  }

  /** `some` is any family of queues: if the links form those and they are good, the check accepts. */
  method RunqueuesOk(rts: seq<set<Flag>>, prio: seq<nat>, head: seq<int>, tail: seq<int>, next: seq<int>,
                     ghost some: seq<seq<nat>>)
    returns (ok: bool)
    requires |rts| == |prio| == |next| && |head| == |tail|
    requires SlotsOrNull(tail, |next|) && AllBelow(prio, |head|)
    ensures ok ==> exists lists :: Good(rts, prio, head, tail, next, lists)
    ensures Good(rts, prio, head, tail, next, some) ==> ok
  {
    var found, l;
    ghost var lists;
    if Good(rts, prio, head, tail, next, some) {
      GoodParts(rts, prio, head, tail, next, some);
    }
    ok, found, l, lists := CheckQueues(rts, prio, head, tail, next, some);
    if !ok {
      return;
    }
    var p := 0;
    while p < |next|
      invariant p <= |next| && forall x :: 0 <= x < p ==> rts[x] == {} ==> found[x]
    {
      if rts[p] != {SlotFree} && rts[p] == {} && !found[p] {
        if Good(rts, prio, head, tail, next, some) {
          AllGoodUnique(rts, prio, next, head, tail, lists, some, prio[p]);
        }
        return false;
      }
      p := p + 1;
    }
    GoodWhole(rts, prio, head, tail, next, lists, found, l);
  }

  lemma GoodParts(rts: seq<set<Flag>>, prio: seq<nat>, head: seq<int>, tail: seq<int>, next: seq<int>, lists: seq<seq<nat>>)
    requires |rts| == |prio| == |next| && |head| == |tail| && Good(rts, prio, head, tail, next, lists)
    ensures AllGood(rts, prio, next, head, tail, lists)
    ensures AllBelow(prio, |lists|) ==> forall p :: 0 <= p < |rts| && rts[p] == {} ==> p in lists[prio[p]]
  {
    forall k | 0 <= k < |lists| ensures GoodQueue(rts, prio, next, k, head[k], tail[k], lists[k]) {
      assert Chain(head[k], next, lists[k]);
    }
    forall p | 0 <= p < |rts| && rts[p] == {} && AllBelow(prio, |lists|) ensures p in lists[prio[p]] {
      var list := lists[prio[p]];
    }
  }

  lemma GoodWhole(rts: seq<set<Flag>>, prio: seq<nat>, head: seq<int>, tail: seq<int>, next: seq<int>,
                  lists: seq<seq<nat>>, found: seq<bool>, l: nat)
    requires |rts| == |prio| == |next| == |found| && |head| == |tail| == |lists|
    requires AllGood(rts, prio, next, head, tail, lists)
    requires Marked(prio, found, l, lists) && forall x :: 0 <= x < |rts| && rts[x] == {} ==> found[x]
    ensures Good(rts, prio, head, tail, next, lists)
  {
    forall k | 0 <= k < |lists|
      ensures forall p: nat :: p in lists[k] <==> p < |rts| && rts[p] == {} && prio[p] == k
    {
      assert GoodQueue(rts, prio, next, k, head[k], tail[k], lists[k]);
    }
  }
}
