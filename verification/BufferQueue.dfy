/** The sort at the beginning of rw_scattered: Shell sort of a queue of buffers by their block numbers. */
module BufferQueue {
  import opened Lists

  ghost predicate Within(q: seq<nat>, n: nat) {
    forall i :: 0 <= i < |q| ==> q[i] < n
  }

  /** The block numbers do not decrease along the queue. */
  ghost predicate Ascending(q: seq<nat>, blk: seq<nat>)
    requires Within(q, |blk|)
  {
    forall i, j :: 0 <= i < j < |q| ==> blk[q[i]] <= blk[q[j]]
  }

  ghost predicate Permuted(q: seq<nat>, r: seq<nat>) {
    multiset(q) == multiset(r)
  }

  /** 0, 1, 4, 13, ...: the gaps. */
  function Gap(k: nat): nat {
    if k == 0 then 0 else 3 * Gap(k - 1) + 1
  }

  lemma {:induction false} GapGrows(k: nat)
    ensures Gap(k) >= k
  {
    if k > 0 { GapGrows(k - 1); }
  }

  lemma PermutedWithin(q: seq<nat>, r: seq<nat>, n: nat)
    requires Permuted(q, r) && Within(q, n)
    ensures Within(r, n) && |r| == |q| && forall x :: x in r <==> x in q
  {
    assert |q| == |multiset(q)| && |r| == |multiset(r)|;
    forall x ensures x in r <==> x in q {
      assert x in q <==> x in multiset(q);
      assert x in r <==> x in multiset(r);
    }
    forall i | 0 <= i < |r| ensures r[i] < n {
      assert r[i] in q;
    }
  }

  lemma {:induction false} DistinctOnce(q: seq<nat>)
    ensures Distinct(q) <==> forall x :: multiset(q)[x] <= 1
    decreases |q|
  {
    if q != [] {
      var l := |q| - 1;
      DistinctOnce(q[..l]);
      assert q == q[..l] + [q[l]];
      if Distinct(q) {
        assert q[l] !in q[..l];
      } else if Distinct(q[..l]) {
        assert q[l] in q[..l];
        assert multiset(q)[q[l]] == multiset(q[..l])[q[l]] + 1;
      } else {
        var x :| multiset(q[..l])[x] > 1;
        assert multiset(q)[x] > 1;
      }
    }
  }

  lemma PermutedDistinct(q: seq<nat>, r: seq<nat>)
    requires Permuted(q, r) && Distinct(q)
    ensures Distinct(r)
  {
    DistinctOnce(q);
    DistinctOnce(r);
  }

  /** Sorted but for the element at `at`, which is not above what follows it. */
  ghost predicate AscendingBut(q: seq<nat>, blk: seq<nat>, n: nat, at: int)
    requires Within(q, |blk|) && n <= |q|
  {
    forall i, j :: 0 <= i < j < n && j != at ==> blk[q[i]] <= blk[q[j]]
  }

  function Swapped(q: seq<nat>, i: nat, j: nat): (r: seq<nat>)
    requires i < j < |q|
    ensures |r| == |q|
  {
    q[i := q[j]][j := q[i]]
  }

  lemma SwapKeeps(q: seq<nat>, blk: seq<nat>, i: nat, j: nat, n: nat)
    requires Within(q, |blk|) && i < j < |q| && n <= |q|
    ensures Permuted(q, Swapped(q, i, j)) && Within(Swapped(q, i, j), |blk|)
    ensures j == i + 1 < n && AscendingBut(q, blk, n, j) && blk[q[i]] > blk[q[j]] ==>
      AscendingBut(Swapped(q, i, j), blk, n, i)
  {
    assert multiset(Swapped(q, i, j)) == multiset(q);
  }

  method Swap(bufq: array<nat>, blk: seq<nat>, i: nat, j: nat, n: nat)
    requires Within(bufq[..], |blk|) && i < j < n <= bufq.Length
    modifies bufq
    ensures Permuted(old(bufq[..]), bufq[..]) && Within(bufq[..], |blk|)
    ensures j == i + 1 && old(AscendingBut(bufq[..], blk, n, j)) && blk[old(bufq[i])] > blk[old(bufq[j])] ==>
      AscendingBut(bufq[..], blk, n, i)
  {
    SwapKeeps(bufq[..], blk, i, j, n);
    bufq[i], bufq[j] := bufq[j], bufq[i];
    assert bufq[..] == Swapped(old(bufq[..]), i, j);
  }

  /** The inner loop: element `j` sinks by steps of `gap` to where it belongs. */
  method Sink(bufq: array<nat>, blk: seq<nat>, gap: nat, j: nat)
    requires Within(bufq[..], |blk|) && 0 < gap <= j < bufq.Length
    requires gap == 1 ==> AscendingBut(bufq[..], blk, j, j)
    modifies bufq
    ensures Permuted(old(bufq[..]), bufq[..]) && Within(bufq[..], |blk|)
    ensures gap == 1 ==> AscendingBut(bufq[..], blk, j + 1, j + 1)
  {
    var i := j - gap;
    while i >= 0 && blk[bufq[i]] > blk[bufq[i + gap]]
      invariant 0 <= i + gap <= j
      invariant Permuted(old(bufq[..]), bufq[..]) && Within(bufq[..], |blk|)
      invariant gap == 1 ==> AscendingBut(bufq[..], blk, j + 1, i + 1)
      decreases i + gap
    {
      Swap(bufq, blk, i, i + gap, j + 1);
      i := i - gap;
    }
    if gap == 1 {
      Settled(bufq[..], blk, j + 1, i + 1);
    }
  }

  lemma Settled(q: seq<nat>, blk: seq<nat>, n: nat, at: nat)
    requires Within(q, |blk|) && n <= |q| && at < n && AscendingBut(q, blk, n, at)
    requires at == 0 || blk[q[at - 1]] <= blk[q[at]]
    ensures AscendingBut(q, blk, n, n)
  {
    forall i | 0 <= i < at ensures blk[q[i]] <= blk[q[at]] {
      assert blk[q[i]] <= blk[q[at - 1]];
    }
  }

  /** One pass: whatever the gap it permutes; with gap 1 it sorts. */
  method Pass(bufq: array<nat>, blk: seq<nat>, gap: nat)
    requires Within(bufq[..], |blk|) && gap > 0
    modifies bufq
    ensures Permuted(old(bufq[..]), bufq[..]) && Within(bufq[..], |blk|)
    ensures gap == 1 ==> Ascending(bufq[..], blk)
  {
    var j := gap;
    while j < bufq.Length
      invariant gap <= j && (j <= bufq.Length || j == gap)
      invariant Permuted(old(bufq[..]), bufq[..]) && Within(bufq[..], |blk|)
      invariant gap == 1 && j <= bufq.Length ==> AscendingBut(bufq[..], blk, j, j)
    {
      Sink(bufq, blk, gap, j);
      j := j + 1;
    }
  }

  method SortQueue(bufq: array<nat>, blk: seq<nat>)
    requires Within(bufq[..], |blk|)
    modifies bufq
    ensures Permuted(old(bufq[..]), bufq[..]) && Within(bufq[..], |blk|) && Ascending(bufq[..], blk)
  {
    var gap := 4;
    ghost var k := 2;
    while gap <= bufq.Length
      invariant k >= 2 && gap == Gap(k)
      decreases bufq.Length - gap
    {
      gap := 3 * gap + 1;
      k := k + 1;
    }
    while gap != 1
      invariant k >= 1 && gap == Gap(k)
      invariant Permuted(old(bufq[..]), bufq[..]) && Within(bufq[..], |blk|)
      invariant gap == 1 ==> Ascending(bufq[..], blk)
      decreases gap
    {
      gap := gap / 3;
      k := k - 1;
      GapGrows(k - 1);
      Pass(bufq, blk, gap);
    }
  }
}
