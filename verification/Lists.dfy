/** Small facts about finite sequences that several models need. */
module Lists {

  ghost predicate Distinct<T>(s: seq<T>) {
    forall i, j :: 0 <= i < j < |s| ==> s[i] != s[j]
  }

  /** `s` without its first occurrence of `x`; `s` itself when `x` does not occur. */
  function Remove<T(==)>(s: seq<T>, x: T): (r: seq<T>)
    ensures x !in s ==> r == s
    ensures forall y :: y in r ==> y in s
  {
    if s == [] then []
    else if s[0] == x then s[1..]
    else [s[0]] + Remove(s[1..], x)
  }

  /** `s` without the element at position `i`. */
  function DropAt<T>(s: seq<T>, i: nat): (r: seq<T>)
    requires i < |s|
    ensures |r| == |s| - 1
    ensures forall y :: y in r ==> y in s
  {
    s[..i] + s[i+1..]
  }

  lemma DropAtIs<T>(s: seq<T>, i: nat)
    requires i < |s|
    ensures forall k :: 0 <= k < |s| - 1 ==> DropAt(s, i)[k] == s[if k < i then k else k + 1]
  {
  }

  /** The first `i + 1` elements of a duplicate-free sequence are the first `i` and one more. */
  lemma NextTaken<T>(s: seq<T>, i: nat)
    requires i < |s| && Distinct(s)
    ensures s[i] !in s[..i] && forall x :: x in s[..i + 1] <==> x in s[..i] || x == s[i]
  {
    assert s[..i + 1] == s[..i] + [s[i]];
  }

  lemma {:induction false} RemoveAt<T>(s: seq<T>, x: T, k: nat)
    requires k < |s| && s[k] == x
    requires forall i :: 0 <= i < k ==> s[i] != x
    ensures Remove(s, x) == s[..k] + s[k+1..]
  {
    if k > 0 {
      RemoveAt(s[1..], x, k - 1);
      assert s[1..][..k-1] == s[1..k];
      assert s[1..][k-1+1..] == s[k+1..];
      assert s[..k] == [s[0]] + s[1..k];
    }
  }

  /** Removing an element keeps a duplicate-free sequence duplicate-free and takes out that element only. */
  lemma {:induction false} RemoveDistinct<T>(s: seq<T>, x: T)
    requires Distinct(s)
    ensures Distinct(Remove(s, x))
    ensures forall y :: y in Remove(s, x) <==> y in s && y != x
    ensures |Remove(s, x)| == |s| - (if x in s then 1 else 0)
  {
    if s != [] && s[0] != x {
      RemoveDistinct(s[1..], x);
      var r := Remove(s[1..], x);
      assert forall y :: y in s <==> y == s[0] || y in s[1..];
      assert forall y :: y in [s[0]] + r <==> y == s[0] || y in r;
      assert s[0] !in r;
    }
  }

  lemma DropAtDistinct<T>(s: seq<T>, i: nat)
    requires Distinct(s) && i < |s|
    ensures Distinct(DropAt(s, i))
    ensures forall y :: y in DropAt(s, i) <==> y in s && y != s[i]
  {
    assert s == s[..i] + [s[i]] + s[i+1..];
  }

  /** Appending a new element. */
  lemma AppendDistinct<T>(s: seq<T>, x: T)
    requires Distinct(s) && x !in s
    ensures Distinct(s + [x]) && Distinct([x] + s)
  {
  }

  /** The first `n` naturals. */
  function Upto(n: nat): (r: set<nat>)
    ensures forall i: nat :: i in r <==> i < n
    ensures |r| == n
  {
    if n == 0 then {} else Upto(n - 1) + {n - 1}
  }

  lemma {:induction false} DistinctSize<T>(s: seq<T>)
    requires Distinct(s)
    ensures |set x | x in s| == |s|
  {
    if s != [] {
      DistinctSize(s[1..]);
      assert (set x | x in s) == (set x | x in s[1..]) + {s[0]};
    }
  }

  lemma {:induction false} SubsetSize<T>(a: set<T>, b: set<T>)
    requires a <= b
    ensures |a| <= |b|
  {
    if x :| x in a {
      SubsetSize(a - {x}, b - {x});
    }
  }

  /** Pigeonhole: a duplicate-free sequence over the first `n` naturals has at most `n` elements. */
  lemma Pigeonhole(s: seq<nat>, n: nat)
    requires Distinct(s) && forall i :: 0 <= i < |s| ==> s[i] < n
    ensures |s| <= n
  {
    DistinctSize(s);
    SubsetSize((set x | x in s), Upto(n));
  }
}
