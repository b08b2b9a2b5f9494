/** setbit, setbyte and unsetbit of the ext2 server, and how many bits of a bitmap are clear. */
module Bitmap {

  const CHUNK: nat := 32     // FS_BITCHUNK_BITS

  /** The number of clear bits from `lo` up to `hi`. */
  function Clear(s: seq<bool>, lo: nat, hi: nat): nat
    requires lo <= hi <= |s|
    decreases hi
  {
    if lo == hi then 0 else Clear(s, lo, hi - 1) + if s[hi - 1] then 0 else 1
  }

  lemma {:induction false} ClearSplit(s: seq<bool>, lo: nat, mid: nat, hi: nat)
    requires lo <= mid <= hi <= |s|
    ensures Clear(s, lo, hi) == Clear(s, lo, mid) + Clear(s, mid, hi)
    decreases hi
  {
    if mid < hi { ClearSplit(s, lo, mid, hi - 1); }
  }

  lemma {:induction false} ClearSame(s: seq<bool>, t: seq<bool>, lo: nat, hi: nat)
    requires lo <= hi <= |s| && |t| == |s| && forall k :: lo <= k < hi ==> t[k] == s[k]
    ensures Clear(t, lo, hi) == Clear(s, lo, hi)
    decreases hi
  {
    if lo < hi { ClearSame(s, t, lo, hi - 1); }
  }

  /** Setting a clear bit takes one from the count of every range that it is in. */
  lemma {:induction false} ClearSet(s: seq<bool>, k: nat, lo: nat, hi: nat)
    requires lo <= hi <= |s| && k < |s| && !s[k]
    ensures Clear(s[k := true], lo, hi) == Clear(s, lo, hi) - if lo <= k < hi then 1 else 0
    decreases hi
  {
    if lo < hi { ClearSet(s, k, lo, hi - 1); }
  }

  lemma {:induction false} NoneClear(s: seq<bool>, lo: nat, hi: nat)
    requires lo <= hi <= |s|
    ensures Clear(s, lo, hi) == 0 <==> forall k :: lo <= k < hi ==> s[k]
    ensures Clear(s, lo, hi) <= hi - lo
    decreases hi
  {
    if lo < hi { NoneClear(s, lo, hi - 1); }
  }

  /** All of the 32 or 8 bits from `k` on are `v`. */
  predicate Run(s: seq<bool>, k: nat, n: nat, v: bool)
    requires k + n <= |s|
  {
    forall i :: k <= i < k + n ==> s[i] == v
  }

  /** The byte that starts at bit `k` of the map is free and not the last one of the map. */
  predicate FreeByte(s: seq<bool>, base: nat, max: nat, k: nat)
    requires base + max <= |s|
  {
    k % 8 == 0 && k + 8 < max && Run(s, base + k, 8, false)
  }

  function SetRun(s: seq<bool>, k: nat, n: nat): (t: seq<bool>)
    ensures |t| == |s| && forall i :: 0 <= i < |s| ==> t[i] == (s[i] || k <= i < k + n)
  {
    seq(|s|, i requires 0 <= i < |s| => s[i] || k <= i < k + n)
  }

  lemma {:induction false} ClearSetRun(s: seq<bool>, k: nat, n: nat, lo: nat, hi: nat)
    requires lo <= hi <= |s| && k + n <= |s| && Run(s, k, n, false)
    requires (lo <= k && k + n <= hi) || k + n <= lo || hi <= k
    ensures Clear(SetRun(s, k, n), lo, hi) == Clear(s, lo, hi) - if lo <= k && k + n <= hi then n else 0
    decreases n
  {
    if n == 0 {
      assert SetRun(s, k, n) == s;
    } else {
      ClearSetRun(s, k, n - 1, lo, hi);
      var t := SetRun(s, k, n - 1);
      ClearSet(t, k + n - 1, lo, hi);
      assert SetRun(s, k, n) == t[k + n - 1 := true];
    }
  }

  /** No bit from `lo` up to `hi` is clear. */
  ghost predicate Full(s: seq<bool>, lo: nat, hi: nat) {
    forall k :: lo <= k < hi && k < |s| ==> s[k]
  }

  /** The bitmap of `max` bits that starts at `base`, searched from chunk `word` on. Only whole chunks count. */
  method SetBit(bits: array<bool>, base: nat, max: nat, word: nat) returns (bit: int)
    requires base + max <= bits.Length
    modifies bits
    ensures bit == -1 ==> bits[..] == old(bits[..]) && Full(bits[..], base + CHUNK * word, base + (max - max % CHUNK))
    ensures bit != -1 ==> CHUNK * word <= bit < max && !old(bits[base + bit])
    ensures bit != -1 ==> bits[..] == old(bits[..])[base + bit := true]
    ensures bit != -1 ==> Full(old(bits[..]), base + CHUNK * word, base + bit)
  {
    bit := -1;
    var w := word;
    while w < max / CHUNK
      invariant bit == -1 && word <= w && bits[..] == old(bits[..])
      invariant w == word || w <= max / CHUNK
      invariant Full(bits[..], base + CHUNK * word, base + CHUNK * w)
    {
      if Run(bits[..], base + CHUNK * w, CHUNK, true) {
        w := w + 1;
        continue;
      }
      var i := 0;
      while bits[base + CHUNK * w + i]
        invariant i < CHUNK && Full(bits[..], base + CHUNK * w, base + CHUNK * w + i)
        invariant bits[..] == old(bits[..])
        decreases CHUNK - i
      {
        i := i + 1;
      }
      bit := CHUNK * w + i;
      bits[base + bit] := true;
      break;
    }
  }

  method SetByte(bits: array<bool>, base: nat, max: nat) returns (bit: int)
    requires base + max <= bits.Length
    modifies bits
    ensures bit == -1 ==> bits[..] == old(bits[..]) && forall k: nat :: !FreeByte(bits[..], base, max, k)
    ensures bit != -1 ==> 0 <= bit && bit + 8 < max && FreeByte(old(bits[..]), base, max, bit)
    ensures bit != -1 ==> bits[..] == SetRun(old(bits[..]), base + bit, 8)
    ensures bit != -1 ==> forall k: nat :: k < bit ==> !FreeByte(old(bits[..]), base, max, k)
  {
    bit := -1;
    var w := 0;
    while w < max / 8
      invariant bit == -1 && bits[..] == old(bits[..])
      invariant forall k: nat :: k < 8 * w ==> !FreeByte(bits[..], base, max, k)
    {
      if !Run(bits[..], base + 8 * w, 8, false) || 8 * w + 8 >= max {
        w := w + 1;
        continue;
      }
      bit := 8 * w;
      forall i | base + bit <= i < base + bit + 8 {
        bits[i] := true;
      }
      break;
    }
  }

  method UnsetBit(bits: array<bool>, base: nat, bit: nat) returns (r: int)
    requires base + bit < bits.Length
    modifies bits
    ensures r == (if old(bits[base + bit]) then 0 else -1)
    ensures bits[..] == old(bits[..])[base + bit := false]
  {
    if !bits[base + bit] {
      return -1;
    }
    bits[base + bit] := false;
    r := 0;
  }
}
