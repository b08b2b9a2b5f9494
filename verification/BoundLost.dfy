/** A call of alloc_block that leaves s_bsearch above a free block. */
module BoundLost {
  import opened Division
  import opened Bitmap
  import opened BlockAlloc
  import opened Allocator

  /** 128 blocks in one group: the first 33 and then every other one are in use, seven of them preallocated. */
  function Alternating(): (s: seq<bool>)
    ensures |s| == 128 && forall k :: 0 <= k < 128 ==> (s[k] <==> k < 33 || k % 2 == 0)
  {
    seq(128, k => k < 33 || k % 2 == 0)
  }

  function SevenHeld(): (o: seq<Owner>)
    ensures |o| == 128
    ensures forall k :: 0 <= k < 128 ==>
      o[k] == if 1 <= k <= 7 then Held(0, k - 1) else if Alternating()[k] then File else Free
  {
    seq(128, k requires 0 <= k < 128 => if 1 <= k <= 7 then Held(0, k - 1) else if Alternating()[k] then File else Free)
  }

  lemma {:induction false} EveryOther(s: seq<bool>, lo: nat, hi: nat)
    requires lo <= hi <= |s| && forall k :: lo <= k < hi ==> (s[k] <==> k % 2 == 0)
    ensures Clear(s, lo, hi) == hi / 2 - lo / 2
    decreases hi
  {
    if lo < hi { EveryOther(s, lo, hi - 1); }
  }

  lemma AlternatingCounts()
    ensures Clear(Alternating(), 0, 128) == 48
    ensures CountsOk(Alternating(), 128, [48], 48)
  {
    NoneClear(Alternating(), 0, 33);
    EveryOther(Alternating(), 33, 128);
    ClearSplit(Alternating(), 0, 33, 128);
    assert Times(0, 128) == 0 && Times(1, 128) == 128;
  }

  lemma SevenHeldOk(p: Prealloc)
    requires p == Prealloc(Places(1), 7, 0, true, 1, 0)
    ensures OwnersOk(Alternating(), SevenHeld(), 1, [p]) && PreOk(p)
  {
    var owner, inodes := SevenHeld(), [p];
    forall k: nat | k < 128 ensures OwnerOk(Alternating(), owner, 1, inodes, k) {
      if 1 <= k <= 7 { assert inodes[0].blocks[k - 1] == 1 + k; }
    }
    forall r: nat | r < 1 ensures HeldAgree(owner, 1, inodes, r) {
    }
  }

  lemma SevenHeldBits(mid: seq<bool>)
    requires mid == Without(Alternating(), SevenHeld(), 0)
    ensures !HasByte(mid, 0, 128) && !Full(mid, 32, 128)
  {
    forall k: nat ensures !FreeByte(mid, 0, 128, k) {
      if k % 8 == 0 && k + 8 < 128 {
        assert mid[k + 2] == (k + 2 > 7 || k + 2 == 0);
        assert mid[k + 4] == (k + 4 > 7);
        assert k == 0 ==> mid[0];
      }
    }
    assert !mid[33];
  }

  method HoldSeven() returns (fs: BlockAllocator)
    ensures fresh(fs) && fresh(fs.used) && fs.Valid() && fs.LowerBound() && fs.Remembered() && |fs.inodes| == 1
    ensures !fs.Scarce() && fs.Loses(fs.Home(0), 0)
  {
    var used := new bool[128](k => k < 33 || k % 2 == 0);
    assert used[..] == Alternating();
    var p := Prealloc(Places(1), 7, 0, true, 1, 0);
    AlternatingCounts();
    SevenHeldOk(p);
    SevenHeldBits(Without(Alternating(), SevenHeld(), 0));
    fs := new BlockAllocator(1, 128, 129, 0, true, used, [48], 48, 34, [p], SevenHeld());
    assert Times(0, 128) == 0;
    assert SevenHeld()[1] == Held(0, 0);
    assert HeldBelow(SevenHeld(), 0, 32);
  }

  /** 256 blocks in two groups: the first group is full, seven of its blocks are preallocated, and in the second
      every other block is in use. */
  function HalfFull(): (s: seq<bool>)
    ensures |s| == 256 && forall k :: 0 <= k < 256 ==> (s[k] <==> k < 128 || k % 2 == 0)
  {
    seq(256, k => k < 128 || k % 2 == 0)
  }

  function HeldFarther(): (o: seq<Owner>)
    ensures |o| == 256
    ensures forall k :: 0 <= k < 256 ==>
      o[k] == if 1 <= k <= 7 then Held(0, k - 1) else if HalfFull()[k] then File else Free
  {
    seq(256, k requires 0 <= k < 256 => if 1 <= k <= 7 then Held(0, k - 1) else if HalfFull()[k] then File else Free)
  }

  lemma HalfFullCounts(s: seq<bool>, per: nat)
    requires per == 128 && s == HalfFull()
    ensures Times(0, per) == 0 && Times(1, per) == 128 && Times(2, per) == 256
    ensures CountsOk(s, per, [0, 64], 64)
  {
    TimesIs(1, per);
    TimesIs(2, per);
    var end: nat := per + per;
    NoneClear(s, 0, per);
    EveryOther(s, per, end);
    ClearSplit(s, 0, per, end);
  }

  lemma HeldFartherOk(p: Prealloc)
    requires p == Prealloc(Places(1), 7, 0, true, 1, 0)
    ensures OwnersOk(HalfFull(), HeldFarther(), 1, [p]) && PreOk(p)
  {
    var owner, inodes := HeldFarther(), [p];
    forall k: nat | k < 256 ensures OwnerOk(HalfFull(), owner, 1, inodes, k) {
      if 1 <= k <= 7 { assert inodes[0].blocks[k - 1] == 1 + k; }
    }
    forall r: nat | r < 1 ensures HeldAgree(owner, 1, inodes, r) {
    }
  }

  lemma NoByteFarther(mid: seq<bool>)
    requires mid == Without(HalfFull(), HeldFarther(), 0)
    ensures !HasByte(mid, 128, 128)
  {
    forall k: nat ensures !FreeByte(mid, 128, 128, k) {
      if k % 8 == 0 && k + 8 < 128 { assert mid[128 + k]; }
    }
  }

  lemma FartherLoses(v: View, p: Prealloc)
    requires v == View(HalfFull(), HeldFarther(), [p], [0, 64], 128) && p == Prealloc(Places(1), 7, 0, true, 1, 0)
    ensures LosesFrom(v, 3, 0, 0) && FirstOpen(v.gdFree) == 1
  {
    assert Times(1, 128) == 128;
    NoByteFarther(Without(HalfFull(), HeldFarther(), 0));
    assert HeldFarther()[1] == Held(0, 0);
    assert HeldBelow(HeldFarther(), 0, 128);
    assert FirstOpen([0, 64]) == 1;
  }

  method HoldFarther(per: nat) returns (fs: BlockAllocator)
    requires per == 128
    ensures fresh(fs) && fresh(fs.used) && fs.Valid() && fs.LowerBound() && |fs.inodes| == 1
    ensures !fs.Scarce() && fs.Loses(fs.Home(0), 0)
    ensures fs.per > 0 && fs.first <= fs.bsearch && FirstOpen(fs.gdFree) > (fs.bsearch - fs.first) / fs.per
  {
    var used := new bool[256](k => k < 128 || k % 2 == 0);
    assert used[..] == HalfFull();
    var p := Prealloc(Places(1), 7, 0, true, 1, 0);
    ghost var v := View(HalfFull(), HeldFarther(), [p], [0, 64], per);
    FartherLoses(v, p);
    HalfFullCounts(used[..], per);
    HeldFartherOk(p);
    fs := new BlockAllocator(1, per, 257, 0, true, used, [0, 64], 64, 128, [p], HeldFarther());
    assert fs.Seeing() == v;
  }

  /** A call without a goal for an inode that has blocks preallocated can leave s_bsearch above a free block: in the
      group where the search begins, and in a later one. */
  method BoundIsLost(later: bool) returns (fs: BlockAllocator, b: nat)
    ensures fs.Valid() && !fs.LowerBound()
  {
    if later {
      fs := HoldFarther(128);
    } else {
      fs := HoldSeven();
    }
    b := fs.AllocBlock(0, 0);
  }
}
