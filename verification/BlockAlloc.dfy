/**
 The block allocator of the ext2 server: block bitmaps, the free counts of groups and superblock, the blocks that
 open inodes hold preallocated, and the block s_bsearch below which none is thought free.
 */
module BlockAlloc {
  import opened Division
  import opened Bitmap

  const PREALLOC: nat := 8   // EXT2_PREALLOC_BLOCKS

  /** What an inode in the in-core table keeps for allocation. */
  datatype Prealloc = Prealloc(
    blocks: seq<nat>,        // i_prealloc_blocks
    count: nat,              // i_prealloc_count
    index: nat,              // i_prealloc_index
    on: bool,                // i_preallocation
    last: nat,               // i_bsearch
    home: nat)               // the group where the inode lives

  /** To whom a block belongs: to nobody, to the file system itself (its control blocks and what lies past its end),
      to a client that has been given it, or to inode `r`, preallocated in place `i`. */
  datatype Owner = Free | System | File | Held(r: nat, i: nat)

  /** While blocks are preallocated they are in places index..6, with index + count == 7. */
  predicate PreOk(p: Prealloc) {
    && |p.blocks| == PREALLOC
    && (p.count > 0 ==> p.index + p.count == PREALLOC - 1)
    && forall i :: 0 <= i < PREALLOC ==> (p.blocks[i] != 0 <==> p.count > 0 && p.index <= i < PREALLOC - 1)
  }

  /** The preallocation list and the owners agree. */
  ghost predicate HeldAgree(owner: seq<Owner>, first: nat, inodes: seq<Prealloc>, r: nat)
    requires r < |inodes|
  {
    && |inodes[r].blocks| == PREALLOC
    && forall i :: 0 <= i < PREALLOC && inodes[r].blocks[i] != 0 ==>
      && first <= inodes[r].blocks[i] < first + |owner|
      && owner[inodes[r].blocks[i] - first] == Held(r, i)
  }

  ghost predicate OwnerOk(used: seq<bool>, owner: seq<Owner>, first: nat, inodes: seq<Prealloc>, k: nat)
    requires |owner| == |used| && k < |owner|
  {
    && (used[k] <==> owner[k] != Free)
    && (first + k == 0 ==> owner[k] == System)
    && (owner[k].Held? ==>
      && owner[k].r < |inodes| && owner[k].i < |inodes[owner[k].r].blocks|
      && inodes[owner[k].r].blocks[owner[k].i] == first + k)
  }

  ghost predicate OwnersOk(used: seq<bool>, owner: seq<Owner>, first: nat, inodes: seq<Prealloc>) {
    && |owner| == |used|
    && (forall k: nat :: k < |owner| ==> OwnerOk(used, owner, first, inodes, k))
    && forall r: nat :: r < |inodes| ==> HeldAgree(owner, first, inodes, r)
  }

  /** The count of free blocks of group `g` is that of the clear bits in its bitmap. */
  ghost predicate CountOk(used: seq<bool>, per: nat, gdFree: seq<nat>, g: nat)
    requires g < |gdFree|
  {
    && Times(g, per) + per <= |used|
    && gdFree[g] == Clear(used, Times(g, per), Times(g, per) + per)
  }

  ghost predicate CountsOk(used: seq<bool>, per: nat, gdFree: seq<nat>, free: nat) {
    && |used| == Times(|gdFree|, per)
    && (forall g: nat :: g < |gdFree| ==> CountOk(used, per, gdFree, g))
    && free == Clear(used, 0, |used|)
  }

  function Sum(s: seq<nat>): nat {
    if s == [] then 0 else Sum(s[..|s| - 1]) + s[|s| - 1]
  }

  /** The superblock's count is the sum of the counts of the groups. */
  lemma {:induction false} CountsAdd(used: seq<bool>, per: nat, gdFree: seq<nat>, n: nat)
    requires |used| == Times(|gdFree|, per) && n <= |gdFree|
    requires forall g: nat :: g < |gdFree| ==> CountOk(used, per, gdFree, g)
    ensures Times(n, per) <= |used| && Sum(gdFree[..n]) == Clear(used, 0, Times(n, per))
  {
    TimesUp(n, |gdFree|, per);
    if n > 0 {
      CountsAdd(used, per, gdFree, n - 1);
      TimesUp(n - 1, n, per);
      assert CountOk(used, per, gdFree, n - 1);
      ClearSplit(used, 0, Times(n - 1, per), Times(n, per));
      assert gdFree[..n][..n - 1] == gdFree[..n - 1];
    }
  }

  lemma SuperblockIsSum(used: seq<bool>, per: nat, gdFree: seq<nat>, free: nat)
    requires CountsOk(used, per, gdFree, free)
    ensures free == Sum(gdFree)
  {
    CountsAdd(used, per, gdFree, |gdFree|);
    assert gdFree[..|gdFree|] == gdFree;
  }

  /** The group a bit is in, and the groups it is not in. */
  lemma GroupOf(k: nat, per: nat, groups: nat, g: nat)
    requires per > 0 && k < Times(groups, per) && g < groups
    ensures k / per < groups && Times(k / per, per) <= k < Times(k / per, per) + per
    ensures g != k / per ==> k < Times(g, per) || Times(g, per) + per <= k
    ensures Times(g, per) + per <= Times(groups, per)
  {
    InBlock(k, g, per);
    InBlock(k, g + 1, per);
    InBlock(k, groups, per);
    DivMod(k, per);
    TimesUp(g, groups, per);
    TimesUp(g + 1, groups, per);
  }

  /** Setting a clear bit lowers the number of clear bits in its own group only. */
  lemma GroupClearSet(s: seq<bool>, per: nat, groups: nat, k: nat, h: nat)
    requires per > 0 && |s| == Times(groups, per) && k < |s| && !s[k] && h < groups
    ensures Times(h, per) + per <= |s|
    ensures Clear(s[k := true], Times(h, per), Times(h, per) + per) ==
      Clear(s, Times(h, per), Times(h, per) + per) - if h == k / per then 1 else 0
  {
    GroupOf(k, per, groups, h);
    ClearSet(s, k, Times(h, per), Times(h, per) + per);
  }

  /** A block is taken: its bit is set, both counts go down. */
  lemma CountTaken(used: seq<bool>, per: nat, gdFree: seq<nat>, free: nat, k: nat)
    requires per > 0 && CountsOk(used, per, gdFree, free) && k < |used| && !used[k]
    ensures k / per < |gdFree| && gdFree[k / per] > 0 && free > 0
    ensures var gdFree': seq<nat> := gdFree[k / per := gdFree[k / per] - 1];
      CountsOk(used[k := true], per, gdFree', free - 1)
  {
    var g, used' := k / per, used[k := true];
    ClearSet(used, k, 0, |used|);
    InBlock(k, |gdFree|, per);
    assert CountOk(used, per, gdFree, g);
    GroupClearSet(used, per, |gdFree|, k, g);
    var gdFree': seq<nat> := gdFree[g := gdFree[g] - 1];
    forall h: nat | h < |gdFree| ensures CountOk(used', per, gdFree', h) {
      assert CountOk(used, per, gdFree, h);
      GroupClearSet(used, per, |gdFree|, k, h);
    }
  }

  /** A block is returned. */
  lemma CountFreed(used: seq<bool>, per: nat, gdFree: seq<nat>, free: nat, k: nat)
    requires per > 0 && CountsOk(used, per, gdFree, free) && k < |used| && used[k]
    ensures k / per < |gdFree|
    ensures CountsOk(used[k := false], per, gdFree[k / per := gdFree[k / per] + 1], free + 1)
  {
    var g, used' := k / per, used[k := false];
    assert used'[k := true] == used;
    ClearSet(used', k, 0, |used|);
    InBlock(k, |gdFree|, per);
    var gdFree': seq<nat> := gdFree[g := gdFree[g] + 1];
    forall h: nat | h < |gdFree| ensures CountOk(used', per, gdFree', h) {
      assert CountOk(used, per, gdFree, h);
      GroupClearSet(used', per, |gdFree|, k, h);
    }
  }

  /** Setting the byte at bit `bit` of the bitmap at `x` does nothing to the other bitmaps. */
  lemma ClearByte(s: seq<bool>, per: nat, x: nat, bit: nat, y: nat)
    requires bit + 8 < per && x + per <= |s| && y + per <= |s| && Run(s, x + bit, 8, false)
    requires x == y || x + per <= y || y + per <= x
    ensures Clear(SetRun(s, x + bit, 8), y, y + per) == Clear(s, y, y + per) - if x == y then 8 else 0
  {
    ClearSetRun(s, x + bit, 8, y, y + per);
  }

  /** A free byte of group `g` is taken. */
  lemma CountByteTaken(used: seq<bool>, per: nat, gdFree: seq<nat>, free: nat, g: nat, bit: nat)
    requires per > 0 && CountsOk(used, per, gdFree, free) && g < |gdFree| && bit + 8 < per
    requires Times(g, per) + per <= |used| && Run(used, Times(g, per) + bit, 8, false)
    ensures gdFree[g] >= 8 && free >= 8
    ensures var gdFree': seq<nat> := gdFree[g := gdFree[g] - 8];
      CountsOk(SetRun(used, Times(g, per) + bit, 8), per, gdFree', free - 8)
  {
    var x := Times(g, per);
    var used' := SetRun(used, x + bit, 8);
    ClearSetRun(used, x + bit, 8, 0, |used|);
    assert CountOk(used, per, gdFree, g);
    ClearByte(used, per, x, bit, x);
    var gdFree': seq<nat> := gdFree[g := gdFree[g] - 8];
    forall h: nat | h < |gdFree| ensures CountOk(used', per, gdFree', h) {
      assert CountOk(used, per, gdFree, h);
      if h != g {
        ByteElsewhere(used, per, gdFree, gdFree', g, bit, h);
      }
    }
  }

  lemma ByteElsewhere(used: seq<bool>, per: nat, gdFree: seq<nat>, gdFree': seq<nat>, g: nat, bit: nat, h: nat)
    requires h < |gdFree| == |gdFree'| && gdFree'[h] == gdFree[h] && CountOk(used, per, gdFree, h) && h != g
    requires bit + 8 < per && Times(g, per) + per <= |used| && Run(used, Times(g, per) + bit, 8, false)
    ensures CountOk(SetRun(used, Times(g, per) + bit, 8), per, gdFree', h)
  {
    GroupsApart(g, h, per);
    ClearByte(used, per, Times(g, per), bit, Times(h, per));
  }

  lemma GroupsApart(g: nat, h: nat, per: nat)
    requires g != h
    ensures Times(g, per) + per <= Times(h, per) || Times(h, per) + per <= Times(g, per)
  {
    if g < h {
      TimesUp(g + 1, h, per);
      TimesUp(g, h, per);
    } else {
      TimesUp(h + 1, g, per);
      TimesUp(h, g, per);
    }
  }

  // ---------------------------------------------------------------- who owns the blocks

  /** A free block is given to a client. */
  lemma OwnersGiven(used: seq<bool>, owner: seq<Owner>, first: nat, inodes: seq<Prealloc>, k: nat)
    requires OwnersOk(used, owner, first, inodes) && k < |used| && !used[k]
    ensures OwnersOk(used[k := true], owner[k := File], first, inodes) && first + k != 0
  {
    assert OwnerOk(used, owner, first, inodes, k);
    var used', owner' := used[k := true], owner[k := File];
    forall j: nat | j < |owner| ensures OwnerOk(used', owner', first, inodes, j) {
      assert OwnerOk(used, owner, first, inodes, j);
    }
    forall r: nat | r < |inodes| ensures HeldAgree(owner', first, inodes, r) {
      assert HeldAgree(owner, first, inodes, r);
    }
  }

  /** A client returns a block. */
  lemma OwnersReturned(used: seq<bool>, owner: seq<Owner>, first: nat, inodes: seq<Prealloc>, k: nat)
    requires OwnersOk(used, owner, first, inodes) && k < |used| && owner[k] == File
    ensures OwnersOk(used[k := false], owner[k := Free], first, inodes)
  {
    var used', owner' := used[k := false], owner[k := Free];
    forall j: nat | j < |owner| ensures OwnerOk(used', owner', first, inodes, j) {
      assert OwnerOk(used, owner, first, inodes, j);
    }
    forall r: nat | r < |inodes| ensures HeldAgree(owner', first, inodes, r) {
      assert HeldAgree(owner, first, inodes, r);
    }
  }

  function SetPlace(inodes: seq<Prealloc>, r: nat, i: nat, b: nat): (s: seq<Prealloc>)
    requires r < |inodes| && i < |inodes[r].blocks|
    ensures |s| == |inodes|
  {
    var blocks: seq<nat> := inodes[r].blocks[i := b];
    inodes[r := inodes[r].(blocks := blocks)]
  }

  /** The block in place `i` of inode `r` leaves that place, to be free or to be given to a client. */
  lemma OwnersLeave(used: seq<bool>, owner: seq<Owner>, first: nat, inodes: seq<Prealloc>, r: nat, i: nat, to_: Owner)
    requires OwnersOk(used, owner, first, inodes) && r < |inodes| && i < PREALLOC && (to_ == Free || to_ == File)
    requires |inodes[r].blocks| == PREALLOC && inodes[r].blocks[i] != 0
    ensures var b := inodes[r].blocks[i];
      && first <= b < first + |used| && used[b - first] && owner[b - first] == Held(r, i)
      && OwnersOk(used[b - first := to_ == File], owner[b - first := to_], first, SetPlace(inodes, r, i, 0))
  {
    assert HeldAgree(owner, first, inodes, r);
    var k := inodes[r].blocks[i] - first;
    assert OwnerOk(used, owner, first, inodes, k);
    var used', owner', inodes' := used[k := to_ == File], owner[k := to_], SetPlace(inodes, r, i, 0);
    forall j: nat | j < |owner| ensures OwnerOk(used', owner', first, inodes', j) {
      assert OwnerOk(used, owner, first, inodes, j);
    }
    forall q: nat | q < |inodes| ensures HeldAgree(owner', first, inodes', q) {
      assert HeldAgree(owner, first, inodes, q);
    }
  }

  /** What is in the places of an inode that has just preallocated the byte at `b`. */
  function Places(b: nat): (s: seq<nat>)
    ensures |s| == PREALLOC && forall i :: 0 <= i < PREALLOC - 1 ==> s[i] == b + 1 + i
    ensures s[PREALLOC - 1] == 0
  {
    [b + 1, b + 2, b + 3, b + 4, b + 5, b + 6, b + 7, 0]
  }

  function ByteOwner(owner: seq<Owner>, r: nat, k: nat, j: nat): Owner
    requires j < |owner|
  {
    if j == k then File else if k < j < k + PREALLOC then Held(r, j - k - 1) else owner[j]
  }

  /** The byte at `k` is preallocated for inode `r`, which holds nothing, and its first block is given away. */
  function ByteOwners(owner: seq<Owner>, r: nat, k: nat): (o: seq<Owner>)
    ensures |o| == |owner| && forall j :: 0 <= j < |o| ==> o[j] == ByteOwner(owner, r, k, j)
  {
    seq(|owner|, j requires 0 <= j < |owner| => ByteOwner(owner, r, k, j))
  }

  lemma OwnersByte(used: seq<bool>, owner: seq<Owner>, first: nat, inodes: seq<Prealloc>, r: nat, k: nat, p: Prealloc)
    requires OwnersOk(used, owner, first, inodes) && r < |inodes| && k + 8 <= |used| && Run(used, k, 8, false)
    requires forall i :: 0 <= i < |inodes[r].blocks| ==> inodes[r].blocks[i] == 0
    requires p.blocks == Places(first + k)
    ensures OwnersOk(SetRun(used, k, 8), ByteOwners(owner, r, k), first, inodes[r := p]) && first + k != 0
  {
    var used', owner', inodes' := SetRun(used, k, 8), ByteOwners(owner, r, k), inodes[r := p];
    assert !used[k] && OwnerOk(used, owner, first, inodes, k);
    forall j: nat | j < |owner| ensures OwnerOk(used', owner', first, inodes', j) {
      assert OwnerOk(used, owner, first, inodes, j);
    }
    forall q: nat | q < |inodes| ensures HeldAgree(owner', first, inodes', q) {
      assert HeldAgree(owner, first, inodes, q);
      if q != r {
        forall i | 0 <= i < PREALLOC && inodes[q].blocks[i] != 0
          ensures first <= inodes[q].blocks[i] < first + |owner|
          ensures owner'[inodes[q].blocks[i] - first] == Held(q, i)
        {
          assert OwnerOk(used, owner, first, inodes, inodes[q].blocks[i] - first);
        }
      }
    }
  }

  /** The blocks that inode `r` holds in places below `n` have become free. */
  ghost predicate Dropped(owner0: seq<Owner>, owner: seq<Owner>, r: nat, n: nat) {
    && |owner| == |owner0|
    && forall k :: 0 <= k < |owner| ==>
      owner[k] == if owner0[k].Held? && owner0[k].r == r && owner0[k].i < n then Free else owner0[k]
  }

  /** The blocks that the inodes below `n` hold have become free. */
  ghost predicate AllDropped(owner0: seq<Owner>, owner: seq<Owner>, n: nat) {
    && |owner| == |owner0|
    && forall k :: 0 <= k < |owner| ==> owner[k] == if owner0[k].Held? && owner0[k].r < n then Free else owner0[k]
  }

  /** Block `k` was free or held and belongs to a client now; clients and the system have lost nothing. */
  ghost predicate Granted(owner0: seq<Owner>, owner: seq<Owner>, k: nat) {
    && |owner| == |owner0| && k < |owner|
    && owner[k] == File && (owner0[k] == Free || owner0[k].Held?)
    && forall j :: 0 <= j < |owner| && j != k ==>
      (owner[j] == File <==> owner0[j] == File) && (owner[j] == System <==> owner0[j] == System)
  }

  /** No client and no block of the system is concerned. */
  ghost predicate OnlyHeld(owner0: seq<Owner>, owner: seq<Owner>) {
    && |owner| == |owner0|
    && forall j :: 0 <= j < |owner| ==>
      (owner[j] == File <==> owner0[j] == File) && (owner[j] == System <==> owner0[j] == System)
  }
}
