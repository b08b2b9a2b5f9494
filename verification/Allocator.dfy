/** alloc_block, alloc_block_bit, free_block and discard_preallocated_blocks of the ext2 server, in place. */
module Allocator {
  import opened Division
  import opened Bitmap
  import opened BlockAlloc

  class BlockAllocator {
    const first: nat             // s_first_data_block
    const per: nat               // s_blocks_per_group
    const blocksCount: nat       // s_blocks_count
    const reserved: nat          // s_r_blocks_count
    const useReserved: bool      // opt.use_reserved_blocks
    const used: array<bool>      // the block bitmaps of all groups, one after the other
    var gdFree: seq<nat>         // free_blocks_count of the group descriptors
    var free: nat                // s_free_blocks_count
    var bsearch: nat             // s_bsearch
    var inodes: seq<Prealloc>    // the in-core inode table
    ghost var owner: seq<Owner>

    constructor (first: nat, per: nat, blocksCount: nat, reserved: nat, useReserved: bool, used: array<bool>,
                 gdFree: seq<nat>, free: nat, bsearch: nat, inodes: seq<Prealloc>, ghost owner: seq<Owner>)
      ensures this.first == first && this.per == per && this.blocksCount == blocksCount && this.reserved == reserved
      ensures this.useReserved == useReserved && this.used == used && this.gdFree == gdFree && this.free == free
      ensures this.bsearch == bsearch && this.inodes == inodes && this.owner == owner
    {
      this.first, this.per, this.blocksCount, this.reserved := first, per, blocksCount, reserved;
      this.useReserved, this.used, this.gdFree, this.free := useReserved, used, gdFree, free;
      this.bsearch, this.inodes, this.owner := bsearch, inodes, owner;
    }

    ghost predicate Counted()
      reads this, used
    {
      && per > 0 && per % CHUNK == 0 && |gdFree| > 0 && |owner| == used.Length
      && first <= bsearch <= first + used.Length
      && CountsOk(used[..], per, gdFree, free)
    }

    /** Counts, bitmaps and owners agree. */
    ghost predicate Valid()
      reads this, used
    {
      && Counted() && OwnersOk(used[..], owner, first, inodes)
      && AllPreOk(inodes) && EndIsSystem(owner, first, blocksCount)
    }

    /** What s_bsearch is for: every block below it is in use. */
    ghost predicate LowerBound()
      reads this, used
    {
      BelowInUse(used[..], first, bsearch)
    }

    /** free_block. Control blocks and blocks that are free are a panic. */
    method FreeBlock(b: nat)
      requires Counted() && first <= b < first + used.Length && used[b - first]
      modifies used, `gdFree, `free, `bsearch, `owner
      ensures Counted() && used[..] == old(used[..])[b - first := false] && owner == old(owner)[b - first := Free]
      ensures free == old(free) + 1 && bsearch == (if b < old(bsearch) then b else old(bsearch))
      ensures AtLeast(old(gdFree), gdFree)
      ensures old(LowerBound()) ==> LowerBound()
      ensures old(Valid()) && old(owner[b - first]) == File ==> Valid()
    {
      var group, bit := (b - first) / per, (b - first) % per;
      ghost var k, s := b - first, used[..];
      ghost var t := s[k := false];
      DivMod(b - first, per);
      BlockFreed(s, t, owner, first, inodes, per, gdFree, free, k);
      var r := UnsetBit(used, Times(group, per), bit);
      assert used[..] == t;
      gdFree := gdFree[group := gdFree[group] + 1];
      free := free + 1;
      owner := owner[b - first := Free];
      if b < bsearch {
        bsearch := b;
      }
    }

    /** The loop that both forms of discard_preallocated_blocks run over the places of an inode. */
    method DropPlaces(r: nat)
      requires Valid() && r < |inodes|
      modifies used, `gdFree, `free, `bsearch, `owner, `inodes
      ensures Valid() && Dropped(old(owner), owner, r, PREALLOC) && free >= old(free) && bsearch <= old(bsearch)
      ensures inodes == old(inodes)[r := Emptied(old(inodes[r]))]
      ensures bsearch == Lowered(old(bsearch), old(inodes[r].blocks), PREALLOC)
      ensures old(LowerBound()) ==> LowerBound()
      ensures AtLeast(old(gdFree), gdFree)
    {
      ghost var p, inodes0 := inodes[r], inodes;
      inodes := inodes[r := inodes[r].(count := 0, index := 0)];
      NewFields(used[..], owner, first, inodes0, inodes);
      var i := 0;
      while i < PREALLOC
        invariant i <= PREALLOC && Counted() && OwnersOk(used[..], owner, first, inodes)
        invariant |inodes| == |inodes0| && |inodes[r].blocks| == PREALLOC
        invariant forall j :: 0 <= j < PREALLOC ==> inodes[r].blocks[j] == if j < i then 0 else p.blocks[j]
        invariant inodes == inodes0[r := p.(blocks := inodes[r].blocks, count := 0, index := 0)]
        invariant Dropped(old(owner), owner, r, i) && free >= old(free) && bsearch == Lowered(old(bsearch), p.blocks, i)
        invariant old(LowerBound()) ==> LowerBound()
        invariant AtLeast(old(gdFree), gdFree)
      {
        if inodes[r].blocks[i] != 0 {
          OwnersLeave(used[..], owner, first, inodes, r, i, Free);
          ghost var k, owner1 := inodes[r].blocks[i] - first, owner;
          DroppedOne(old(owner), owner, first, inodes, used[..], r, i, k);
          FreeBlock(inodes[r].blocks[i]);
          inodes := SetPlace(inodes, r, i, 0);
        } else {
          DroppedNone(old(owner), owner, first, inodes, used[..], r, i);
        }
        i := i + 1;
      }
      assert inodes[r].blocks == seq(PREALLOC, _ => 0);
      ValidAfterDrop(old(owner), owner, first, blocksCount, r);
    }

    /** discard_preallocated_blocks for all inodes. */
    method DiscardAll()
      requires Valid()
      modifies used, `gdFree, `free, `bsearch, `owner, `inodes
      ensures Valid() && AllDropped(old(owner), owner, |old(inodes)|) && free >= old(free) && bsearch <= old(bsearch)
      ensures |inodes| == |old(inodes)| && |gdFree| == old(|gdFree|)
      ensures forall r :: 0 <= r < |inodes| ==> inodes[r] == Off(old(inodes)[r])
      ensures bsearch == LoweredAll(old(bsearch), old(inodes), |old(inodes)|)
      ensures old(LowerBound()) ==> LowerBound()
    {
      var r := 0;
      while r < |inodes|
        invariant r <= |inodes| == |old(inodes)| && Valid() && |gdFree| == old(|gdFree|)
        invariant AllDropped(old(owner), owner, r) && free >= old(free)
        invariant bsearch == LoweredAll(old(bsearch), old(inodes), r)
        invariant forall q :: 0 <= q < |inodes| ==> inodes[q] == if q < r then Off(old(inodes)[q]) else old(inodes)[q]
        invariant old(LowerBound()) ==> LowerBound()
      {
        ghost var owner1, inodes1 := owner, inodes;
        PlacesBound(used[..], owner, first, inodes);
        DropPlaces(r);
        ghost var inodes2 := inodes;
        inodes := inodes[r := inodes[r].(on := false)];
        NewFields(used[..], owner, first, inodes2, inodes);
        r := r + 1;
      }
    }

    /** setbyte and what follows it: the first block of a free byte is the result, the others are preallocated. */
    method TakeByte(group: nat, r: nat) returns (b: nat)
      requires Valid() && group < |gdFree| && r < |inodes| && inodes[r].count == 0
      modifies used, `gdFree, `free, `owner, `inodes
      ensures Valid() && (b != 0 <==> old(HasByte(used[..], Times(group, per), per))) && |gdFree| == old(|gdFree|)
      ensures b == 0 ==> used[..] == old(used[..]) && owner == old(owner) && inodes == old(inodes)
      ensures b == 0 ==> gdFree == old(gdFree) && free == old(free)
      ensures b != 0 ==> InGroup(b, group) && !old(used[..])[b - first] && used[..] == SetRun(old(used[..]), b - first, PREALLOC)
      ensures b != 0 ==> owner == ByteOwners(old(owner), r, b - first) && Granted(old(owner), owner, b - first)
      ensures b != 0 ==> FirstByte(old(used[..]), Times(group, per), per, b - first)
      ensures b != 0 ==> inodes == old(inodes)[r := WithByte(old(inodes)[r], b)]
    {
      ghost var s := used[..];
      assert CountOk(s, per, gdFree, group);
      var bit := SetByte(used, Times(group, per), per);
      if bit == -1 {
        return 0;
      }
      assert FreeByte(s, Times(group, per), per, bit);
      b := KeepByte(group, r, bit, s);
    }

    /** The bits of the byte have been set in bitmap `s`: the inode gets its blocks, and the counts follow. */
    method KeepByte(group: nat, r: nat, bit: nat, ghost s: seq<bool>) returns (b: nat)
      requires per > 0 && per % CHUNK == 0 && |s| == used.Length == |owner| && first <= bsearch <= first + |s|
      requires CountsOk(s, per, gdFree, free) && OwnersOk(s, owner, first, inodes)
      requires AllPreOk(inodes) && EndIsSystem(owner, first, blocksCount)
      requires group < |gdFree| && r < |inodes| && inodes[r].count == 0 && Times(group, per) + per <= |s|
      requires FreeByte(s, Times(group, per), per, bit) && used[..] == SetRun(s, Times(group, per) + bit, PREALLOC)
      modifies `gdFree, `free, `owner, `inodes
      ensures Valid() && |gdFree| == old(|gdFree|) && b == first + Times(group, per) + bit && b != 0 && !s[b - first]
      ensures InGroup(b, group) && owner == ByteOwners(old(owner), r, b - first) && Granted(old(owner), owner, b - first)
      ensures inodes == old(inodes)[r := WithByte(old(inodes)[r], b)]
    {
      b := first + Times(group, per) + bit;
      ghost var k, t := b - first, used[..];
      var p := WithByte(inodes[r], b);
      ByteTaken(s, owner, first, inodes, r, k, p, blocksCount);
      ByteCounted(s, t, per, gdFree, free, group, bit);
      ghost var owner1 := ByteOwners(owner, r, k);
      assert |owner1| == used.Length && Granted(owner, owner1, k);
      inodes, gdFree, free := inodes[r := p], gdFree[group := gdFree[group] - PREALLOC], free - PREALLOC;
      owner := owner1;
      assert used[..] == t;
    }

    ghost predicate InGroup(b: nat, group: nat)
    {
      first + Times(group, per) <= b < first + Times(group, per) + per && b < first + used.Length
    }

    /** setbit and what follows it. The panic for a group without a free bit would need b == 0 with word == 0. */
    method TakeBit(group: nat, word: nat, update: bool) returns (b: nat)
      requires Valid() && group < |gdFree| && gdFree[group] > 0 && CHUNK * word <= per
      modifies used, `gdFree, `free, `bsearch, `owner
      ensures Valid() && |gdFree| == old(|gdFree|)
      ensures b == 0 ==> word > 0 && Full(used[..], Times(group, per) + CHUNK * word, Times(group, per) + per)
      ensures b == 0 ==> used[..] == old(used[..]) && owner == old(owner) && bsearch == old(bsearch)
      ensures b == 0 ==> gdFree == old(gdFree) && free == old(free)
      ensures b != 0 ==> InGroup(b, group) && !old(used[..])[b - first] && used[..] == old(used[..])[b - first := true]
      ensures b != 0 ==> Full(old(used[..]), Times(group, per) + CHUNK * word, b - first)
      ensures b != 0 ==> Times(group, per) + CHUNK * word <= b - first
      ensures b != 0 ==> owner == old(owner)[b - first := File] && Granted(old(owner), owner, b - first)
      ensures b != 0 ==> bsearch == if update then b else old(bsearch)
      ensures old(LowerBound()) && (b == 0 || !update) ==> LowerBound()
    {
      ghost var s := used[..];
      assert CountOk(s, per, gdFree, group);
      var bit := SetBit(used, Times(group, per), per, word);
      if bit == -1 {
        NoneClear(s, Times(group, per), Times(group, per) + per);
        return 0;
      }
      b := first + Times(group, per) + bit;
      ghost var k := b - first;
      OwnersGiven(s, owner, first, inodes, k);
      CountTaken(s, per, gdFree, free, k);
      InThatGroup(k, group, per);
      BitGranted(s, owner, first, inodes, k);
      gdFree := gdFree[group := gdFree[group] - 1];
      free := free - 1;
      owner := owner[k := File];
      if update {
        bsearch := b;
      }
    }

    ghost function Seeing(): View
      reads this, used
    {
      View(used[..], owner, inodes, gdFree, per)
    }

    ghost function Leaving(r: nat): After
      reads this, used
      requires r < |inodes|
    {
      After(used[..], inodes[r], bsearch)
    }

    /** An inode that is about to preallocate a byte must not hold anything. */
    method DropOld(r: nat)
      requires Valid() && r < |inodes|
      modifies used, `gdFree, `free, `bsearch, `owner, `inodes
      ensures Valid() && OnlyInode(old(inodes), inodes, r) && inodes[r].count == 0 && OnlyHeld(old(owner), owner)
      ensures AtLeast(old(gdFree), gdFree) && free >= old(free) && bsearch <= old(bsearch)
      ensures used[..] == if old(inodes[r].count) != 0 then Without(old(used[..]), old(owner), r) else old(used[..])
      ensures old(inodes[r].count) == 0 ==> Unchanged(old(Seeing()), old(bsearch))
      ensures old(inodes[r].count) != 0 ==> inodes[r] == Emptied(old(inodes[r]))
      ensures old(LowerBound()) ==> LowerBound()
    {
      ghost var used0, owner0, inodes0 := used[..], owner, inodes;
      if inodes[r].count != 0 {
        PlacesBound(used[..], owner, first, inodes);
        DropPlaces(r);
        DropUnheld(used0, owner0, inodes0, used[..], owner, inodes, first, r);
      }
    }

    /** A round for an inode that preallocates: what it holds is discarded, and a free byte is taken if there is one. */
    method TryByte(group: nat, r: nat) returns (b: nat)
      requires Valid() && group < |gdFree| && r < |inodes| && ByteWanted(Seeing(), group, r)
      modifies used, `gdFree, `free, `bsearch, `owner, `inodes
      ensures Valid() && AtLeastWhen(b == 0, old(gdFree), gdFree) && OnlyInode(old(inodes), inodes, r)
      ensures b != 0 <==> TakesByteAt(old(Seeing()), group, r)
      ensures b == 0 ==> used[..] == Searched(old(Seeing()), group, r) && OnlyHeld(old(owner), owner) && free >= old(free)
      ensures b == 0 && !Odd(old(Seeing()), group, r) ==> Unchanged(old(Seeing()), old(bsearch))
      ensures b == 0 && Odd(old(Seeing()), group, r) ==> inodes[r] == Emptied(old(inodes[r]))
      ensures b != 0 ==> InGroup(b, group) && Granted(old(owner), owner, b - first)
      ensures b != 0 ==> Took(old(Seeing()), group, 0, r, b - first, first, Leaving(r))
      ensures old(LowerBound()) ==> LowerBound()
    {
      ghost var v, mid, owner0 := Seeing(), Searched(Seeing(), group, r), owner;
      DropOld(r);
      ghost var owner1, p := owner, inodes[r];
      assert used[..] == mid && OnlyHeld(owner0, owner1);
      assert p == if Odd(v, group, r) then Emptied(v.inodes[r]) else v.inodes[r];
      b := TakeByte(group, r);
      if b != 0 {
        GrantedOn(owner0, owner1, owner, b - first);
        assert WithByte(p, b) == WithByte(v.inodes[r], b);
      }
    }

    /** One round of the loop of alloc_block_bit, in a group whose count says that it has a free block: a byte if
        the inode preallocates and there is one, else a bit from chunk `word` on. */
    method TryGroup(group: nat, word: nat, update: bool, r: nat) returns (b: nat)
      requires Valid() && group < |gdFree| && gdFree[group] > 0 && r < |inodes| && CHUNK * word <= per
      modifies used, `gdFree, `free, `bsearch, `owner, `inodes
      ensures Valid() && |gdFree| == old(|gdFree|) && OnlyInode(old(inodes), inodes, r)
      ensures Ended(old(Seeing()), group, CHUNK * word, r, b, first, update, old(bsearch), Leaving(r))
      ensures b == 0 ==> used[..] == Searched(old(Seeing()), group, r)
      ensures b == 0 ==> word > 0 && OnlyHeld(old(owner), owner) && free >= old(free)
      ensures b == 0 && !Odd(old(Seeing()), group, r) ==> Unchanged(old(Seeing()), old(bsearch))
      ensures b != 0 ==> InGroup(b, group) && Granted(old(owner), owner, b - first)
      ensures old(LowerBound()) && (!update || b == 0) ==> LowerBound()
    {
      b := 0;
      if inodes[r].on && gdFree[group] >= PREALLOC * 4 {
        b := TryByte(group, r);
      }
      if b == 0 {
        b := TryBit(group, word, update, r, old(Seeing()), old(bsearch));
      }
    }

    /** The second half of the round, when no byte has been taken; the groups were as in `v` before it. */
    method TryBit(group: nat, word: nat, update: bool, r: nat, ghost v: View, ghost low0: nat) returns (b: nat)
      requires Valid() && group < |gdFree| && gdFree[group] > 0 && r < |inodes| && CHUNK * word <= per
      requires ViewOk(v, r) && group < |v.gdFree| && v.per == per && OnlyHeld(v.owner, owner)
      requires !TakesByteAt(v, group, r) && used[..] == Searched(v, group, r)
      requires inodes[r] == if Odd(v, group, r) then Emptied(v.inodes[r]) else v.inodes[r]
      requires BelowInUse(v.used, first, low0) ==> LowerBound()
      modifies used, `gdFree, `free, `bsearch, `owner
      ensures Valid() && |gdFree| == old(|gdFree|)
      ensures Ended(v, group, CHUNK * word, r, b, first, update, low0, Leaving(r))
      ensures b == 0 ==> word > 0 && Unchanged(old(Seeing()), old(bsearch)) && free == old(free)
      ensures b != 0 ==> InGroup(b, group) && Granted(v.owner, owner, b - first)
      ensures old(LowerBound()) && (!update || b == 0) ==> LowerBound()
    {
      ghost var owner1 := owner;
      b := TakeBit(group, word, update);
      if b != 0 {
        GrantedOn(v.owner, owner1, owner, b - first);
      }
    }

    /** The inode is to preallocate but has blocks preallocated already. */
    ghost predicate MayDiscard(r: nat)
      reads `inodes
      requires r < |inodes|
    {
      inodes[r].on && inodes[r].count != 0
    }

    /** All blocks below chunk `word` of the group are in use. */
    ghost predicate FullUpTo(group: nat, word: nat)
      reads this, used
    {
      Full(used[..], 0, Times(group, per) + CHUNK * word)
    }

    /** That round, as a part of the search. When s_bsearch is a lower bound and nothing below the chunk is free, then
        a block is found, and the bound is lost exactly in the case described by LosesAt. */
    method Round(word: nat, group: nat, update: bool, r: nat) returns (b: nat)
      requires Valid() && group < |gdFree| && gdFree[group] > 0 && r < |inodes| && CHUNK * word <= per
      modifies used, `gdFree, `free, `bsearch, `owner, `inodes
      ensures Valid() && |gdFree| == old(|gdFree|) && OnlyInode(old(inodes), inodes, r)
      ensures b == 0 ==> word > 0 && OnlyHeld(old(owner), owner) && free >= old(free)
      ensures b == 0 ==> used[..] == Searched(old(Seeing()), group, r)
      ensures b == 0 && !old(MayDiscard(r)) ==> Unchanged(old(Seeing()), old(bsearch))
      ensures b != 0 ==> first <= b < first + used.Length && Granted(old(owner), owner, b - first)
      ensures Ended(old(Seeing()), group, CHUNK * word, r, b, first, update, old(bsearch), Leaving(r))
      ensures old(LowerBound()) && (!update || b == 0) ==> LowerBound()
      ensures old(FullUpTo(group, word)) ==> b != 0 && (!TakesByteAt(old(Seeing()), group, r) ==> Full(old(used[..]), 0, b - first))
      ensures old(LowerBound()) && update && old(FullUpTo(group, word)) ==> (LowerBound() <==> !LosesAt(old(Seeing()), group, word, r))
    {
      ghost var v, low0, full := Seeing(), bsearch, FullUpTo(group, word);
      assert CountOk(v.used, per, gdFree, group);
      b := TryGroup(group, word, update, r);
      if full {
        ghost var a := Leaving(r);
        RoundDecides(v, group, word, r, b, first, update, low0, a);
      }
    }

    /** A round, or none in a group whose count says that it has no free block. */
    method RoundIfOpen(word: nat, group: nat, update: bool, r: nat) returns (b: nat)
      requires Valid() && group < |gdFree| && r < |inodes| && CHUNK * word <= per
      modifies used, `gdFree, `free, `bsearch, `owner, `inodes
      ensures Valid() && |gdFree| == old(|gdFree|) && OnlyInode(old(inodes), inodes, r)
      ensures Ended(old(Seeing()), group, CHUNK * word, r, b, first, update, old(bsearch), Leaving(r))
      ensures b == 0 ==> used[..] == Searched(old(Seeing()), group, r) && OnlyHeld(old(owner), owner)
      ensures b == 0 ==> free >= old(free) && (free > 0 ==> old(free) > 0) && (word == 0 ==> gdFree[group] == 0)
      ensures b == 0 && (!old(MayDiscard(r)) || old(gdFree)[group] == 0) ==> Unchanged(old(Seeing()), old(bsearch))
      ensures b == 0 && (word == 0 || old(FullUpTo(group, word))) ==> old(gdFree)[group] == 0
      ensures b != 0 ==> first <= b < first + used.Length && Granted(old(owner), owner, b - first)
      ensures b != 0 ==> old(gdFree)[group] > 0 && old(free) > 0
      ensures old(LowerBound()) && (!update || b == 0) ==> LowerBound()
    {
      b := 0;
      GroupHasFree(used[..], per, gdFree, free, group);
      NoneThere(Seeing(), group, CHUNK * word, r);
      if gdFree[group] != 0 {
        b := Round(word, group, update, r);
      }
    }

    /** The body of the loop in alloc_block_bit, in round `i` of a search that began in group `g0` when the groups were as
        in `v`; `still` if nothing has changed since. */
    method Visit(word: nat, group: nat, update: bool, r: nat, ghost g0: nat, ghost start0: nat, ghost i: nat,
                 ghost v: View, ghost low0: nat, ghost still: bool)
      returns (b: nat)
      requires Valid() && group < |gdFree| && r < |inodes| && CHUNK * word <= per
      requires CHUNK * word == (if i == 0 then start0 else 0) && (word == 0 || i == 0) && g0 < |gdFree| && i <= |gdFree|
      requires (group == g0 + i || group == g0 + i - |gdFree|) && Seen(used[..], per, |gdFree|, g0, start0, i)
      requires OnlyHeld(v.owner, owner)
      requires still ==> Unchanged(v, low0) && (i > 0 ==> !TakesByteAt(v, g0, r))
      modifies used, `gdFree, `free, `bsearch, `owner, `inodes
      ensures Valid() && |gdFree| == old(|gdFree|) && OnlyInode(old(inodes), inodes, r)
      ensures b == 0 ==> OnlyHeld(v.owner, owner) && free >= old(free) && (free > 0 ==> old(free) > 0)
      ensures b == 0 ==> Seen(used[..], per, |gdFree|, g0, start0, i + 1) && (word == 0 ==> gdFree[group] == 0)
      ensures b == 0 && (!old(MayDiscard(r)) || old(gdFree)[group] == 0) ==> Unchanged(old(Seeing()), old(bsearch))
      ensures b == 0 && (word == 0 || old(FullUpTo(group, word))) ==> old(gdFree)[group] == 0
      ensures b == 0 && still ==> !TakesByteAt(v, g0, r)
      ensures b != 0 ==> first <= b < first + used.Length && Granted(v.owner, owner, b - first) && old(free) > 0
      ensures b != 0 && still ==> Nearest(v, g0, start0, r, b - first, first, update, low0, Leaving(r))
      ensures old(LowerBound()) && (!update || b == 0) ==> LowerBound()
    {
      ghost var v1, owner1 := Seeing(), owner;
      b := RoundIfOpen(word, group, update, r);
      if b == 0 {
        SeenNext(v1, used[..], g0, start0, i, group, CHUNK * word, r);
      } else {
        GrantedOn(v.owner, owner1, owner, b - first);
        if still {
          ghost var a := Leaving(r);
          TookNow(v, g0, start0, r, b, first, update, low0, a, i, group);
        }
      }
    }

    /** The loop of alloc_block_bit: the groups from that of the goal on, in a circle, and the first group once more. */
    method Search(word0: nat, group0: nat, update: bool, r: nat) returns (b: nat)
      requires Valid() && r < |inodes| && CHUNK * word0 <= per
      modifies used, `gdFree, `free, `bsearch, `owner, `inodes
      ensures Valid() && (b == 0 <==> old(free) == 0) && OnlyInode(old(inodes), inodes, r) && |gdFree| == old(|gdFree|)
      ensures b == 0 ==> Unchanged(old(Seeing()), old(bsearch))
      ensures b != 0 ==> first <= b < first + used.Length && Granted(old(owner), owner, b - first)
      ensures b != 0 && (!old(MayDiscard(r)) || old(FullUpTo(Wrapped(group0), word0))) ==>
        Nearest(old(Seeing()), old(Wrapped(group0)), CHUNK * word0, r, b - first, first, update, old(bsearch), Leaving(r))
      ensures old(LowerBound()) && (!update || b == 0) ==> LowerBound()
    {
      var word: nat, group: nat, i: nat := word0, group0, 0;
      ghost var inodes0, v, low0, free0, bound := inodes, Seeing(), bsearch, free, LowerBound();
      ghost var n: nat, g0: nat, start0: nat := |gdFree|, Wrapped(group0), CHUNK * word;
      ghost var still, full := !MayDiscard(r) || gdFree[g0] == 0, FullUpTo(g0, word0);
      GroupHasFree(used[..], per, gdFree, free, g0);
      b := 0;
      while i <= |gdFree|
        invariant i <= n + 1 && |gdFree| == n && Valid() && OnlyInode(inodes0, inodes, r)
        invariant group == g0 + i <= n || group == g0 + i - n || (i == 0 && g0 == 0 && group >= n)
        invariant word == (if i == 0 then word0 else 0)
        invariant Seen(used[..], per, n, g0, start0, i) && (i == n + 1 ==> gdFree[g0] == 0)
        invariant OnlyHeld(v.owner, owner) && (free > 0 ==> free0 > 0) && free >= free0
        invariant still || i == 0 ==> Unchanged(v, low0) && (i > 0 ==> !TakesByteAt(v, g0, r))
        invariant full && i > 0 ==> still
        invariant bound ==> LowerBound()
      {
        if group >= |gdFree| {
          group := 0;
        }
        b := Visit(word, group, update, r, g0, start0, i, v, low0, still || i == 0);
        if b != 0 {
          return;
        }
        word := 0;
        i := i + 1;
        group := group + 1;
      }
      AllSeen(used[..], per, gdFree, free, g0, start0);
    }

    /** Past the last group the search goes on in the first. */
    ghost function Wrapped(group: nat): (g: nat)
      reads `gdFree
    {
      if group < |gdFree| then group else 0
    }

    /** The case in which alloc_block_bit moves s_bsearch past a free block, seen from before the call. Let h be the
        first group that has a free block. The search begins at s_bsearch; the inode preallocates, holds blocks, and
        there are enough free blocks in h for a byte; with the blocks of the inode back there is no free byte in h;
        and one of them is below the place in h where the search begins. */
    ghost predicate Loses(goal: nat, r: nat)
      reads this, used
    {
      && r < |inodes| && |owner| == used.Length && per > 0 && first <= bsearch && FromStart(goal, bsearch)
      && LosesFrom(Seeing(), StartWord(goal, bsearch), Wrapped(StartGroup(goal, bsearch)), r)
    }

    /** How far from the first block a search for a goal begins. */
    function Offset(goal: nat, low: nat): nat
      requires first <= low
    {
      if FromStart(goal, low) then low - first else goal - first
    }

    function StartGroup(goal: nat, low: nat): nat
      requires per > 0 && first <= low
    {
      Offset(goal, low) / per
    }

    function StartWord(goal: nat, low: nat): nat
      requires per > 0 && first <= low
    {
      (Offset(goal, low) % per) / CHUNK
    }

    /** Where a search for a goal begins, and whether it moves s_bsearch. */
    method StartAt(goal0: nat) returns (word: nat, group: nat, update: bool)
      requires Valid()
      ensures word == StartWord(goal0, bsearch) && group == StartGroup(goal0, bsearch) && update == FromStart(goal0, bsearch)
      ensures CHUNK * word <= per
      ensures update && LowerBound() ==> FullUpTo(Wrapped(group), word)
    {
      var goal: nat := goal0;
      update := false;
      if goal >= blocksCount || (goal < first && goal != 0) {
        goal := bsearch;
      }
      if goal <= bsearch {
        goal := bsearch;
        update := true;
      }
      SearchStart(used.Length, per, |gdFree|, goal - first);
      word := ((goal - first) % per) / CHUNK;
      group := (goal - first) / per;
    }

    /** Block `first + k` is what a search for the goal takes when the groups are as in `v` and s_bsearch is `low`. */
    ghost predicate NearGoal(v: View, goal: nat, low: nat, r: nat, k: nat, a: After)
    {
      && ViewOk(v, r) && per > 0 && first <= low
      && var g := StartGroup(goal, low);
      Nearest(v, if g < |v.gdFree| then g else 0, CHUNK * StartWord(goal, low), r, k, first, FromStart(goal, low), low, a)
    }

    /** alloc_block_bit. */
    method AllocBlockBit(goal: nat, r: nat) returns (b: nat)
      requires Valid() && r < |inodes|
      modifies used, `gdFree, `free, `bsearch, `owner, `inodes
      ensures Valid() && (b == 0 <==> old(free) == 0) && OnlyInode(old(inodes), inodes, r) && |gdFree| == old(|gdFree|)
      ensures b == 0 ==> Unchanged(old(Seeing()), old(bsearch))
      ensures b != 0 ==> first <= b < first + used.Length && Granted(old(owner), owner, b - first)
      ensures b != 0 && !old(MayDiscard(r)) ==> NearGoal(old(Seeing()), goal, old(bsearch), r, b - first, Leaving(r))
      ensures old(LowerBound()) ==> (LowerBound() <==> !old(Loses(goal, r)))
      ensures old(LowerBound()) && FromStart(goal, old(bsearch)) && b != 0 && !TakesByte(old(Seeing()), r) ==>
        Full(old(used[..]), 0, b - first)
    {
      var word, group, update := StartAt(goal);
      NoneOpen(used[..], per, gdFree, free);
      ghost var v, low0, free0, g0 := Seeing(), bsearch, free, Wrapped(group);
      b := Search(word, group, update, r);
      if b != 0 && update && BelowInUse(v.used, first, low0) {
        ghost var a := Leaving(r);
        NearestDecides(v, free0, word, g0, r, b - first, first, low0, a);
      }
    }

    /** An allocation first takes back what is preallocated when blocks are scarce. */
    ghost predicate Scarce()
      reads `free
    {
      (!useReserved && free <= reserved) || free <= PREALLOC
    }

    /** Too few blocks are left to give one away. */
    predicate Exhausted(left: nat) {
      (!useReserved && left <= reserved) || left == 0
    }

    /** The blocks that are free once everything preallocated has been given back, if it will be. */
    ghost function Left(): nat
      reads `free, `owner
    {
      if Scarce() then Clear(Lasting(owner), 0, |owner|) else free
    }

    /** An inode that has blocks preallocated has i_bsearch set. */
    ghost predicate Remembered()
      reads `inodes
    {
      forall r :: 0 <= r < |inodes| && inodes[r].count > 0 ==> inodes[r].last != 0
    }

    /** alloc_block, from where the block is known to be the next preallocated one. */
    method UsePreallocated(r: nat) returns (b: nat)
      requires Valid() && r < |inodes| && inodes[r].count > 0
      modifies `owner, `inodes
      ensures Valid() && first <= b < first + used.Length && Granted(old(owner), owner, b - first)
      ensures b == old(inodes[r].blocks[inodes[r].index])
      ensures OnlyInode(old(inodes), inodes, r) && inodes[r] == NextUsed(old(inodes[r]))
    {
      var p := inodes[r];
      b := p.blocks[p.index];
      OwnersLeave(used[..], owner, first, inodes, r, p.index, File);
      assert used[..][b - first := true] == used[..];
      ghost var inodes1 := SetPlace(inodes, r, p.index, 0);
      var blocks: seq<nat> := p.blocks[p.index := 0];
      inodes := inodes[r := p.(blocks := blocks, count := p.count - 1, index := p.index + 1, last := b)];
      owner := owner[b - first := File];
      NewFields(used[..], owner, first, inodes1, inodes);
    }

    /** Where the group of the inode begins. */
    function Home(r: nat): nat
      reads `inodes
    {
      if r < |inodes| then first + Times(inodes[r].home, per) else first
    }

    /** alloc_block on a non-sequential write: no more preallocation for the inode. */
    method StopPreallocating(r: nat)
      requires Valid() && r < |inodes|
      modifies used, `gdFree, `free, `bsearch, `owner, `inodes
      ensures Valid() && OnlyHeld(old(owner), owner) && free >= old(free) && |gdFree| == old(|gdFree|)
      ensures inodes == old(inodes)[r := Off(old(inodes[r]))]
      ensures used[..] == Without(old(used[..]), old(owner), r)
      ensures bsearch == Lowered(old(bsearch), old(inodes[r].blocks), PREALLOC)
      ensures old(LowerBound()) ==> LowerBound()
    {
      ghost var used0, owner0, inodes0 := used[..], owner, inodes;
      inodes := inodes[r := inodes[r].(on := false)];
      NewFields(used[..], owner, first, inodes0, inodes);
      PlacesBound(used[..], owner, first, inodes);
      DropPlaces(r);
      DropUnheld(used0, owner0, inodes0, used[..], owner, inodes, first, r);
    }

    /** For an inode that holds nothing, `b` is what the search for the goal takes, and it is remembered. */
    ghost predicate NearAnswer(v: View, goal: nat, low: nat, r: nat, b: nat, a: After)
      requires ViewOk(v, r)
    {
      first <= b && a.p.last == b && NearGoal(v, goal, low, r, b - first, a.(p := a.p.(last := v.inodes[r].last)))
    }

    /** For an inode that does not preallocate, `b` is the first block that was free, in a circle, from where a search for
        the goal begins; it is taken and remembered. */
    ghost predicate FirstAnswer(v: View, goal: nat, low: nat, r: nat, b: nat, a: After)
      requires ViewOk(v, r) && per > 0
    {
      && first <= low && first <= b && a.p == v.inodes[r].(last := b)
      && FoundFrom(v.used, StartBit(goal, low, |v.gdFree|), b - first) && a.used == v.used[b - first := true]
    }

    /** The bit at which a search for the goal begins when there are `n` groups. */
    function StartBit(goal: nat, low: nat, n: nat): nat
      requires per > 0 && first <= low
    {
      var g := StartGroup(goal, low);
      Times(if g < n then g else 0, per) + CHUNK * StartWord(goal, low)
    }

    lemma FirstWhenOff(v: View, goal: nat, low: nat, r: nat, b: nat, a: After)
      requires ViewOk(v, r) && NearAnswer(v, goal, low, r, b, a) && !v.inodes[r].on && v.per == per > 0
      requires |v.used| == Times(|v.gdFree|, per)
      ensures FirstAnswer(v, goal, low, r, b, a)
    {
      var g := StartGroup(goal, low);
      assert CHUNK * StartWord(goal, low) <= per;
      NearestIsFirst(v, if g < |v.gdFree| then g else 0, CHUNK * StartWord(goal, low), r, b - first, first,
                     FromStart(goal, low), low, a.(p := a.p.(last := v.inodes[r].last)));
    }

    /** alloc_block, when no preallocated block is used. */
    method AllocNear(r: nat, goal: nat) returns (b: nat)
      requires Valid() && r < |inodes| && free > 0
      modifies used, `gdFree, `free, `bsearch, `owner, `inodes
      ensures Valid() && first <= b < first + used.Length && b != 0 && Granted(old(owner), owner, b - first)
      ensures |gdFree| == old(|gdFree|) && OnlyInode(old(inodes), inodes, r) && inodes[r].last == b
      ensures !old(MayDiscard(r)) ==> NearAnswer(old(Seeing()), goal, old(bsearch), r, b, Leaving(r))
      ensures old(LowerBound()) ==> (LowerBound() <==> !old(Loses(goal, r)))
    {
      ghost var v := Seeing();
      b := AllocBlockBit(goal, r);
      ghost var a, inodes1 := Leaving(r), inodes;
      inodes := inodes[r := inodes[r].(last := b)];
      NewFields(used[..], owner, first, inodes1, inodes);
      assert Leaving(r) == a.(p := a.p.(last := b));
      assert !(v.inodes[r].on && v.inodes[r].count != 0) ==> a.p.last == v.inodes[r].last;
    }

    /** alloc_block first takes back what is preallocated when blocks are scarce. */
    method MakeRoom()
      requires Valid()
      modifies used, `gdFree, `free, `bsearch, `owner, `inodes
      ensures Valid() && OnlyHeld(old(owner), owner) && free == old(Left()) && |inodes| == |old(inodes)| && |gdFree| == old(|gdFree|)
      ensures old(LowerBound()) ==> LowerBound()
      ensures old(Scarce()) ==> used[..] == AllBack(old(Seeing())).used && inodes == AllBack(old(Seeing())).inodes
      ensures old(Scarce()) ==> bsearch == LoweredAll(old(bsearch), old(inodes), |old(inodes)|)
      ensures !old(Scarce()) ==> Unchanged(old(Seeing()), old(bsearch))
    {
      ghost var owner0 := owner;
      if (!useReserved && free <= reserved) || free <= PREALLOC {
        PlacesBound(used[..], owner, first, inodes);
        DiscardAll();
        PlacesBound(used[..], owner, first, inodes);
        LeftAfter(owner0, used[..], owner, first, inodes);
      }
    }

    /** The branch for a goal that is not where the preallocated blocks are. */
    method AllocElsewhere(r: nat, block: nat) returns (b: nat)
      requires Valid() && r < |inodes| && free > 0
      modifies used, `gdFree, `free, `bsearch, `owner, `inodes
      ensures Valid() && first <= b < first + used.Length && b != 0 && Granted(old(owner), owner, b - first)
      ensures |gdFree| == old(|gdFree|) && OnlyInode(old(inodes), inodes, r) && inodes[r].last == b
      ensures old(LowerBound()) ==> LowerBound()
      ensures FirstAnswer(OneBack(old(Seeing()), r), block, Lowered(old(bsearch), old(inodes[r].blocks), PREALLOC), r, b, Leaving(r))
    {
      ghost var owner0, v0 := owner, Seeing();
      StopPreallocating(r);
      ghost var owner1, v1, low := owner, Seeing(), bsearch;
      b := AllocNear(r, block);
      GrantedOn(owner0, owner1, owner, b - first);
      ghost var a := Leaving(r);
      FirstWhenOff(v1, block, low, r, b, a);
      assert FirstAnswer(OneBack(v0, r), block, low, r, b, a);
    }

    /** What alloc_block gives for an inode that is as in `v`. If it has preallocated blocks and the next one is the goal
        or follows it, that one, and no more changes; for another goal preallocation ends, what was held is given back,
        and the block is the first that is free then from the goal on. An inode that has nothing preallocated gets what
        the search for the goal takes, or for its own group if there is none. */
    ghost predicate Answered(v: View, low: nat, block: nat, r: nat, b: nat, a: After)
      requires ViewOk(v, r) && AllPreOk(v.inodes) && per > 0
    {
      var p := v.inodes[r];
      if !p.on || p.count == 0 then
        NearAnswer(v, if block == 0 then first + Times(p.home, per) else block, low, r, b, a)
      else if block == 0 then true
      else if block == p.blocks[p.index] || block + 1 == p.blocks[p.index] then
        b == p.blocks[p.index] && a == After(v.used, NextUsed(p), low)
      else FirstAnswer(OneBack(v, r), block, Lowered(low, p.blocks, PREALLOC), r, b, a)
    }

    /** alloc_block, once it is clear that a block can be given away. */
    method AllocForGoal(r: nat, block: nat) returns (b: nat)
      requires Valid() && r < |inodes| && free > 0
      modifies used, `gdFree, `free, `bsearch, `owner, `inodes
      ensures Valid() && first <= b < first + used.Length && b != 0 && Granted(old(owner), owner, b - first)
      ensures |gdFree| == old(|gdFree|) && OnlyInode(old(inodes), inodes, r) && inodes[r].last == b
      ensures old(LowerBound()) ==> (LowerBound() <==> !(block == 0 && old(Loses(Home(r), r))))
      ensures Answered(old(Seeing()), old(bsearch), block, r, b, Leaving(r))
    {
      if block == 0 {
        b := AllocNear(r, Home(r));
      } else if inodes[r].on && inodes[r].count > 0 {
        var next := inodes[r].blocks[inodes[r].index];
        if block == next || block + 1 == next {
          b := UsePreallocated(r);
        } else {
          b := AllocElsewhere(r, block);
        }
      } else {
        b := AllocNear(r, block);
      }
    }

    /** alloc_block. */
    method AllocBlock(r: nat, block: nat) returns (b: nat)
      requires Valid() && r < |inodes|
      modifies used, `gdFree, `free, `bsearch, `owner, `inodes
      ensures Valid() && (b == 0 <==> Exhausted(old(Left()))) && |inodes| == |old(inodes)|
      ensures b == 0 ==> OnlyHeld(old(owner), owner)
      ensures b != 0 ==> first <= b < first + used.Length && Granted(old(owner), owner, b - first) && inodes[r].last == b
      ensures b != 0 && !old(Scarce()) ==>
        OnlyInode(old(inodes), inodes, r) && Answered(old(Seeing()), old(bsearch), block, r, b, Leaving(r))
      ensures b != 0 && old(Scarce()) ==>
        OnlyInode(AllBack(old(Seeing())).inodes, inodes, r) && AnsweredScarce(old(Seeing()), old(bsearch), block, r, b, Leaving(r))
      ensures old(LowerBound()) ==> (LowerBound() <==> !(block == 0 && !old(Scarce()) && old(Loses(Home(r), r))))
      ensures old(LowerBound()) && old(Remembered()) && block == old(inodes[r].last) ==> LowerBound()
      ensures old(Remembered()) ==> Remembered()
    {
      ghost var owner0, v0, low0, scarce := owner, Seeing(), bsearch, Scarce();
      MakeRoom();
      if (!useReserved && free <= reserved) || free == 0 {
        return 0;
      }
      ghost var owner1, v, low := owner, Seeing(), bsearch;
      assert OnlyHeld(owner0, owner1);
      b := AllocForGoal(r, block);
      ghost var owner2 := owner;
      GrantedOn(owner0, owner1, owner2, b - first);
      if scarce {
        ghost var a := Leaving(r);
        AnsweredFirst(v0, v, block, low0, low, r, b, a);
      }
    }

    /** When blocks are scarce everything preallocated is given back first. */
    ghost predicate AnsweredScarce(v: View, low: nat, block: nat, r: nat, b: nat, a: After)
      requires ViewOk(v, r) && AllPreOk(v.inodes) && per > 0
    {
      FirstAnswer(AllBack(v), if block == 0 then first + Times(v.inodes[r].home, per) else block,
                  LoweredAll(low, v.inodes, |v.inodes|), r, b, a)
    }

    lemma AnsweredFirst(v0: View, v: View, block: nat, low0: nat, low: nat, r: nat, b: nat, a: After)
      requires ViewOk(v0, r) && ViewOk(v, r) && AllPreOk(v0.inodes) && AllPreOk(v.inodes) && |v.gdFree| == |v0.gdFree|
      requires per > 0 && v.per == per && |v.used| == Times(|v.gdFree|, per)
      requires v.used == AllBack(v0).used && v.inodes == AllBack(v0).inodes && low == LoweredAll(low0, v0.inodes, |v0.inodes|)
      requires Answered(v, low, block, r, b, a)
      ensures AnsweredScarce(v0, low0, block, r, b, a)
    {
      FirstWhenOff(v, if block == 0 then first + Times(v0.inodes[r].home, per) else block, low, r, b, a);
    }

    /** The search begins at s_bsearch. */
    predicate FromStart(goal: nat, low: nat) {
      goal >= blocksCount || goal < first || goal <= low
    }

    ghost predicate Unchanged(v: View, bsearch0: nat)
      reads this, used
    {
      Seeing() == v && bsearch == bsearch0
    }
  }

  /** `v` when what the inode holds has been given back and its preallocation has ended. */
  function OneBack(v: View, r: nat): View
    requires ViewOk(v, r)
  {
    v.(used := Without(v.used, v.owner, r), inodes := v.inodes[r := Off(v.inodes[r])])
  }

  /** `v` when that has happened to all inodes. */
  function AllBack(v: View): (w: View)
    ensures |w.used| == |w.owner| == |v.owner| && |w.inodes| == |v.inodes|
  {
    v.(used := Lasting(v.owner), inodes := seq(|v.inodes|, r requires 0 <= r < |v.inodes| => Off(v.inodes[r])))
  }

  /** An inode whose next preallocated block has been used. */
  function NextUsed(p: Prealloc): Prealloc
    requires PreOk(p) && p.count > 0
  {
    var blocks: seq<nat> := p.blocks[p.index := 0];
    p.(blocks := blocks, count := p.count - 1, index := p.index + 1, last := p.blocks[p.index])
  }

  /** s_bsearch after the first `n` of the blocks, where there are some, have been freed. */
  function Lowered(low: nat, blocks: seq<nat>, n: nat): (m: nat)
    requires n <= |blocks|
    ensures m <= low
  {
    if n == 0 then low
    else
      var m := Lowered(low, blocks, n - 1);
      if blocks[n - 1] != 0 && blocks[n - 1] < m then blocks[n - 1] else m
  }

  /** It is the least of them all. */
  lemma {:induction false} LoweredIsLeast(low: nat, blocks: seq<nat>, n: nat)
    requires n <= |blocks|
    ensures forall i :: 0 <= i < n && blocks[i] != 0 ==> Lowered(low, blocks, n) <= blocks[i]
    ensures Lowered(low, blocks, n) == low || exists i :: 0 <= i < n && blocks[i] != 0 && blocks[i] == Lowered(low, blocks, n)
  {
    if n > 0 {
      LoweredIsLeast(low, blocks, n - 1);
    }
  }

  /** s_bsearch after all blocks that the first `n` inodes hold have been freed. */
  function LoweredAll(low: nat, inodes: seq<Prealloc>, n: nat): (m: nat)
    requires n <= |inodes| && AllPreOk(inodes)
    ensures m <= low
  {
    if n == 0 then low else Lowered(LoweredAll(low, inodes, n - 1), inodes[n - 1].blocks, PREALLOC)
  }

  /** Bit `k` is the first that is clear from `start` on, in a circle. */
  ghost predicate FoundFrom(s: seq<bool>, start: nat, k: nat) {
    && k < |s| && !s[k]
    && if start <= k then Full(s, start, k) else Full(s, start, |s|) && Full(s, 0, k)
  }

  lemma {:induction false} SeenIsFull(s: seq<bool>, per: nat, n: nat, g0: nat, start0: nat, i: nat)
    requires |s| == Times(n, per) && g0 < n && i <= n && start0 <= per && Seen(s, per, n, g0, start0, i)
    ensures i > 0 && g0 + i <= n ==> Full(s, Times(g0, per) + start0, Times(g0 + i, per))
    ensures g0 + i >= n && i > 0 ==> Full(s, Times(g0, per) + start0, |s|) && Full(s, 0, Times(g0 + i - n, per))
    decreases i
  {
    if i > 0 {
      var g: nat := if g0 + i <= n then g0 + i - 1 else g0 + i - 1 - n;
      assert SeenGroup(s, per, g0, start0, g);
      SeenIsFull(s, per, n, g0, start0, i - 1);
    }
  }

  /** For an inode that does not preallocate the search is one for the first clear bit. */
  lemma NearestIsFirst(v: View, g0: nat, start0: nat, r: nat, k: nat, first: nat, update: bool, low0: nat, a: After)
    requires ViewOk(v, r) && !v.inodes[r].on && |v.used| == Times(|v.gdFree|, v.per) && start0 <= v.per
    requires Nearest(v, g0, start0, r, k, first, update, low0, a)
    ensures FoundFrom(v.used, Times(g0, v.per) + start0, k) && a.used == v.used[k := true] && a.p == v.inodes[r]
  {
    var i: nat :| TookIn(v, g0, start0, r, k, first, update, low0, a, i);
    var n := |v.gdFree|;
    CircleFirst(v.used, v.per, n, g0, start0, i, if g0 + i < n then g0 + i else g0 + i - n, k);
  }

  lemma CircleFirst(s: seq<bool>, per: nat, n: nat, g0: nat, start0: nat, i: nat, group: nat, k: nat)
    requires |s| == Times(n, per) && g0 < n && i <= n && start0 <= per && Seen(s, per, n, g0, start0, i)
    requires group == if g0 + i < n then g0 + i else g0 + i - n
    requires Times(group, per) + (if i == 0 then start0 else 0) <= k < |s| && !s[k]
    requires Full(s, Times(group, per) + if i == 0 then start0 else 0, k)
    ensures FoundFrom(s, Times(g0, per) + start0, k)
  {
    SeenIsFull(s, per, n, g0, start0, i);
    if 0 < i < n - g0 {
      TimesUp(g0 + 1, g0 + i, per);
      TimesUp(g0, g0 + i, per);
    }
  }

  ghost predicate AllPreOk(inodes: seq<Prealloc>) {
    forall r: nat :: r < |inodes| ==> PreOk(inodes[r])
  }

  /** Blocks past the end of the file system are nobody's to give. */
  ghost predicate EndIsSystem(owner: seq<Owner>, first: nat, blocksCount: nat) {
    forall k :: 0 <= k < |owner| && first + k >= blocksCount ==> owner[k] == System
  }

  ghost predicate HasByte(s: seq<bool>, base: nat, max: nat) {
    base + max <= |s| && exists k: nat :: FreeByte(s, base, max, k)
  }

  /** The groups that the first `i` rounds have looked at, from g0 on in a circle, have no clear bit; of group g0
      that is known only from `start0` on. */
  ghost predicate Seen(s: seq<bool>, per: nat, n: nat, g0: nat, start0: nat, i: nat) {
    forall h: nat :: h < n && (g0 <= h < g0 + i || h < g0 + i - n) ==> SeenGroup(s, per, g0, start0, h)
  }

  ghost predicate SeenGroup(s: seq<bool>, per: nat, g0: nat, start0: nat, h: nat) {
    Full(s, Times(h, per) + if h == g0 then start0 else 0, Times(h, per) + per)
  }

  /** A round that has found nothing has seen its group. */
  lemma SeenNext(v: View, s: seq<bool>, g0: nat, start0: nat, i: nat, group: nat, start: nat, r: nat)
    requires ViewOk(v, r) && group < |v.gdFree| && i <= |v.gdFree| && (group == g0 + i || group == g0 + i - |v.gdFree|)
    requires Seen(v.used, v.per, |v.gdFree|, g0, start0, i) && Misses(v, group, start, r) && s == Searched(v, group, r)
    requires if i == 0 then start == start0 && g0 < |v.gdFree| else start == 0 && v.gdFree[group] == 0
    ensures Seen(s, v.per, |v.gdFree|, g0, start0, i + 1)
  {
    assert SeenGroup(s, v.per, g0, start0, group);
    if i > 0 {
      assert s == v.used;
    }
  }

  /** When nothing is free before the place where a search begins, nothing is free before the place it has come to. */
  lemma {:induction false} PassedFull(s: seq<bool>, per: nat, n: nat, g0: nat, start0: nat, i: nat)
    requires |s| == Times(n, per) && g0 < n && i <= n && Full(s, 0, Times(g0, per) + start0) && Seen(s, per, n, g0, start0, i)
    ensures i > 0 ==> Full(s, 0, Times(if g0 + i <= n then g0 + i else n, per))
    decreases i
  {
    if i > 0 {
      PassedFull(s, per, n, g0, start0, i - 1);
      if g0 + i <= n {
        assert SeenGroup(s, per, g0, start0, g0 + i - 1);
      }
    }
  }

  /** A round that takes something does so in a group that has a free block. */
  lemma TookOpen(v: View, group: nat, start: nat, r: nat, k: nat, first: nat, a: After)
    requires ViewOk(v, r) && group < |v.gdFree| && CountOk(v.used, v.per, v.gdFree, group)
    requires Took(v, group, start, r, k, first, a)
    ensures v.gdFree[group] > 0 && !Full(v.used, 0, |v.used|)
  {
    NoneClear(v.used, Times(group, v.per), Times(group, v.per) + v.per);
  }

  lemma GroupHasFree(s: seq<bool>, per: nat, gdFree: seq<nat>, free: nat, group: nat)
    requires CountsOk(s, per, gdFree, free) && group < |gdFree|
    ensures gdFree[group] > 0 ==> free > 0
  {
    assert CountOk(s, per, gdFree, group);
    ClearSplit(s, 0, Times(group, per), |s|);
    ClearSplit(s, Times(group, per), Times(group, per) + per, |s|);
  }

  lemma GrantedOn(owner0: seq<Owner>, owner1: seq<Owner>, owner: seq<Owner>, k: nat)
    requires OnlyHeld(owner0, owner1) && Granted(owner1, owner, k)
    ensures Granted(owner0, owner, k)
  {
  }

  /** When every group has been looked at there is no free block. */
  lemma AllSeen(s: seq<bool>, per: nat, gdFree: seq<nat>, free: nat, g0: nat, start0: nat)
    requires per > 0 && CountsOk(s, per, gdFree, free) && g0 < |gdFree| && gdFree[g0] == 0
    requires Seen(s, per, |gdFree|, g0, start0, |gdFree| + 1)
    ensures free == 0
  {
    assert CountOk(s, per, gdFree, g0);
    NoneClear(s, Times(g0, per), Times(g0, per) + per);
    forall k: nat | k < |s| ensures s[k] {
      var h: nat := k / per;
      InBlock(k, |gdFree|, per);
      GroupOf(k, per, |gdFree|, h);
      assert SeenGroup(s, per, g0, start0, h);
    }
    NoneClear(s, 0, |s|);
  }

  /** What a search looks at: the bitmaps, the owners, the in-core inodes and the counts of the groups. */
  datatype View = View(used: seq<bool>, owner: seq<Owner>, inodes: seq<Prealloc>, gdFree: seq<nat>, per: nat)

  ghost predicate ViewOk(v: View, r: nat) {
    |v.owner| == |v.used| && r < |v.inodes|
  }

  /** The inode preallocates and the group has enough free blocks for that. */
  predicate ByteWanted(v: View, group: nat, r: nat)
    requires group < |v.gdFree| && r < |v.inodes|
  {
    v.inodes[r].on && v.gdFree[group] >= PREALLOC * 4
  }

  /** The inode is to preallocate but has blocks preallocated already: they are discarded first. */
  predicate Odd(v: View, group: nat, r: nat)
    requires group < |v.gdFree| && r < |v.inodes|
  {
    ByteWanted(v, group, r) && v.inodes[r].count != 0
  }

  /** The bitmap that a round in the group searches. */
  ghost function Searched(v: View, group: nat, r: nat): (s: seq<bool>)
    requires ViewOk(v, r) && group < |v.gdFree|
    ensures |s| == |v.used|
  {
    if Odd(v, group, r) then Without(v.used, v.owner, r) else v.used
  }

  /** A round in the group finds a free byte for an inode that preallocates. */
  ghost predicate TakesByteAt(v: View, group: nat, r: nat)
    requires ViewOk(v, r) && group < |v.gdFree|
  {
    ByteWanted(v, group, r) && HasByte(Searched(v, group, r), Times(group, v.per), v.per)
  }

  /** The first free byte of the bitmap at `base`; it begins at bit `k` of all bitmaps. */
  ghost predicate FirstByte(s: seq<bool>, base: nat, max: nat, k: nat) {
    && base + max <= |s| && base <= k && FreeByte(s, base, max, k - base)
    && forall j: nat :: base + j < k ==> !FreeByte(s, base, max, j)
  }

  function Emptied(p: Prealloc): Prealloc {
    p.(blocks := seq(PREALLOC, _ => 0), count := 0, index := 0)
  }

  /** An inode that has just preallocated the byte at `b`. */
  function WithByte(p: Prealloc, b: nat): Prealloc {
    p.(blocks := Places(b), count := PREALLOC - 1, index := 0)
  }

  /** What a search leaves: the bitmaps, the inode it is for, and s_bsearch. */
  datatype After = After(used: seq<bool>, p: Prealloc, low: nat)

  ghost predicate BelowInUse(s: seq<bool>, first: nat, low: nat) {
    first <= low && Full(s, 0, low - first)
  }

  /** What a round in the group, from bit `start` on, takes, once it has discarded what it does discard: the first free
      byte for an inode that preallocates if there is one, else the first clear bit. */
  ghost predicate Took(v: View, group: nat, start: nat, r: nat, k: nat, first: nat, a: After)
    requires ViewOk(v, r) && group < |v.gdFree|
  {
    var base, mid := Times(group, v.per), Searched(v, group, r);
    if TakesByteAt(v, group, r) then
      FirstByte(mid, base, v.per, k) && a.used == SetRun(mid, k, PREALLOC) && a.p == WithByte(v.inodes[r], first + k)
    else
      && base + start <= k < base + v.per && k < |mid| && !mid[k] && Full(mid, base + start, k)
      && a.used == mid[k := true] && a.p == if Odd(v, group, r) then Emptied(v.inodes[r]) else v.inodes[r]
  }

  /** What it does to s_bsearch: with a bit, a search that updates moves it there; otherwise a lower bound stays one. */
  ghost predicate Bounded(v: View, group: nat, r: nat, k: nat, first: nat, update: bool, low0: nat, a: After)
    requires ViewOk(v, r) && group < |v.gdFree|
  {
    if update && !TakesByteAt(v, group, r) then a.low == first + k
    else BelowInUse(v.used, first, low0) ==> BelowInUse(a.used, first, a.low)
  }

  /** A round in the group, from bit `start` on, finds nothing. */
  ghost predicate Misses(v: View, group: nat, start: nat, r: nat)
    requires ViewOk(v, r) && group < |v.gdFree|
  {
    !TakesByteAt(v, group, r) && Full(Searched(v, group, r), Times(group, v.per) + start, Times(group, v.per) + v.per)
  }

  /** A round in the group, from bit `start` on, has ended with `b`. */
  ghost predicate Ended(v: View, group: nat, start: nat, r: nat, b: nat, first: nat, update: bool, low0: nat, a: After)
    requires ViewOk(v, r) && group < |v.gdFree|
  {
    if b == 0 then Misses(v, group, start, r)
    else b >= first && Took(v, group, start, r, b - first, first, a) && Bounded(v, group, r, b - first, first, update, low0, a)
  }

  lemma NoneThere(v: View, group: nat, start: nat, r: nat)
    requires ViewOk(v, r) && group < |v.gdFree| && CountOk(v.used, v.per, v.gdFree, group)
    ensures v.gdFree[group] == 0 ==> Misses(v, group, start, r)
  {
    NoneClear(v.used, Times(group, v.per), Times(group, v.per) + v.per);
  }

  /** Round `i` of a search from bit `start0` of group `g0` on, through the groups in a circle, takes `k`: what has
      been passed is in use, and in the first group there was no free byte for an inode that preallocates. */
  ghost predicate TookIn(v: View, g0: nat, start0: nat, r: nat, k: nat, first: nat, update: bool, low0: nat, a: After,
                         i: nat)
    requires ViewOk(v, r)
  {
    var n := |v.gdFree|;
    var group := if g0 + i < n then g0 + i else g0 + i - n;
    && g0 < n && i <= n && Seen(v.used, v.per, n, g0, start0, i) && (i > 0 ==> !TakesByteAt(v, g0, r))
    && Took(v, group, if i == 0 then start0 else 0, r, k, first, a) && Bounded(v, group, r, k, first, update, low0, a)
  }

  ghost predicate Nearest(v: View, g0: nat, start0: nat, r: nat, k: nat, first: nat, update: bool, low0: nat, a: After)
    requires ViewOk(v, r)
  {
    exists i: nat :: TookIn(v, g0, start0, r, k, first, update, low0, a, i)
  }

  lemma TookNow(v: View, g0: nat, start0: nat, r: nat, b: nat, first: nat, update: bool, low0: nat, a: After,
                i: nat, group: nat)
    requires ViewOk(v, r) && g0 < |v.gdFree| && i <= |v.gdFree| && group < |v.gdFree| && b != 0
    requires (group == g0 + i || group == g0 + i - |v.gdFree|) && Seen(v.used, v.per, |v.gdFree|, g0, start0, i)
    requires i > 0 ==> !TakesByteAt(v, g0, r)
    requires Ended(v, group, if i == 0 then start0 else 0, r, b, first, update, low0, a)
    ensures b >= first && Nearest(v, g0, start0, r, b - first, first, update, low0, a)
  {
    assert TookIn(v, g0, start0, r, b - first, first, update, low0, a, i);
  }

  /** When nothing below the place where a round begins is free, it finds the lowest free bit, if not a byte, and a lower
      bound is lost exactly in the case described by LosesAt. */
  lemma RoundDecides(v: View, group: nat, word: nat, r: nat, b: nat, first: nat, update: bool, low0: nat, a: After)
    requires ViewOk(v, r) && group < |v.gdFree| && v.gdFree[group] > 0 && CountOk(v.used, v.per, v.gdFree, group)
    requires Full(v.used, 0, Times(group, v.per) + CHUNK * word)
    requires Ended(v, group, CHUNK * word, r, b, first, update, low0, a)
    ensures b != 0 && b >= first && (!TakesByteAt(v, group, r) ==> Full(v.used, 0, b - first))
    ensures update && BelowInUse(v.used, first, low0) ==> (BelowInUse(a.used, first, a.low) <==> !LosesAt(v, group, word, r))
  {
    var start, mid := Times(group, v.per) + CHUNK * word, Searched(v, group, r);
    StillOpen(v.used, v.per, v.gdFree, group, start);
    assert forall k :: 0 <= k < |mid| && mid[k] ==> v.used[k];
    if b != 0 && !TakesByteAt(v, group, r) {
      BitBound(v.used, v.owner, r, mid, start, b - first, Odd(v, group, r));
    }
  }

  /** A search that begins where nothing below is free finds its block in the first group that has one: unless it is the
      first of a free byte it is the lowest that was free, and s_bsearch stays a lower bound but in the case described by
      LosesFrom. */
  lemma NearestDecides(v: View, free: nat, word0: nat, g0: nat, r: nat, k: nat, first: nat, low0: nat, a: After)
    requires ViewOk(v, r) && CountsOk(v.used, v.per, v.gdFree, free) && first + k != 0
    requires Full(v.used, 0, Times(g0, v.per) + CHUNK * word0)
    requires Nearest(v, g0, CHUNK * word0, r, k, first, true, low0, a)
    ensures !TakesByte(v, r) ==> Full(v.used, 0, k)
    ensures BelowInUse(v.used, first, low0) ==> (BelowInUse(a.used, first, a.low) <==> !LosesFrom(v, word0, g0, r))
  {
    var i: nat :| TookIn(v, g0, CHUNK * word0, r, k, first, true, low0, a, i);
    var n := |v.gdFree|;
    var group: nat := if g0 + i < n then g0 + i else g0 + i - n;
    var word := if i == 0 then word0 else 0;
    assert CountOk(v.used, v.per, v.gdFree, group);
    TookOpen(v, group, CHUNK * word, r, k, first, a);
    NotWrapped(v.used, v.per, n, g0, CHUNK * word0, i);
    FirstDecides(v, g0, word0, group, word, r, k, first, low0, a);
  }

  /** A search that begins where nothing below is free does not get back to the first group. */
  lemma NotWrapped(s: seq<bool>, per: nat, n: nat, g0: nat, start0: nat, i: nat)
    requires |s| == Times(n, per) && g0 < n && i <= n && Full(s, 0, Times(g0, per) + start0) && Seen(s, per, n, g0, start0, i)
    requires !Full(s, 0, |s|)
    ensures g0 + i < n && Full(s, 0, Times(g0 + i, per) + if i == 0 then start0 else 0)
  {
    PassedFull(s, per, n, g0, start0, i);
  }

  lemma FirstDecides(v: View, group0: nat, word0: nat, group: nat, word: nat, r: nat, k: nat, first: nat, low0: nat, a: After)
    requires ViewOk(v, r) && group < |v.gdFree| && v.gdFree[group] > 0 && first + k != 0
    requires forall g: nat :: g < |v.gdFree| ==> CountOk(v.used, v.per, v.gdFree, g)
    requires Full(v.used, 0, Times(group, v.per) + CHUNK * word) && word == if group == group0 then word0 else 0
    requires Took(v, group, CHUNK * word, r, k, first, a) && Bounded(v, group, r, k, first, true, low0, a)
    ensures !TakesByte(v, r) ==> Full(v.used, 0, k)
    ensures BelowInUse(v.used, first, low0) ==> (BelowInUse(a.used, first, a.low) <==> !LosesFrom(v, word0, group0, r))
  {
    FullHere(v.used, v.per, v.gdFree, group, word);
    assert CountOk(v.used, v.per, v.gdFree, group);
    RoundDecides(v, group, word, r, first + k, first, true, low0, a);
  }

  /** A round from chunk `word` of the group on moves s_bsearch past a free block: the blocks that the inode holds
      are discarded, one of them is below that chunk, and then there is no free byte but only a bit. */
  ghost predicate LosesAt(v: View, group: nat, word: nat, r: nat)
    requires ViewOk(v, r) && group < |v.gdFree|
  {
    && Odd(v, group, r) && !HasByte(Without(v.used, v.owner, r), Times(group, v.per), v.per)
    && HeldBelow(v.owner, r, Times(group, v.per) + CHUNK * word)
  }

  /** The search from chunk `word0` of group `group0` on loses the bound: it finds its block in the first group that
      has one, and from the first chunk of that group on unless it is the group in which it begins. */
  ghost predicate LosesFrom(v: View, word0: nat, group0: nat, r: nat)
    requires ViewOk(v, r)
  {
    var h := FirstOpen(v.gdFree);
    h < |v.gdFree| && LosesAt(v, h, if h == group0 then word0 else 0, r)
  }

  /** The block that a search finds that begins where nothing below is free is the first of a free byte. */
  ghost predicate TakesByte(v: View, r: nat)
    requires ViewOk(v, r)
  {
    FirstOpen(v.gdFree) < |v.gdFree| && TakesByteAt(v, FirstOpen(v.gdFree), r)
  }

  /** Where a search for bit `low` of all the bitmaps begins. */
  lemma SearchStart(total: nat, per: nat, n: nat, low: nat)
    requires per > 0 && total == Times(n, per)
    ensures CHUNK * ((low % per) / CHUNK) <= low % per < per && low / per >= 0
    ensures Times(low / per, per) + CHUNK * ((low % per) / CHUNK) <= low
    ensures low <= total && low / per >= n ==> (low % per) / CHUNK == 0
  {
    DivMod(low, per);
    InBlock(low, n, per);
    if low == total { DivOfTimes(n, per); }
  }

  /** The first group that has a free block. */
  function FirstOpen(counts: seq<nat>): (h: nat)
    ensures h <= |counts| && (h < |counts| ==> counts[h] > 0)
    ensures forall g :: 0 <= g < h ==> counts[g] == 0
  {
    if counts == [] || counts[0] > 0 then 0 else 1 + FirstOpen(counts[1..])
  }

  /** Inode `r` holds a block among the first `n`. */
  ghost predicate HeldBelow(owner: seq<Owner>, r: nat, n: nat) {
    exists j :: 0 <= j < n && j < |owner| && owner[j].Held? && owner[j].r == r
  }

  /** A group that has a free block has one at or after `start`, if nothing is free before. */
  lemma StillOpen(s: seq<bool>, per: nat, gdFree: seq<nat>, group: nat, start: nat)
    requires group < |gdFree| && gdFree[group] > 0 && CountOk(s, per, gdFree, group)
    ensures Full(s, 0, start) ==> exists k :: Times(group, per) <= k < Times(group, per) + per && start <= k && !s[k]
  {
    NoneClear(s, Times(group, per), Times(group, per) + per);
  }

  /** A bit found at or after `start` is the lowest that was free if nothing before is, and after the blocks of the
      inode have been discarded (`odd`) something before it is free exactly if the inode held a block before `start`. */
  lemma BitBound(s: seq<bool>, owner: seq<Owner>, r: nat, mid: seq<bool>, start: nat, k: nat, odd: bool)
    requires |owner| == |s| && mid == (if odd then Without(s, owner, r) else s) && Full(s, 0, start)
    requires start <= k < |s| && Full(mid, start, k)
    ensures Full(s, 0, k)
    ensures Full(mid[k := true], 0, k) <==> !(odd && HeldBelow(owner, r, start))
  {
    var after := mid[k := true];
    if odd && HeldBelow(owner, r, start) {
      var j :| 0 <= j < start && j < |owner| && owner[j].Held? && owner[j].r == r;
      assert !after[j];
    } else {
      forall j | 0 <= j < k ensures after[j] {
        if j < start { assert s[j]; }
      }
    }
  }

  /** When nothing below chunk `word` of a group is free, it is the first group that has a free block, or it has none
      and nothing below the next group is free. */
  lemma FullHere(s: seq<bool>, per: nat, gdFree: seq<nat>, group: nat, word: nat)
    requires group < |gdFree| && forall g: nat :: g < |gdFree| ==> CountOk(s, per, gdFree, g)
    requires Full(s, 0, Times(group, per) + CHUNK * word)
    ensures if gdFree[group] > 0 then FirstOpen(gdFree) == group else Full(s, 0, Times(group + 1, per))
  {
    var h := FirstOpen(gdFree);
    assert CountOk(s, per, gdFree, group);
    NoneClear(s, Times(group, per), Times(group, per) + per);
    if h < group {
      TimesUp(h + 1, group, per);
      assert CountOk(s, per, gdFree, h);
      NoneClear(s, Times(h, per), Times(h, per) + per);
    }
  }

  lemma NoneOpen(s: seq<bool>, per: nat, gdFree: seq<nat>, free: nat)
    requires CountsOk(s, per, gdFree, free)
    ensures free == 0 ==> FirstOpen(gdFree) == |gdFree|
  {
    if FirstOpen(gdFree) < |gdFree| {
      GroupHasFree(s, per, gdFree, free, FirstOpen(gdFree));
    }
  }

  lemma InThatGroup(k: nat, group: nat, per: nat)
    requires per > 0 && Times(group, per) <= k < Times(group, per) + per
    ensures k / per == group
  {
    InBlock(k, group, per);
    InBlock(k, group + 1, per);
  }

  lemma BitGranted(used: seq<bool>, owner: seq<Owner>, first: nat, inodes: seq<Prealloc>, k: nat)
    requires OwnersOk(used, owner, first, inodes) && k < |used| && !used[k]
    ensures Granted(owner, owner[k := File], k)
  {
    assert OwnerOk(used, owner, first, inodes, k);
  }

  lemma ByteTaken(used: seq<bool>, owner: seq<Owner>, first: nat, inodes: seq<Prealloc>, r: nat, k: nat, p: Prealloc, blocksCount: nat)
    requires OwnersOk(used, owner, first, inodes) && k + PREALLOC <= |used| && Run(used, k, PREALLOC, false)
    requires r < |inodes| && inodes[r].count == 0 && AllPreOk(inodes) && EndIsSystem(owner, first, blocksCount)
    requires p == inodes[r].(blocks := Places(first + k), count := PREALLOC - 1, index := 0)
    ensures OwnersOk(SetRun(used, k, PREALLOC), ByteOwners(owner, r, k), first, inodes[r := p]) && first + k != 0
    ensures Granted(owner, ByteOwners(owner, r, k), k)
    ensures AllPreOk(inodes[r := p])
    ensures EndIsSystem(ByteOwners(owner, r, k), first, blocksCount)
  {
    OwnersByte(used, owner, first, inodes, r, k, p);
    forall j: nat | k <= j < k + PREALLOC ensures owner[j] == Free {
      assert OwnerOk(used, owner, first, inodes, j);
    }
  }

  lemma BlockFreed(s: seq<bool>, t: seq<bool>, owner: seq<Owner>, first: nat, inodes: seq<Prealloc>,
                   per: nat, gdFree: seq<nat>, free: nat, k: nat)
    requires per > 0 && CountsOk(s, per, gdFree, free) && k < |s| == |owner| && s[k] && t == s[k := false]
    ensures k / per < |gdFree| && CountsOk(t, per, gdFree[k / per := gdFree[k / per] + 1], free + 1)
    ensures owner[k] == File && OwnersOk(s, owner, first, inodes) ==> OwnersOk(t, owner[k := Free], first, inodes)
  {
    CountFreed(s, per, gdFree, free, k);
    if owner[k] == File && OwnersOk(s, owner, first, inodes) {
      OwnersReturned(s, owner, first, inodes, k);
    }
  }

  lemma ByteCounted(s: seq<bool>, t: seq<bool>, per: nat, gdFree: seq<nat>, free: nat, group: nat, bit: nat)
    requires per > 0 && CountsOk(s, per, gdFree, free) && group < |gdFree| && Times(group, per) + per <= |s|
    requires FreeByte(s, Times(group, per), per, bit) && t == SetRun(s, Times(group, per) + bit, PREALLOC)
    ensures gdFree[group] >= PREALLOC && free >= PREALLOC
    ensures CountsOk(t, per, gdFree[group := gdFree[group] - PREALLOC], free - PREALLOC)
  {
    CountByteTaken(s, per, gdFree, free, group, bit);
  }

  /** What is in use when nothing is preallocated. */
  function Lasting(owner: seq<Owner>): (s: seq<bool>)
    ensures |s| == |owner| && forall k :: 0 <= k < |s| ==> s[k] == (owner[k] == File || owner[k] == System)
  {
    seq(|owner|, k requires 0 <= k < |owner| => owner[k] == File || owner[k] == System)
  }

  lemma LeftAfter(owner0: seq<Owner>, used: seq<bool>, owner: seq<Owner>, first: nat, inodes: seq<Prealloc>)
    requires OwnersOk(used, owner, first, inodes) && OnlyHeld(owner0, owner)
    requires forall k :: 0 <= k < |owner| ==> !owner[k].Held?
    ensures used == Lasting(owner0) && Clear(used, 0, |used|) == Clear(Lasting(owner0), 0, |owner0|)
  {
    forall k: nat | k < |used| ensures used[k] == Lasting(owner0)[k] {
      assert OwnerOk(used, owner, first, inodes, k);
    }
  }

  /** Only the entry of inode `r` has changed. */
  ghost predicate OnlyInode(inodes0: seq<Prealloc>, inodes: seq<Prealloc>, r: nat) {
    |inodes| == |inodes0| && forall q :: 0 <= q < |inodes| && q != r ==> inodes[q] == inodes0[q]
  }

  function Off(p: Prealloc): Prealloc {
    p.(blocks := seq(PREALLOC, _ => 0), count := 0, index := 0, on := false)
  }

  /** The bitmap after the blocks that inode `r` holds have been freed. */
  function Without(used: seq<bool>, owner: seq<Owner>, r: nat): (s: seq<bool>)
    requires |owner| == |used|
    ensures |s| == |used|
    ensures forall k :: 0 <= k < |s| ==> (s[k] <==> used[k] && !(owner[k].Held? && owner[k].r == r))
  {
    seq(|used|, k requires 0 <= k < |used| => used[k] && !(owner[k].Held? && owner[k].r == r))
  }

  lemma DropUnheld(used0: seq<bool>, owner0: seq<Owner>, inodes0: seq<Prealloc>,
                   used: seq<bool>, owner: seq<Owner>, inodes: seq<Prealloc>, first: nat, r: nat)
    requires OwnersOk(used0, owner0, first, inodes0) && OwnersOk(used, owner, first, inodes)
    requires Dropped(owner0, owner, r, PREALLOC)
    ensures used == Without(used0, owner0, r)
  {
    PlacesBound(used0, owner0, first, inodes0);
    forall k: nat | k < |used| ensures used[k] <==> Without(used0, owner0, r)[k] {
      assert OwnerOk(used0, owner0, first, inodes0, k);
      assert OwnerOk(used, owner, first, inodes, k);
    }
  }

  /** As many groups as before, and in the given case none with fewer free blocks. */
  ghost predicate AtLeastWhen(c: bool, s: seq<nat>, t: seq<nat>) {
    |t| == |s| && (c ==> AtLeast(s, t))
  }

  /** No group has fewer free blocks than before. */
  ghost predicate AtLeast(s: seq<nat>, t: seq<nat>) {
    |t| == |s| && forall g :: 0 <= g < |s| ==> t[g] >= s[g]
  }

  lemma PlacesBound(used: seq<bool>, owner: seq<Owner>, first: nat, inodes: seq<Prealloc>)
    requires OwnersOk(used, owner, first, inodes)
    ensures forall k :: 0 <= k < |owner| && owner[k].Held? ==> owner[k].i < PREALLOC && owner[k].r < |inodes|
  {
    forall k: nat | k < |owner| && owner[k].Held? ensures owner[k].i < PREALLOC && owner[k].r < |inodes| {
      assert OwnerOk(used, owner, first, inodes, k);
      assert HeldAgree(owner, first, inodes, owner[k].r);
    }
  }

  /** Only the blocks in the places matter for the owners. */
  lemma NewFields(used: seq<bool>, owner: seq<Owner>, first: nat, inodes: seq<Prealloc>, inodes': seq<Prealloc>)
    requires OwnersOk(used, owner, first, inodes) && |inodes'| == |inodes|
    requires forall r :: 0 <= r < |inodes| ==> inodes'[r].blocks == inodes[r].blocks
    ensures OwnersOk(used, owner, first, inodes')
  {
    forall j: nat | j < |owner| ensures OwnerOk(used, owner, first, inodes', j) {
      assert OwnerOk(used, owner, first, inodes, j);
    }
    forall r: nat | r < |inodes| ensures HeldAgree(owner, first, inodes', r) {
      assert HeldAgree(owner, first, inodes, r);
    }
  }

  lemma DroppedOne(owner0: seq<Owner>, owner: seq<Owner>, first: nat, inodes: seq<Prealloc>, used: seq<bool>, r: nat, i: nat, k: nat)
    requires Dropped(owner0, owner, r, i) && OwnersOk(used, owner, first, inodes) && k < |owner| && owner[k] == Held(r, i)
    ensures Dropped(owner0, owner[k := Free], r, i + 1)
  {
    assert OwnerOk(used, owner, first, inodes, k);
    forall j: nat | j < |owner| && owner[j].Held? ensures owner[j] == Held(r, i) ==> j == k {
      assert OwnerOk(used, owner, first, inodes, j);
    }
  }

  lemma DroppedNone(owner0: seq<Owner>, owner: seq<Owner>, first: nat, inodes: seq<Prealloc>, used: seq<bool>, r: nat, i: nat)
    requires Dropped(owner0, owner, r, i) && OwnersOk(used, owner, first, inodes)
    requires r < |inodes| && i < |inodes[r].blocks| && inodes[r].blocks[i] == 0
    ensures Dropped(owner0, owner, r, i + 1)
  {
    forall j: nat | j < |owner| && owner[j].Held? ensures owner[j] != Held(r, i) {
      assert OwnerOk(used, owner, first, inodes, j);
    }
  }

  lemma ValidAfterDrop(owner0: seq<Owner>, owner: seq<Owner>, first: nat, blocksCount: nat, r: nat)
    requires Dropped(owner0, owner, r, PREALLOC)
    requires EndIsSystem(owner0, first, blocksCount)
    ensures EndIsSystem(owner, first, blocksCount)
  {
  }

  /** No block is in two preallocation lists or twice in one, and none that a client or the system has is in any. */
  lemma HeldOnce(used: seq<bool>, owner: seq<Owner>, first: nat, inodes: seq<Prealloc>, r: nat, i: nat, q: nat, j: nat)
    requires OwnersOk(used, owner, first, inodes) && r < |inodes| && q < |inodes| && i < PREALLOC && j < PREALLOC
    requires HeldAgree(owner, first, inodes, r) && HeldAgree(owner, first, inodes, q)
    requires inodes[r].blocks[i] != 0
    ensures inodes[r].blocks[i] == inodes[q].blocks[j] ==> r == q && i == j
    ensures first <= inodes[r].blocks[i] < first + |used| && used[inodes[r].blocks[i] - first]
    ensures owner[inodes[r].blocks[i] - first] != File && owner[inodes[r].blocks[i] - first] != System
  {
    assert OwnerOk(used, owner, first, inodes, inodes[r].blocks[i] - first);
  }
}
