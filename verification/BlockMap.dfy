/**
 read_map and write_map of the ext2 server, over the inode's block list, the contents of the indirect blocks
 and the set of free blocks. What alloc_block chooses, and whether it finds a block, is left open.
 */
module BlockMap {
  import opened BlockTree
  import opened FileMap
  import opened MapSteps

  class Inode {
    const a: nat            // addresses in a block
    const blockSize: nat    // s_block_size
    const sectors: nat      // s_sectors_in_block
    var root: seq<nat>      // i_block
    var iBlocks: int        // i_blocks
    var disk: Disk          // the entries of indirect blocks
    var free: set<nat>      // the blocks that the bitmap has as free
    ghost var refused: nat  // how often alloc_block has found no block

    /** A file without blocks. */
    constructor (a: nat, blockSize: nat, sectors: nat, free: set<nat>)
      requires a > 0 && blockSize > 0 && sectors > 0 && 0 !in free
      ensures this.a == a && this.blockSize == blockSize && this.sectors == sectors && this.free == free
      ensures Valid() && FileBlocks(File()) == {} && Slack(State()) == 0 && forall x: nat :: MapOf(File(), x) == 0
    {
      this.a, this.blockSize, this.sectors, this.free, refused := a, blockSize, sectors, free, 0;
      root, iBlocks, disk := seq(SLOTS, _ => 0), 0, map[];
      new;
      assert forall k: nat :: k < SLOTS ==> Tree(File(), k) == {};
    }

    ghost function File(): Ino
      reads this
    {
      Ino(a, root, disk)
    }

    ghost function State(): Snap
      reads this
    {
      Snap(File(), free, iBlocks, sectors)
    }

    /** The block map is a tree of blocks that are in use. */
    ghost predicate Valid()
      reads this
    {
      a > 0 && blockSize > 0 && sectors > 0 && SnapOk(State())
    }

    method AllocBlock() returns (b: nat)
      requires Valid()
      modifies `free, `refused
      ensures b != 0 ==> b in old(free)
      ensures refused == old(refused) + if b == 0 then 1 else 0
      ensures free == old(free) - Just(b) && Valid()
    {
      var found: bool := *;
      if !found || free == {} {
        refused := refused + 1;
        return 0;
      }
      b :| b in free;
      free := free - {b};
    }

    /** free_block; freeing a free block is a panic. */
    method FreeBlock(b: nat)
      requires b != 0 && b !in free
      modifies `free
      ensures free == old(free) + {b}
    {
      free := free + {b};
    }

    method ReadMap(position: nat) returns (b: nat)
      requires Valid()
      ensures b == MapOf(File(), position / blockSize)
    {
      ghost var f := File();
      Caps(a);
      var a2 := a * a;
      var doubInd, tripleInd := NDIR + a, NDIR + a + a2;
      var outRange := tripleInd + a2 * a;
      var blockPos := position / blockSize;
      if blockPos < outRange {
        WayEnds(f, blockPos);
        assert MapOf(f, blockPos) == NodeAt(f, blockPos, 0);
      }
      if blockPos < NDIR {
        return root[blockPos];
      }
      if blockPos < outRange {
        SlotsOf(a, blockPos);
      }
      var index := 0;
      if blockPos < doubInd {
        b := root[NDIR];
        index := blockPos - NDIR;
      } else if blockPos >= outRange {
        return 0;
      } else {
        var excess := blockPos - doubInd;
        b := root[NDIR + 1];
        if blockPos >= tripleInd {
          StepAt(f, blockPos, 3);
          StepAt(f, blockPos, 2);
          b := root[NDIR + 2];
          if b == 0 {
            StepAt(f, blockPos, 1);
            return 0;
          }
          excess := blockPos - tripleInd;
          index := excess / a2;
          assert index == SlotAt(a, blockPos, 3);
          b := disk[b][index];
          excess := excess % a2;
        }
        StepAt(f, blockPos, 2);
        assert b == NodeAt(f, blockPos, 2);
        if b == 0 {
          StepAt(f, blockPos, 1);
          return 0;
        }
        index := excess / a;
        assert index == SlotAt(a, blockPos, 2);
        b := disk[b][index];
        index := excess % a;
      }
      StepAt(f, blockPos, 1);
      assert b == NodeAt(f, blockPos, 1) && index == SlotAt(a, blockPos, 1);
      if b == 0 {
        return 0;
      }
      b := disk[b][index];
    }

    /** alloc_block, zero_block and the recording of the new block, which write_map does alike for a triple, a
        double and a single indirect block: its number goes into entry `index` of block `above`, or into the
        inode if `above` is NO_BLOCK. */
    method CreateBlock(ghost blk: nat, m: nat, above: nat, index: nat) returns (b: nat)
      requires Valid() && OnLevel(File(), blk, m, above, index) && m > 0 && NodeAt(File(), blk, m) == 0
      modifies this
      ensures Valid()
      ensures refused == old(refused) + if b == 0 then 1 else 0
      ensures b == 0 ==> State() == old(State())
      ensures b != 0 ==>
        && b in old(free) && free == old(free) - {b} && iBlocks == old(iBlocks) + sectors
        && FileBlocks(File()) == FileBlocks(old(File())) + {b}
        && MapsLike(old(File()), File(), blk, MapOf(old(File()), blk))
        && NodeAt(File(), blk, m) == b && (above != 0 ==> NodeAt(File(), blk, m + 1) == above)
        && (m + 1 < LevelOf(a, blk) ==> NodeAt(File(), blk, m + 2) == NodeAt(old(File()), blk, m + 2))
    {
      ghost var f := File();
      b := AllocBlock();
      if b == 0 {
        return;
      }
      CreateAt(f, blk, m, above, index, b);
      if above == 0 {
        root := root[NDIR + m - 1 := b];
      } else {
        disk := SetEntry(disk, above, index, b);
      }
      iBlocks := iBlocks + sectors;
      disk := disk[b := Zeros(a)];
      assert File() == Recorded(f.(disk := f.disk[b := Zeros(a)]), blk, m, b);
    }

    /** empty_indir. */
    method EmptyIndir(b: nat) returns (empty: bool)
      requires b in disk && |disk[b]| == a
      ensures empty <==> forall i :: 0 <= i < a ==> disk[b][i] == 0
    {
      var i := 0;
      while i < a
        invariant i <= a && forall j :: 0 <= j < i ==> disk[b][j] == 0
      {
        if disk[b][i] != 0 {
          return false;
        }
        i := i + 1;
      }
      empty := true;
    }

    /** write_map frees an empty indirect block and clears its record. */
    method RemoveBlock(ghost blk: nat, m: nat, b: nat, above: nat, index: nat)
      requires Valid() && OnLevel(File(), blk, m, above, index) && m > 0
      requires b != 0 && b == NodeAt(File(), blk, m) && Bare(disk, a, b, m)
      modifies `root, `iBlocks, `disk, `free
      ensures Valid()
      ensures b in FileBlocks(old(File())) && free == old(free) + {b} && iBlocks == old(iBlocks) - sectors
      ensures FileBlocks(File()) == FileBlocks(old(File())) - {b}
      ensures MapsLike(old(File()), File(), blk, MapOf(old(File()), blk))
      ensures NodeAt(File(), blk, m) == 0 && (above != 0 ==> NodeAt(File(), blk, m + 1) == above)
      ensures m + 1 < LevelOf(a, blk) ==> NodeAt(File(), blk, m + 2) == NodeAt(old(File()), blk, m + 2)
    {
      ghost var f := File();
      RemoveAt(f, blk, m, above, index);
      RecordedIs(f, blk, m, above, index, 0);
      FreeBlock(b);
      iBlocks := iBlocks - sectors;
      if above == 0 {
        root := root[NDIR + m - 1 := 0];
      } else {
        disk := SetEntry(disk, above, index, 0);
      }
      assert File() == Recorded(f, blk, m, 0);
    }

    /** The file has only grown by blocks for the way to `blk` since `s0`. */
    ghost predicate Grown(s0: Snap, blk: nat)
      reads this
    {
      Valid() && Ok(s0.f) && Moved(s0, State(), blk, MapOf(s0.f, blk)) && FileBlocks(s0.f) <= FileBlocks(File())
    }

    /** One of the three places in write_map that make sure of an indirect block: `b0` is what is recorded. */
    method FindOrCreate(ghost s0: Snap, ghost blk: nat, m: nat, above: nat, index: nat, b0: nat, wmapFree: bool) returns (b: nat)
      requires Grown(s0, blk) && OnLevel(File(), blk, m, above, index) && m > 0 && b0 == NodeAt(File(), blk, m)
      modifies this
      ensures Grown(s0, blk) && b == NodeAt(File(), blk, m) && (wmapFree || b == 0 || b == b0 ==> State() == old(State()))
      ensures b0 != 0 ==> b == b0
      ensures refused == old(refused) + if b == 0 && !wmapFree then 1 else 0
      ensures above != 0 ==> NodeAt(File(), blk, m + 1) == above
      ensures m + 1 < LevelOf(a, blk) ==> NodeAt(File(), blk, m + 2) == NodeAt(old(File()), blk, m + 2)
    {
      b := b0;
      if b == 0 && !wmapFree {
        ghost var s := State();
        b := CreateBlock(blk, m, above, index);
        if b != 0 {
          MovedGrow(s0, s, State(), blk, MapOf(s0.f, blk), b);
        }
      }
    }

    /** b1, b2, b3 are the indirect blocks on the way to `blk` and i1, i2, i3 the entries that the way takes. */
    ghost predicate OnWay(blk: nat, b1: nat, b2: nat, b3: nat, i1: nat, i2: nat, i3: nat)
      reads this
      requires Valid()
    {
      Locate(a, blk) != OutOfRange &&
      var l := LevelOf(a, blk);
      && l >= 1
      && b1 == NodeAt(File(), blk, 1)
      && b2 == (if l >= 2 then NodeAt(File(), blk, 2) else 0)
      && b3 == (if l >= 3 then NodeAt(File(), blk, 3) else 0)
      && (b1 != 0 ==> i1 == SlotAt(a, blk, 1))
      && (b2 != 0 ==> i2 == SlotAt(a, blk, 2))
      && (b3 != 0 ==> i3 == SlotAt(a, blk, 3))
    }

    /** The first step of that for a position that needs a triple indirect block: `b2` is what it has recorded. */
    method FromTriple(ghost s0: Snap, blk: nat, wmapFree: bool) returns (b2: nat, b3: nat, index3: nat, excess: nat)
      requires Grown(s0, blk) && blk >= NDIR + a + a * a && Locate(a, blk) != OutOfRange
      modifies this
      ensures Grown(s0, blk) && LevelOf(a, blk) == 3 && b3 == NodeAt(File(), blk, 3) && (wmapFree ==> State() == old(State()))
      ensures NodeAt(old(File()), blk, 3) != 0 ==> b3 != 0 && State() == old(State())
      ensures refused == old(refused) + if b3 == 0 && !wmapFree then 1 else 0
      ensures b3 == 0 ==> b2 == 0
      ensures b3 != 0 ==> index3 == SlotAt(a, blk, 3) && OnLevel(File(), blk, 2, b3, index3) && b2 == NodeAt(File(), blk, 2)
      ensures b3 != 0 ==> excess / a == SlotAt(a, blk, 2) && excess % a == SlotAt(a, blk, 1)
    {
      b2, index3, excess := 0, 0, 0;
      Caps(a);
      SlotsOf(a, blk);
      RecordedIs(File(), blk, 3, 0, 0, 0);
      b3 := FindOrCreate(s0, blk, 3, 0, 0, root[NDIR + 2], wmapFree);
      if b3 != 0 {
        excess := blk - (NDIR + a + a * a);
        index3 := excess / (a * a);
        excess := excess % (a * a);
        RecordedIs(File(), blk, 2, b3, index3, 0);
        b2 := disk[b3][index3];
      }
    }

    /** The first half of write_map for an indirect position: find the indirect blocks on the way and, unless
        the call is to free, create those that are missing. */
    method Descend(blk: nat, wmapFree: bool)
      returns (code: Code, b1: nat, b2: nat, b3: nat, index1: nat, index2: nat, index3: nat)
      requires Valid() && blk >= NDIR && Locate(a, blk) != OutOfRange
      modifies this
      ensures Grown(old(State()), blk)
      ensures code == OK || (code == ENOSPC && !wmapFree)
      ensures wmapFree ==> State() == old(State())
      ensures refused == old(refused) + if code == ENOSPC then 1 else 0
      ensures code == ENOSPC ==> NodeAt(old(File()), blk, 1) == 0 && NodeAt(File(), blk, 1) == 0
      ensures code == ENOSPC ==> MapOf(old(File()), blk) == 0
      ensures code == OK ==> OnWay(blk, b1, b2, b3, index1, index2, index3) && (!wmapFree ==> b1 != 0)
    {
      ghost var s0 := State();
      MovedStart(s0, blk);
      WayWhole(s0.f, blk);
      Caps(a);
      SlotsOf(a, blk);
      code, b1, b2, b3, index1, index2, index3 := OK, 0, 0, 0, 0, 0, 0;
      var a2 := a * a;
      var doubInd, tripleInd := NDIR + a, NDIR + a + a2;
      if blk < doubInd {
        RecordedIs(File(), blk, 1, 0, 0, 0);
        index1 := blk - NDIR;
        b1 := FindOrCreate(s0, blk, 1, 0, 0, root[NDIR], wmapFree);
      } else {
        var excess := blk - doubInd;
        if blk >= tripleInd {
          b2, b3, index3, excess := FromTriple(s0, blk, wmapFree);
          if b3 == 0 {
            NothingBelow(File(), blk, 3);
            NothingBelow(File(), blk, 2);
            if !wmapFree {
              code := ENOSPC;
            }
            return;
          }
        } else {
          RecordedIs(File(), blk, 2, 0, 0, 0);
          b2 := root[NDIR + 1];
        }
        b2 := FindOrCreate(s0, blk, 2, b3, index3, b2, wmapFree);
        if b2 == 0 {
          NothingBelow(File(), blk, 2);
          if !wmapFree {
            code := ENOSPC;
          }
          return;
        }
        index2 := excess / a;
        index1 := excess % a;
        RecordedIs(File(), blk, 1, b2, index2, 0);
        b1 := FindOrCreate(s0, blk, 1, b2, index2, disk[b2][index2], wmapFree);
      }
      if b1 == 0 && !wmapFree {
        code := ENOSPC;
      }
    }

    /** Only blocks of the way to `blk` have left the file since `s0`, and it is a hole. */
    ghost predicate Shrunk(s0: Snap, blk: nat)
      reads this
    {
      && Valid() && Ok(s0.f) && Moved(s0, State(), blk, 0) && FileBlocks(File()) <= FileBlocks(s0.f)
      && Locate(a, blk) != OutOfRange && MapOf(s0.f, blk) !in FileBlocks(File())
      && forall b :: b in FileBlocks(s0.f) - FileBlocks(File()) ==> OfWay(s0.f, blk, b)
    }

    /** write_map with WMAP_FREE: the data block. */
    method FreeData(blk: nat, b1: nat, index1: nat)
      requires Valid() && b1 != 0 && OnLevel(File(), blk, 0, b1, index1)
      modifies `root, `iBlocks, `disk, `free
      ensures Shrunk(old(State()), blk) && NodeAt(File(), blk, 1) == b1
      ensures LevelOf(a, blk) > 1 ==> NodeAt(File(), blk, 2) == NodeAt(old(File()), blk, 2)
      ensures LevelOf(a, blk) > 2 ==> NodeAt(File(), blk, 3) == NodeAt(old(File()), blk, 3)
    {
      ghost var s0 := State();
      RecordedIs(File(), blk, 0, b1, index1, 0);
      DataFreed(s0, blk, b1, index1);
      var oldBlock := disk[b1][index1];
      if oldBlock != 0 {
        FreeBlock(oldBlock);
        iBlocks := iBlocks - sectors;
        disk := SetEntry(disk, b1, index1, 0);
      }
      assert State() == WithoutData(s0, blk);
    }

    /** write_map with WMAP_FREE: an indirect block that has become empty goes too. */
    method Prune(ghost s0: Snap, ghost blk: nat, m: nat, b: nat, above: nat, index: nat) returns (left: nat)
      requires Shrunk(s0, blk) && OnLevel(File(), blk, m, above, index) && m > 0 && b != 0 && b == NodeAt(File(), blk, m)
      requires b == NodeAt(s0.f, blk, m)
      modifies `root, `iBlocks, `disk, `free
      ensures Shrunk(s0, blk) && left == NodeAt(File(), blk, m)
      ensures left == 0 || (left == b && State() == old(State()) && HasEntry(File(), b))
      ensures above != 0 ==> NodeAt(File(), blk, m + 1) == above
      ensures m + 1 < LevelOf(a, blk) ==> NodeAt(File(), blk, m + 2) == NodeAt(old(File()), blk, m + 2)
    {
      ghost var s := State();
      LocateIsPlace(a, blk);
      StepWay(File(), Locate(a, blk).k, Locate(a, blk).idx, m);
      var empty := EmptyIndir(b);
      if empty {
        RemoveBlock(blk, m, b, above, index);
        MovedShrink(s0, s, State(), blk, 0, b);
        left := 0;
      } else {
        var i :| 0 <= i < a && disk[b][i] != 0;
        assert Entry(disk, b, i) != 0;
        left := b;
      }
    }

    /** write_map with WMAP_FREE, from where the way to the position is known. */
    method FreeWay(blk: nat, b1: nat, b2: nat, b3: nat, index1: nat, index2: nat, index3: nat)
      requires Valid() && blk >= NDIR && OnWay(blk, b1, b2, b3, index1, index2, index3)
      modifies `root, `iBlocks, `disk, `free
      ensures Freed(old(State()), State(), blk)
    {
      ghost var s0 := State();
      var single, triple := blk < NDIR + a, blk >= NDIR + a + a * a;
      Caps(a);
      var c1, c2, c3 := b1, b2, b3;
      if c1 != 0 {
        FreeData(blk, c1, index1);
        c1 := Prune(s0, blk, 1, c1, if single then 0 else c2, index2);
      } else {
        HoleBelow(File(), blk);
        MovedStart(s0, blk);
      }
      if c1 == 0 && !single && c2 != 0 {
        c2 := Prune(s0, blk, 2, c2, if triple then c3 else 0, index3);
      }
      if c2 == 0 && triple && c3 != 0 {
        c3 := Prune(s0, blk, 3, c3, 0, 0);
      }
      AllHaveEntries(File(), blk, c1, c2, c3);
    }

    /** write_map for an indirect position. */
    method WriteIndirect(blk: nat, newBlock: nat, wmapFree: bool) returns (code: Code)
      requires Valid() && blk >= NDIR && Locate(a, blk) != OutOfRange
      requires !wmapFree ==> newBlock != 0 && newBlock !in free && newBlock !in FileBlocks(File())
      modifies this
      ensures refused == old(refused) + if code == ENOSPC then 1 else 0
      ensures Written(old(State()), State(), blk, newBlock, wmapFree, code)
    {
      ghost var s0 := State();
      var b1, b2, b3, index1, index2, index3;
      code, b1, b2, b3, index1, index2, index3 := Descend(blk, wmapFree);
      if code != OK {
        return;
      }
      if wmapFree {
        FreeWay(blk, b1, b2, b3, index1, index2, index3);
      } else {
        DataStored(s0, State(), blk, b1, index1, newBlock);
        RecordedIs(File(), blk, 0, b1, index1, newBlock);
        disk := SetEntry(disk, b1, index1, newBlock);
        iBlocks := iBlocks + sectors;
      }
    }

    /** write_map for a direct position. */
    method WriteDirect(blk: nat, newBlock: nat, wmapFree: bool)
      requires Valid() && blk < NDIR
      requires !wmapFree ==> newBlock != 0 && newBlock !in free && newBlock !in FileBlocks(File())
      modifies `root, `iBlocks, `disk, `free
      ensures Written(old(State()), State(), blk, newBlock, wmapFree, OK)
    {
      ghost var s0 := State();
      DirectWritten(s0, blk, newBlock, wmapFree);
      if root[blk] != 0 && wmapFree {
        FreeBlock(root[blk]);
        root := root[blk := 0];
        iBlocks := iBlocks - sectors;
      } else {
        root := root[blk := newBlock];
        iBlocks := iBlocks + sectors;
      }
      assert State() == AfterDirect(s0, blk, newBlock, wmapFree);
    }

    /** write_map. */
    method WriteMap(position: nat, newBlock: nat, wmapFree: bool) returns (code: Code)
      requires Valid()
      requires !wmapFree ==> newBlock != 0 && newBlock !in free && newBlock !in FileBlocks(File())
      modifies this
      ensures refused == old(refused) + if code == ENOSPC then 1 else 0
      ensures Written(old(State()), State(), position / blockSize, newBlock, wmapFree, code)
      ensures Valid() <==> !(wmapFree && position / blockSize < NDIR && MapOf(old(File()), position / blockSize) == 0)
                           || newBlock == 0 || (newBlock !in old(free) && newBlock !in FileBlocks(old(File())))
    {
      var blk := position / blockSize;
      Caps(a);
      ghost var s0 := State();
      if blk < NDIR {
        WriteDirect(blk, newBlock, wmapFree);
        code := OK;
      } else if blk >= NDIR + a + a * a + (a * a) * a {
        code := EFBIG;
      } else {
        code := WriteIndirect(blk, newBlock, wmapFree);
      }
      WrittenOk(s0, State(), blk, newBlock, wmapFree, code);
    }
  }

  /** The state after write_map on a direct position. */
  function AfterDirect(s: Snap, blk: nat, v: nat, wmapFree: bool): Snap
    requires Ok(s.f) && blk < NDIR
  {
    if s.f.root[blk] != 0 && wmapFree then
      Snap(s.f.(root := s.f.root[blk := 0]), s.free + {s.f.root[blk]}, s.iBlocks - s.sectors, s.sectors)
    else
      Put(s, blk, v)
  }

  lemma DirectWritten(s: Snap, blk: nat, v: nat, wmapFree: bool)
    requires SnapOk(s) && blk < NDIR
    requires !wmapFree ==> v != 0 && v !in s.free && v !in FileBlocks(s.f)
    ensures Written(s, AfterDirect(s, blk, v, wmapFree), blk, v, wmapFree, OK)
    ensures s.f.root[blk] !in s.free
  {
    RecordedIs(s.f, blk, 0, 0, 0, v);
    DataFreed(s, blk, 0, 0);
    if !wmapFree {
      MovedStart(s, blk);
      DataStored(s, s, blk, 0, 0, v);
    }
  }

  lemma WrittenOk(s0: Snap, s: Snap, blk: nat, v: nat, wmapFree: bool, code: Code)
    requires SnapOk(s0) && Written(s0, s, blk, v, wmapFree, code)
    ensures Ok(s.f) && s.f.a == s0.f.a
    ensures SnapOk(s) <==> !(wmapFree && blk < NDIR && MapOf(s0.f, blk) == 0)
                           || v == 0 || (v !in s0.free && v !in FileBlocks(s0.f))
  {
    if wmapFree && blk < NDIR && MapOf(s0.f, blk) == 0 {
      PutInHole(s0, blk, v);
    }
  }

  /** Freeing the first block of an empty file with a new block 7 maps that block. */
  method FreeingStores() returns (ino: Inode)
    ensures fresh(ino) && Ok(ino.File()) && MapOf(ino.File(), 0) == 7
  {
    ino := new Inode(1, 1, 2, {});
    ghost var s0 := ino.State();
    var code := ino.WriteMap(0, 7, true);
    PutInHole(s0, 0, 7);
  }

  /** A single indirect block is there only if the blocks above it are, and a mapped position needs one. */
  lemma WayWhole(f: Ino, blk: nat)
    requires FileShaped(f) && Locate(f.a, blk) != OutOfRange && LevelOf(f.a, blk) >= 1
    ensures NodeAt(f, blk, 1) == 0 ==> MapOf(f, blk) == 0
    ensures NodeAt(f, blk, 1) != 0 ==> forall m: nat :: 1 <= m <= LevelOf(f.a, blk) ==> NodeAt(f, blk, m) != 0
  {
    LocateIsPlace(f.a, blk);
    if NodeAt(f, blk, 1) == 0 {
      HoleBelow(f, blk);
    } else if LevelOf(f.a, blk) >= 2 {
      assert NodeAt(f, blk, 2) != 0 by {
        if NodeAt(f, blk, 2) == 0 { NothingBelow(f, blk, 2); }
      }
      if LevelOf(f.a, blk) >= 3 && NodeAt(f, blk, 3) == 0 {
        NothingBelow(f, blk, 3);
      }
    }
  }

  lemma HoleBelow(f: Ino, blk: nat)
    requires FileShaped(f) && Locate(f.a, blk) != OutOfRange && LevelOf(f.a, blk) >= 1 && NodeAt(f, blk, 1) == 0
    ensures MapOf(f, blk) == 0
    ensures 0 !in FileBlocks(f)
  {
    NothingBelow(f, blk, 1);
    WayEnds(f, blk);
    OldInFile(f, blk);
  }

  lemma AllHaveEntries(f: Ino, blk: nat, c1: nat, c2: nat, c3: nat)
    requires FileShaped(f) && Locate(f.a, blk) != OutOfRange
    requires var l := LevelOf(f.a, blk);
      && 1 <= l <= 3 && c1 == NodeAt(f, blk, 1) && (l >= 2 ==> c2 == NodeAt(f, blk, 2)) && (l >= 3 ==> c3 == NodeAt(f, blk, 3))
      && (c1 != 0 ==> HasEntry(f, c1))
      && (l >= 2 && c2 != 0 ==> c1 != 0 || HasEntry(f, c2))
      && (l >= 3 && c3 != 0 ==> c2 != 0 || HasEntry(f, c3))
    ensures forall m: nat :: 1 <= m <= LevelOf(f.a, blk) && NodeAt(f, blk, m) != 0 ==> HasEntry(f, NodeAt(f, blk, m))
  {
    LocateIsPlace(f.a, blk);
    forall m: nat | 1 <= m <= LevelOf(f.a, blk) && NodeAt(f, blk, m) != 0 ensures HasEntry(f, NodeAt(f, blk, m)) {
      if m > 1 && NodeAt(f, blk, m - 1) != 0 {
        StepWay(f, Locate(f.a, blk).k, Locate(f.a, blk).idx, m);
        assert Entry(f.disk, NodeAt(f, blk, m), SlotAt(f.a, blk, m)) != 0;
      }
    }
  }
}
