/**
 truncate_inode and freesp_inode of the ext2 server: the bytes of a file, read through the block map, the
 blocks that leave the file, and its size.
 */
module Truncate {
  import opened Division
  import opened BlockTree
  import opened FileMap
  import opened MapSteps
  import opened BlockMap

  type Data = map<nat, seq<nat>>

  /** The byte at `pos`; a hole reads as zeros. */
  function ByteOf(f: Ino, data: Data, size: nat, pos: nat): nat
    requires Ok(f) && size > 0
  {
    StoredByte(data, MapOf(f, pos / size), pos % size)
  }

  function StoredByte(data: Data, b: nat, i: nat): nat {
    if b != 0 && b in data && i < |data[b]| then data[b][i] else 0
  }

  // ---------------------------------------------------------------- the arithmetic of blocks

  /** The number of the first block that starts at or after `pos`. */
  function FirstFrom(pos: nat, size: nat): nat
    requires size > 0
  {
    pos / size + if pos % size != 0 then 1 else 0
  }

  /** Where the block of a position begins and ends. */
  function BlockStart(pos: nat, size: nat): nat
    requires size > 0
  {
    Times(pos / size, size)
  }

  function BlockEnd(pos: nat, size: nat): nat
    requires size > 0
  {
    Times(pos / size + 1, size)
  }

  /** nextblock. */
  function NextBlock(pos: nat, size: nat): (p: nat)
    requires size > 0
    ensures pos <= p < pos + size && p % size == 0 && p / size == FirstFrom(pos, size)
  {
    DivMod(pos, size);
    InBlock(pos, pos / size, size);
    InBlock(pos, pos / size + 1, size);
    Times(pos / size, size) + if pos % size != 0 then size else 0
  }

  // ---------------------------------------------------------------- no data block is mapped twice

  lemma {:induction false} ReadInBlocks(d: Disk, a: nat, b: nat, l: nat, idx: nat)
    requires a > 0 && idx < Cap(a, l) && Read(d, a, b, l, idx) != 0
    ensures Read(d, a, b, l, idx) in Blocks(d, a, b, l)
    decreases l
  {
    if b != 0 && l > 0 {
      StepDown(a, l, idx);
      var c := Cap(a, l - 1);
      InBlocks(d, a, b, l, Quotient(idx, c));
      ReadInBlocks(d, a, Entry(d, b, Quotient(idx, c)), l - 1, Remainder(idx, c));
    }
  }

  /** One step down to file block `x`: through entry `i`, to file block `r` below it. */
  lemma ReadStep(d: Disk, a: nat, b: nat, l: nat, x: nat) returns (i: nat, r: nat)
    requires a > 0 && l > 0 && x < Cap(a, l) && b != 0
    ensures i < a && r < Cap(a, l - 1) && x == Product(i, Cap(a, l - 1)) + r
    ensures Read(d, a, b, l, x) == Read(d, a, Entry(d, b, i), l - 1, r)
  {
    var c := Cap(a, l - 1);
    DivBound(x, c, a);
    i, r := Quotient(x, c), Remainder(x, c);
  }

  lemma {:induction false} ReadsDiffer(d: Disk, a: nat, b: nat, l: nat, x: nat, y: nat)
    requires a > 0 && x < Cap(a, l) && y < Cap(a, l) && x != y && Shaped(d, a, b, l) && Read(d, a, b, l, x) != 0
    ensures Read(d, a, b, l, x) != Read(d, a, b, l, y)
    decreases l
  {
    assert l > 0 && b != 0;
    var i, r := ReadStep(d, a, b, l, x);
    var j, s := ReadStep(d, a, b, l, y);
    if i == j {
      assert ShapedBelow(d, a, b, l, i);
      ReadsDiffer(d, a, Entry(d, b, i), l - 1, r, s);
    } else {
      SiblingsDiffer(d, a, b, l, i, j, r, s);
    }
  }

  lemma SiblingsDiffer(d: Disk, a: nat, b: nat, l: nat, i: nat, j: nat, r: nat, s: nat)
    requires a > 0 && l > 0 && b != 0 && i < a && j < a && i != j && r < Cap(a, l - 1) && s < Cap(a, l - 1)
    requires Shaped(d, a, b, l) && Read(d, a, Entry(d, b, i), l - 1, r) != 0
    ensures Read(d, a, Entry(d, b, i), l - 1, r) != Read(d, a, Entry(d, b, j), l - 1, s)
  {
    ReadInBlocks(d, a, Entry(d, b, i), l - 1, r);
    assert if i < j then Below(d, a, b, l, i) !! Below(d, a, b, l, j) else Below(d, a, b, l, j) !! Below(d, a, b, l, i);
    if Read(d, a, Entry(d, b, j), l - 1, s) != 0 {
      ReadInBlocks(d, a, Entry(d, b, j), l - 1, s);
    }
  }

  /** In a tree-shaped block map different file blocks are never mapped to the same disk block. */
  lemma MapInjective(f: Ino, x: nat, y: nat)
    requires FileShaped(f) && x != y && MapOf(f, x) != 0
    ensures MapOf(f, x) != MapOf(f, y)
  {
    if MapOf(f, y) != 0 {
      var p, q := Locate(f.a, x), Locate(f.a, y);
      LocateIsPlace(f.a, x);
      LocateIsPlace(f.a, y);
      assert TreeOk(f, p.k);
      if p.k == q.k {
        if p.idx == q.idx { LocateInjective(f.a, x, y); }
        ReadsDiffer(f.disk, f.a, f.root[p.k], Level(p.k), p.idx, q.idx);
      } else {
        ReadInBlocks(f.disk, f.a, f.root[p.k], Level(p.k), p.idx);
        ReadInBlocks(f.disk, f.a, f.root[q.k], Level(q.k), q.idx);
        OnlyThere(f, p.k, MapOf(f, x));
        assert MapOf(f, y) in Tree(f, q.k);
      }
    }
  }

  lemma MappedInFile(f: Ino, x: nat)
    requires FileShaped(f) && MapOf(f, x) != 0
    ensures MapOf(f, x) in FileBlocks(f)
  {
    OldInFile(f, x);
  }

  // ---------------------------------------------------------------- zeroing and freeing

  function Zeroed(s: seq<nat>, offset: nat, len: nat): (z: seq<nat>)
    requires offset + len <= |s|
    ensures |z| == |s| && forall i :: 0 <= i < |s| ==> z[i] == if offset <= i < offset + len then 0 else s[i]
  {
    s[..offset] + seq(len, _ => 0) + s[offset + len..]
  }

  /** All blocks of the file are there in full. */
  ghost predicate HasData(f: Ino, data: Data, size: nat)
    requires Ok(f)
  {
    forall b :: b in FileBlocks(f) ==> b in data && |data[b]| == size
  }

  /** The bytes from `lo` up to `hi` are zero, the others as before. */
  ghost predicate Zeroes(f0: Ino, data0: Data, f: Ino, data: Data, size: nat, lo: nat, hi: nat)
    requires Ok(f0) && Ok(f) && size > 0
  {
    forall q: nat :: ByteOf(f, data, size, q) == if lo <= q < hi then 0 else ByteOf(f0, data0, size, q)
  }

  lemma ZeroedBytes(f: Ino, data: Data, size: nat, pos: nat, len: nat)
    requires FileShaped(f) && size > 0 && pos % size + len <= size && HasData(f, data, size)
    ensures var b := MapOf(f, pos / size);
      if b == 0 then Zeroes(f, data, f, data, size, pos, pos + len)
      else
        && b in data && |data[b]| == size
        && Zeroes(f, data, f, data[b := Zeroed(data[b], pos % size, len)], size, pos, pos + len)
  {
    var b := MapOf(f, pos / size);
    if b == 0 {
      forall q: nat
        ensures ByteOf(f, data, size, q) == if pos <= q < pos + len then 0 else ByteOf(f, data, size, q)
      {
        RangeInBlock(pos, len, q, size);
      }
    } else {
      MappedInFile(f, pos / size);
      var data' := data[b := Zeroed(data[b], pos % size, len)];
      forall q: nat
        ensures ByteOf(f, data', size, q) == if pos <= q < pos + len then 0 else ByteOf(f, data, size, q)
      {
        RangeInBlock(pos, len, q, size);
        DivMod(q, size);
        if q / size != pos / size {
          MapInjective(f, pos / size, q / size);
        }
      }
    }
  }

  /** The file blocks from `lo` up to `hi` are holes, the others mapped as before. */
  ghost predicate Cut(f0: Ino, f: Ino, lo: nat, hi: nat) {
    && Ok(f0) && Ok(f) && f.a == f0.a
    && forall x: nat :: MapOf(f, x) == if lo <= x < hi then 0 else MapOf(f0, x)
  }

  /** Blocks have left the file, and they are free now. */
  ghost predicate Released(s0: Snap, s: Snap) {
    && Ok(s0.f) && SnapOk(s) && s.sectors == s0.sectors && Slack(s) >= Slack(s0)
    && FileBlocks(s.f) <= FileBlocks(s0.f) && s.free == s0.free + (FileBlocks(s0.f) - FileBlocks(s.f))
  }

  lemma FreeOne(s0: Snap, s: Snap, t: Snap, lo: nat, p: nat)
    requires Released(s0, s) && Cut(s0.f, s.f, lo, p) && lo <= p && Written(s, t, p, 0, true, OK)
    ensures Released(s0, t) && Cut(s0.f, t.f, lo, p + 1)
  {
    if p < NDIR && MapOf(s.f, p) == 0 {
      PutInHole(s, p, 0);
      assert FileBlocks(t.f) == FileBlocks(s.f);
    }
    forall x: nat ensures MapOf(t.f, x) == if lo <= x < p + 1 then 0 else MapOf(s0.f, x) {
      assert MapOf(t.f, x) == if x == p then 0 else MapOf(s.f, x);
    }
  }

  lemma CutBytes(f0: Ino, f: Ino, data: Data, size: nat, lo: nat, hi: nat)
    requires size > 0 && Cut(f0, f, lo, hi)
    ensures Zeroes(f0, data, f, data, size, Times(lo, size), Times(hi, size))
  {
    forall q: nat
      ensures ByteOf(f, data, size, q) == if Times(lo, size) <= q < Times(hi, size) then 0 else ByteOf(f0, data, size, q)
    {
      InBlock(q, lo, size);
      InBlock(q, hi, size);
    }
  }

  lemma NoProduct(x: nat, y: nat)
    requires x > 0 && x * y <= 0
    ensures y == 0
  {
  }

  /** i_blocks == 0 means that there is nothing to free. */
  lemma NoBlocksNoMap(s: Snap)
    requires SnapOk(s) && s.sectors > 0 && s.iBlocks == 0 && Slack(s) >= 0
    ensures FileBlocks(s.f) == {} && forall x: nat :: MapOf(s.f, x) == 0
  {
    NoProduct(s.sectors, |FileBlocks(s.f)|);
    forall x: nat ensures MapOf(s.f, x) == 0 {
      if MapOf(s.f, x) != 0 { MappedInFile(s.f, x); }
    }
  }

  datatype Result = Done | Invalid | TooBig
  datatype Half = FIRST_HALF | LAST_HALF

  /** The first file block that the block map cannot reach. */
  function OutRange(a: nat): nat {
    NDIR + Cap(a, 1) + Cap(a, 2) + Cap(a, 3)
  }

  /** The block before which the blocks end that lie, as far as the file goes, before `end`. */
  function HoleEnd(end: nat, fileSize: nat, size: nat): nat
    requires size > 0
  {
    if end >= fileSize then FirstFrom(fileSize, size) else end / size
  }

  /** Start and end of a hole in terms of blocks. */
  lemma HoleBlocks(start: nat, end: nat, size: nat)
    requires size > 0 && start < end
    ensures start / size <= (end - 1) / size
    ensures start / size == (end - 1) / size ==> start % size + (end - start) <= size
  {
    var last: nat := end - 1;
    DivMod(start, size);
    DivMod(last, size);
    InBlock(last, start / size, size);
    InBlock(start, last / size + 1, size);
  }

  lemma HoleEnds(end: nat, size: nat)
    requires size > 0 && end > 0
    ensures FirstFrom(end, size) == (end - 1) / size + 1
    ensures end / size <= FirstFrom(end, size) <= end / size + 1
  {
    var last: nat := end - 1;
    FirstLeast(end, last / size + 1, size);
    FirstLeast(end, last / size, size);
    InBlock(last, last / size + 1, size);
    InBlock(last, last / size, size);
    FirstLeast(end, end / size + 1, size);
    InBlock(end, end / size + 1, size);
    InBlock(end, end / size, size);
    InBlock(last, end / size, size);
  }

  /** Of the first `fileSize` bytes those from `start` up to `end` are zero and the others as before. */
  ghost predicate HoleMade(f0: Ino, data0: Data, f: Ino, data: Data, size: nat, start: nat, end: nat, fileSize: nat)
    requires Ok(f0) && Ok(f) && size > 0
  {
    forall q: nat :: q < fileSize ==>
      ByteOf(f, data, size, q) == if start <= q < end then 0 else ByteOf(f0, data0, size, q)
  }

  /** The hole is the rest of the first block, the whole blocks and the beginning of the last block. */
  lemma HoleBytes(f0: Ino, data0: Data, data1: Data, data2: Data, f: Ino, size: nat, start: nat, end: nat, fileSize: nat)
    requires size > 0 && start < end <= fileSize && Ok(f0)
    requires start / size < (end - 1) / size || (start % size == 0 && (end % size == 0 || end == fileSize))
    requires Zeroes(f0, data0, f0, data1, size, start, Times(FirstFrom(start, size), size))
    requires if end % size != 0 && end < fileSize then Zeroes(f0, data1, f0, data2, size, Times(end / size, size), end)
             else data2 == data1
    requires Cut(f0, f, FirstFrom(start, size), HoleEnd(end, fileSize, size))
    ensures HoleMade(f0, data0, f, data2, size, start, end, fileSize)
  {
    var lo, hi := FirstFrom(start, size), HoleEnd(end, fileSize, size);
    CutBytes(f0, f, data2, size, lo, hi);
    HoleBlocks(start, end, size);
    HoleEnds(end, size);
    DivMod(start, size);
    DivMod(end, size);
    TimesUp(start / size, start / size + 1, size);
    TimesUp(end / size, end / size + 1, size);
    TimesUp(lo, end / size, size);
    forall q: nat | q < fileSize
      ensures ByteOf(f, data2, size, q) == if start <= q < end then 0 else ByteOf(f0, data0, size, q)
    {
      assert ByteOf(f0, data1, size, q) == if start <= q < Times(lo, size) then 0 else ByteOf(f0, data0, size, q);
    }
  }

  lemma TruncatedBytes(f0: Ino, data0: Data, f1: Ino, data1: Data, f: Ino, data: Data, size: nat, oldSize: nat, newSize: nat)
    requires size > 0 && Ok(f0) && forall x: nat :: x >= FirstFrom(oldSize, size) ==> MapOf(f0, x) == 0
    requires if newSize < oldSize then
               Cut(f0, f1, FirstFrom(newSize, size), FirstFrom(oldSize, size)) && HoleMade(f0, data0, f1, data1, size, newSize, oldSize, oldSize)
             else f1 == f0 && data1 == data0
    requires f == f1
    requires if newSize > oldSize then Zeroes(f1, data1, f, data, size, oldSize, Times(oldSize / size + 1, size)) else data == data1
    ensures forall q: nat :: q < newSize ==>
      ByteOf(f, data, size, q) == if q < oldSize then ByteOf(f0, data0, size, q) else 0
    ensures forall x: nat :: MapOf(f, x) == if x < FirstFrom(newSize, size) then MapOf(f0, x) else 0
  {
    FirstGrows(newSize, oldSize, size);
    forall q: nat | q < newSize
      ensures ByteOf(f, data, size, q) == if q < oldSize then ByteOf(f0, data0, size, q) else 0
    {
      if newSize > oldSize && q >= oldSize {
        InBlock(q, oldSize / size + 1, size);
      }
    }
  }

  lemma FirstGrows(x: nat, y: nat, size: nat)
    requires size > 0
    ensures x <= y ==> FirstFrom(x, size) <= FirstFrom(y, size)
    ensures y <= x ==> FirstFrom(y, size) <= FirstFrom(x, size)
  {
    FirstLeast(x, FirstFrom(y, size), size);
    FirstLeast(y, FirstFrom(x, size), size);
    FirstLeast(x, FirstFrom(x, size), size);
    FirstLeast(y, FirstFrom(y, size), size);
  }

  /** FirstFrom is the least block number that starts at or after the position. */
  lemma FirstLeast(x: nat, b: nat, size: nat)
    requires size > 0
    ensures FirstFrom(x, size) <= b <==> x <= Times(b, size)
  {
    DivMod(x, size);
    InBlock(x, b, size);
    TimesUp(x / size, x / size + 1, size);
    if x / size + 1 <= b { TimesUp(x / size + 1, b, size); }
  }

  lemma HoleInReach(end: nat, fileSize: nat, maxSize: nat, blocks: nat, size: nat)
    requires size > 0 && end <= fileSize <= maxSize <= Times(blocks, size)
    ensures HoleEnd(end, fileSize, size) <= blocks
  {
    FirstLeast(end, blocks, size);
    FirstLeast(fileSize, blocks, size);
  }

  class RegularFile {
    const ino: Inode
    const maxSize: nat      // s_max_size: no byte within it is out of reach of the block map
    const special: bool     // a character or block special file
    var size: nat           // i_size
    var data: Data          // the bytes of the data blocks

    constructor (ino: Inode, maxSize: nat, special: bool, size: nat, data: Data)
      requires ino.Valid() && Slack(ino.State()) >= 0 && HasData(ino.File(), data, ino.blockSize)
      requires size <= maxSize <= Times(OutRange(ino.a), ino.blockSize)
      ensures this.ino == ino && this.maxSize == maxSize && this.special == special && this.size == size && this.data == data
      ensures Valid()
    {
      this.ino, this.maxSize, this.special, this.size, this.data := ino, maxSize, special, size, data;
    }

    ghost predicate Valid()
      reads this, ino
    {
      && ino.Valid() && Slack(ino.State()) >= 0 && HasData(ino.File(), data, ino.blockSize)
      && size <= maxSize <= Times(OutRange(ino.a), ino.blockSize)
    }

    /** Nothing is mapped past the end of the file. */
    ghost predicate Tight()
      reads this, ino
      requires ino.Valid()
    {
      forall x: nat :: x >= FirstFrom(size, ino.blockSize) ==> MapOf(ino.File(), x) == 0
    }

    ghost function Byte(pos: nat): nat
      reads this, ino
      requires ino.Valid()
    {
      ByteOf(ino.File(), data, ino.blockSize, pos)
    }

    method ZeroblockRange(pos: nat, len: nat)
      requires Valid() && pos % ino.blockSize + len <= ino.blockSize
      modifies `data
      ensures Valid()
      ensures Zeroes(ino.File(), old(data), ino.File(), data, ino.blockSize, pos, pos + len)
    {
      if len == 0 {
        return;
      }
      var b := ino.ReadMap(pos);
      ZeroedBytes(ino.File(), data, ino.blockSize, pos, len);
      if b == 0 {
        return;
      }
      var offset := pos % ino.blockSize;
      data := data[b := Zeroed(data[b], offset, len)];
    }

    /** FIRST_HALF is what precedes `pos` in its block, LAST_HALF the rest. */
    method ZeroblockHalf(pos: nat, half: Half)
      requires Valid()
      modifies `data
      ensures Valid()
      ensures half == FIRST_HALF ==>
        Zeroes(ino.File(), old(data), ino.File(), data, ino.blockSize, BlockStart(pos, ino.blockSize), pos)
      ensures half == LAST_HALF ==>
        Zeroes(ino.File(), old(data), ino.File(), data, ino.blockSize, pos, BlockEnd(pos, ino.blockSize))
    {
      DivMod(pos, ino.blockSize);
      InBlock(pos, pos / ino.blockSize, ino.blockSize);
      var offset := pos % ino.blockSize;
      if half == LAST_HALF {
        ZeroblockRange(pos, ino.blockSize - offset);
      } else {
        ZeroblockRange(pos - offset, offset);
      }
    }

    /** The loop of freesp_inode: free the blocks from `lo` up to `hi`. */
    method FreeBlocks(lo: nat, hi: nat)
      requires Valid() && hi <= OutRange(ino.a)
      modifies ino
      ensures Valid() && Released(old(ino.State()), ino.State())
      ensures Cut(old(ino.File()), ino.File(), lo, hi)
    {
      ghost var s0 := ino.State();
      var p := lo;
      while p < hi
        invariant lo <= p && (p <= hi || p == lo) && ino.Valid()
        invariant Released(s0, ino.State()) && Cut(s0.f, ino.File(), lo, p)
      {
        ghost var s := ino.State();
        DivOfTimes(p, ino.blockSize);
        var code := ino.WriteMap(Times(p, ino.blockSize), 0, true);
        assert code == OK;
        FreeOne(s0, s, ino.State(), lo, p);
        p := p + 1;
      }
    }

    /** freesp_inode where the hole is not just a part of one block. */
    method FreeAcross(start: nat, end: nat)
      requires Valid() && start < end <= size
      requires start / ino.blockSize < (end - 1) / ino.blockSize ||
               (start % ino.blockSize == 0 && (end % ino.blockSize == 0 || end == size))
      modifies ino, `data
      ensures Valid() && Released(old(ino.State()), ino.State())
      ensures Cut(old(ino.File()), ino.File(), FirstFrom(start, ino.blockSize), HoleEnd(end, size, ino.blockSize))
      ensures HoleMade(old(ino.File()), old(data), ino.File(), data, ino.blockSize, start, end, size)
    {
      var blockSize := ino.blockSize;
      ghost var f0, data0 := ino.File(), data;
      HoleBlocks(start, end, blockSize);
      HoleEnds(end, blockSize);
      DivMod(start, blockSize);
      if start % blockSize != 0 {
        ZeroblockHalf(start, LAST_HALF);
      }
      ghost var data1 := data;
      if end % blockSize != 0 && end < size {
        ZeroblockHalf(end, FIRST_HALF);
      }
      var e := end / blockSize;
      if end == size && end % blockSize != 0 {
        e := e + 1;
      }
      HoleInReach(end, size, maxSize, OutRange(ino.a), blockSize);
      assert e == HoleEnd(end, size, blockSize);
      FreeBlocks(NextBlock(start, blockSize) / blockSize, e);
      HoleBytes(f0, data0, data1, data, ino.File(), blockSize, start, end, size);
    }

    /** freesp_inode: cut a hole from `start` up to `end`. */
    method FreespInode(start: nat, end: nat) returns (r: Result)
      requires Valid()
      modifies ino, `data
      ensures Valid() && r == (if old(ino.iBlocks) != 0 && (end <= start || size <= start) then Invalid else Done)
      ensures r == Invalid ==> ino.State() == old(ino.State()) && data == old(data)
      ensures r == Done ==> Released(old(ino.State()), ino.State())
      ensures r == Done ==> Cut(old(ino.File()), ino.File(), FirstFrom(start, ino.blockSize), HoleEnd(end, size, ino.blockSize))
      ensures r == Done ==> HoleMade(old(ino.File()), old(data), ino.File(), data, ino.blockSize, start, end, size)
    {
      var blockSize := ino.blockSize;
      if ino.iBlocks == 0 {
        NoBlocksNoMap(ino.State());
        return Done;
      }
      var last := if end > size then size else end;
      if last <= start {
        return Invalid;
      }
      var zeroLast := start % blockSize != 0;
      var zeroFirst := last % blockSize != 0 && last < size;
      HoleBlocks(start, last, blockSize);
      HoleEnds(last, blockSize);
      if start / blockSize == (last - 1) / blockSize && (zeroLast || zeroFirst) {
        ZeroblockRange(start, last - start);
      } else {
        FreeAcross(start, last);
      }
      r := Done;
    }

    /** truncate_inode. */
    method TruncateInode(newSize: nat) returns (r: Result)
      requires Valid() && Tight()
      modifies ino, `data, `size
      ensures Valid() && Tight()
      ensures r == if special then Invalid else if newSize > maxSize then TooBig else Done
      ensures r != Done ==> ino.State() == old(ino.State()) && data == old(data) && size == old(size)
      ensures r == Done ==> size == newSize && Released(old(ino.State()), ino.State())
      ensures r == Done ==> forall q: nat :: q < newSize ==> Byte(q) == if q < old(size) then old(Byte(q)) else 0
      ensures r == Done ==> forall x: nat ::
        MapOf(ino.File(), x) == if x < FirstFrom(newSize, ino.blockSize) then MapOf(old(ino.File()), x) else 0
    {
      if special {
        return Invalid;
      }
      if newSize > maxSize {
        return TooBig;
      }
      ghost var f0, data0 := ino.File(), data;
      r := Done;
      if newSize < size {
        r := FreespInode(newSize, size);
      }
      ghost var f1, data1 := ino.File(), data;
      if newSize > size {
        ZeroblockHalf(size, LAST_HALF);
      }
      TruncatedBytes(f0, data0, f1, data1, ino.File(), data, ino.blockSize, size, newSize);
      size := newSize;
    }
  }
}
