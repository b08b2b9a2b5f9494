/**
 The block map of an inode as a whole: twelve direct blocks and the roots of a single, a double and a triple
 indirect tree. It maps file blocks to disk blocks.
 */
module FileMap {
  import opened BlockTree

  const NDIR: nat := 12      // EXT2_NDIR_BLOCKS; the single indirect block is in slot 12, the double in 13
  const SLOTS: nat := 15     // EXT2_N_BLOCKS

  /** i_block, the entries of the indirect blocks, and the number of entries in one. */
  datatype Ino = Ino(a: nat, root: seq<nat>, disk: Disk)

  /** A file block is below one of the 15 slots of the inode, at position `idx` there, or too far out. */
  datatype Place = Place(k: nat, idx: nat) | OutOfRange

  function Level(k: nat): nat {
    if k < NDIR then 0 else k - NDIR + 1
  }

  function Locate(a: nat, blk: nat): Place {
    if blk < NDIR then Place(blk, 0)
    else if blk < NDIR + Cap(a, 1) then Place(12, blk - NDIR)
    else if blk < NDIR + Cap(a, 1) + Cap(a, 2) then Place(13, blk - NDIR - Cap(a, 1))
    else if blk < NDIR + Cap(a, 1) + Cap(a, 2) + Cap(a, 3) then Place(14, blk - NDIR - Cap(a, 1) - Cap(a, 2))
    else OutOfRange
  }

  predicate IsPlace(a: nat, k: nat, idx: nat) {
    k < SLOTS && idx < Cap(a, Level(k))
  }

  lemma LocateIsPlace(a: nat, blk: nat)
    requires a > 0 && Locate(a, blk) != OutOfRange
    ensures IsPlace(a, Locate(a, blk).k, Locate(a, blk).idx)
  {
  }

  /** Different file blocks are at different places. */
  lemma LocateInjective(a: nat, x: nat, y: nat)
    requires Locate(a, x) == Locate(a, y) != OutOfRange
    ensures x == y
  {
  }

  predicate Ok(f: Ino) {
    f.a > 0 && |f.root| == SLOTS
  }

  function Tree(f: Ino, k: nat): set<nat>
    requires Ok(f) && k < SLOTS
  {
    Blocks(f.disk, f.a, f.root[k], Level(k))
  }

  /** All disk blocks of the file, indirect blocks included. */
  function FileBlocks(f: Ino): set<nat>
    requires Ok(f)
  {
    set k, x | 0 <= k < SLOTS && x in Tree(f, k) :: x
  }

  ghost predicate TreeOk(f: Ino, k: nat)
    requires Ok(f) && k < SLOTS
  {
    Shaped(f.disk, f.a, f.root[k], Level(k))
  }

  /** No block is in two places of the file. */
  ghost predicate FileShaped(f: Ino) {
    && Ok(f)
    && (forall k: nat :: k < SLOTS ==> TreeOk(f, k))
    && forall j: nat, k: nat :: j < k < SLOTS ==> Tree(f, j) !! Tree(f, k)
  }

  /** The disk block a file block is mapped to, NO_BLOCK for a hole and beyond the last mappable block. */
  function MapOf(f: Ino, blk: nat): nat
    requires Ok(f)
  {
    match Locate(f.a, blk)
    case OutOfRange => 0
    case Place(k, idx) => Read(f.disk, f.a, f.root[k], Level(k), idx)
  }

  /** Only slot `k`, or the tree below it, differs between f and g. */
  ghost predicate SlotChanged(f: Ino, g: Ino, k: nat)
    requires Ok(f) && Ok(g) && k < SLOTS
  {
    && g.a == f.a
    && (forall j: nat :: j < SLOTS && j != k ==> g.root[j] == f.root[j])
    && TreeOk(g, k)
    && forall x :: x in FileBlocks(f) && x !in Tree(f, k) ==> Same(f.disk, g.disk, x) && x !in Tree(g, k)
  }

  lemma OtherSlot(f: Ino, g: Ino, k: nat, j: nat)
    requires FileShaped(f) && Ok(g) && k < SLOTS && j < SLOTS && j != k && SlotChanged(f, g, k)
    ensures Tree(g, j) == Tree(f, j) && TreeOk(g, j) && Tree(g, j) !! Tree(g, k) && Tree(f, j) !! Tree(f, k)
    ensures forall x :: x in Tree(f, j) ==> Same(f.disk, g.disk, x)
  {
    assert Tree(f, j) !! Tree(f, k) by {
      assert if j < k then Tree(f, j) !! Tree(f, k) else Tree(f, k) !! Tree(f, j);
    }
    assert TreeOk(f, j);
    forall x | x in Tree(f, j) ensures Same(f.disk, g.disk, x) && x !in Tree(g, k) {
      assert x in FileBlocks(f);
    }
    Frame(f.disk, g.disk, f.a, f.root[j], Level(j));
  }

  lemma SlotShape(f: Ino, g: Ino, k: nat)
    requires FileShaped(f) && Ok(g) && k < SLOTS && SlotChanged(f, g, k)
    ensures FileShaped(g) && FileBlocks(g) == (FileBlocks(f) - Tree(f, k)) + Tree(g, k)
  {
    forall j: nat | j < SLOTS && j != k
      ensures Tree(g, j) == Tree(f, j) && TreeOk(g, j) && Tree(g, j) !! Tree(g, k) && Tree(f, j) !! Tree(f, k)
    {
      OtherSlot(f, g, k, j);
    }
    forall i: nat, j: nat | i < j < SLOTS ensures Tree(g, i) !! Tree(g, j) {
      assert Tree(f, i) !! Tree(f, j);
    }
    forall x ensures x in FileBlocks(g) <==> x in (FileBlocks(f) - Tree(f, k)) + Tree(g, k) {
      if x in FileBlocks(g) {
        var j :| 0 <= j < SLOTS && x in Tree(g, j);
        assert j != k ==> x in Tree(f, j);
      }
      if x in FileBlocks(f) && x !in Tree(f, k) {
        var j :| 0 <= j < SLOTS && x in Tree(f, j);
        assert x in Tree(g, j);
      }
    }
  }

  lemma SlotRead(f: Ino, g: Ino, k: nat, blk: nat)
    requires FileShaped(f) && Ok(g) && k < SLOTS && SlotChanged(f, g, k)
    requires Locate(f.a, blk) == OutOfRange || Locate(f.a, blk).k != k
    ensures MapOf(g, blk) == MapOf(f, blk)
  {
    if Locate(f.a, blk) != OutOfRange {
      var p := Locate(f.a, blk);
      LocateIsPlace(f.a, blk);
      OtherSlot(f, g, k, p.k);
      FrameRead(f.disk, g.disk, f.a, f.root[p.k], Level(p.k), p.idx);
    }
  }

  /** g maps file block `blk` to `v` and everything else as f does. */
  ghost predicate MapsLike(f: Ino, g: Ino, blk: nat, v: nat) {
    && Ok(f) && Ok(g) && g.a == f.a
    && forall x: nat :: MapOf(g, x) == if x == blk then v else MapOf(f, x)
  }

  lemma SlotMaps(f: Ino, g: Ino, blk: nat, v: nat)
    requires FileShaped(f) && Ok(g) && Locate(f.a, blk) != OutOfRange
    requires var p := Locate(f.a, blk);
      && SlotChanged(f, g, p.k) && Reads(f.disk, f.root[p.k], g.disk, g.root[p.k], f.a, Level(p.k), p.idx, v)
    ensures MapsLike(f, g, blk, v)
  {
    var p := Locate(f.a, blk);
    LocateIsPlace(f.a, blk);
    forall x: nat ensures MapOf(g, x) == if x == blk then v else MapOf(f, x) {
      var q := Locate(f.a, x);
      if q == OutOfRange || q.k != p.k {
        SlotRead(f, g, p.k, x);
      } else {
        LocateIsPlace(f.a, x);
        if q == p { LocateInjective(f.a, x, blk); }
      }
    }
  }

  // ---------------------------------------------------------------- one step of write_map

  /** The block of level `m` on the way to place (k, idx). */
  function NodeOf(f: Ino, k: nat, idx: nat, m: nat): nat
    requires Ok(f) && k < SLOTS && m <= Level(k)
  {
    Node(f.disk, f.a, f.root[k], Level(k), idx, m)
  }

  function SetEntry(d: Disk, n: nat, i: nat, v: nat): Disk
    requires n in d && i < |d[n]|
  {
    var entries: seq<nat> := d[n][i := v];
    d[n := entries]
  }

  /** Where that block's number is recorded (in the inode, or in the block above), write `v`. */
  function SetRecord(f: Ino, k: nat, idx: nat, m: nat, v: nat): (g: Ino)
    requires Ok(f) && IsPlace(f.a, k, idx) && m <= Level(k)
    ensures Ok(g) && g.a == f.a
  {
    if m == Level(k) then f.(root := f.root[k := v])
    else
      var n, i := NodeOf(f, k, idx, m + 1), Slot(f.a, Level(k), idx, m + 1);
      if n in f.disk && i < |f.disk[n]| then f.(disk := SetEntry(f.disk, n, i, v)) else f
  }

  /** The conditions under which a step of write_map puts `v` at level `m` of the way to (k, idx): d0 is the
      disk with the block `v`, which is new, already cleared. */
  ghost predicate CanRelink(f: Ino, d0: Disk, k: nat, idx: nat, m: nat, v: nat) {
    && FileShaped(f) && IsPlace(f.a, k, idx) && m <= Level(k)
    && (m < Level(k) ==> NodeOf(f, k, idx, m + 1) != 0)
    && (forall x :: x in FileBlocks(f) ==> Same(f.disk, d0, x))
    && Bare(f.disk, f.a, NodeOf(f, k, idx, m), m)
    && Bare(d0, f.a, v, m) && v !in FileBlocks(f)
  }

  lemma NoBlockIsNone(d: Disk, a: nat, b: nat, l: nat)
    ensures 0 !in Blocks(d, a, b, l)
    decreases l
  {
    if b != 0 && l > 0 {
      forall i: nat | i < a ensures 0 !in Below(d, a, b, l, i) {
        NoBlockIsNone(d, a, Entry(d, b, i), l - 1);
      }
    }
  }

  function Just(v: nat): set<nat> {
    if v == 0 then {} else {v}
  }

  lemma RelinkRoot(f: Ino, d0: Disk, k: nat, idx: nat, v: nat)
    requires CanRelink(f, d0, k, idx, Level(k), v)
    ensures var g := SetRecord(f.(disk := d0), k, idx, Level(k), v);
      && SlotChanged(f, g, k) && Tree(f, k) == Just(f.root[k]) && Tree(g, k) == Just(v)
      && Reads(f.disk, f.root[k], g.disk, g.root[k], f.a, Level(k), idx, if Level(k) == 0 then v else 0)
  {
    BareTree(f.disk, f.a, f.root[k], Level(k));
    BareTree(d0, f.a, v, Level(k));
  }

  /** The block above, in which the number is recorded. */
  lemma RecordPlace(f: Ino, d0: Disk, k: nat, idx: nat, m: nat, v: nat)
    requires CanRelink(f, d0, k, idx, m, v) && m < Level(k)
    ensures var g := SetRecord(f.(disk := d0), k, idx, m, v);
      var n, i := NodeOf(f, k, idx, m + 1), Slot(f.a, Level(k), idx, m + 1);
      && n != 0 && n in FileBlocks(f) && n in Tree(f, k) && Tree(f, k) <= FileBlocks(f) && n != v
      && n in d0 && n in f.disk && d0[n] == f.disk[n] && |d0[n]| == f.a && i < f.a
      && g == f.(disk := SetEntry(d0, n, i, v))
      && NodeOf(f, k, idx, m) == Entry(f.disk, n, i)
      && TreeOk(f, k) && Shaped(f.disk, f.a, n, m + 1)
  {
    var d, a, b, l := f.disk, f.a, f.root[k], Level(k);
    var n, i := NodeOf(f, k, idx, m + 1), Slot(a, l, idx, m + 1);
    assert TreeOk(f, k);
    assert Tree(f, k) <= FileBlocks(f);
    NodeInBlocks(d, a, b, l, idx, m + 1);
    InBlocks(d, a, n, m + 1, i);
    FrameNode(d, d0, a, b, l, idx, m + 1);
    NodeBelow(d, a, b, l, idx, m + 1);
    assert Same(d, d0, n);
  }

  /** The change of that block: one bare entry for another. */
  lemma BareReplaced(d: Disk, d0: Disk, a: nat, n: nat, m: nat, i: nat, v: nat, r: nat)
    requires a > 0 && n != 0 && n != v && n in d && n in d0 && d0[n] == d[n] && |d[n]| == a && i < a
    requires Shaped(d, a, n, m + 1) && Bare(d, a, d[n][i], m) && Bare(d0, a, v, m)
    requires r < Cap(a, m)
    requires v !in Blocks(d, a, n, m + 1) && forall x :: x in Blocks(d, a, n, m + 1) ==> Same(d, d0, x)
    ensures var d' := SetEntry(d0, n, i, v);
      && Replaced(d, d', a, n, m + 1, i)
      && Below(d, a, n, m + 1, i) == Just(d[n][i]) && Below(d', a, n, m + 1, i) == Just(v)
      && Reads(d, d[n][i], d', v, a, m, r, if m == 0 then v else 0)
  {
    var d' := SetEntry(d0, n, i, v);
    BareTree(d, a, d[n][i], m);
    BareTree(d', a, v, m);
    assert Entry(d, n, i) == d[n][i] && Entry(d', n, i) == v;
    assert ShapedBelow(d, a, n, m + 1, i) && n !in Below(d, a, n, m + 1, i);
    forall x | x in Blocks(d, a, n, m + 1) && x != n ensures Same(d, d', x) && x != v {
      assert Same(d, d0, x);
    }
  }

  lemma RelinkInner(f: Ino, d0: Disk, k: nat, idx: nat, m: nat, v: nat)
    requires CanRelink(f, d0, k, idx, m, v) && m < Level(k)
    ensures var g := SetRecord(f.(disk := d0), k, idx, m, v);
      var n, i := NodeOf(f, k, idx, m + 1), Slot(f.a, Level(k), idx, m + 1);
      && Changed(f.disk, g.disk, f.a, f.root[k], Level(k), idx, m + 1, if m == 0 then v else 0)
      && Below(f.disk, f.a, n, m + 1, i) == Just(NodeOf(f, k, idx, m))
      && Below(g.disk, f.a, n, m + 1, i) == Just(v)
  {
    RecordPlace(f, d0, k, idx, m, v);
    var n, i := NodeOf(f, k, idx, m + 1), Slot(f.a, Level(k), idx, m + 1);
    NodeInBlocks(f.disk, f.a, f.root[k], Level(k), idx, m + 1);
    BareReplaced(f.disk, d0, f.a, n, m, i, v, Rest(f.a, Level(k), idx, m));
    var d' := SetEntry(d0, n, i, v);
    forall x | x in Tree(f, k) && x != n ensures Same(f.disk, d', x) && x != v {
      assert x in FileBlocks(f);
    }
    assert Reads(f.disk, Entry(f.disk, n, i), d', v, f.a, m, Rest(f.a, Level(k), idx, m), if m == 0 then v else 0);
  }

  /** The step as seen from the slot of the inode. */
  lemma RelinkSlot(f: Ino, d0: Disk, k: nat, idx: nat, m: nat, v: nat)
    requires CanRelink(f, d0, k, idx, m, v)
    ensures var g, old_ := SetRecord(f.(disk := d0), k, idx, m, v), NodeOf(f, k, idx, m);
      && SlotChanged(f, g, k) && (old_ == 0 || old_ in Tree(f, k))
      && Tree(g, k) == (Tree(f, k) - Just(old_)) + Just(v)
      && Reads(f.disk, f.root[k], g.disk, g.root[k], f.a, Level(k), idx, if m == 0 then v else 0)
      && NodeOf(g, k, idx, m) == v
  {
    if m == Level(k) {
      RelinkRoot(f, d0, k, idx, v);
    } else {
      RelinkInner(f, d0, k, idx, m, v);
      RecordPlace(f, d0, k, idx, m, v);
      RelinkUp(f, d0, k, idx, m, v);
    }
  }

  lemma RelinkUp(f: Ino, d0: Disk, k: nat, idx: nat, m: nat, v: nat)
    requires CanRelink(f, d0, k, idx, m, v) && m < Level(k)
    ensures var g, old_ := SetRecord(f.(disk := d0), k, idx, m, v), NodeOf(f, k, idx, m);
      && SlotChanged(f, g, k) && (old_ == 0 || old_ in Tree(f, k))
      && Tree(g, k) == (Tree(f, k) - Just(old_)) + Just(v)
      && Reads(f.disk, f.root[k], g.disk, g.root[k], f.a, Level(k), idx, if m == 0 then v else 0)
      && NodeOf(g, k, idx, m) == v
  {
    var n, i := NodeOf(f, k, idx, m + 1), Slot(f.a, Level(k), idx, m + 1);
    RelinkInner(f, d0, k, idx, m, v);
    RecordPlace(f, d0, k, idx, m, v);
    PathUpdated(f.disk, SetEntry(d0, n, i, v), f.a, f.root[k], Level(k), idx, m, v, if m == 0 then v else 0);
    RelinkOutside(f, d0, k, n, i, v);
  }

  /** Outside the slot nothing that the file has changes. */
  lemma RelinkOutside(f: Ino, d0: Disk, k: nat, n: nat, i: nat, v: nat)
    requires FileShaped(f) && k < SLOTS && n in Tree(f, k) && n in d0 && i < |d0[n]| && v !in FileBlocks(f)
    requires forall x :: x in FileBlocks(f) ==> Same(f.disk, d0, x)
    requires var d' := SetEntry(d0, n, i, v);
      && Shaped(d', f.a, f.root[k], Level(k)) && Blocks(d', f.a, f.root[k], Level(k)) <= Tree(f, k) + Just(v)
    ensures SlotChanged(f, f.(disk := SetEntry(d0, n, i, v)), k)
  {
    var g := f.(disk := SetEntry(d0, n, i, v));
    forall x | x in FileBlocks(f) && x !in Tree(f, k) ensures Same(f.disk, g.disk, x) && x !in Tree(g, k) {
      assert Same(f.disk, d0, x);
    }
  }

  lemma PathUpdated(d: Disk, d': Disk, a: nat, b: nat, l: nat, idx: nat, m: nat, v: nat, w: nat)
    requires a > 0 && m < l && Changed(d, d', a, b, l, idx, m + 1, w)
    requires var n, i := Node(d, a, b, l, idx, m + 1), Slot(a, l, idx, m + 1);
      && Entry(d', n, i) == v
      && Below(d, a, n, m + 1, i) == Just(Node(d, a, b, l, idx, m)) && Below(d', a, n, m + 1, i) == Just(v)
    ensures Shaped(d', a, b, l) && Reads(d, b, d', b, a, l, idx, w) && Node(d', a, b, l, idx, m) == v
    ensures Blocks(d', a, b, l) == (Blocks(d, a, b, l) - Just(Node(d, a, b, l, idx, m))) + Just(v)
    ensures Node(d, a, b, l, idx, m) == 0 || Node(d, a, b, l, idx, m) in Blocks(d, a, b, l)
  {
    var n, i := Node(d, a, b, l, idx, m + 1), Slot(a, l, idx, m + 1);
    PathUpdate(d, d', a, b, l, idx, m + 1, w);
    NodeAbove(d, d', a, b, l, idx, m + 1, w, m + 1);
    NodeBelow(d', a, b, l, idx, m + 1);
    NodeInBlocks(d, a, b, l, idx, m + 1);
    InBlocks(d, a, n, m + 1, i);
  }

  /** One step of write_map: `v` comes in where NodeOf(f, k, idx, m) was. At level 0 that maps the file block
      to `v`; at a higher level it changes no mapping. */
  lemma Relink(f: Ino, d0: Disk, blk: nat, m: nat, v: nat)
    requires Ok(f) && Locate(f.a, blk) != OutOfRange
    requires var p := Locate(f.a, blk); CanRelink(f, d0, p.k, p.idx, m, v)
    ensures var p := Locate(f.a, blk);
      var g := SetRecord(f.(disk := d0), p.k, p.idx, m, v);
      && FileShaped(g) && FileBlocks(g) == (FileBlocks(f) - Just(NodeOf(f, p.k, p.idx, m))) + Just(v)
      && MapsLike(f, g, blk, if m == 0 then v else MapOf(f, blk))
      && NodeOf(g, p.k, p.idx, m) == v
  {
    var p := Locate(f.a, blk);
    var g, l := SetRecord(f.(disk := d0), p.k, p.idx, m, v), Level(p.k);
    RelinkSlot(f, d0, p.k, p.idx, m, v);
    SlotShape(f, g, p.k);
    SlotMaps(f, g, blk, if m == 0 then v else 0);
    if m > 0 {
      NodeReads(f.disk, f.a, f.root[p.k], l, p.idx, m);
      BareTree(f.disk, f.a, NodeOf(f, p.k, p.idx, m), m);
    }
    NoBlockIsNoneOfFile(f);
  }

  lemma NoBlockIsNoneOfFile(f: Ino)
    requires Ok(f)
    ensures 0 !in FileBlocks(f)
  {
    if 0 in FileBlocks(f) {
      var k: nat :| k < SLOTS && 0 in Tree(f, k);
      NoBlockIsNone(f.disk, f.a, f.root[k], Level(k));
    }
  }

  lemma OnlyThere(f: Ino, k: nat, x: nat)
    requires FileShaped(f) && k < SLOTS && x in Tree(f, k)
    ensures forall j: nat :: j < SLOTS && j != k ==> x !in Tree(f, j)
  {
    forall j: nat | j < SLOTS && j != k ensures x !in Tree(f, j) {
      assert if j < k then Tree(f, j) !! Tree(f, k) else Tree(f, k) !! Tree(f, j);
    }
  }

  /** The block of level `m` on a way holds, at the way's entry, the block below. */
  lemma StepWay(f: Ino, k: nat, idx: nat, m: nat)
    requires FileShaped(f) && IsPlace(f.a, k, idx) && 0 < m <= Level(k)
    ensures var n, i := NodeOf(f, k, idx, m), Slot(f.a, Level(k), idx, m);
      && i < f.a
      && (n != 0 ==> n in f.disk && |f.disk[n]| == f.a && NodeOf(f, k, idx, m - 1) == f.disk[n][i] && n in FileBlocks(f))
      && (n == 0 ==> NodeOf(f, k, idx, m - 1) == 0)
  {
    NodeBelow(f.disk, f.a, f.root[k], Level(k), idx, m);
    assert TreeOk(f, k);
    assert Tree(f, k) <= FileBlocks(f);
    if NodeOf(f, k, idx, m) != 0 {
      NodeInBlocks(f.disk, f.a, f.root[k], Level(k), idx, m);
      InBlocks(f.disk, f.a, NodeOf(f, k, idx, m), m, Slot(f.a, Level(k), idx, m));
    }
  }

  /** The way to a file block ends at the disk block it is mapped to. */
  lemma WayEnds(f: Ino, blk: nat)
    requires Ok(f) && Locate(f.a, blk) != OutOfRange
    ensures var p := Locate(f.a, blk);
      IsPlace(f.a, p.k, p.idx) && MapOf(f, blk) == NodeOf(f, p.k, p.idx, 0)
  {
    var p := Locate(f.a, blk);
    LocateIsPlace(f.a, blk);
    NodeReads(f.disk, f.a, f.root[p.k], Level(p.k), p.idx, 0);
  }

  /** The blocks above the one that a step puts in stay on the way. */
  lemma RelinkAbove(f: Ino, d0: Disk, k: nat, idx: nat, m: nat, v: nat, h: nat)
    requires CanRelink(f, d0, k, idx, m, v) && m < h <= Level(k)
    ensures NodeOf(SetRecord(f.(disk := d0), k, idx, m, v), k, idx, h) == NodeOf(f, k, idx, h)
  {
    var g := SetRecord(f.(disk := d0), k, idx, m, v);
    RelinkInner(f, d0, k, idx, m, v);
    RecordPlace(f, d0, k, idx, m, v);
    NodeAbove(f.disk, g.disk, f.a, f.root[k], Level(k), idx, m + 1, if m == 0 then v else 0, h);
  }

  /** zero_block. */
  function Zeros(a: nat): (s: seq<nat>)
    ensures |s| == a && forall i :: 0 <= i < a ==> s[i] == 0
  {
    seq(a, _ => 0)
  }

  /** The inode after a new, cleared indirect block has been put in at level `m`. */
  function Created(f: Ino, k: nat, idx: nat, m: nat, b: nat): (g: Ino)
    requires Ok(f) && IsPlace(f.a, k, idx) && m <= Level(k)
    ensures Ok(g) && g.a == f.a
  {
    SetRecord(f.(disk := f.disk[b := Zeros(f.a)]), k, idx, m, b)
  }

  lemma CreateStep(f: Ino, blk: nat, k: nat, idx: nat, m: nat, b: nat)
    requires FileShaped(f) && Locate(f.a, blk) == Place(k, idx) && IsPlace(f.a, k, idx) && 0 < m <= Level(k)
    requires NodeOf(f, k, idx, m) == 0 && (m < Level(k) ==> NodeOf(f, k, idx, m + 1) != 0)
    requires b != 0 && b !in FileBlocks(f)
    ensures var g := Created(f, k, idx, m, b);
      && FileShaped(g) && FileBlocks(g) == FileBlocks(f) + {b} && MapsLike(f, g, blk, MapOf(f, blk))
      && NodeOf(g, k, idx, m) == b && Bare(g.disk, g.a, b, m)
      && (m < Level(k) ==> NodeOf(g, k, idx, m + 1) == NodeOf(f, k, idx, m + 1))
      && (m + 1 < Level(k) ==> NodeOf(g, k, idx, m + 2) == NodeOf(f, k, idx, m + 2))
  {
    var d0 := f.disk[b := Zeros(f.a)];
    Relink(f, d0, blk, m, b);
    if m < Level(k) {
      RecordPlace(f, d0, k, idx, m, b);
      RelinkAbove(f, d0, k, idx, m, b, m + 1);
      if m + 1 < Level(k) {
        RelinkAbove(f, d0, k, idx, m, b, m + 2);
      }
    }
  }

  /** Clearing the record of an empty indirect block (v == 0), or recording another data block (m == 0). */
  lemma PutStep(f: Ino, blk: nat, k: nat, idx: nat, m: nat, v: nat)
    requires FileShaped(f) && Locate(f.a, blk) == Place(k, idx) && IsPlace(f.a, k, idx) && m <= Level(k)
    requires m < Level(k) ==> NodeOf(f, k, idx, m + 1) != 0
    requires Bare(f.disk, f.a, NodeOf(f, k, idx, m), m) && (v == 0 || (m == 0 && v !in FileBlocks(f)))
    ensures var g := SetRecord(f, k, idx, m, v);
      && FileShaped(g) && FileBlocks(g) == (FileBlocks(f) - Just(NodeOf(f, k, idx, m))) + Just(v)
      && MapsLike(f, g, blk, if m == 0 then v else MapOf(f, blk))
      && NodeOf(g, k, idx, m) == v
      && (NodeOf(f, k, idx, m) != 0 ==> NodeOf(f, k, idx, m) in FileBlocks(f))
      && (m < Level(k) ==> NodeOf(g, k, idx, m + 1) == NodeOf(f, k, idx, m + 1))
      && (m + 1 < Level(k) ==> NodeOf(g, k, idx, m + 2) == NodeOf(f, k, idx, m + 2))
      && (m + 2 < Level(k) ==> NodeOf(g, k, idx, m + 3) == NodeOf(f, k, idx, m + 3))
  {
    NoBlockIsNoneOfFile(f);
    assert f.(disk := f.disk) == f;
    Relink(f, f.disk, blk, m, v);
    assert TreeOk(f, k);
    assert Tree(f, k) <= FileBlocks(f);
    if NodeOf(f, k, idx, m) != 0 {
      NodeInBlocks(f.disk, f.a, f.root[k], Level(k), idx, m);
    }
    if m < Level(k) { RelinkAbove(f, f.disk, k, idx, m, v, m + 1); }
    if m + 1 < Level(k) { RelinkAbove(f, f.disk, k, idx, m, v, m + 2); }
    if m + 2 < Level(k) { RelinkAbove(f, f.disk, k, idx, m, v, m + 3); }
  }
}
