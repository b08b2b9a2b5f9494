/** What the steps of write_map do to the file, to the free blocks and to i_blocks taken together. */
module MapSteps {
  import opened Division
  import opened BlockTree
  import opened FileMap

  /** The file, the blocks that the bitmap has as free, and i_blocks, which counts in sectors. */
  datatype Snap = Snap(f: Ino, free: set<nat>, iBlocks: int, sectors: nat)

  ghost predicate SnapOk(s: Snap) {
    FileShaped(s.f) && FileBlocks(s.f) !! s.free && 0 !in s.free
  }

  /** How much i_blocks counts beyond the blocks of the file. */
  ghost function Slack(s: Snap): int
    requires Ok(s.f)
  {
    s.iBlocks - s.sectors * |FileBlocks(s.f)|
  }

  /** From s0 to s, the blocks that came into the file were free and are no longer, those that left it are free
      now; i_blocks has kept its distance from the number of blocks; `blk` is mapped to `v`, the rest as before. */
  ghost predicate Moved(s0: Snap, s: Snap, blk: nat, v: nat) {
    && Ok(s0.f) && SnapOk(s) && s.sectors == s0.sectors
    && MapsLike(s0.f, s.f, blk, v) && Slack(s) == Slack(s0)
    && Traded(FileBlocks(s0.f), FileBlocks(s.f), s0.free, s.free)
  }

  /** While the file went from `before` to `after`, what came in was free, and what left is free now. */
  ghost predicate Traded(before: set<nat>, after: set<nat>, free0: set<nat>, free: set<nat>) {
    after - before <= free0 && free == (free0 - (after - before)) + (before - after)
  }

  lemma TradeIn(before: set<nat>, after: set<nat>, free0: set<nat>, free: set<nat>, b: nat)
    requires Traded(before, after, free0, free) && before <= after && b in free && after !! free
    ensures Traded(before, after + {b}, free0, free - {b})
  {
  }

  lemma TradeOut(before: set<nat>, after: set<nat>, free0: set<nat>, free: set<nat>, b: nat)
    requires Traded(before, after, free0, free) && after <= before && b in after
    ensures Traded(before, after - {b}, free0, free + {b})
  {
  }

  lemma MovedStart(s: Snap, blk: nat)
    requires SnapOk(s)
    ensures Moved(s, s, blk, MapOf(s.f, blk))
  {
  }

  lemma SlackGrows(s: Snap, t: Snap)
    requires Ok(s.f) && Ok(t.f) && |FileBlocks(t.f)| == |FileBlocks(s.f)| + 1 && t.sectors == s.sectors
    ensures Slack(t) - t.iBlocks == Slack(s) - s.iBlocks - s.sectors
  {
    Distribute(s.sectors, |FileBlocks(s.f)|);
  }

  lemma Distribute(s: nat, n: nat)
    ensures s * (n + 1) == s * n + s
  {
  }

  /** The level of the tree that file block `blk` is in. */
  function LevelOf(a: nat, blk: nat): nat {
    if Locate(a, blk) == OutOfRange then 0 else Level(Locate(a, blk).k)
  }

  /** The block of level `m` on the way to `blk`. */
  function NodeAt(f: Ino, blk: nat, m: nat): nat
    requires Ok(f) && Locate(f.a, blk) != OutOfRange && m <= LevelOf(f.a, blk)
  {
    LocateIsPlace(f.a, blk);
    NodeOf(f, Locate(f.a, blk).k, Locate(f.a, blk).idx, m)
  }

  /** The entry that the way takes in it. */
  function SlotAt(a: nat, blk: nat, m: nat): nat
    requires a > 0 && Locate(a, blk) != OutOfRange && 0 < m <= LevelOf(a, blk)
  {
    Slot(a, LevelOf(a, blk), Locate(a, blk).idx, m)
  }

  /** The block of level `m` on the way is recorded in entry `index` of `above`, or in the inode if that is 0. */
  ghost predicate OnLevel(f: Ino, blk: nat, m: nat, above: nat, index: nat) {
    && FileShaped(f) && Locate(f.a, blk) != OutOfRange && m <= LevelOf(f.a, blk)
    && (above == 0 <==> m == LevelOf(f.a, blk))
    && (above != 0 ==> above == NodeAt(f, blk, m + 1) && index == SlotAt(f.a, blk, m + 1))
  }

  /** The inode with `v` in that place. */
  function Recorded(f: Ino, blk: nat, m: nat, v: nat): (g: Ino)
    requires Ok(f) && Locate(f.a, blk) != OutOfRange && m <= LevelOf(f.a, blk)
    ensures Ok(g) && g.a == f.a
  {
    LocateIsPlace(f.a, blk);
    SetRecord(f, Locate(f.a, blk).k, Locate(f.a, blk).idx, m, v)
  }

  lemma RecordedIs(f: Ino, blk: nat, m: nat, above: nat, index: nat, v: nat)
    requires OnLevel(f, blk, m, above, index)
    ensures above != 0 ==> above in f.disk && index < |f.disk[above]| == f.a && above in FileBlocks(f) && index < f.a
    ensures above != 0 ==> Recorded(f, blk, m, v) == f.(disk := SetEntry(f.disk, above, index, v))
    ensures above == 0 ==> Recorded(f, blk, m, v) == f.(root := f.root[Locate(f.a, blk).k := v])
    ensures NodeAt(f, blk, m) == if above == 0 then f.root[Locate(f.a, blk).k] else f.disk[above][index]
  {
    LocateIsPlace(f.a, blk);
    if above != 0 {
      StepWay(f, Locate(f.a, blk).k, Locate(f.a, blk).idx, m + 1);
    }
  }

  /** A step that maps as before comes on top of what has been done. */
  lemma MapsOn(f0: Ino, f: Ino, g: Ino, blk: nat, v: nat)
    requires MapsLike(f0, f, blk, v) && Ok(g) && MapsLike(f, g, blk, MapOf(f, blk))
    ensures MapsLike(f0, g, blk, v)
  {
    forall x: nat ensures MapOf(g, x) == if x == blk then v else MapOf(f0, x) {
      assert MapOf(f, x) == if x == blk then v else MapOf(f0, x);
    }
  }

  lemma MovedGrow(s0: Snap, s: Snap, t: Snap, blk: nat, v: nat, b: nat)
    requires Moved(s0, s, blk, v) && FileBlocks(s0.f) <= FileBlocks(s.f) && b in s.free
    requires FileShaped(t.f) && FileBlocks(t.f) == FileBlocks(s.f) + {b} && MapsLike(s.f, t.f, blk, MapOf(s.f, blk))
    requires t.free == s.free - {b} && t.iBlocks == s.iBlocks + s.sectors && t.sectors == s.sectors
    ensures Moved(s0, t, blk, v) && FileBlocks(s0.f) <= FileBlocks(t.f)
  {
    MapsOn(s0.f, s.f, t.f, blk, v);
    TradeIn(FileBlocks(s0.f), FileBlocks(s.f), s0.free, s.free, b);
    SlackGrows(s, t);
  }

  lemma MovedShrink(s0: Snap, s: Snap, t: Snap, blk: nat, v: nat, b: nat)
    requires Moved(s0, s, blk, v) && FileBlocks(s.f) <= FileBlocks(s0.f) && b in FileBlocks(s.f) && b != 0
    requires FileShaped(t.f) && FileBlocks(t.f) == FileBlocks(s.f) - {b} && MapsLike(s.f, t.f, blk, MapOf(s.f, blk))
    requires t.free == s.free + {b} && t.iBlocks == s.iBlocks - s.sectors && t.sectors == s.sectors
    ensures Moved(s0, t, blk, v)
  {
    MapsOn(s0.f, s.f, t.f, blk, v);
    TradeOut(FileBlocks(s0.f), FileBlocks(s.f), s0.free, s.free, b);
    SlackGrows(t, s);
  }

  /** A cleared new block `b` is recorded on the way. */
  lemma CreateAt(f: Ino, blk: nat, m: nat, above: nat, index: nat, b: nat)
    requires OnLevel(f, blk, m, above, index) && m > 0 && NodeAt(f, blk, m) == 0 && b != 0 && b !in FileBlocks(f)
    ensures var g := Recorded(f.(disk := f.disk[b := Zeros(f.a)]), blk, m, b);
      && FileShaped(g) && FileBlocks(g) == FileBlocks(f) + {b} && MapsLike(f, g, blk, MapOf(f, blk))
      && NodeAt(g, blk, m) == b && (above != 0 ==> NodeAt(g, blk, m + 1) == above)
      && (m + 1 < LevelOf(f.a, blk) ==> NodeAt(g, blk, m + 2) == NodeAt(f, blk, m + 2))
      && (above == 0 ==> g == Ino(f.a, f.root[Locate(f.a, blk).k := b], f.disk[b := Zeros(f.a)]))
      && (above != 0 ==> above in f.disk && index < |f.disk[above]|)
      && (above != 0 ==> g == f.(disk := SetEntry(f.disk, above, index, b)[b := Zeros(f.a)]))
  {
    LocateIsPlace(f.a, blk);
    var p := Locate(f.a, blk);
    CreateStep(f, blk, p.k, p.idx, m, b);
    if above != 0 {
      StepWay(f, p.k, p.idx, m + 1);
    }
  }

  /** An empty indirect block is taken off the way. */
  lemma RemoveAt(f: Ino, blk: nat, m: nat, above: nat, index: nat)
    requires OnLevel(f, blk, m, above, index) && m > 0
    requires NodeAt(f, blk, m) != 0 && Bare(f.disk, f.a, NodeAt(f, blk, m), m)
    ensures var g, b := Recorded(f, blk, m, 0), NodeAt(f, blk, m);
      && FileShaped(g) && b in FileBlocks(f) && FileBlocks(g) == FileBlocks(f) - {b}
      && MapsLike(f, g, blk, MapOf(f, blk))
      && NodeAt(g, blk, m) == 0 && (above != 0 ==> NodeAt(g, blk, m + 1) == above)
      && (m + 1 < LevelOf(f.a, blk) ==> NodeAt(g, blk, m + 2) == NodeAt(f, blk, m + 2))
  {
    LocateIsPlace(f.a, blk);
    var p := Locate(f.a, blk);
    PutStep(f, blk, p.k, p.idx, m, 0);
  }

  /** Another data block, or none, has been recorded for `blk`. */
  lemma DataMoves(s: Snap, blk: nat, above: nat, index: nat, v: nat)
    requires SnapOk(s) && OnLevel(s.f, blk, 0, above, index)
    requires v == 0 || (v !in s.free && v !in FileBlocks(s.f))
    ensures var g, old_ := Recorded(s.f, blk, 0, v), MapOf(s.f, blk);
      && old_ == NodeAt(s.f, blk, 0) && FileShaped(g) && (old_ != 0 ==> old_ in FileBlocks(s.f))
      && FileBlocks(g) == (FileBlocks(s.f) - Just(old_)) + Just(v) && MapsLike(s.f, g, blk, v)
      && (above != 0 ==> NodeAt(g, blk, 1) == above)
      && (1 < LevelOf(s.f.a, blk) ==> NodeAt(g, blk, 2) == NodeAt(s.f, blk, 2))
      && (2 < LevelOf(s.f.a, blk) ==> NodeAt(g, blk, 3) == NodeAt(s.f, blk, 3))
      && |FileBlocks(g)| == |FileBlocks(s.f)| - |Just(old_)| + |Just(v)|
  {
    WayEnds(s.f, blk);
    var p := Locate(s.f.a, blk);
    PutStep(s.f, blk, p.k, p.idx, 0, v);
  }

  lemma Caps(a: nat)
    ensures Cap(a, 0) == 1 && Cap(a, 1) == a && Cap(a, 2) == a * a && Cap(a, 3) == (a * a) * a
  {
    assert Cap(a, 1) == Product(a, Cap(a, 0));
    assert Cap(a, 2) == Product(a, Cap(a, 1));
    assert Cap(a, 3) == Product(a, Cap(a, 2));
  }

  /** The entries of a way, by the arithmetic that read_map and write_map do. */
  lemma SlotsOf(a: nat, blk: nat)
    requires a > 0 && Locate(a, blk) != OutOfRange
    ensures var idx := Locate(a, blk).idx;
      && (LevelOf(a, blk) == 1 ==> SlotAt(a, blk, 1) == idx)
      && (LevelOf(a, blk) == 2 ==> SlotAt(a, blk, 2) == idx / a && SlotAt(a, blk, 1) == idx % a)
      && (LevelOf(a, blk) == 3 ==> SlotAt(a, blk, 3) == idx / (a * a) && SlotAt(a, blk, 2) == (idx % (a * a)) / a
                                   && SlotAt(a, blk, 1) == (idx % (a * a)) % a)
  {
    Caps(a);
    LocateIsPlace(a, blk);
    var l, idx := LevelOf(a, blk), Locate(a, blk).idx;
    QuotientIs(idx, Cap(a, 2));
    QuotientIs(idx, a);
    if l == 3 {
      var r := Remainder(idx, Cap(a, 2));
      QuotientIs(r, a);
      QuotientIs(Remainder(r, a), 1);
      assert Rest(a, 3, idx, 3) == idx && Rest(a, 3, idx, 2) == r;
      assert Rest(a, 3, idx, 1) == Rest(a, 2, r, 1) == Rest(a, 1, Remainder(r, a), 1) == Remainder(r, a);
    } else if l == 2 {
      QuotientIs(Remainder(idx, a), 1);
      assert Rest(a, 2, idx, 2) == idx;
      assert Rest(a, 2, idx, 1) == Rest(a, 1, Remainder(idx, a), 1) == Remainder(idx, a);
    } else if l == 1 {
      QuotientIs(idx, 1);
      assert Rest(a, 1, idx, 1) == idx;
    }
  }

  /** One step down the way to a file block. */
  lemma StepAt(f: Ino, blk: nat, m: nat)
    requires FileShaped(f) && Locate(f.a, blk) != OutOfRange && 0 < m <= LevelOf(f.a, blk)
    ensures var n, i := NodeAt(f, blk, m), SlotAt(f.a, blk, m);
      && i < f.a && (n == 0 ==> NodeAt(f, blk, m - 1) == 0)
      && (n != 0 ==> n in f.disk && |f.disk[n]| == f.a && NodeAt(f, blk, m - 1) == f.disk[n][i])
    ensures m == LevelOf(f.a, blk) ==> NodeAt(f, blk, m) == f.root[Locate(f.a, blk).k]
  {
    LocateIsPlace(f.a, blk);
    StepWay(f, Locate(f.a, blk).k, Locate(f.a, blk).idx, m);
  }

  /** Below a missing block there is nothing. */
  lemma NothingBelow(f: Ino, blk: nat, m: nat)
    requires FileShaped(f) && Locate(f.a, blk) != OutOfRange && 0 < m <= LevelOf(f.a, blk) && NodeAt(f, blk, m) == 0
    ensures NodeAt(f, blk, m - 1) == 0
  {
    LocateIsPlace(f.a, blk);
    StepWay(f, Locate(f.a, blk).k, Locate(f.a, blk).idx, m);
  }

  lemma MapsThen(f0: Ino, f: Ino, g: Ino, blk: nat, v: nat, w: nat)
    requires MapsLike(f0, f, blk, v) && MapsLike(f, g, blk, w)
    ensures MapsLike(f0, g, blk, w)
  {
    forall x: nat ensures MapOf(g, x) == if x == blk then w else MapOf(f0, x) {
      assert MapOf(f, x) == if x == blk then v else MapOf(f0, x);
    }
  }

  /** The indirect block is not empty. */
  ghost predicate HasEntry(f: Ino, b: nat) {
    exists i :: 0 <= i < f.a && Entry(f.disk, b, i) != 0
  }

  /** `b` is a block of the way to `blk`: the data block or one of the indirect blocks above it. */
  ghost predicate OfWay(f: Ino, blk: nat, b: nat)
    requires Ok(f) && Locate(f.a, blk) != OutOfRange
  {
    exists m :: 0 <= m <= LevelOf(f.a, blk) && b == NodeAt(f, blk, m)
  }

  /** write_map with WMAP_FREE is done: `blk` is a hole, the blocks that left the file are of its way and free
      now, and no indirect block of the way is empty. */
  ghost predicate Freed(s0: Snap, s: Snap, blk: nat)
    requires Ok(s0.f) && Locate(s0.f.a, blk) != OutOfRange
  {
    && Moved(s0, s, blk, 0) && FileBlocks(s.f) <= FileBlocks(s0.f) && MapOf(s0.f, blk) !in FileBlocks(s.f)
    && (forall b :: b in FileBlocks(s0.f) - FileBlocks(s.f) ==> OfWay(s0.f, blk, b))
    && forall m: nat :: 1 <= m <= LevelOf(s.f.a, blk) && NodeAt(s.f, blk, m) != 0 ==> HasEntry(s.f, NodeAt(s.f, blk, m))
  }

  /** The state after write_map has freed the data block of `blk`. */
  function WithoutData(s: Snap, blk: nat): Snap
    requires Ok(s.f) && Locate(s.f.a, blk) != OutOfRange
  {
    if MapOf(s.f, blk) == 0 then s
    else Snap(Recorded(s.f, blk, 0, 0), s.free + {MapOf(s.f, blk)}, s.iBlocks - s.sectors, s.sectors)
  }

  lemma DataFreed(s: Snap, blk: nat, above: nat, index: nat)
    requires SnapOk(s) && OnLevel(s.f, blk, 0, above, index)
    ensures var t := WithoutData(s, blk);
      && MapOf(s.f, blk) == NodeAt(s.f, blk, 0) && MapOf(s.f, blk) !in s.free
      && Moved(s, t, blk, 0) && FileBlocks(t.f) <= FileBlocks(s.f) && MapOf(s.f, blk) !in FileBlocks(t.f)
      && (forall b :: b in FileBlocks(s.f) - FileBlocks(t.f) ==> OfWay(s.f, blk, b))
      && (above != 0 ==> NodeAt(t.f, blk, 1) == above)
      && (1 < LevelOf(s.f.a, blk) ==> NodeAt(t.f, blk, 2) == NodeAt(s.f, blk, 2))
      && (2 < LevelOf(s.f.a, blk) ==> NodeAt(t.f, blk, 3) == NodeAt(s.f, blk, 3))
  {
    var b, t := MapOf(s.f, blk), WithoutData(s, blk);
    MovedStart(s, blk);
    OldInFile(s.f, blk);
    DataMoves(s, blk, above, index, 0);
    if b != 0 {
      LeftFile(s, t, blk, b);
      assert b == NodeAt(s.f, blk, 0) && OfWay(s.f, blk, b);
    }
  }

  /** A block has left the file, the block map and the account. */
  lemma LeftFile(s: Snap, t: Snap, blk: nat, b: nat)
    requires SnapOk(s) && FileShaped(t.f) && b in FileBlocks(s.f) && b != 0 && 0 !in FileBlocks(s.f)
    requires FileBlocks(t.f) == (FileBlocks(s.f) - Just(b)) + Just(0) && MapsLike(s.f, t.f, blk, 0)
    requires t.free == s.free + {b} && t.iBlocks == s.iBlocks - s.sectors && t.sectors == s.sectors
    requires |FileBlocks(t.f)| == |FileBlocks(s.f)| - 1
    ensures Moved(s, t, blk, 0) && FileBlocks(t.f) <= FileBlocks(s.f) && b !in FileBlocks(t.f)
    ensures FileBlocks(s.f) - FileBlocks(t.f) == {b}
  {
    assert FileBlocks(t.f) == FileBlocks(s.f) - {b};
    SlackGrows(t, s);
    TradeOut(FileBlocks(s.f), FileBlocks(s.f), s.free, s.free, b);
  }

  /** What came into the file with `v` was free and is not any more; the data block `old_` that `v` replaced, if
      any, is in the file no more, and the other blocks stayed. */
  ghost predicate Stored(before: set<nat>, after: set<nat>, free0: set<nat>, free: set<nat>, old_: nat, v: nat) {
    && v in after && before - Just(old_) <= after && old_ !in after
    && after - before <= free0 + {v} && free == free0 - after
  }

  /** write_map without WMAP_FREE is done: `blk` is mapped to `v`, which was already in use. When that is a hole
      filled, i_blocks keeps its distance from the number of blocks; otherwise it counts one block too many. */
  ghost predicate Filled(s0: Snap, s: Snap, blk: nat, v: nat) {
    && Ok(s0.f) && SnapOk(s) && s.sectors == s0.sectors && MapsLike(s0.f, s.f, blk, v)
    && Stored(FileBlocks(s0.f), FileBlocks(s.f), s0.free, s.free, MapOf(s0.f, blk), v)
    && Slack(s) == Slack(s0) + if MapOf(s0.f, blk) == 0 then 0 else s0.sectors
  }

  lemma OldInFile(f: Ino, blk: nat)
    requires FileShaped(f) && Locate(f.a, blk) != OutOfRange
    ensures MapOf(f, blk) != 0 ==> MapOf(f, blk) in FileBlocks(f)
    ensures 0 !in FileBlocks(f)
  {
    WayEnds(f, blk);
    NoBlockIsNoneOfFile(f);
    var p := Locate(f.a, blk);
    assert TreeOk(f, p.k);
    assert Tree(f, p.k) <= FileBlocks(f);
    if MapOf(f, blk) != 0 {
      NodeInBlocks(f.disk, f.a, f.root[p.k], Level(p.k), p.idx, 0);
    }
  }

  lemma StoredBlocks(before: set<nat>, mid: set<nat>, free0: set<nat>, free: set<nat>, old_: nat, v: nat)
    requires before <= mid && Traded(before, mid, free0, free) && before !! free0 && mid !! free
    requires v !in free0 && v !in before && v != 0 && 0 !in mid && (old_ == 0 || old_ in before)
    ensures v !in mid && v !in free
    ensures Stored(before, (mid - Just(old_)) + Just(v), free0, free, old_, v)
  {
  }

  /** Recording the data block after the way has been made: the file. */
  lemma DataStoredFile(s0: Snap, s: Snap, blk: nat, above: nat, index: nat, v: nat)
    requires SnapOk(s0) && Moved(s0, s, blk, MapOf(s0.f, blk)) && FileBlocks(s0.f) <= FileBlocks(s.f)
    requires OnLevel(s.f, blk, 0, above, index) && v != 0 && v !in s0.free && v !in FileBlocks(s0.f)
    ensures var g := Recorded(s.f, blk, 0, v);
      && MapOf(s.f, blk) == MapOf(s0.f, blk) && v !in s.free
      && FileShaped(g) && MapsLike(s.f, g, blk, v)
      && FileBlocks(g) == (FileBlocks(s.f) - Just(MapOf(s0.f, blk))) + Just(v)
      && |FileBlocks(g)| == |FileBlocks(s.f)| - |Just(MapOf(s0.f, blk))| + 1
      && Stored(FileBlocks(s0.f), FileBlocks(g), s0.free, s.free, MapOf(s0.f, blk), v)
  {
    assert MapOf(s.f, blk) == MapOf(s0.f, blk);
    OldInFile(s0.f, blk);
    OldInFile(s.f, blk);
    StoredBlocks(FileBlocks(s0.f), FileBlocks(s.f), s0.free, s.free, MapOf(s0.f, blk), v);
    DataMoves(s, blk, above, index, v);
  }

  lemma DataStored(s0: Snap, s: Snap, blk: nat, above: nat, index: nat, v: nat)
    requires SnapOk(s0) && Moved(s0, s, blk, MapOf(s0.f, blk)) && FileBlocks(s0.f) <= FileBlocks(s.f)
    requires OnLevel(s.f, blk, 0, above, index) && v != 0 && v !in s0.free && v !in FileBlocks(s0.f)
    ensures Filled(s0, Snap(Recorded(s.f, blk, 0, v), s.free, s.iBlocks + s.sectors, s.sectors), blk, v)
  {
    DataStoredFile(s0, s, blk, above, index, v);
    var g := Recorded(s.f, blk, 0, v);
    MapsThen(s0.f, s.f, g, blk, MapOf(s0.f, blk), v);
    var t := Snap(g, s.free, s.iBlocks + s.sectors, s.sectors);
    if MapOf(s0.f, blk) == 0 {
      SlackGrows(s, t);
    } else {
      assert |FileBlocks(g)| == |FileBlocks(s.f)|;
      assert Slack(t) == Slack(s) + s.sectors;
    }
  }

  // ---------------------------------------------------------------- the whole call

  datatype Code = OK | ENOSPC | EFBIG

  /** What a call of write_map does, told from its result. */
  ghost predicate Written(s0: Snap, s: Snap, blk: nat, v: nat, wmapFree: bool, code: Code)
    requires Ok(s0.f)
  {
    match code
    case EFBIG => Locate(s0.f.a, blk) == OutOfRange && s == s0
    case ENOSPC =>
      && !wmapFree && Locate(s0.f.a, blk) != OutOfRange && MapOf(s0.f, blk) == 0
      && Moved(s0, s, blk, MapOf(s0.f, blk)) && FileBlocks(s0.f) <= FileBlocks(s.f)
      && LevelOf(s0.f.a, blk) >= 1 && NodeAt(s0.f, blk, 1) == 0 && NodeAt(s.f, blk, 1) == 0
    case OK =>
      && Locate(s0.f.a, blk) != OutOfRange
      && if !wmapFree then Filled(s0, s, blk, v)
         else if blk < NDIR && MapOf(s0.f, blk) == 0 then s == Put(s0, blk, v)
         else Freed(s0, s, blk)
  }

  /** What happens to a hole among the direct blocks, also when it is to be freed: `v` is stored and counted. */
  function Put(s: Snap, blk: nat, v: nat): Snap
    requires Ok(s.f) && blk < NDIR
  {
    Snap(s.f.(root := s.f.root[blk := v]), s.free, s.iBlocks + s.sectors, s.sectors)
  }

  /** Freeing does with the new block what it does with NO_BLOCK, if and only if the file block is not a hole among
      the direct blocks or the new block is NO_BLOCK. */
  lemma NewBlockIgnored(s0: Snap, s: Snap, blk: nat, v: nat)
    requires SnapOk(s0) && Written(s0, s, blk, v, true, OK)
    ensures Written(s0, s, blk, 0, true, OK) <==> !(blk < NDIR && MapOf(s0.f, blk) == 0) || v == 0
  {
    if blk < NDIR && MapOf(s0.f, blk) == 0 && v != 0 {
      assert s.f.root[blk] == v && Put(s0, blk, 0).f.root[blk] == 0;
    }
  }

  /** The new block is in the file then; nothing else of the map has changed, but the block map is still a tree of
      blocks in use only if the block was neither free nor in the file. */
  lemma PutInHole(s: Snap, blk: nat, v: nat)
    requires SnapOk(s) && blk < NDIR && MapOf(s.f, blk) == 0
    ensures FileBlocks(Put(s, blk, v).f) == FileBlocks(s.f) + Just(v) && MapsLike(s.f, Put(s, blk, v).f, blk, v)
    ensures SnapOk(Put(s, blk, v)) <==> v == 0 || (v !in s.free && v !in FileBlocks(s.f))
  {
    var f, g := s.f, Put(s, blk, v).f;
    assert Level(blk) == 0 && f.root[blk] == 0 && Tree(f, blk) == {} && Tree(g, blk) == Just(v);
    assert forall k: nat :: k < SLOTS && k != blk ==> g.root[k] == f.root[k] && Tree(g, k) == Tree(f, k);
    forall x ensures x in FileBlocks(g) <==> x in FileBlocks(f) + Just(v) {
      if x in FileBlocks(f) {
        var k: nat :| k < SLOTS && x in Tree(f, k);
        assert x in Tree(g, k);
      }
      if x in Just(v) { assert x in Tree(g, blk); }
      if x in FileBlocks(g) {
        var k: nat :| k < SLOTS && x in Tree(g, k);
        assert k != blk ==> x in Tree(f, k);
      }
    }
    forall x: nat | x != blk ensures MapOf(g, x) == MapOf(f, x) {
      if Locate(f.a, x) != OutOfRange { assert Locate(f.a, x).k != blk; }
    }
    assert v != 0 ==> v in Just(v);
    if v != 0 && v in FileBlocks(f) {
      var k: nat :| k < SLOTS && v in Tree(f, k);
      assert k != blk && v in Tree(g, k) && v in Tree(g, blk);
    } else {
      forall k: nat | k < SLOTS ensures TreeOk(g, k) { assert TreeOk(f, k); }
      forall j: nat, k: nat | j < k < SLOTS ensures Tree(g, j) !! Tree(g, k) {
        assert Tree(f, j) !! Tree(f, k) && Tree(f, j) <= FileBlocks(f) && Tree(f, k) <= FileBlocks(f);
      }
      NoBlockIsNoneOfFile(f);
    }
  }

  /** i_blocks stays the size of the file in sectors exactly if the call does not map a file block that is mapped
      already, and does not free a hole among the direct blocks unless it stores a block there that is new. */
  lemma AccountingKept(s0: Snap, s: Snap, blk: nat, v: nat, wmapFree: bool, code: Code)
    requires SnapOk(s0) && s0.sectors > 0 && Written(s0, s, blk, v, wmapFree, code) && Slack(s0) == 0
    ensures Slack(s) == 0 <==>
      if !wmapFree then MapOf(s0.f, blk) == 0
      else !(blk < NDIR && MapOf(s0.f, blk) == 0) || (v != 0 && v !in FileBlocks(s0.f))
  {
    if wmapFree && blk < NDIR && MapOf(s0.f, blk) == 0 {
      PutInHole(s0, blk, v);
      if v != 0 && v !in FileBlocks(s0.f) {
        SlackGrows(s0, s);
      } else {
        assert FileBlocks(s.f) == FileBlocks(s0.f);
      }
    }
  }

  /** A call that fails, and one that frees, changes no mapping but that of the block to be freed. */
  lemma OtherMappingsKept(s0: Snap, s: Snap, blk: nat, v: nat, wmapFree: bool, code: Code, x: nat)
    requires SnapOk(s0) && Written(s0, s, blk, v, wmapFree, code) && Ok(s.f) && (x != blk || code != OK)
    ensures MapOf(s.f, x) == MapOf(s0.f, x)
  {
    if wmapFree && blk < NDIR && MapOf(s0.f, blk) == 0 {
      PutInHole(s0, blk, v);
    }
  }

  /** Filling a hole and freeing it again: every file block is mapped as at first, no block is lost, and the data
      block is free. */
  lemma FillThenFree(s0: Snap, s1: Snap, s2: Snap, blk: nat, v: nat)
    requires SnapOk(s0) && v != 0 && MapOf(s0.f, blk) == 0 && Locate(s0.f.a, blk) != OutOfRange
    requires Written(s0, s1, blk, v, false, OK) && Ok(s1.f) && Written(s1, s2, blk, 0, true, OK)
    ensures Ok(s2.f) && MapsLike(s0.f, s2.f, blk, MapOf(s0.f, blk))
    ensures v in s2.free && FileBlocks(s2.f) + s2.free == FileBlocks(s0.f) + s0.free + {v}
    ensures Slack(s2) == Slack(s0)
  {
    assert MapOf(s1.f, blk) == v;
    MapsThen(s0.f, s1.f, s2.f, blk, v, 0);
    FilledIn(s0, s1, blk, v);
    FreedOut(s1, s2, blk);
  }

  lemma FilledIn(s0: Snap, s: Snap, blk: nat, v: nat)
    requires SnapOk(s0) && MapOf(s0.f, blk) == 0 && Filled(s0, s, blk, v)
    ensures FileBlocks(s.f) + s.free == FileBlocks(s0.f) + s0.free + {v}
  {
    StoredKeeps(FileBlocks(s0.f), FileBlocks(s.f), s0.free, s.free, v);
  }

  lemma StoredKeeps(before: set<nat>, after: set<nat>, free0: set<nat>, free: set<nat>, v: nat)
    requires Stored(before, after, free0, free, 0, v)
    ensures after + free == before + free0 + {v}
  {
    assert before <= after;
    forall x ensures x in after + free <==> x in before + free0 + {v} {
      assert x in after && x !in before ==> x in after - before;
    }
  }

  /** What was mapped and is freed has left the file. */
  lemma FreedOut(s0: Snap, s: Snap, blk: nat)
    requires SnapOk(s0) && Locate(s0.f.a, blk) != OutOfRange && MapOf(s0.f, blk) != 0 && Freed(s0, s, blk)
    ensures MapOf(s0.f, blk) in s.free && FileBlocks(s.f) + s.free == FileBlocks(s0.f) + s0.free
  {
    OldInFile(s0.f, blk);
    TradedKeeps(FileBlocks(s0.f), FileBlocks(s.f), s0.free, s.free, MapOf(s0.f, blk));
  }

  lemma TradedKeeps(before: set<nat>, after: set<nat>, free0: set<nat>, free: set<nat>, b: nat)
    requires Traded(before, after, free0, free) && after <= before && b in before && b !in after
    ensures b in free && after + free == before + free0
  {
  }
}
