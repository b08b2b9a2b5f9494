/**
 The trees of indirect blocks that an ext2 inode roots: level 0 is a data block, level 1 a single
 indirect block, level 2 a double and level 3 a triple one. `disk` gives the entries of the indirect
 blocks, `a` is the number of entries in a block, and block number 0 is NO_BLOCK.
 */
module BlockTree {
  import opened Division

  type Disk = map<nat, seq<nat>>

  function Entry(d: Disk, b: nat, i: nat): nat {
    if b in d && i < |d[b]| then d[b][i] else 0
  }

  /** How many file blocks a tree of level `l` can map. */
  function Cap(a: nat, l: nat): (c: nat)
    ensures a > 0 ==> c > 0
  {
    if l == 0 then 1 else Product(a, Cap(a, l - 1))
  }

  function Product(x: nat, y: nat): (z: nat)
    ensures z == x * y && (x > 0 && y > 0 ==> z > 0)
  {
    x * y
  }

  /** All blocks of the tree at `b`: indirect blocks and data blocks. */
  function Blocks(d: Disk, a: nat, b: nat, l: nat): set<nat>
    decreases l, 0
  {
    if b == 0 then {}
    else if l == 0 then {b}
    else {b} + set i, x | 0 <= i < a && x in Below(d, a, b, l, i) :: x
  }

  /** The blocks of the tree below the i-th entry of `b`. */
  function Below(d: Disk, a: nat, b: nat, l: nat, i: nat): set<nat>
    requires l > 0
    decreases l - 1, 1
  {
    Blocks(d, a, Entry(d, b, i), l - 1)
  }

  /** The tree is a tree: no block occurs in two places. */
  ghost predicate Shaped(d: Disk, a: nat, b: nat, l: nat)
    decreases l, 0
  {
    b != 0 && l > 0 ==>
      && b in d && |d[b]| == a
      && (forall i: nat :: i < a ==> ShapedBelow(d, a, b, l, i) && b !in Below(d, a, b, l, i))
      && forall i: nat, j: nat :: i < j < a ==> Below(d, a, b, l, i) !! Below(d, a, b, l, j)
  }

  ghost predicate ShapedBelow(d: Disk, a: nat, b: nat, l: nat, i: nat)
    requires l > 0
    decreases l - 1, 1
  {
    Shaped(d, a, Entry(d, b, i), l - 1)
  }

  /** The data block that the tree maps its `idx`-th file block to, 0 for a hole. */
  function Read(d: Disk, a: nat, b: nat, l: nat, idx: nat): nat
    requires a > 0
    decreases l
  {
    if b == 0 || l == 0 then b
    else Read(d, a, Entry(d, b, Quotient(idx, Cap(a, l - 1))), l - 1, Remainder(idx, Cap(a, l - 1)))
  }

  predicate Same(d: Disk, d': Disk, x: nat) {
    (x in d <==> x in d') && (x in d ==> d[x] == d'[x])
  }

  lemma InBlocks(d: Disk, a: nat, b: nat, l: nat, i: nat)
    requires b != 0 && l > 0 && i < a
    ensures b in Blocks(d, a, b, l) && Below(d, a, b, l, i) <= Blocks(d, a, b, l)
  {
  }

  lemma DivBound(x: nat, y: nat, a: nat)
    requires y > 0 && x < Product(a, y)
    ensures Quotient(x, y) < a && Remainder(x, y) < y && x == Product(Quotient(x, y), y) + Remainder(x, y)
  {
    QuotientSplits(x, y);
    TimesIs(Quotient(x, y), y);
    ProductMonotone(a, Quotient(x, y), y);
  }

  lemma ProductMonotone(x: nat, x': nat, y: nat)
    requires y > 0
    ensures Product(x', y) < Product(x, y) ==> x' < x
  {
  }

  /** The way down from a block of level `l`: which entry, and which file block below it. */
  lemma StepDown(a: nat, l: nat, idx: nat)
    requires a > 0 && l > 0 && idx < Cap(a, l)
    ensures Quotient(idx, Cap(a, l - 1)) < a && Remainder(idx, Cap(a, l - 1)) < Cap(a, l - 1)
  {
    DivBound(idx, Cap(a, l - 1), a);
  }

  /** A tree does not notice changes outside its blocks. */
  lemma {:induction false} Frame(d: Disk, d': Disk, a: nat, b: nat, l: nat)
    requires forall x :: x in Blocks(d, a, b, l) ==> Same(d, d', x)
    ensures Blocks(d', a, b, l) == Blocks(d, a, b, l)
    ensures Shaped(d, a, b, l) ==> Shaped(d', a, b, l)
    decreases l
  {
    if b != 0 && l > 0 {
      forall i: nat | i < a
        ensures Below(d', a, b, l, i) == Below(d, a, b, l, i)
        ensures ShapedBelow(d, a, b, l, i) ==> ShapedBelow(d', a, b, l, i)
      {
        InBlocks(d, a, b, l, i);
        assert Same(d, d', b);
        Frame(d, d', a, Entry(d, b, i), l - 1);
      }
      if a == 0 { assert Blocks(d', a, b, l) == Blocks(d, a, b, l); }
      if Shaped(d, a, b, l) { assert Same(d, d', b); }
    }
  }

  lemma {:induction false} FrameRead(d: Disk, d': Disk, a: nat, b: nat, l: nat, idx: nat)
    requires a > 0 && idx < Cap(a, l) && forall x :: x in Blocks(d, a, b, l) ==> Same(d, d', x)
    ensures Read(d', a, b, l, idx) == Read(d, a, b, l, idx)
    decreases l
  {
    if b != 0 && l > 0 {
      StepDown(a, l, idx);
      InBlocks(d, a, b, l, Quotient(idx, Cap(a, l - 1)));
      assert Same(d, d', b);
      FrameRead(d, d', a, Entry(d, b, Quotient(idx, Cap(a, l - 1))), l - 1, Remainder(idx, Cap(a, l - 1)));
    }
  }

  /** The i-th entry of `b`, or the tree below it, is other in d' than in d; nothing else of the tree is. */
  ghost predicate Replaced(d: Disk, d': Disk, a: nat, b: nat, l: nat, i: nat)
    requires l > 0
  {
    && b != 0 && i < a && Shaped(d, a, b, l)
    && b in d' && |d'[b]| == a && (forall j :: 0 <= j < a && j != i ==> d'[b][j] == d[b][j])
    && ShapedBelow(d', a, b, l, i) && b !in Below(d', a, b, l, i)
    && forall x :: x in Blocks(d, a, b, l) && x != b && x !in Below(d, a, b, l, i) ==>
                   Same(d, d', x) && x !in Below(d', a, b, l, i)
  }

  lemma Sibling(d: Disk, d': Disk, a: nat, b: nat, l: nat, i: nat, j: nat)
    requires l > 0 && Replaced(d, d', a, b, l, i) && j < a && i != j
    ensures Entry(d', b, j) == Entry(d, b, j) && Below(d', a, b, l, j) == Below(d, a, b, l, j)
    ensures ShapedBelow(d', a, b, l, j) && b !in Below(d, a, b, l, j)
    ensures Below(d, a, b, l, j) !! Below(d', a, b, l, i) && Below(d, a, b, l, j) !! Below(d, a, b, l, i)
    ensures forall x :: x in Below(d, a, b, l, j) ==> Same(d, d', x)
  {
    InBlocks(d, a, b, l, j);
    assert Below(d, a, b, l, j) !! Below(d, a, b, l, i) by {
      assert if i < j then Below(d, a, b, l, i) !! Below(d, a, b, l, j) else Below(d, a, b, l, j) !! Below(d, a, b, l, i);
    }
    assert ShapedBelow(d, a, b, l, j) && b !in Below(d, a, b, l, j);
    Frame(d, d', a, Entry(d, b, j), l - 1);
  }

  lemma ReplaceShape(d: Disk, d': Disk, a: nat, b: nat, l: nat, i: nat)
    requires l > 0 && Replaced(d, d', a, b, l, i)
    ensures Shaped(d', a, b, l)
    ensures Blocks(d', a, b, l) == (Blocks(d, a, b, l) - Below(d, a, b, l, i)) + Below(d', a, b, l, i)
  {
    forall j: nat | j < a && j != i
      ensures Below(d', a, b, l, j) == Below(d, a, b, l, j)
      ensures ShapedBelow(d', a, b, l, j) && b !in Below(d, a, b, l, j)
      ensures Below(d, a, b, l, j) !! Below(d', a, b, l, i) && Below(d, a, b, l, j) !! Below(d, a, b, l, i)
    {
      Sibling(d, d', a, b, l, i, j);
    }
    assert b !in Below(d, a, b, l, i);
  }

  lemma ReplaceRead(d: Disk, d': Disk, a: nat, b: nat, l: nat, i: nat, idx: nat)
    requires l > 0 && Replaced(d, d', a, b, l, i) && idx < Cap(a, l)
    ensures Read(d', a, b, l, idx) ==
      if Quotient(idx, Cap(a, l - 1)) == i then Read(d', a, Entry(d', b, i), l - 1, Remainder(idx, Cap(a, l - 1))) else Read(d, a, b, l, idx)
  {
    StepDown(a, l, idx);
    var j := Quotient(idx, Cap(a, l - 1));
    if j != i {
      Sibling(d, d', a, b, l, i, j);
      FrameRead(d, d', a, Entry(d, b, j), l - 1, Remainder(idx, Cap(a, l - 1)));
    }
  }

  // ---------------------------------------------------------------- the path to one file block

  /** The block of level `m` on the way from `b` (level `l`) to file block `idx`; 0 if the way ends before. */
  function Node(d: Disk, a: nat, b: nat, l: nat, idx: nat, m: nat): nat
    requires a > 0 && m <= l
    decreases l
  {
    if l == m || b == 0 then b
    else Node(d, a, Entry(d, b, Quotient(idx, Cap(a, l - 1))), l - 1, Remainder(idx, Cap(a, l - 1)), m)
  }

  /** The number of that file block among those below the block of level `m`. */
  function Rest(a: nat, l: nat, idx: nat, m: nat): (r: nat)
    requires a > 0 && m <= l
    ensures idx < Cap(a, l) ==> r < Cap(a, m)
    decreases l
  {
    if l == m then idx else
      assert Remainder(idx, Cap(a, l - 1)) < Cap(a, l - 1);
      Rest(a, l - 1, Remainder(idx, Cap(a, l - 1)), m)
  }

  /** The entry of the block of level `m` that the way takes. */
  function Slot(a: nat, l: nat, idx: nat, m: nat): (i: nat)
    requires a > 0 && 0 < m <= l
    ensures idx < Cap(a, l) ==> i < a
  {
    var r := Rest(a, l, idx, m);
    if idx < Cap(a, l) then StepDown(a, m, r); Quotient(r, Cap(a, m - 1)) else Quotient(r, Cap(a, m - 1))
  }

  lemma {:induction false} NodeInBlocks(d: Disk, a: nat, b: nat, l: nat, idx: nat, m: nat)
    requires a > 0 && m <= l && idx < Cap(a, l) && Shaped(d, a, b, l) && Node(d, a, b, l, idx, m) != 0
    ensures Blocks(d, a, Node(d, a, b, l, idx, m), m) <= Blocks(d, a, b, l)
    ensures Shaped(d, a, Node(d, a, b, l, idx, m), m)
    decreases l
  {
    if l != m {
      StepDown(a, l, idx);
      var i := Quotient(idx, Cap(a, l - 1));
      InBlocks(d, a, b, l, i);
      assert ShapedBelow(d, a, b, l, i);
      NodeInBlocks(d, a, Entry(d, b, i), l - 1, Remainder(idx, Cap(a, l - 1)), m);
    }
  }

  /** The tree at b' in d' reads like the tree at b in d, except that file block `idx` is at `v`. */
  ghost predicate Reads(d: Disk, b: nat, d': Disk, b': nat, a: nat, l: nat, idx: nat, v: nat)
    requires a > 0
  {
    forall q: nat :: q < Cap(a, l) ==> Read(d', a, b', l, q) == if q == idx then v else Read(d, a, b, l, q)
  }

  /** The change `n` of level `m` undergoes when its entry for `idx` changes, and nothing else of the tree at `b`. */
  ghost predicate Changed(d: Disk, d': Disk, a: nat, b: nat, l: nat, idx: nat, m: nat, v: nat)
    requires a > 0 && 0 < m <= l
  {
    var n, i := Node(d, a, b, l, idx, m), Slot(a, l, idx, m);
    && idx < Cap(a, l) && Shaped(d, a, b, l) && Replaced(d, d', a, n, m, i)
    && (forall x :: x in Blocks(d, a, b, l) && x != n && x !in Below(d, a, n, m, i) ==>
                    Same(d, d', x) && x !in Below(d', a, n, m, i))
    && Reads(d, Entry(d, n, i), d', Entry(d', n, i), a, m - 1, Rest(a, l, idx, m - 1), v)
  }

  lemma SamePlace(x: nat, z: nat, y: nat)
    requires y > 0 && Quotient(x, y) == Quotient(z, y) && Remainder(x, y) == Remainder(z, y)
    ensures x == z
  {
    QuotientSplits(x, y);
    QuotientSplits(z, y);
  }

  lemma PathBase(d: Disk, d': Disk, a: nat, b: nat, l: nat, idx: nat, v: nat)
    requires a > 0 && 0 < l && Changed(d, d', a, b, l, idx, l, v)
    ensures Reads(d, b, d', b, a, l, idx, v)
  {
    var i, y := Slot(a, l, idx, l), Cap(a, l - 1);
    assert Rest(a, l, idx, l - 1) == Remainder(idx, y);
    forall q: nat | q < Cap(a, l) ensures Read(d', a, b, l, q) == if q == idx then v else Read(d, a, b, l, q) {
      ReplaceRead(d, d', a, b, l, i, q);
      StepDown(a, l, q);
      if Quotient(q, y) == i && Remainder(q, y) == Remainder(idx, y) {
        SamePlace(q, idx, y);
      }
    }
  }

  lemma NodeInside(d: Disk, a: nat, b: nat, l: nat, idx: nat, m: nat)
    requires a > 0 && 0 < m < l && idx < Cap(a, l) && b != 0 && Shaped(d, a, b, l) && Node(d, a, b, l, idx, m) != 0
    ensures var y, n, i := Cap(a, l - 1), Node(d, a, b, l, idx, m), Slot(a, l, idx, m);
      var j := Quotient(idx, y);
      && j < a && Remainder(idx, y) < y && i < a && b != n && b in d && |d[b]| == a
      && n == Node(d, a, Entry(d, b, j), l - 1, Remainder(idx, y), m) && i == Slot(a, l - 1, Remainder(idx, y), m)
      && Rest(a, l, idx, m - 1) == Rest(a, l - 1, Remainder(idx, y), m - 1)
      && b in Blocks(d, a, b, l) && ShapedBelow(d, a, b, l, j) && b !in Below(d, a, b, l, j)
      && n in Below(d, a, b, l, j) && Below(d, a, n, m, i) <= Below(d, a, b, l, j) <= Blocks(d, a, b, l)
  {
    StepDown(a, l, idx);
    var y := Cap(a, l - 1);
    var j := Quotient(idx, y);
    InBlocks(d, a, b, l, j);
    assert ShapedBelow(d, a, b, l, j) && b !in Below(d, a, b, l, j);
    NodeInBlocks(d, a, Entry(d, b, j), l - 1, Remainder(idx, y), m);
    InBlocks(d, a, Node(d, a, b, l, idx, m), m, Slot(a, l, idx, m));
  }

  /** The change is one of the tree below b's entry. */
  lemma PathStep(d: Disk, d': Disk, a: nat, b: nat, l: nat, idx: nat, m: nat, v: nat)
    requires a > 0 && 0 < m < l && Changed(d, d', a, b, l, idx, m, v)
    ensures var y := Cap(a, l - 1);
      && b != 0 && Quotient(idx, y) < a && b in d' && d'[b] == d[b] && |d[b]| == a
      && Changed(d, d', a, Entry(d, b, Quotient(idx, y)), l - 1, Remainder(idx, y), m, v)
      && b !in Below(d', a, Node(d, a, b, l, idx, m), m, Slot(a, l, idx, m))
      && forall x :: x in Blocks(d, a, b, l) && x != b && x !in Below(d, a, b, l, Quotient(idx, y)) ==>
                     Same(d, d', x) && x !in Below(d', a, Node(d, a, b, l, idx, m), m, Slot(a, l, idx, m))
  {
    NodeInside(d, a, b, l, idx, m);
    assert Same(d, d', b);
  }

  /** What such a change does to the whole tree. */
  lemma {:induction false} PathUpdate(d: Disk, d': Disk, a: nat, b: nat, l: nat, idx: nat, m: nat, v: nat)
    requires a > 0 && 0 < m <= l && Changed(d, d', a, b, l, idx, m, v)
    ensures Shaped(d', a, b, l)
    ensures var n, i := Node(d, a, b, l, idx, m), Slot(a, l, idx, m);
      Blocks(d', a, b, l) == (Blocks(d, a, b, l) - Below(d, a, n, m, i)) + Below(d', a, n, m, i)
    ensures Reads(d, b, d', b, a, l, idx, v)
    decreases l
  {
    if l == m {
      ReplaceShape(d, d', a, b, l, Slot(a, l, idx, m));
      PathBase(d, d', a, b, l, idx, v);
    } else {
      var y := Cap(a, l - 1);
      PathStep(d, d', a, b, l, idx, m, v);
      var c := Entry(d, b, Quotient(idx, y));
      PathUpdate(d, d', a, c, l - 1, Remainder(idx, y), m, v);
      PathJoin(d, d', a, b, l, idx, m, v);
    }
  }

  lemma PathJoin(d: Disk, d': Disk, a: nat, b: nat, l: nat, idx: nat, m: nat, v: nat)
    requires a > 0 && 0 < m < l && Changed(d, d', a, b, l, idx, m, v)
    requires var y, n, i := Cap(a, l - 1), Node(d, a, b, l, idx, m), Slot(a, l, idx, m);
      var c := Entry(d, b, Quotient(idx, y));
      && Shaped(d', a, c, l - 1) && Reads(d, c, d', c, a, l - 1, Remainder(idx, y), v)
      && Blocks(d', a, c, l - 1) == (Blocks(d, a, c, l - 1) - Below(d, a, n, m, i)) + Below(d', a, n, m, i)
    ensures Shaped(d', a, b, l)
    ensures var n, i := Node(d, a, b, l, idx, m), Slot(a, l, idx, m);
      Blocks(d', a, b, l) == (Blocks(d, a, b, l) - Below(d, a, n, m, i)) + Below(d', a, n, m, i)
    ensures Reads(d, b, d', b, a, l, idx, v)
  {
    PathStep(d, d', a, b, l, idx, m, v);
    var y, n, i := Cap(a, l - 1), Node(d, a, b, l, idx, m), Slot(a, l, idx, m);
    var j, c := Quotient(idx, y), Entry(d, b, Quotient(idx, y));
    assert Entry(d', b, j) == c;
    NodeInside(d, a, b, l, idx, m);
    assert Replaced(d, d', a, b, l, j);
    ReplaceShape(d, d', a, b, l, j);
    forall q: nat | q < Cap(a, l) ensures Read(d', a, b, l, q) == if q == idx then v else Read(d, a, b, l, q) {
      ReplaceRead(d, d', a, b, l, j, q);
      StepDown(a, l, q);
      if Quotient(q, y) == j && Remainder(q, y) == Remainder(idx, y) {
        SamePlace(q, idx, y);
      }
    }
  }

  /** The way goes on from the block of level `m` through its entry. */
  lemma {:induction false} NodeBelow(d: Disk, a: nat, b: nat, l: nat, idx: nat, m: nat)
    requires a > 0 && 0 < m <= l && idx < Cap(a, l)
    ensures var n := Node(d, a, b, l, idx, m);
      Node(d, a, b, l, idx, m - 1) == if n == 0 then 0 else Entry(d, n, Slot(a, l, idx, m))
    ensures Rest(a, l, idx, m - 1) == Remainder(Rest(a, l, idx, m), Cap(a, m - 1))
    decreases l
  {
    StepDown(a, l, idx);
    if l != m {
      NodeBelow(d, a, Entry(d, b, Quotient(idx, Cap(a, l - 1))), l - 1, Remainder(idx, Cap(a, l - 1)), m);
    }
  }

  /** The blocks above the change stay on the way. */
  lemma {:induction false} NodeAbove(d: Disk, d': Disk, a: nat, b: nat, l: nat, idx: nat, m: nat, v: nat, h: nat)
    requires a > 0 && 0 < m <= h <= l && Changed(d, d', a, b, l, idx, m, v)
    ensures Node(d', a, b, l, idx, h) == Node(d, a, b, l, idx, h)
    decreases l
  {
    if h < l {
      PathStep(d, d', a, b, l, idx, m, v);
      NodeAbove(d, d', a, Entry(d, b, Quotient(idx, Cap(a, l - 1))), l - 1, Remainder(idx, Cap(a, l - 1)), m, v, h);
    }
  }

  lemma {:induction false} FrameNode(d: Disk, d': Disk, a: nat, b: nat, l: nat, idx: nat, m: nat)
    requires a > 0 && m <= l && idx < Cap(a, l) && forall x :: x in Blocks(d, a, b, l) ==> Same(d, d', x)
    ensures Node(d', a, b, l, idx, m) == Node(d, a, b, l, idx, m)
    decreases l
  {
    if l != m && b != 0 {
      StepDown(a, l, idx);
      InBlocks(d, a, b, l, Quotient(idx, Cap(a, l - 1)));
      assert Same(d, d', b);
      FrameNode(d, d', a, Entry(d, b, Quotient(idx, Cap(a, l - 1))), l - 1, Remainder(idx, Cap(a, l - 1)), m);
    }
  }

  /** The way to a file block reads what the tree reads there. */
  lemma {:induction false} NodeReads(d: Disk, a: nat, b: nat, l: nat, idx: nat, m: nat)
    requires a > 0 && m <= l && idx < Cap(a, l)
    ensures Read(d, a, b, l, idx) == Read(d, a, Node(d, a, b, l, idx, m), m, Rest(a, l, idx, m))
    decreases l
  {
    if l != m && b != 0 {
      StepDown(a, l, idx);
      NodeReads(d, a, Entry(d, b, Quotient(idx, Cap(a, l - 1))), l - 1, Remainder(idx, Cap(a, l - 1)), m);
    }
  }

  /** No block, a data block, or an indirect block without entries. */
  predicate Bare(d: Disk, a: nat, b: nat, l: nat) {
    b == 0 || l == 0 || (b in d && |d[b]| == a && forall i :: 0 <= i < a ==> d[b][i] == 0)
  }

  lemma BareTree(d: Disk, a: nat, b: nat, l: nat)
    requires a > 0 && Bare(d, a, b, l)
    ensures Shaped(d, a, b, l)
    ensures Blocks(d, a, b, l) == if b == 0 then {} else {b}
    ensures forall idx: nat :: idx < Cap(a, l) ==> Read(d, a, b, l, idx) == if l == 0 then b else 0
  {
    if b != 0 && l > 0 {
      forall i: nat | i < a ensures Below(d, a, b, l, i) == {} && ShapedBelow(d, a, b, l, i) {
        assert Entry(d, b, i) == 0;
      }
      forall idx: nat | idx < Cap(a, l) ensures Read(d, a, b, l, idx) == 0 {
        StepDown(a, l, idx);
      }
    }
  }
}
