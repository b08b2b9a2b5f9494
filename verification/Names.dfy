/** Component names of the hgfs server: their normal form, their comparison, and the slots of the name hash. */
module Names {

  const SLOTS: nat := 1023        // NUM_HASH_SLOTS
  const INODES: nat := 255        // NUM_INODES, with NUM_INODE_BITS == 8
  const WORD: nat := 0x1_0000_0000

  type Name = seq<char>

  function ToLower(c: char): char {
    if 'A' <= c <= 'Z' then c + ('a' - 'A') else c
  }

  /** normalize_name. */
  function Normalize(name: Name, insensitive: bool): (r: Name)
    ensures |r| == |name|
    ensures forall i :: 0 <= i < |r| ==> r[i] == if insensitive then ToLower(name[i]) else name[i]
  {
    if insensitive then seq(|name|, i requires 0 <= i < |name| => ToLower(name[i])) else name
  }

  /** strcmp, or strcasecmp: whether the names differ, found out from front to back. */
  function Differ(a: Name, b: Name, insensitive: bool): bool {
    if a == [] || b == [] then a != b
    else if insensitive && ToLower(a[0]) != ToLower(b[0]) then true
    else if !insensitive && a[0] != b[0] then true
    else Differ(a[1..], b[1..], insensitive)
  }

  /** compare_name says that names are equivalent exactly if their normal forms are equal. */
  lemma {:induction false} CompareNormal(a: Name, b: Name, insensitive: bool)
    ensures !Differ(a, b, insensitive) <==> Normalize(a, insensitive) == Normalize(b, insensitive)
  {
    var m, n := Normalize(a, insensitive), Normalize(b, insensitive);
    if a != [] && b != [] {
      CompareNormal(a[1..], b[1..], insensitive);
      assert m == [m[0]] + m[1..] && n == [n[0]] + n[1..];
      assert m[1..] == Normalize(a[1..], insensitive) && n[1..] == Normalize(b[1..], insensitive);
    } else {
      assert |m| == |a| && |n| == |b|;
    }
  }

  /** Exclusive or, bit by bit. */
  function Xor(x: nat, y: nat): nat {
    if x == 0 then y
    else if y == 0 then x
    else 2 * Xor(x / 2, y / 2) + if x % 2 == y % 2 then 0 else 1
  }

  /** A character as an int, with its sign extended. */
  function Extended(c: char): nat {
    var v := c as nat % 256;
    if v < 128 then v else WORD - 256 + v
  }

  function Djb2(name: Name, val: nat): nat {
    if name == [] then val else Djb2(name[1..], Xor(val * 33 % WORD, Extended(name[0])))
  }

  /** hash_dentry; inode `i` has number i + 1. */
  function Slot(parent: nat, name: Name, insensitive: bool): (s: nat)
    ensures s < SLOTS
  {
    Xor(Djb2(Normalize(name, insensitive), 5381), parent + 1) % SLOTS
  }

  lemma {:induction false} XorStep(x: nat, y: nat)
    ensures Xor(x, y) / 2 == Xor(x / 2, y / 2)
    ensures Xor(x, y) % 2 == if x % 2 == y % 2 then 0 else 1
  {
  }

  /** Exclusive or with something below 256 leaves all but the last eight bits. */
  lemma XorHigh(x: nat, y: nat)
    requires y < 256
    ensures Xor(x, y) / 256 == x / 256
  {
    XorHalves(x, y, 8);
    assert Halved(Xor(x, y), 8) == Xor(x, y) / 256 && Halved(x, 8) == x / 256 && Halved(y, 8) == 0 by {
      Halves(Xor(x, y));
      Halves(x);
      Halves(y);
    }
  }

  function Halved(x: nat, k: nat): nat {
    if k == 0 then x else Halved(x / 2, k - 1)
  }

  lemma Halves(x: nat)
    ensures Halved(x, 8) == x / 256
  {
    assert Halved(x, 8) == Halved(x / 2, 7) == Halved(x / 2 / 2, 6) == Halved(x / 2 / 2 / 2, 5);
    var y := x / 2 / 2 / 2;
    assert y == x / 8;
    assert Halved(y, 5) == Halved(y / 2, 4) == Halved(y / 2 / 2, 3) == Halved(y / 2 / 2 / 2, 2);
    var z := y / 2 / 2 / 2;
    assert z == y / 8;
    assert Halved(z, 2) == Halved(z / 2, 1) == z / 2 / 2 == z / 4;
  }

  lemma {:induction false} XorHalves(x: nat, y: nat, k: nat)
    ensures Halved(Xor(x, y), k) == Xor(Halved(x, k), Halved(y, k))
    decreases k
  {
    if k > 0 {
      XorStep(x, y);
      XorHalves(x / 2, y / 2, k - 1);
    }
  }

  lemma {:induction false} XorInjective(x: nat, y: nat, z: nat)
    requires Xor(x, y) == Xor(x, z)
    ensures y == z
    decreases x + y + z
  {
    if x != 0 || y != 0 || z != 0 {
      XorStep(x, y);
      XorStep(x, z);
      XorInjective(x / 2, y / 2, z / 2);
    }
  }

  /** Equivalent names in different directories are never in the same slot. */
  lemma SlotsApart(p: nat, q: nat, a: Name, b: Name, insensitive: bool)
    requires p < INODES && q < INODES && p != q && !Differ(a, b, insensitive)
    ensures Slot(p, a, insensitive) != Slot(q, b, insensitive)
  {
    CompareNormal(a, b, insensitive);
    var v := Djb2(Normalize(a, insensitive), 5381);
    var x, y := Xor(v, p + 1), Xor(v, q + 1);
    XorHigh(v, p + 1);
    XorHigh(v, q + 1);
    if x == y { XorInjective(v, p + 1, q + 1); }
    CloseApart(x, y);
  }

  lemma CloseApart(x: nat, y: nat)
    requires x / 256 == y / 256 && x != y
    ensures x % SLOTS != y % SLOTS
  {
    assert x == SLOTS * (x / SLOTS) + x % SLOTS;
    assert y == SLOTS * (y / SLOTS) + y % SLOTS;
    assert -256 < x - y < 256;
  }

  /** Equivalent names in one directory are. */
  lemma SlotsSame(p: nat, a: Name, b: Name, insensitive: bool)
    requires !Differ(a, b, insensitive)
    ensures Slot(p, a, insensitive) == Slot(p, b, insensitive)
  {
    CompareNormal(a, b, insensitive);
  }
}
