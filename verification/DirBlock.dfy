/** A directory block of ext2 as its bytes: records with an inode number, a record length that leads to the next
    record, a name length, a file type and a name. */
module DirBlock {

  const HEADER: nat := 8          // MIN_DIR_ENTRY_SIZE

  type Bytes = seq<nat>

  function Get2(b: Bytes, o: nat): nat
    requires o + 2 <= |b|
  {
    b[o] + 256 * b[o + 1]
  }

  function Get4(b: Bytes, o: nat): nat
    requires o + 4 <= |b|
  {
    b[o] + 0x100 * b[o + 1] + 0x10000 * b[o + 2] + 0x1000000 * b[o + 3]
  }

  function Bytes2(v: nat): (s: Bytes)
    requires v < 0x10000
    ensures |s| == 2 && s[0] + 256 * s[1] == v
  {
    [v % 256, v / 256]
  }

  function Bytes4(v: nat): (s: Bytes)
    requires v < 0x100000000
    ensures |s| == 4 && s[0] + 0x100 * s[1] + 0x10000 * s[2] + 0x1000000 * s[3] == v
  {
    var v1 := v / 256;
    var v2 := v1 / 256;
    assert v == 256 * v1 + v % 256 && v1 == 256 * v2 + v1 % 256 && v2 == 256 * (v2 / 256) + v2 % 256;
    [v % 256, v1 % 256, v2 % 256, v2 / 256]
  }

  /** The bytes `s` written at `o`. */
  function Put(b: Bytes, o: nat, s: Bytes): (r: Bytes)
    requires o + |s| <= |b|
    ensures |r| == |b| && forall i :: 0 <= i < |b| ==> r[i] == if o <= i < o + |s| then s[i - o] else b[i]
  {
    b[..o] + s + b[o + |s|..]
  }

  function RecLen(b: Bytes, o: nat): nat
    requires o + HEADER <= |b|
  {
    Get2(b, o + 4)
  }

  function NameLen(b: Bytes, o: nat): nat
    requires o + HEADER <= |b|
  {
    b[o + 6]
  }

  function NameAt(b: Bytes, o: nat): Bytes
    requires o + HEADER + NameLen0(b, o) <= |b|
  {
    b[o + HEADER..o + HEADER + NameLen0(b, o)]
  }

  function NameLen0(b: Bytes, o: nat): nat {
    if o + HEADER <= |b| then b[o + 6] else 0
  }

  /** The record at `o` is inside the block and large enough for its name. */
  predicate RecOk(b: Bytes, o: nat) {
    o + HEADER <= |b| && HEADER + NameLen(b, o) <= RecLen(b, o) && o + RecLen(b, o) <= |b|
  }

  function Next(b: Bytes, o: nat): (q: nat)
    requires RecOk(b, o)
    ensures o + HEADER <= q <= |b|
  {
    o + RecLen(b, o)
  }

  /** From `o` on the block is exactly tiled by records. */
  predicate Tiled(b: Bytes, o: nat)
    decreases |b| - o
  {
    o == |b| || (o < |b| && RecOk(b, o) && Tiled(b, Next(b, o)))
  }

  /** The records from `o` on lead to one that starts at `p`, or to the end there. */
  predicate Leads(b: Bytes, o: nat, p: nat)
    decreases |b| - o
  {
    o == p <= |b| || (o < p && RecOk(b, o) && Leads(b, Next(b, o), p))
  }

  datatype Entry = Entry(ino: nat, name: Bytes)

  /** The record as an entry; one with inode number 0 (NO_ENTRY) is none. */
  function EntryAt(b: Bytes, o: nat): seq<Entry>
    requires RecOk(b, o)
  {
    if Get4(b, o) == 0 then [] else [Entry(Get4(b, o), NameAt(b, o))]
  }

  /** The entries from `o` on, up to `p`. */
  function Between(b: Bytes, o: nat, p: nat): seq<Entry>
    requires Leads(b, o, p)
    decreases |b| - o
  {
    if o == p then [] else EntryAt(b, o) + Between(b, Next(b, o), p)
  }

  /** All entries of a block. */
  function Live(b: Bytes): seq<Entry>
    requires Tiled(b, 0)
  {
    TiledLeads(b, 0);
    Between(b, 0, |b|)
  }

  lemma {:induction false} TiledLeads(b: Bytes, o: nat)
    ensures Tiled(b, o) <==> Leads(b, o, |b|)
    decreases |b| - o
  {
    if o < |b| && RecOk(b, o) { TiledLeads(b, Next(b, o)); }
  }

  lemma {:induction false} LeadsOn(b: Bytes, o: nat, p: nat, q: nat)
    requires Leads(b, o, p) && Leads(b, p, q)
    ensures o <= p <= q && Leads(b, o, q) && Between(b, o, q) == Between(b, o, p) + Between(b, p, q)
    decreases |b| - o
  {
    LeadsUp(b, p, q);
    if o < p {
      LeadsOn(b, Next(b, o), p, q);
      LeadsUp(b, Next(b, o), p);
      Grouped(EntryAt(b, o), Between(b, Next(b, o), p), Between(b, p, q));
    }
  }

  lemma Grouped<T>(x: seq<T>, y: seq<T>, z: seq<T>)
    ensures (x + y) + z == x + (y + z)
  {
  }

  lemma {:induction false} LeadsUp(b: Bytes, o: nat, p: nat)
    requires Leads(b, o, p)
    ensures o <= p <= |b|
    decreases |b| - o
  {
    if o < p { LeadsUp(b, Next(b, o), p); }
  }

  lemma LeadsStep(b: Bytes, o: nat)
    requires RecOk(b, o)
    ensures Leads(b, o, Next(b, o)) && Between(b, o, Next(b, o)) == EntryAt(b, o)
  {
  }

  /** What leads past `o` and what leads up to it lead on from it. */
  lemma {:induction false} LeadsRest(b: Bytes, o: nat, p: nat, q: nat)
    requires Leads(b, o, p) && Leads(b, o, q) && p <= q
    ensures Leads(b, p, q)
    decreases |b| - o
  {
    if o < p { LeadsRest(b, Next(b, o), p, q); }
  }

  lemma SameRec(b: Bytes, c: Bytes, o: nat)
    requires RecOk(b, o) && |c| == |b| && forall i :: o <= i < Next(b, o) ==> c[i] == b[i]
    ensures RecOk(c, o) && Next(c, o) == Next(b, o) && EntryAt(c, o) == EntryAt(b, o)
  {
    assert NameAt(c, o) == NameAt(b, o);
  }

  /** Records are where and what they are by their own bytes. */
  lemma {:induction false} SameBetween(b: Bytes, c: Bytes, o: nat, p: nat)
    requires Leads(b, o, p) && |c| == |b| && forall i :: o <= i < p && i < |b| ==> c[i] == b[i]
    ensures Leads(c, o, p) && Between(c, o, p) == Between(b, o, p)
    decreases |b| - o
  {
    if o < p {
      LeadsUp(b, Next(b, o), p);
      SameRec(b, c, o);
      SameBetween(b, c, Next(b, o), p);
    }
  }

  /** The block changes between two records' starts only, and is tiled there again: so it is as a whole. */
  lemma Region(b: Bytes, c: Bytes, p: nat, q: nat)
    requires Tiled(b, 0) && Leads(b, 0, p) && Leads(b, p, q) && |c| == |b| && Leads(c, p, q)
    requires forall i :: 0 <= i < |b| && !(p <= i < q) ==> c[i] == b[i]
    ensures Leads(b, q, |b|) && Tiled(c, 0)
    ensures Live(b) == Between(b, 0, p) + Between(b, p, q) + Between(b, q, |b|)
    ensures Live(c) == Between(b, 0, p) + Between(c, p, q) + Between(b, q, |b|)
  {
    TiledLeads(b, 0);
    LeadsUp(b, p, q);
    LeadsOn(b, 0, p, q);
    LeadsRest(b, 0, q, |b|);
    LeadsOn(b, 0, q, |b|);
    SameBetween(b, c, 0, p);
    SameBetween(b, c, q, |b|);
    LeadsOn(c, 0, p, q);
    LeadsOn(c, 0, q, |b|);
    TiledLeads(c, 0);
  }

  // ---------------------------------------------------------------- what search_dir writes

  function Round4(n: nat): (r: nat)
    ensures n <= r < n + 4 && r % 4 == 0
  {
    if n % 4 == 0 then n else n + (4 - n % 4)
  }

  /** The space that a record with a name of `len` bytes takes. */
  function Space(len: nat): nat {
    Round4(HEADER + len)
  }

  ghost predicate SameOutside(b: Bytes, c: Bytes, p: nat, q: nat) {
    |c| == |b| && forall i :: 0 <= i < |b| && !(p <= i < q) ==> c[i] == b[i]
  }

  /** The record at `o` is where it was, and no entry any more. */
  ghost predicate IsErased(b: Bytes, c: Bytes, o: nat) {
    RecOk(b, o) && SameOutside(b, c, o, Next(b, o)) && RecOk(c, o) && Next(c, o) == Next(b, o) && EntryAt(c, o) == []
  }

  /** DELETE: the inode number is saved in the name, if there is room, and cleared. */
  function Erased(b: Bytes, o: nat): (c: Bytes)
    requires RecOk(b, o)
    ensures IsErased(b, c, o)
    ensures var end := o + HEADER + NameLen(b, o); NameLen(b, o) >= 4 ==> c[end - 4..end] == b[o..o + 4]
  {
    var len := NameLen(b, o);
    var c := if len >= 4 then Put(b, o + HEADER + len - 4, b[o..o + 4]) else b;
    Put(c, o, [0, 0, 0, 0])
  }

  /** The record at `prev` extends over the record at `o`. */
  ghost predicate IsMerged(b: Bytes, c: Bytes, prev: nat, o: nat) {
    && RecOk(b, prev) && Next(b, prev) == o && RecOk(b, o) && SameOutside(b, c, prev, o)
    && RecOk(c, prev) && Next(c, prev) == Next(b, o) && EntryAt(c, prev) == EntryAt(b, prev)
  }

  /** DELETE: the space of the record at `o` goes to the record before. */
  function Merged(b: Bytes, prev: nat, o: nat): (c: Bytes)
    requires RecOk(b, prev) && Next(b, prev) == o && RecOk(b, o) && |b| < 0x10000
    ensures IsMerged(b, c, prev, o)
  {
    var c := Put(b, prev + 4, Bytes2((RecLen(b, prev) + RecLen(b, o)) % 0x10000));
    assert NameAt(c, prev) == NameAt(b, prev);
    c
  }

  function New(ino: nat, name: Bytes): seq<Entry> {
    if ino == 0 then [] else [Entry(ino, name)]
  }

  /** A record start, whatever name it has. */
  predicate RecLenAt(b: Bytes, o: nat) {
    o + HEADER <= |b| && HEADER <= RecLen(b, o) && o + RecLen(b, o) <= |b|
  }

  ghost predicate IsFilled(b: Bytes, c: Bytes, o: nat, ino: nat, name: Bytes) {
    && RecLenAt(b, o) && SameOutside(b, c, o, o + RecLen(b, o))
    && RecOk(c, o) && Next(c, o) == o + RecLen(b, o) && EntryAt(c, o) == New(ino, name)
  }

  /** ENTER: the slot at `o` gets its name, inode number and, if the file system has them, file type. */
  function Filled(b: Bytes, o: nat, ino: nat, name: Bytes, ftype: int): (c: Bytes)
    requires RecLenAt(b, o) && HEADER + |name| <= RecLen(b, o) && ino < 0x100000000 && |name| < 256
    ensures IsFilled(b, c, o, ino, name)
    ensures c[o + 7] == if ftype >= 0 then ftype else b[o + 7]
  {
    var c1 := Put(Put(b, o + 6, [|name|]), o + HEADER, name);
    var c2 := Put(c1, o, Bytes4(ino));
    var c := if ftype >= 0 then Put(c2, o + 7, [ftype]) else c2;
    assert NameAt(c, o) == name;
    c
  }

  /** The record at `o` has become shorter, and a free slot follows it. */
  ghost predicate IsShrunk(b: Bytes, c: Bytes, o: nat, actual: nat) {
    && RecOk(b, o) && SameOutside(b, c, o, Next(b, o))
    && RecOk(c, o) && Next(c, o) == o + actual && EntryAt(c, o) == EntryAt(b, o)
    && RecLenAt(c, o + actual) && o + actual + RecLen(c, o + actual) == Next(b, o)
  }

  /** ENTER: the record at `o` keeps `actual` bytes, the rest becomes a free slot. */
  function Shrunk(b: Bytes, o: nat, actual: nat): (c: Bytes)
    requires RecOk(b, o) && HEADER + NameLen(b, o) <= actual && actual + HEADER <= RecLen(b, o) && |b| < 0x10000
    ensures IsShrunk(b, c, o, actual) && Get4(c, o + actual) == 0
  {
    var c1 := Put(b, o + 4, Bytes2(actual));
    var c2 := Put(c1, o + actual + 4, Bytes2(RecLen(b, o) - actual));
    var c := Put(c2, o + actual, [0, 0, 0, 0]);
    assert NameAt(c, o) == NameAt(b, o);
    c
  }

  /** ENTER: a new block is one free slot. */
  function Fresh(size: nat): (b: Bytes)
    requires HEADER <= size < 0x10000
    ensures |b| == size && RecLenAt(b, 0) && RecLen(b, 0) == size
  {
    Put(seq(size, _ => 0), 4, Bytes2(size))
  }

  // ---------------------------------------------------------------- and what that does to the entries

  /** `before` and `after` are what is around the place `o` where an entry is or comes. */
  function Before(b: Bytes, o: nat): seq<Entry>
    requires Leads(b, 0, o)
  {
    Between(b, 0, o)
  }

  function After(b: Bytes, o: nat): seq<Entry>
    requires RecOk(b, o) && Leads(b, Next(b, o), |b|)
  {
    Between(b, Next(b, o), |b|)
  }

  /** The record at `o` is replaced by records with the entries `e`. */
  lemma RecordReplaced(b: Bytes, c: Bytes, o: nat, e: seq<Entry>)
    requires Tiled(b, 0) && Leads(b, 0, o) && RecOk(b, o) && SameOutside(b, c, o, Next(b, o))
    requires Leads(c, o, Next(b, o)) && Between(c, o, Next(b, o)) == e
    ensures Tiled(c, 0) && Leads(b, Next(b, o), |b|)
    ensures Live(b) == Before(b, o) + EntryAt(b, o) + After(b, o) && Live(c) == Before(b, o) + e + After(b, o)
  {
    LeadsStep(b, o);
    Region(b, c, o, Next(b, o));
  }

  lemma EraseFirst(b: Bytes, c: Bytes, o: nat)
    requires Tiled(b, 0) && Leads(b, 0, o) && IsErased(b, c, o)
    ensures Tiled(c, 0) && Leads(b, Next(b, o), |b|)
    ensures Live(b) == Before(b, o) + EntryAt(b, o) + After(b, o) && Live(c) == Before(b, o) + After(b, o)
  {
    LeadsStep(c, o);
    RecordReplaced(b, c, o, []);
    assert Before(b, o) + [] == Before(b, o);
  }

  lemma EraseMerge(b: Bytes, e: Bytes, c: Bytes, prev: nat, o: nat)
    requires Tiled(b, 0) && Leads(b, 0, prev) && RecOk(b, prev) && Next(b, prev) == o
    requires IsErased(b, e, o) && IsMerged(e, c, prev, o)
    ensures Tiled(c, 0) && Leads(b, 0, o) && Leads(b, Next(b, o), |b|)
    ensures Live(b) == Before(b, o) + EntryAt(b, o) + After(b, o) && Live(c) == Before(b, o) + After(b, o)
  {
    var q := Next(b, o);
    SameRec(b, e, prev);
    LeadsStep(c, prev);
    TwoRecords(b, prev, o);
    Region(b, c, prev, q);
    Reassociate(Between(b, 0, prev), EntryAt(b, prev), EntryAt(b, o), Between(b, q, |b|));
  }

  lemma TwoRecords(b: Bytes, prev: nat, o: nat)
    requires Leads(b, 0, prev) && RecOk(b, prev) && Next(b, prev) == o && RecOk(b, o)
    ensures Leads(b, prev, Next(b, o)) && Between(b, prev, Next(b, o)) == EntryAt(b, prev) + EntryAt(b, o)
    ensures Leads(b, 0, o) && Between(b, 0, o) == Between(b, 0, prev) + EntryAt(b, prev)
  {
    LeadsStep(b, prev);
    LeadsStep(b, o);
    LeadsOn(b, prev, o, Next(b, o));
    LeadsOn(b, 0, prev, o);
  }

  lemma FillFree(b: Bytes, c: Bytes, o: nat, ino: nat, name: Bytes)
    requires Tiled(b, 0) && Leads(b, 0, o) && RecOk(b, o) && Get4(b, o) == 0 && IsFilled(b, c, o, ino, name)
    ensures Tiled(c, 0) && Leads(b, Next(b, o), |b|)
    ensures Live(b) == Before(b, o) + After(b, o) && Live(c) == Before(b, o) + New(ino, name) + After(b, o)
  {
    LeadsStep(c, o);
    RecordReplaced(b, c, o, New(ino, name));
    assert Before(b, o) + [] == Before(b, o);
  }

  lemma ShrinkFill(b: Bytes, d: Bytes, c: Bytes, o: nat, actual: nat, ino: nat, name: Bytes)
    requires Tiled(b, 0) && Leads(b, 0, o) && IsShrunk(b, d, o, actual) && IsFilled(d, c, o + actual, ino, name)
    ensures Tiled(c, 0) && Leads(b, Next(b, o), |b|)
    ensures Live(b) == (Before(b, o) + EntryAt(b, o)) + After(b, o)
    ensures Live(c) == (Before(b, o) + EntryAt(b, o)) + New(ino, name) + After(b, o)
  {
    ShrunkFilled(b, d, c, o, actual, ino, name);
    RecordReplaced(b, c, o, EntryAt(b, o) + New(ino, name));
    Reassociate(Before(b, o), EntryAt(b, o), New(ino, name), After(b, o));
  }

  lemma Reassociate(p0: seq<Entry>, p1: seq<Entry>, p2: seq<Entry>, p3: seq<Entry>)
    ensures p0 + (p1 + p2) + p3 == (p0 + p1) + p2 + p3
  {
  }

  lemma ShrunkFilled(b: Bytes, d: Bytes, c: Bytes, o: nat, actual: nat, ino: nat, name: Bytes)
    requires IsShrunk(b, d, o, actual) && IsFilled(d, c, o + actual, ino, name)
    ensures SameOutside(b, c, o, Next(b, o))
    ensures Leads(c, o, Next(b, o)) && Between(c, o, Next(b, o)) == EntryAt(b, o) + New(ino, name)
  {
    SameRec(d, c, o);
    LeadsStep(c, o);
    LeadsStep(c, o + actual);
    LeadsOn(c, o, o + actual, Next(b, o));
  }

  lemma FreshFill(b: Bytes, c: Bytes, ino: nat, name: Bytes)
    requires RecLenAt(b, 0) && RecLen(b, 0) == |b| && IsFilled(b, c, 0, ino, name)
    ensures Tiled(c, 0) && Live(c) == New(ino, name)
  {
    LeadsStep(c, 0);
    TiledLeads(c, 0);
  }
}
