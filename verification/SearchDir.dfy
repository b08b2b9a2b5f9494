/** search_dir of the ext2 server: LOOK_UP, ENTER, DELETE and IS_EMPTY on the blocks of a directory. */
module SearchDir {
  import opened DirBlock

  /** What an entry is looked for as: any that is found by a name, or (for IS_EMPTY) any that is neither "." nor "..". */
  datatype Sought = Named(name: Bytes) | Other

  const DOT: Bytes := [46]
  const DOTDOT: Bytes := [46, 46]

  /** ansi_strcmp finds a name without characters equal to every string. */
  predicate Matches(name: Bytes, s: Bytes) {
    name == [] || name == s
  }

  predicate Hit(e: Entry, what: Sought) {
    match what
    case Named(s) => Matches(e.name, s)
    case Other => !Matches(e.name, DOT) && !Matches(e.name, DOTDOT)
  }

  ghost predicate NoHit(list: seq<Entry>, what: Sought) {
    forall i :: 0 <= i < |list| ==> !Hit(list[i], what)
  }

  /** The place of the first hit, or the length of the list. */
  function Find(list: seq<Entry>, what: Sought): (k: nat)
    ensures k <= |list| && (k < |list| ==> Hit(list[k], what)) && forall i :: 0 <= i < k ==> !Hit(list[i], what)
  {
    if list == [] then 0
    else if Hit(list[0], what) then 0
    else 1 + Find(list[1..], what)
  }

  lemma {:induction false} FindIs(list: seq<Entry>, what: Sought, k: nat)
    requires k <= |list| && (k < |list| ==> Hit(list[k], what)) && forall i :: 0 <= i < k ==> !Hit(list[i], what)
    ensures Find(list, what) == k
    decreases k
  {
    if k > 0 {
      assert !Hit(list[0], what);
      FindIs(list[1..], what, k - 1);
    }
  }

  predicate BlockOk(b: Bytes, size: nat) {
    |b| == size && Tiled(b, 0)
  }

  ghost predicate AllTiled(blocks: seq<Bytes>) {
    forall i :: 0 <= i < |blocks| ==> Tiled(blocks[i], 0)
  }

  /** All entries of the directory, in order. */
  function LiveAll(blocks: seq<Bytes>): seq<Entry>
    requires AllTiled(blocks)
  {
    if blocks == [] then [] else LiveAll(blocks[..|blocks| - 1]) + Live(blocks[|blocks| - 1])
  }

  lemma LiveLast(blocks: seq<Bytes>, b: Bytes)
    requires AllTiled(blocks) && Tiled(b, 0)
    ensures AllTiled(blocks + [b]) && LiveAll(blocks + [b]) == LiveAll(blocks) + Live(b)
  {
    assert (blocks + [b])[..|blocks|] == blocks;
  }

  lemma LiveApart(blocks: seq<Bytes>, i: nat)
    requires i < |blocks| && AllTiled(blocks)
    ensures LiveAll(blocks) == LiveAll(blocks[..i]) + Live(blocks[i]) + LiveAll(blocks[i + 1..])
  {
    LiveLast(blocks[..i], blocks[i]);
    LiveAppend(blocks[..i] + [blocks[i]], blocks[i + 1..]);
    CutAt(blocks, i);
  }

  lemma CutAt<T>(s: seq<T>, i: nat)
    requires i < |s|
    ensures (s[..i] + [s[i]]) + s[i + 1..] == s
  {
  }

  lemma CutLast<T>(s: seq<T>, t: seq<T>)
    requires t != []
    ensures (s + t[..|t| - 1]) + [t[|t| - 1]] == s + t && t[..|t| - 1] + [t[|t| - 1]] == t
  {
  }

  lemma {:induction false} LiveAppend(front: seq<Bytes>, back: seq<Bytes>)
    requires AllTiled(front) && AllTiled(back)
    ensures AllTiled(front + back) && LiveAll(front + back) == LiveAll(front) + LiveAll(back)
    decreases |back|
  {
    if back == [] {
      assert front + back == front;
    } else {
      var n := |back| - 1;
      LiveAppend(front, back[..n]);
      LiveLast(front + back[..n], back[n]);
      CutLast(front, back);
      Grouped(LiveAll(front), LiveAll(back[..n]), Live(back[n]));
    }
  }

  /** ansi_strcmp; the string is given without its final NUL. */
  method AnsiStrcmp(s: Bytes, t: Bytes) returns (r: int)
    ensures r == 0 <==> Matches(s, t)
  {
    if |s| == 0 {
      return 0;
    }
    var i := 0;
    while i < |s|
      invariant i <= |s| && i <= |t| && s[..i] == t[..i]
    {
      if i == |t| || s[i] != t[i] {
        return -1;
      }
      i := i + 1;
    }
    r := if i == |t| then 0 else -1;
  }

  method IsHit(name: Bytes, what: Sought) returns (hit: bool)
    ensures hit == Hit(Entry(0, name), what)
  {
    var r;
    match what {
      case Named(s) =>
        r := AnsiStrcmp(name, s);
        hit := r == 0;
      case Other =>
        r := AnsiStrcmp(name, DOT);
        hit := r != 0;
        if hit {
          r := AnsiStrcmp(name, DOTDOT);
          hit := r != 0;
        }
    }
  }

  /** The loop over the records of a block, for all but ENTER. */
  method FindInBlock(b: Bytes, what: Sought) returns (at: int, prev: int)
    requires Tiled(b, 0)
    ensures at == -1 ==> NoHit(Live(b), what)
    ensures at != -1 ==> 0 <= at && Leads(b, 0, at) && RecOk(b, at)
    ensures at != -1 ==> EntryAt(b, at) != [] && Hit(EntryAt(b, at)[0], what) && NoHit(Before(b, at), what)
    ensures at > 0 ==> 0 <= prev && Leads(b, 0, prev) && RecOk(b, prev) && Next(b, prev) == at
    ensures at == 0 ==> prev == -1
  {
    at, prev := 0, -1;
    TiledLeads(b, 0);
    while at < |b|
      invariant 0 <= at <= |b| && Leads(b, 0, at) && Tiled(b, at) && NoHit(Before(b, at), what)
      invariant at == 0 ==> prev == -1
      invariant at > 0 ==> 0 <= prev < at && Leads(b, 0, prev) && RecOk(b, prev) && Next(b, prev) == at
      decreases |b| - at
    {
      if Get4(b, at) != 0 {
        var hit := IsHit(NameAt(b, at), what);
        if hit {
          return;
        }
      }
      LeadsStep(b, at);
      LeadsOn(b, 0, at, Next(b, at));
      prev := at;
      at := Next(b, at);
    }
    at := -1;
  }

  /** The record has room for `space` bytes: it is free, or longer than it needs to be. */
  predicate RoomAt(b: Bytes, o: nat, space: nat)
    requires RecOk(b, o)
  {
    (Get4(b, o) == 0 && space <= RecLen(b, o)) || Space(NameLen(b, o)) + space <= RecLen(b, o)
  }

  ghost predicate HasRoom(b: Bytes, space: nat) {
    exists o: nat :: Leads(b, 0, o) && RecOk(b, o) && RoomAt(b, o, space)
  }

  /** The loop over the records of a block for ENTER. */
  method FindRoom(b: Bytes, space: nat) returns (at: int)
    requires Tiled(b, 0)
    ensures at == -1 <==> !HasRoom(b, space)
    ensures at != -1 ==> 0 <= at && Leads(b, 0, at) && RecOk(b, at) && RoomAt(b, at, space)
  {
    at := 0;
    while at < |b|
      invariant 0 <= at <= |b| && Leads(b, 0, at) && Tiled(b, at)
      invariant forall o: nat :: o < at && Leads(b, 0, o) && RecOk(b, o) ==> !RoomAt(b, o, space)
      decreases |b| - at
    {
      if RoomAt(b, at, space) {
        return;
      }
      LeadsStep(b, at);
      LeadsOn(b, 0, at, Next(b, at));
      forall o: nat | at < o < Next(b, at) ensures !Leads(b, 0, o) {
        if Leads(b, 0, o) {
          LeadsRest(b, 0, at, o);
          LeadsUp(b, Next(b, at), o);
        }
      }
      at := Next(b, at);
    }
    at := -1;
  }

  // ---------------------------------------------------------------- from one block to the directory

  /** The first hit of a list in five parts. */
  lemma FirstHit(list: seq<Entry>, p: seq<Entry>, before: seq<Entry>, e: seq<Entry>, after: seq<Entry>, q: seq<Entry>,
                 what: Sought)
    requires list == p + (before + e + after) + q && |e| == 1 && Hit(e[0], what)
    requires NoHit(p, what) && NoHit(before, what)
    ensures Find(list, what) == |p| + |before| < |list| && list[|p| + |before|] == e[0]
    ensures WithoutHit(list, what) == p + (before + after) + q
  {
    Five(p, before, e, after, q);
    NoHitAppend(p, before, what);
    assert e == [e[0]];
    HitAt(list, p + before, e[0], after + q, what);
    Four(p, before, after, q);
  }

  /** The record at which the walk stops is the first match of the directory. */
  lemma HitFound(blocks: seq<Bytes>, i: nat, at: nat, what: Sought)
    requires AllTiled(blocks) && i < |blocks| && NoHit(LiveAll(blocks[..i]), what)
    requires Leads(blocks[i], 0, at) && RecOk(blocks[i], at) && EntryAt(blocks[i], at) != []
    requires Hit(EntryAt(blocks[i], at)[0], what) && NoHit(Before(blocks[i], at), what)
    ensures at + 4 <= |blocks[i]| && Find(LiveAll(blocks), what) < |LiveAll(blocks)|
    ensures LiveAll(blocks)[Find(LiveAll(blocks), what)].ino == Get4(blocks[i], at)
    ensures Leads(blocks[i], Next(blocks[i], at), |blocks[i]|)
    ensures WithoutHit(LiveAll(blocks), what) ==
      LiveAll(blocks[..i]) + (Before(blocks[i], at) + After(blocks[i], at)) + LiveAll(blocks[i + 1..])
  {
    var b := blocks[i];
    WholeBlock(b, at);
    LiveApart(blocks, i);
    FirstHit(LiveAll(blocks), LiveAll(blocks[..i]), Before(b, at), EntryAt(b, at), After(b, at), LiveAll(blocks[i + 1..]), what);
  }

  lemma HitAt(list: seq<Entry>, front: seq<Entry>, e: Entry, back: seq<Entry>, what: Sought)
    requires list == front + [e] + back && NoHit(front, what) && Hit(e, what)
    ensures Find(list, what) == |front| && list[..|front|] == front && list[|front|] == e && list[|front| + 1..] == back
  {
    assert list[..|front|] == front;
    forall i | 0 <= i < |front| ensures !Hit(list[i], what) {
      assert list[i] == front[i];
    }
    FindIs(list, what, |front|);
  }

  lemma Five(p0: seq<Entry>, p1: seq<Entry>, p2: seq<Entry>, p3: seq<Entry>, p4: seq<Entry>)
    ensures p0 + (p1 + p2 + p3) + p4 == (p0 + p1) + p2 + (p3 + p4)
  {
  }

  lemma NoHitAppend(a: seq<Entry>, b: seq<Entry>, what: Sought)
    requires NoHit(a, what) && NoHit(b, what)
    ensures NoHit(a + b, what)
  {
  }

  /** The list with the first hit gone. */
  function WithoutHit(list: seq<Entry>, what: Sought): seq<Entry>
  {
    var k := Find(list, what);
    if k < |list| then list[..k] + list[k + 1..] else list
  }

  /** The list with `e` inserted at `k`. */
  function Inserted(list: seq<Entry>, k: nat, e: seq<Entry>): seq<Entry>
    requires k <= |list|
  {
    list[..k] + e + list[k..]
  }

  /** A name that was not there, entered and looked up, is found with its inode number; deleting it restores the list. */
  lemma EnterThenFind(list: seq<Entry>, k: nat, ino: nat, name: Bytes)
    requires k <= |list| && NoHit(list, Named(name)) && ino != 0
    ensures var l := Inserted(list, k, New(ino, name));
      && Find(l, Named(name)) == k && l[k].ino == ino && WithoutHit(l, Named(name)) == list
  {
    var front, e, back := list[..k], Entry(ino, name), list[k..];
    assert front + back == list;
    forall i | 0 <= i < |front| ensures !Hit(front[i], Named(name)) {
      assert front[i] == list[i];
    }
    HitAt(front + [e] + back, front, e, back, Named(name));
  }

  /** Where all entries have names, LOOK_UP finds exactly the entry of that name, and IS_EMPTY looks for exactly the
      entries other than "." and "..". */
  lemma NamedEntries(list: seq<Entry>, s: Bytes)
    requires forall i :: 0 <= i < |list| ==> list[i].name != []
    ensures Find(list, Named(s)) < |list| <==> exists i :: 0 <= i < |list| && list[i].name == s
    ensures Find(list, Named(s)) < |list| ==> list[Find(list, Named(s))].name == s
    ensures Find(list, Other) == |list| <==> forall i :: 0 <= i < |list| ==> list[i].name == DOT || list[i].name == DOTDOT
  {
    var k, o := Find(list, Named(s)), Find(list, Other);
    forall i | 0 <= i < |list| && list[i].name == s ensures k < |list| {
      assert Hit(list[i], Named(s));
    }
  }

  /** LOOK_UP finds only what is there if and only if all entries have names. */
  lemma LookUpsExact(list: seq<Entry>)
    ensures (forall s: Bytes :: Find(list, Named(s)) < |list| ==> Has(list, s)) <==>
            forall i :: 0 <= i < |list| ==> list[i].name != []
  {
    if i :| 0 <= i < |list| && list[i].name == [] {
      var s: Bytes := seq(Longest(list) + 1, _ => 0);
      assert Hit(list[i], Named(s));
      assert forall j :: 0 <= j < |list| ==> |list[j].name| < |s|;
      assert Find(list, Named(s)) < |list| && !Has(list, s);
    } else {
      forall s: Bytes ensures Find(list, Named(s)) < |list| ==> Has(list, s) {
        NamedEntries(list, s);
      }
    }
  }

  ghost predicate Has(list: seq<Entry>, s: Bytes) {
    exists i :: 0 <= i < |list| && list[i].name == s
  }

  /** The length of the longest name. */
  function Longest(list: seq<Entry>): (n: nat)
    ensures forall i :: 0 <= i < |list| ==> |list[i].name| <= n
  {
    if list == [] then 0
    else
      var n := Longest(list[1..]);
      if |list[0].name| > n then |list[0].name| else n
  }

  /** An entry without a name is found whatever is looked for. */
  lemma NamelessHit(list: seq<Entry>, s: Bytes)
    requires list != [] && list[0].name == []
    ensures Find(list, Named(s)) == 0
  {
  }

  datatype Code = OK | ENOENT | ENOTEMPTY | ENOSPC

  /** No block but number `i`, which may be new, has changed. */
  ghost predicate OnlyLast(before: seq<Bytes>, after: seq<Bytes>, i: nat) {
    i < |after| && |before| <= |after| && forall j :: 0 <= j < |before| && j != i ==> after[j] == before[j]
  }

  class Directory {
    const size: nat            // s_block_size
    var blocks: seq<Bytes>
    var lastPos: nat           // i_last_dpos, in blocks
    var lastSize: nat          // i_last_dentry_size

    constructor (size: nat, blocks: seq<Bytes>)
      requires 1024 <= size < 0x10000 && forall i :: 0 <= i < |blocks| ==> BlockOk(blocks[i], size)
      ensures this.size == size && this.blocks == blocks && Valid()
    {
      this.size, this.blocks, lastPos, lastSize := size, blocks, 0, 0;
    }

    ghost predicate Valid()
      reads `blocks
    {
      1024 <= size < 0x10000 && forall i :: 0 <= i < |blocks| ==> BlockOk(blocks[i], size)
    }

    ghost function Entries(): seq<Entry>
      reads `blocks
      requires Valid()
    {
      LiveAll(blocks)
    }

    /** The search of all blocks, for all but ENTER. */
    method FindEntry(what: Sought) returns (i: nat, at: int, prev: int)
      requires Valid()
      ensures at == -1 ==> Find(Entries(), what) == |Entries()|
      ensures at != -1 ==> i < |blocks| && 0 <= at && Leads(blocks[i], 0, at) && RecOk(blocks[i], at)
      ensures at != -1 ==> EntryAt(blocks[i], at) != [] && Hit(EntryAt(blocks[i], at)[0], what)
      ensures at != -1 ==> NoHit(Before(blocks[i], at), what) && NoHit(LiveAll(blocks[..i]), what)
      ensures at > 0 ==> 0 <= prev && Leads(blocks[i], 0, prev) && RecOk(blocks[i], prev) && Next(blocks[i], prev) == at
      ensures at == 0 ==> prev == -1
    {
      i, at, prev := 0, -1, -1;
      while i < |blocks|
        invariant i <= |blocks| && NoHit(LiveAll(blocks[..i]), what)
      {
        at, prev := FindInBlock(blocks[i], what);
        if at != -1 {
          return;
        }
        LiveLast(blocks[..i], blocks[i]);
        NoHitAppend(LiveAll(blocks[..i]), Live(blocks[i]), what);
        assert blocks[..i + 1] == blocks[..i] + [blocks[i]];
        i := i + 1;
      }
      assert blocks[..i] == blocks;
      FindIs(Entries(), what, |Entries()|);
      at := -1;
    }

    /** search_dir with LOOK_UP. */
    method LookUp(name: Bytes) returns (r: Code, numb: nat)
      requires Valid()
      ensures var k := Find(Entries(), Named(name));
        if k == |Entries()| then r == ENOENT else r == OK && numb == Entries()[k].ino
    {
      numb := 0;
      var i, at, prev := FindEntry(Named(name));
      if at == -1 {
        return ENOENT, 0;
      }
      HitFound(blocks, i, at, Named(name));
      numb := Get4(blocks[i], at);
      r := OK;
    }

    /** search_dir with IS_EMPTY. */
    method IsEmpty() returns (r: Code)
      requires Valid()
      ensures r == if Find(Entries(), Other) == |Entries()| then OK else ENOTEMPTY
    {
      var i, at, prev := FindEntry(Other);
      if at != -1 {
        HitFound(blocks, i, at, Other);
        return ENOTEMPTY;
      }
      r := OK;
    }

    /** search_dir with DELETE. */
    method Delete(name: Bytes) returns (r: Code)
      requires Valid()
      modifies this
      ensures Valid() && Entries() == WithoutHit(old(Entries()), Named(name)) && |blocks| == |old(blocks)|
      ensures r == if Find(old(Entries()), Named(name)) == |old(Entries())| then ENOENT else OK
      ensures r != OK ==> blocks == old(blocks)
      ensures r == OK ==> OnlyLast(old(blocks), blocks, lastPos)
    {
      var i, at, prev := FindEntry(Named(name));
      if at == -1 {
        return ENOENT;
      }
      lastPos := i;
      lastSize := RecLen(blocks[i], at);
      EraseEntry(i, at, prev, Named(name));
      r := OK;
    }

    /** DELETE, where the entry has been found. */
    method EraseEntry(i: nat, at: nat, prev: int, ghost what: Sought)
      requires Valid() && i < |blocks| && Leads(blocks[i], 0, at) && RecOk(blocks[i], at)
      requires EntryAt(blocks[i], at) != [] && Hit(EntryAt(blocks[i], at)[0], what)
      requires NoHit(Before(blocks[i], at), what) && NoHit(LiveAll(blocks[..i]), what)
      requires prev == -1 || (0 <= prev && Leads(blocks[i], 0, prev) && RecOk(blocks[i], prev) && Next(blocks[i], prev) == at)
      modifies `blocks
      ensures Valid() && |blocks| == |old(blocks)| && OnlyLast(old(blocks), blocks, i)
      ensures Find(old(Entries()), what) < |old(Entries())| && Entries() == WithoutHit(old(Entries()), what)
    {
      var c := EraseIn(blocks[i], at, prev);
      HitErased(blocks, i, c, at, what);
      blocks := blocks[i := c];
    }

    /** Where ENTER begins to look for room: in the block of the last change, unless that left a larger slot. */
    function StartFor(space: nat): nat
      reads this
    {
      if lastPos < |blocks| && lastSize <= space then lastPos else 0
    }

    ghost predicate NoRoomFrom(start: nat, space: nat)
      reads `blocks
    {
      forall j :: start <= j < |blocks| ==> !HasRoom(blocks[j], space)
    }

    /** The search of ENTER for a block with room. */
    method FindSlot(space: nat) returns (i: nat, at: int)
      requires Valid()
      ensures (at == -1 <==> NoRoomFrom(StartFor(space), space)) && (at == -1 ==> i == |blocks|)
      ensures at != -1 ==> i < |blocks| && 0 <= at && Leads(blocks[i], 0, at) && RecOk(blocks[i], at) && RoomAt(blocks[i], at, space)
    {
      i, at := StartFor(space), -1;
      ghost var start := i;
      while i < |blocks|
        invariant start <= i <= |blocks| && at == -1
        invariant forall j :: start <= j < i && j < |blocks| ==> !HasRoom(blocks[j], space)
        decreases |blocks| - i
      {
        at := FindRoom(blocks[i], space);
        if at != -1 {
          return;
        }
        i := i + 1;
      }
    }

    /** search_dir with ENTER. The new entry comes to place `k`; the directory is extended only if there is no room
        from where the search began on, and the call fails only when it needs a block and gets none. */
    method Enter(name: Bytes, ino: nat, ftype: int, gotBlock: bool) returns (r: Code, ghost k: nat)
      requires Valid() && |name| < 256 && ino < 0x100000000
      modifies this
      ensures Valid() && (r == OK || (r == ENOSPC && blocks == old(blocks)))
      ensures r == OK ==> k <= |old(Entries())| && Entries() == Inserted(old(Entries()), k, New(ino, name))
      ensures r == OK ==> |blocks| == |old(blocks)| + if old(NoRoomFrom(StartFor(Space(|name|)), Space(|name|))) then 1 else 0
      ensures r == OK ==> OnlyLast(old(blocks), blocks, lastPos) && lastSize == Space(|name|)
      ensures r == ENOSPC <==> !gotBlock && old(NoRoomFrom(StartFor(Space(|name|)), Space(|name|)))
    {
      var space := Space(|name|);
      var i, at := FindSlot(space);
      lastPos := i;
      lastSize := space;
      if at == -1 {
        r, k := Extend(name, ino, ftype, gotBlock);
      } else {
        k := EnterAt(i, at, name, ino, ftype);
        r := OK;
      }
    }

    method EnterAt(i: nat, at: nat, name: Bytes, ino: nat, ftype: int) returns (ghost k: nat)
      requires Valid() && |name| < 256 && ino < 0x100000000
      requires i < |blocks| && Leads(blocks[i], 0, at) && RecOk(blocks[i], at) && RoomAt(blocks[i], at, Space(|name|))
      modifies `blocks
      ensures Valid() && |blocks| == |old(blocks)| && OnlyLast(old(blocks), blocks, i)
      ensures k <= |old(Entries())| && Entries() == Inserted(old(Entries()), k, New(ino, name))
    {
      var c;
      ghost var front, back;
      c, front, back := FillIn(blocks[i], at, ino, name, ftype);
      EnteredBlock(blocks, i, c, front, back, New(ino, name));
      k := |LiveAll(blocks[..i])| + |front|;
      blocks := blocks[i := c];
    }

    /** ENTER with a new block, if there is one. */
    method Extend(name: Bytes, ino: nat, ftype: int, gotBlock: bool) returns (r: Code, ghost k: nat)
      requires Valid() && |name| < 256 && ino < 0x100000000
      modifies `blocks
      ensures Valid() && r == (if gotBlock then OK else ENOSPC) && (r == ENOSPC ==> blocks == old(blocks))
      ensures r == OK ==> OnlyLast(old(blocks), blocks, |old(blocks)|)
      ensures r == OK ==> |blocks| == |old(blocks)| + 1 && k == |old(Entries())|
      ensures r == OK ==> Entries() == Inserted(old(Entries()), k, New(ino, name))
    {
      k := |Entries()|;
      if !gotBlock {
        return ENOSPC, k;
      }
      var b := Fresh(size);
      var c := Filled(b, 0, ino, name, ftype);
      FreshFill(b, c, ino, name);
      LiveLast(blocks, c);
      AtEnd(Entries(), New(ino, name));
      blocks := blocks + [c];
      r := OK;
    }
  }

  /** DELETE in the block where the entry is: it is erased, and merged with the record before it if there is one. */
  method EraseIn(b: Bytes, at: nat, prev: int) returns (c: Bytes)
    requires Tiled(b, 0) && Leads(b, 0, at) && RecOk(b, at) && |b| < 0x10000
    requires prev == -1 || (0 <= prev && Leads(b, 0, prev) && RecOk(b, prev) && Next(b, prev) == at)
    ensures |c| == |b| && Tiled(c, 0) && Leads(b, Next(b, at), |b|) && Live(c) == Before(b, at) + After(b, at)
  {
    c := Erased(b, at);
    if prev != -1 {
      SameRec(b, c, prev);
      EraseMerge(b, c, Merged(c, prev, at), prev, at);
      c := Merged(c, prev, at);
    } else {
      EraseFirst(b, c, at);
    }
  }

  lemma HitErased(blocks: seq<Bytes>, i: nat, c: Bytes, at: nat, what: Sought)
    requires AllTiled(blocks) && i < |blocks| && NoHit(LiveAll(blocks[..i]), what)
    requires Leads(blocks[i], 0, at) && RecOk(blocks[i], at) && EntryAt(blocks[i], at) != []
    requires Hit(EntryAt(blocks[i], at)[0], what) && NoHit(Before(blocks[i], at), what)
    requires Tiled(c, 0) && Leads(blocks[i], Next(blocks[i], at), |blocks[i]|)
    requires Live(c) == Before(blocks[i], at) + After(blocks[i], at)
    ensures AllTiled(blocks[i := c]) && LiveAll(blocks[i := c]) == WithoutHit(LiveAll(blocks), what)
    ensures Find(LiveAll(blocks), what) < |LiveAll(blocks)|
  {
    var changed := blocks[i := c];
    HitFound(blocks, i, at, what);
    LiveApart(changed, i);
    assert changed[..i] == blocks[..i] && changed[i + 1..] == blocks[i + 1..];
  }

  lemma Four(p0: seq<Entry>, p1: seq<Entry>, p2: seq<Entry>, p3: seq<Entry>)
    ensures p0 + (p1 + p2) + p3 == (p0 + p1) + (p2 + p3)
  {
  }

  /** A record of a block in the list of its entries. */
  lemma WholeBlock(b: Bytes, o: nat)
    requires Tiled(b, 0) && Leads(b, 0, o) && RecOk(b, o)
    ensures Leads(b, Next(b, o), |b|) && Live(b) == Before(b, o) + EntryAt(b, o) + After(b, o)
  {
    LeadsStep(b, o);
    RecordReplaced(b, b, o, EntryAt(b, o));
  }

  lemma AtEnd(list: seq<Entry>, e: seq<Entry>)
    ensures Inserted(list, |list|, e) == list + e
  {
    assert list[..|list|] == list && list[|list|..] == [];
  }

  /** ENTER in a block that has room. */
  method FillIn(b: Bytes, at: nat, ino: nat, name: Bytes, ftype: int) returns (c: Bytes, ghost front: seq<Entry>, ghost back: seq<Entry>)
    requires Tiled(b, 0) && Leads(b, 0, at) && RecOk(b, at) && |b| < 0x10000 && RoomAt(b, at, Space(|name|))
    requires |name| < 256 && ino < 0x100000000
    ensures |c| == |b| && Tiled(c, 0) && Live(b) == front + back && Live(c) == front + New(ino, name) + back
  {
    if Get4(b, at) == 0 && Space(|name|) <= RecLen(b, at) {
      c := Filled(b, at, ino, name, ftype);
      FillFree(b, c, at, ino, name);
      front := Before(b, at);
    } else {
      var actual := Space(NameLen(b, at));
      var d := Shrunk(b, at, actual);
      c := Filled(d, at + actual, ino, name, ftype);
      ShrinkFill(b, d, c, at, actual, ino, name);
      front := Before(b, at) + EntryAt(b, at);
    }
    back := After(b, at);
  }

  lemma EnteredBlock(blocks: seq<Bytes>, i: nat, c: Bytes, front: seq<Entry>, back: seq<Entry>, e: seq<Entry>)
    requires AllTiled(blocks) && i < |blocks| && Tiled(c, 0) && Live(blocks[i]) == front + back && Live(c) == front + e + back
    ensures AllTiled(blocks[i := c])
    ensures |LiveAll(blocks[..i])| + |front| <= |LiveAll(blocks)|
    ensures LiveAll(blocks[i := c]) == Inserted(LiveAll(blocks), |LiveAll(blocks[..i])| + |front|, e)
  {
    var changed := blocks[i := c];
    LiveApart(blocks, i);
    LiveApart(changed, i);
    assert changed[..i] == blocks[..i] && changed[i + 1..] == blocks[i + 1..];
    Spliced(LiveAll(blocks), LiveAll(blocks[..i]), front, e, back, LiveAll(blocks[i + 1..]));
  }

  lemma Spliced(list: seq<Entry>, p: seq<Entry>, front: seq<Entry>, e: seq<Entry>, back: seq<Entry>, q: seq<Entry>)
    requires list == p + (front + back) + q
    ensures |p| + |front| <= |list| && Inserted(list, |p| + |front|, e) == p + (front + e + back) + q
  {
    Four(p, front, back, q);
    Five(p, front, e, back, q);
    assert list[..|p| + |front|] == p + front && list[|p| + |front|..] == back + q;
  }
}
