/** The table of slugmem: records of allocations by address, in a hash table with linear probing that grows. */
module SlugTable {

  const INITIAL: nat := 2049

  datatype Record = Record(loc: nat, size: nat, place: string)
  datatype Slot = Empty | Full(r: Record)

  /** The slot `d` steps after `h` in a circle of `n`. */
  function Step(h: nat, d: nat, n: nat): nat
    requires h < n && d <= n
  {
    if h + d < n then h + d else h + d - n
  }

  lemma NextSlot(p: nat, n: nat)
    requires p < n
    ensures (p + 1) % n == if p + 1 == n then 0 else p + 1
  {
    if p + 1 < n { SmallMod(p + 1, n); }
  }

  lemma SmallMod(x: nat, n: nat)
    requires x < n
    ensures x % n == x
  {
  }

  /** The slots from `h` up to `d` steps on are taken. */
  ghost predicate Taken(t: seq<Slot>, h: nat, d: nat)
    requires h < |t| && d <= |t|
  {
    forall e: nat :: e < d ==> t[Step(h, e, |t|)] != Empty
  }

  /** A record in slot `p` is found from its home `h`: it is some steps away, and all slots between are taken. */
  ghost predicate Reached(t: seq<Slot>, h: nat, p: nat)
    requires h < |t|
  {
    exists d: nat :: d < |t| && p == Step(h, d, |t|) && Taken(t, h, d)
  }

  function Home(loc: nat, n: nat): (h: nat)
    requires n > 0
    ensures h < n
  {
    loc % n
  }

  ghost predicate ProbeOk(t: seq<Slot>) {
    |t| > 0 && forall p: nat :: p < |t| && t[p] != Empty ==> Reached(t, Home(t[p].r.loc, |t|), p)
  }

  /** The records in the table. */
  function Records(t: seq<Slot>): multiset<Record> {
    if t == [] then multiset{}
    else Records(t[..|t| - 1]) + if t[|t| - 1] == Empty then multiset{} else multiset{t[|t| - 1].r}
  }

  lemma {:induction false} RecordsPut(t: seq<Slot>, p: nat, r: Record)
    requires p < |t| && t[p] == Empty
    ensures Records(t[p := Full(r)]) == Records(t) + multiset{r}
    decreases |t|
  {
    var n, u := |t| - 1, t[p := Full(r)];
    if p == n {
      assert u[..n] == t[..n];
    } else {
      RecordsPut(t[..n], p, r);
      assert u[..n] == t[..n][p := Full(r)];
    }
  }

  /** There are as many records as slots that are taken; a table with fewer records than slots has an empty one. */
  lemma {:induction false} EmptySlot(t: seq<Slot>) returns (p: nat)
    requires |Records(t)| < |t|
    ensures p < |t| && t[p] == Empty
    decreases |t|
  {
    var n := |t| - 1;
    if t[n] == Empty {
      p := n;
    } else {
      p := EmptySlot(t[..n]);
    }
  }

  lemma {:induction false} RecordsHave(t: seq<Slot>, r: Record)
    ensures r in Records(t) <==> Full(r) in t
    decreases |t|
  {
    if t != [] {
      var n := |t| - 1;
      RecordsHave(t[..n], r);
      assert t == t[..n] + [t[n]];
    }
  }

  lemma {:induction false} NoRecords(n: nat)
    ensures Records(seq(n, _ => Empty)) == multiset{}
  {
    if n > 0 {
      NoRecords(n - 1);
      assert seq(n, _ => Empty)[..n - 1] == seq(n - 1, _ => Empty);
    }
  }

  /** Every slot is some steps away. */
  lemma Around(h: nat, p: nat, n: nat)
    requires h < n && p < n
    ensures var d := if p >= h then p - h else p + n - h; d < n && Step(h, d, n) == p
  {
  }

  /** Going round once would have met an empty slot. */
  lemma NotFull(t: seq<Slot>, h: nat)
    requires h < |t| && |Records(t)| < |t|
    ensures !Taken(t, h, |t|)
  {
    var p := EmptySlot(t);
    Around(h, p, |t|);
    var d := if p >= h then p - h else p + |t| - h;
    assert t[Step(h, d, |t|)] == Empty;
  }

  lemma PutKeeps(t: seq<Slot>, r: Record, d: nat)
    requires ProbeOk(t) && d < |t| && Taken(t, Home(r.loc, |t|), d)
    requires t[Step(Home(r.loc, |t|), d, |t|)] == Empty
    ensures ProbeOk(t[Step(Home(r.loc, |t|), d, |t|) := Full(r)])
  {
    var n := |t|;
    var p := Step(Home(r.loc, n), d, n);
    var u := t[p := Full(r)];
    forall q: nat | q < n && u[q] != Empty ensures Reached(u, Home(u[q].r.loc, n), q) {
      var h := Home(u[q].r.loc, n);
      if q == p {
        assert Taken(u, h, d);
      } else {
        assert Reached(t, h, q);
        var e: nat :| e < n && q == Step(h, e, n) && Taken(t, h, e);
        assert Taken(u, h, e);
      }
    }
  }

  /** A search from the home of an address that has met only other records up to an empty slot has met all. */
  lemma NotThere(t: seq<Slot>, loc: nat, d: nat, p: nat)
    requires ProbeOk(t) && d < |t| && t[Step(Home(loc, |t|), d, |t|)] == Empty
    requires forall e: nat :: e < d ==> t[Step(Home(loc, |t|), e, |t|)] != Empty && t[Step(Home(loc, |t|), e, |t|)].r.loc != loc
    requires p < |t| && t[p] != Empty
    ensures t[p].r.loc != loc
  {
    var n, h := |t|, Home(t[p].r.loc, |t|);
    assert Reached(t, h, p);
    var e: nat :| e < n && p == Step(h, e, n) && Taken(t, h, e);
  }

  lemma RecordsUpTo(t: seq<Slot>, i: nat)
    requires i < |t|
    ensures Records(t[..i + 1]) == Records(t[..i]) + if t[i] == Empty then multiset{} else multiset{t[i].r}
    ensures |Records(t[..i + 1])| <= |Records(t)|
  {
    assert t[..i + 1][..i] == t[..i];
    FewerRecords(t, i + 1);
  }

  lemma {:induction false} FewerRecords(t: seq<Slot>, i: nat)
    requires i <= |t|
    ensures |Records(t[..i])| <= |Records(t)|
    decreases |t|
  {
    if i == |t| {
      assert t[..i] == t;
    } else {
      FewerRecords(t[..|t| - 1], i);
      assert t[..|t| - 1][..i] == t[..i];
    }
  }

  lemma Squared(s: nat)
    requires s >= INITIAL
    ensures s * s >= INITIAL * s
  {
    assert s * s - INITIAL * s == (s - INITIAL) * s;
  }

  class Table {
    var size: nat              // ht->size
    var load: nat              // ht->load, which counts a record once more whenever the table grows
    var table: array<Slot>     // ht->table

    ghost predicate Shaped()
      reads this, table
    {
      && size == table.Length >= INITIAL && ProbeOk(table[..])
      && |Records(table[..])| <= load && 4 * load <= size + 4
    }

    ghost function Content(): multiset<Record>
      reads this, table
    {
      Records(table[..])
    }

    /** init_hashtable. */
    constructor ()
      ensures Shaped() && Content() == multiset{} && fresh(table)
    {
      size, load := INITIAL, 0;
      table := new Slot[INITIAL](_ => Empty);
      new;
      assert table[..] == seq(INITIAL, _ => Empty);
      NoRecords(INITIAL);
    }

    /** The loop that looks for an empty slot; it ends because there is one. */
    method Probe(loc: nat) returns (pos: nat, ghost d: nat)
      requires size == table.Length > 0 && |Records(table[..])| < table.Length
      ensures d < table.Length && pos == Step(Home(loc, table.Length), d, table.Length) && table[pos] == Empty
      ensures Taken(table[..], Home(loc, table.Length), d)
    {
      pos, d := loc % size, 0;
      NotFull(table[..], Home(loc, size));
      while table[pos] != Empty
        invariant d < size && pos == Step(Home(loc, size), d, size) && Taken(table[..], Home(loc, size), d)
        decreases size - d
      {
        assert Taken(table[..], Home(loc, size), d + 1);
        NextSlot(pos, size);
        pos := (pos + 1) % size;
        d := d + 1;
      }
    }

    /** is_in_hashtable: whether there is a record for the address, and which. */
    method IsIn(loc: nat) returns (found: Slot)
      requires Shaped()
      ensures found == Empty <==> forall r :: r in Content() ==> r.loc != loc
      ensures found != Empty ==> found.r.loc == loc && found.r in Content()
    {
      ghost var t := table[..];
      var pos := loc % size;
      ghost var d := 0;
      NotFull(t, Home(loc, size));
      while table[pos] != Empty
        invariant d < size && pos == Step(Home(loc, size), d, size)
        invariant forall e: nat :: e < d ==> t[Step(Home(loc, size), e, size)] != Empty
        invariant forall e: nat :: e < d ==> t[Step(Home(loc, size), e, size)].r.loc != loc
        decreases size - d
      {
        if table[pos].r.loc == loc {
          RecordsHave(t, table[pos].r);
          assert t[pos] in t;
          return table[pos];
        }
        assert Taken(t, Home(loc, size), d + 1);
        NextSlot(pos, size);
        pos := (pos + 1) % size;
        d := d + 1;
      }
      forall r | r in Content() ensures r.loc != loc {
        RecordsHave(t, r);
        var p :| 0 <= p < |t| && t[p] == Full(r);
        NotThere(t, loc, d, p);
      }
      found := Empty;
    }

    /** insert_into_hashtable. */
    method Insert(r: Record)
      requires Shaped()
      modifies this, table
      ensures Shaped() && Content() == old(Content()) + multiset{r} && (table == old(table) || fresh(table))
      ensures 4 * old(load) <= old(size) ==> table == old(table) && size == old(size) && load == old(load) + 1
      ensures 4 * old(load) > old(size) ==>
        size == old(size) * old(size) && load == old(load) + |old(Content())| + 1
      decreases if 4 * load > size then 1 else 0, 1
    {
      if load * 4 > size {
        Double();
      }
      InsertHere(r);
    }

    /** double_hashtable squares the size. The insertions that it makes count every record once more, and still none
        of them finds the new table too full: that is what the `decreases` of the two methods say. */
    method Double()
      requires Shaped() && 4 * load > size
      modifies this
      ensures Shaped() && Content() == old(Content()) && fresh(table)
      ensures size == old(size) * old(size) && load == old(load) + |old(Content())| && 4 * load <= size
      decreases 1, 0
    {
      var oldTable, oldSize := table, size;
      Squared(size);
      size := oldSize * oldSize;
      table := new Slot[size](_ => Empty);
      assert table[..] == seq(size, _ => Empty);
      NoRecords(size);
      Reinsert(oldTable);
    }

    /** The loop that inserts the records of the old table. */
    method Reinsert(oldTable: array<Slot>)
      requires Shaped() && Content() == multiset{} && oldTable != table && size >= INITIAL * oldTable.Length
      requires |Records(oldTable[..])| <= load && 4 * load <= oldTable.Length + 4 && oldTable.Length >= INITIAL
      modifies this, table
      ensures Shaped() && table == old(table) && Content() == Records(old(oldTable[..]))
      ensures size == old(size) && load == old(load) + |Content()| && 4 * load <= size
      decreases 0, 2
    {
      ghost var t, l, tab := oldTable[..], load, table;
      var i := 0;
      while i < oldTable.Length
        invariant i <= oldTable.Length && table == tab && oldTable[..] == t && Shaped() && size == old(size)
        invariant Content() == Records(t[..i]) && load == l + |Records(t[..i])|
      {
        RecordsUpTo(t, i);
        FewerRecords(t, i);
        assert 4 * load <= size;
        if oldTable[i] != Empty {
          Insert(oldTable[i].r);
        }
        i := i + 1;
      }
      assert t[..i] == t;
    }

    method InsertHere(r: Record)
      requires Shaped() && 4 * load <= size
      modifies `load, table
      ensures Shaped() && Content() == old(Content()) + multiset{r} && load == old(load) + 1
    {
      ghost var t := table[..];
      var pos;
      ghost var d;
      pos, d := Probe(r.loc);
      PutKeeps(t, r, d);
      RecordsPut(t, pos, r);
      table[pos] := Full(r);
      assert table[..] == t[pos := Full(r)];
      load := load + 1;
    }
  }
}
