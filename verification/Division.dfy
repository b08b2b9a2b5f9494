/** Products and quotients of lengths: positions in blocks, blocks in groups. */
module Division {

  /** The product, by addition: that keeps multiplication out of the proofs that need only multiples of one length. */
  function Times(x: nat, y: nat): (z: nat)
    ensures x > 0 ==> z >= y
  {
    if x == 0 then 0 else Times(x - 1, y) + y
  }

  lemma {:induction false} TimesIs(x: nat, y: nat)
    ensures Times(x, y) == x * y
  {
    if x > 0 { TimesIs(x - 1, y); }
  }

  lemma DivMod(x: nat, size: nat)
    requires size > 0
    ensures x == Times(x / size, size) + x % size && x % size < size
  {
    TimesIs(x / size, size);
  }

  /** Block `b` holds the positions from b * size up to (b + 1) * size. */
  lemma InBlock(q: nat, b: nat, size: nat)
    requires size > 0
    ensures q / size < b <==> q < Times(b, size)
    ensures Times(b, size) / size == b && Times(b, size) % size == 0
    ensures Times(b + 1, size) == Times(b, size) + size
  {
    DivMod(q, size);
    if q / size < b {
      TimesUp(q / size + 1, b, size);
    } else {
      TimesUp(b, q / size, size);
    }
    DivOfTimes(b, size);
  }

  lemma {:induction false} TimesUp(x: nat, y: nat, size: nat)
    requires x <= y
    ensures Times(x, size) <= Times(y, size) && Times(x + 1, size) == Times(x, size) + size
    decreases y
  {
    if x < y { TimesUp(x, y - 1, size); }
  }

  lemma DivOfTimes(b: nat, size: nat)
    requires size > 0
    ensures Times(b, size) / size == b && Times(b, size) % size == 0
  {
    var t := Times(b, size);
    DivMod(t, size);
    if t / size < b {
      TimesUp(t / size + 1, b, size);
    } else if t / size > b {
      TimesUp(b + 1, t / size, size);
    }
  }

  /** A range inside one block. */
  lemma RangeInBlock(pos: nat, len: nat, q: nat, size: nat)
    requires size > 0 && pos % size + len <= size
    ensures pos <= q < pos + len <==> q / size == pos / size && pos % size <= q % size < pos % size + len
  {
    DivMod(pos, size);
    DivMod(q, size);
    InBlock(q, pos / size, size);
    InBlock(q, pos / size + 1, size);
  }

  /** Quotient and remainder by subtraction, which keeps division out of the proofs about trees. */
  function Quotient(x: nat, y: nat): nat
    requires y > 0
  {
    if x < y then 0 else Quotient(x - y, y) + 1
  }

  function Remainder(x: nat, y: nat): (r: nat)
    requires y > 0
    ensures r < y
  {
    if x < y then x else Remainder(x - y, y)
  }

  lemma {:induction false} QuotientSplits(x: nat, y: nat)
    requires y > 0
    ensures x == Times(Quotient(x, y), y) + Remainder(x, y)
  {
    if x >= y { QuotientSplits(x - y, y); }
  }

  lemma QuotientIs(x: nat, y: nat)
    requires y > 0
    ensures Quotient(x, y) == x / y && Remainder(x, y) == x % y
  {
    QuotientSplits(x, y);
    InBlock(x, Quotient(x, y), y);
    InBlock(x, Quotient(x, y) + 1, y);
    DivMod(x, y);
  }
}
