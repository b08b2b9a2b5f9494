/** What a buffer cache over a disk holds, as its clients see it: the cached copy of a block if there is one, else
    the disk's. */
module CacheContents {

  const NO_DEV: nat := 0

  type Data = seq<nat>
  type Media = map<(nat, nat), Data>

  function OnDisk(m: Media, dev: nat, block: nat): Data {
    if (dev, block) in m then m[(dev, block)] else []
  }

  /** The buffers' devices, block numbers, dirty flags and data, the disks, and the buffers that a client has asked
      for with NO_READ and not filled yet. */
  datatype Cache = Cache(dev: seq<nat>, blk: seq<nat>, dirty: seq<bool>, data: seq<Data>, disk: Media, unfilled: set<nat>)

  predicate Sized(c: Cache) {
    |c.blk| == |c.dev| == |c.dirty| == |c.data|
  }

  /** Buffer `i` holds that block. */
  predicate Caches(c: Cache, i: nat, dev: nat, block: nat)
    requires Sized(c)
  {
    i < |c.dev| && c.dev[i] == dev && c.blk[i] == block && dev != NO_DEV
  }

  predicate Cached(c: Cache, dev: nat, block: nat)
    requires Sized(c)
  {
    exists i: nat :: i < |c.dev| && Caches(c, i, dev, block)
  }

  /** No block is in two buffers. */
  ghost predicate Unique(c: Cache)
    requires Sized(c)
  {
    forall i: nat, j: nat :: i < j < |c.dev| ==> c.dev[i] == NO_DEV || c.dev[i] != c.dev[j] || c.blk[i] != c.blk[j]
  }

  /** A clean buffer has what the disk has. */
  ghost predicate CleanOk(c: Cache, i: nat)
    requires Sized(c)
  {
    i < |c.dev| && c.dev[i] != NO_DEV && !c.dirty[i] && i !in c.unfilled ==> c.data[i] == OnDisk(c.disk, c.dev[i], c.blk[i])
  }

  ghost predicate CacheOk(c: Cache) {
    Sized(c) && Unique(c) && forall i: nat :: CleanOk(c, i)
  }

  ghost function Content(c: Cache, dev: nat, block: nat): Data
    requires Sized(c)
  {
    if i: nat :| i < |c.dev| && Caches(c, i, dev, block) then c.data[i] else OnDisk(c.disk, dev, block)
  }

  lemma ContentIs(c: Cache, i: nat, dev: nat, block: nat)
    requires Sized(c) && Unique(c) && Caches(c, i, dev, block)
    ensures Content(c, dev, block) == c.data[i]
  {
  }

  /** The contents of all blocks, those of one excepted, are as before. */
  ghost predicate SameBut(c: Cache, c': Cache, dev: nat, block: nat)
    requires Sized(c) && Sized(c')
  {
    forall d: nat, b: nat :: d != NO_DEV && (d, b) != (dev, block) ==> Content(c', d, b) == Content(c, d, b)
  }

  ghost predicate Same(c: Cache, c': Cache)
    requires Sized(c) && Sized(c')
  {
    forall d: nat, b: nat :: d != NO_DEV ==> Content(c', d, b) == Content(c, d, b)
  }

  // ---------------------------------------------------------------- the steps

  function WriteBack(c: Cache, i: nat): (c': Cache)
    requires Sized(c) && i < |c.dev|
    ensures Sized(c')
  {
    c.(disk := c.disk[(c.dev[i], c.blk[i]) := c.data[i]], dirty := c.dirty[i := false])
  }

  function Forget(c: Cache, i: nat): (c': Cache)
    requires Sized(c) && i < |c.dev|
    ensures Sized(c')
  {
    c.(dev := c.dev[i := NO_DEV])
  }

  function Fill(c: Cache, i: nat, v: Data): (c': Cache)
    requires Sized(c) && i < |c.dev|
    ensures Sized(c')
  {
    c.(data := c.data[i := v], dirty := c.dirty[i := true], unfilled := c.unfilled - {i})
  }

  /** Writing a buffer to the disk changes nothing for the clients. */
  lemma WriteBackSame(c: Cache, i: nat)
    requires CacheOk(c) && i < |c.dev| && c.dev[i] != NO_DEV
    ensures CacheOk(WriteBack(c, i)) && Same(c, WriteBack(c, i))
  {
    var c' := WriteBack(c, i);
    forall j: nat ensures CleanOk(c', j) {
      assert CleanOk(c, j);
    }
    forall d: nat, b: nat | d != NO_DEV ensures Content(c', d, b) == Content(c, d, b) {
      if j: nat :| j < |c.dev| && Caches(c, j, d, b) {
        assert Caches(c', j, d, b);
        ContentIs(c', j, d, b);
      } else {
        assert !Caches(c, i, d, b);
        forall j: nat | j < |c.dev| ensures !Caches(c', j, d, b) {
          assert !Caches(c, j, d, b);
        }
      }
    }
  }

  /** Neither does forgetting a buffer that has what the disk has. */
  lemma ForgetSame(c: Cache, i: nat)
    requires CacheOk(c) && i < |c.dev|
    ensures CacheOk(Forget(c, i))
    ensures SameBut(c, Forget(c, i), c.dev[i], c.blk[i])
    ensures !c.dirty[i] && i !in c.unfilled ==> Same(c, Forget(c, i))
  {
    var c' := Forget(c, i);
    forall j: nat ensures CleanOk(c', j) {
      assert CleanOk(c, j);
    }
    assert CleanOk(c, i);
    forall d: nat, b: nat | d != NO_DEV && ((d, b) != (c.dev[i], c.blk[i]) || (!c.dirty[i] && i !in c.unfilled))
      ensures Content(c', d, b) == Content(c, d, b)
    {
      if j: nat :| j < |c.dev| && Caches(c, j, d, b) {
        if j == i {
          forall k: nat | k < |c.dev| ensures !Caches(c', k, d, b) {
            assert Caches(c, i, d, b);
          }
        } else {
          assert Caches(c', j, d, b);
          ContentIs(c', j, d, b);
        }
      } else {
        forall k: nat | k < |c.dev| ensures !Caches(c', k, d, b) {
          assert !Caches(c, k, d, b);
        }
      }
    }
  }

  /** Two caches that differ in buffer `i` only, which held nothing and holds `dev`, `block` now. */
  ghost predicate Filled(c: Cache, c': Cache, i: nat, dev: nat, block: nat) {
    && Sized(c) && Sized(c') && i < |c.dev| && |c'.dev| == |c.dev| && c'.disk == c.disk
    && c.dev[i] == NO_DEV && c'.dev == c.dev[i := dev] && c'.blk == c.blk[i := block]
    && (forall x: nat :: x < |c.dev| && x != i ==> c'.data[x] == c.data[x] && c'.dirty[x] == c.dirty[x])
    && c.unfilled <= c'.unfilled <= c.unfilled + {i}
  }

  /** A free buffer gets a block that is not cached: what it has is the block's content now. */
  lemma FilledSame(c: Cache, c': Cache, i: nat, dev: nat, block: nat)
    requires CacheOk(c) && Filled(c, c', i, dev, block) && (dev == NO_DEV || !Cached(c, dev, block)) && CleanOk(c', i)
    ensures CacheOk(c') && SameBut(c, c', dev, block)
    ensures dev == NO_DEV || c'.data[i] == OnDisk(c.disk, dev, block) ==> Same(c, c')
  {
    forall j: nat ensures CleanOk(c', j) {
      assert CleanOk(c, j);
    }
    forall j: nat, k: nat | j < k < |c.dev|
      ensures c'.dev[j] == NO_DEV || c'.dev[j] != c'.dev[k] || c'.blk[j] != c'.blk[k]
    {
      assert dev != NO_DEV ==> !Caches(c, j, dev, block) && !Caches(c, k, dev, block);
    }
    forall d: nat, b: nat | d != NO_DEV
      ensures (d, b) != (dev, block) ==> Content(c', d, b) == Content(c, d, b)
      ensures (d, b) == (dev, block) && c'.data[i] == OnDisk(c.disk, dev, block) ==> Content(c', d, b) == Content(c, d, b)
    {
      if (d, b) == (dev, block) {
        assert Caches(c', i, d, b);
        ContentIs(c', i, d, b);
      } else if j: nat :| j < |c.dev| && Caches(c, j, d, b) {
        assert Caches(c', j, d, b);
        ContentIs(c', j, d, b);
      } else {
        forall k: nat | k < |c.dev| ensures !Caches(c', k, d, b) {
          assert !Caches(c, k, d, b);
        }
      }
    }
  }

  /** Buffers have lost their blocks, but none has got one. */
  lemma StillNotCached(c: Cache, c': Cache, dev: nat, block: nat)
    requires Sized(c) && Sized(c') && |c'.dev| == |c.dev| && c'.blk == c.blk && !Cached(c, dev, block)
    requires forall x: nat :: x < |c.dev| ==> c'.dev[x] == c.dev[x] || c'.dev[x] == NO_DEV
    ensures !Cached(c', dev, block)
  {
    forall x: nat | x < |c.dev| ensures !Caches(c', x, dev, block) {
      assert !Caches(c, x, dev, block);
    }
  }

  /** A client that fills a buffer, and marks it, changes the contents of that block only. */
  lemma FillChanges(c: Cache, i: nat, v: Data)
    requires CacheOk(c) && i < |c.dev|
    ensures CacheOk(Fill(c, i, v)) && SameBut(c, Fill(c, i, v), c.dev[i], c.blk[i])
    ensures c.dev[i] != NO_DEV ==> Content(Fill(c, i, v), c.dev[i], c.blk[i]) == v
  {
    var c' := Fill(c, i, v);
    forall j: nat ensures CleanOk(c', j) {
      assert CleanOk(c, j);
    }
    if c.dev[i] != NO_DEV {
      assert Caches(c', i, c.dev[i], c.blk[i]);
      ContentIs(c', i, c.dev[i], c.blk[i]);
    }
    forall d: nat, b: nat | d != NO_DEV && (d, b) != (c.dev[i], c.blk[i]) ensures Content(c', d, b) == Content(c, d, b) {
      if j: nat :| j < |c.dev| && Caches(c, j, d, b) {
        assert Caches(c', j, d, b);
        ContentIs(c', j, d, b);
      } else {
        forall k: nat | k < |c.dev| ensures !Caches(c', k, d, b) {
          assert !Caches(c, k, d, b);
        }
      }
    }
  }

  /** The flag of a buffer that holds no block does not matter. */
  lemma UnnamedFlag(c: Cache, i: nat, flag: bool)
    requires CacheOk(c) && i < |c.dev| && c.dev[i] == NO_DEV
    ensures var c' := c.(dirty := c.dirty[i := flag]); CacheOk(c') && Same(c, c')
  {
    var c' := c.(dirty := c.dirty[i := flag]);
    forall j: nat ensures CleanOk(c', j) {
      assert CleanOk(c, j);
    }
    forall d: nat, b: nat | d != NO_DEV ensures Content(c', d, b) == Content(c, d, b) {
      if j: nat :| j < |c.dev| && Caches(c, j, d, b) {
        assert Caches(c', j, d, b);
        ContentIs(c', j, d, b);
      } else {
        forall k: nat | k < |c.dev| ensures !Caches(c', k, d, b) {
          assert !Caches(c, k, d, b);
        }
      }
    }
  }
}
