/** The buffer cache of the ext2 server, with its hash chains, its list of buffers not in use, and scattered I/O. */
module BufferCache {
  import opened Lists
  import opened Links
  import opened DoubleLinks
  import opened CacheContents
  import opened BufferQueue

  datatype Mode = NORMAL | NO_READ | PREFETCH

  class Pool {
    const n: nat                  // nr_bufs
    const ioreqs: nat             // NR_IOREQS
    const ramDev: nat             // DEV_RAM
    var dev: seq<nat>             // b_dev
    var blk: seq<nat>             // b_blocknr
    var dirty: seq<bool>          // b_dirt
    var data: seq<Data>           // b_data
    var count: seq<nat>           // b_count
    var hashHead: seq<int>        // buf_hash
    var hashNext: seq<int>        // b_hash
    var next: seq<int>            // b_next
    var prev: seq<int>            // b_prev
    var front: int
    var rear: int
    var inUse: int                // bufs_in_use
    var disk: Media
    ghost var unfilled: set<nat>
    ghost var failures: nat       // how many transfers have failed so far
    ghost var chains: seq<seq<nat>>
    ghost var lru: seq<nat>

    /** buf_pool: no buffer holds a block, all are on the list and in the chain of NO_BLOCK. */
    constructor (n: nat, ioreqs: nat, ramDev: nat, disk: Media)
      requires n > 0 && ioreqs > 0
      ensures this.n == n && this.ioreqs == ioreqs && this.ramDev == ramDev
      ensures Valid() && lru == UpFrom(0, n)
      ensures forall d: nat, b: nat :: Content(Contents(), d, b) == OnDisk(disk, d, b)
    {
      this.n, this.ioreqs, this.ramDev, this.disk := n, ioreqs, ramDev, disk;
      dev, blk, dirty, data, count := seq(n, _ => NO_DEV), seq(n, _ => 0), seq(n, _ => false), seq(n, _ => []), seq(n, _ => 0);
      next, prev := Following(n), Preceding(n);
      hashNext, hashHead := Following(n), FirstOnly(n, 0, -1);
      front, rear, inUse, unfilled, failures := 0, n - 1, 0, {}, 0;
      chains, lru := FirstOnly(n, UpFrom(0, n), []), UpFrom(0, n);
      new;
      StartLists(n);
      assert blk == seq(n, _ => 0) && count == seq(n, _ => 0);
    }

    ghost function Contents(): Cache
      reads `dev, `blk, `dirty, `data, `disk, `unfilled
    {
      Cache(dev, blk, dirty, data, disk, unfilled)
    }

    ghost predicate Filed()
      reads `dev, `blk, `dirty, `data, `disk, `unfilled
    {
      n > 0 && ioreqs > 0 && |dev| == n && CacheOk(Contents())
    }

    /** Every buffer is in the hash chain of its block number and in no other. */
    ghost predicate Hashed(but: int)
      reads `blk, `hashHead, `hashNext, `chains
    {
      && n > 0 && |blk| == |hashHead| == |hashNext| == |chains| == n && Threads(hashHead, hashNext, chains)
      && forall x: nat :: x < n ==> if x == but then OnNone(chains, x) else InChain(chains, blk[x] % n, x)
    }

    /** The list holds the buffers that are not in use, and bufs_in_use counts the others. */
    ghost predicate Listed(but: int)
      reads `count, `next, `prev, `front, `rear, `inUse, `lru
    {
      && |count| == |next| == n && Doubly(front, rear, next, prev, lru)
      && (forall x: nat :: x < n ==> (x in lru <==> count[x] == 0 && x != but))
      && inUse + |lru| == n
    }

    ghost predicate Valid()
      reads this
    {
      && Filed() && Hashed(-1) && Listed(-1)
      && forall x :: x in unfilled ==> x < n && count[x] > 0
    }

    /** rm_lru. */
    method RmLru(bp: nat) returns (ghost i: nat)
      requires Listed(-1) && bp < n && count[bp] == 0
      modifies `next, `prev, `front, `rear, `inUse, `lru
      ensures Listed(bp) && i < |old(lru)| && old(lru)[i] == bp && lru == DropAt(old(lru), i)
    {
      i :| 0 <= i < |lru| && lru[i] == bp;
      DoublyDrop(front, rear, next, prev, lru, i);
      DropAtDistinct(lru, i);
      inUse := inUse + 1;
      var nextPtr, prevPtr := next[bp], prev[bp];
      if prevPtr != -1 {
        next := next[prevPtr := nextPtr];
      } else {
        front := nextPtr;
      }
      if nextPtr != -1 {
        prev := prev[nextPtr := prevPtr];
      } else {
        rear := prevPtr;
      }
      lru := DropAt(lru, i);
    }

    /** The search of get_block along a hash chain; -1 if the block is not cached. */
    method FindBuffer(device: nat, block: nat) returns (bp: int)
      requires Filed() && Hashed(-1) && device != NO_DEV
      ensures bp == -1 ==> !Cached(Contents(), device, block)
      ensures bp != -1 ==> 0 <= bp < n && Caches(Contents(), bp, device, block)
    {
      var b := block % n;
      ghost var chain := chains[b];
      assert Chain(hashHead[b], hashNext, chain);
      bp := hashHead[b];
      ghost var i := 0;
      while bp != -1
        invariant i <= |chain| && bp == At(chain, i)
        invariant forall j :: 0 <= j < i ==> !Caches(Contents(), chain[j], device, block)
        decreases |chain| - i
      {
        if blk[bp] == block && dev[bp] == device {
          return;
        }
        assert Link(hashNext, chain, i);
        bp := hashNext[bp];
        i := i + 1;
      }
      forall x: nat | x < |dev| ensures !Caches(Contents(), x, device, block) {
        assert InChain(chains, blk[x] % n, x);
      }
    }

    /** get_block takes a buffer out of its hash chain. */
    method Unhash(bp: nat)
      requires Hashed(-1) && bp < n
      modifies `hashHead, `hashNext, `chains
      ensures Hashed(bp)
    {
      var b := blk[bp] % n;
      ghost var chain := chains[b];
      assert InChain(chains, b, bp) && Chain(hashHead[b], hashNext, chain);
      var prevPtr := hashHead[b];
      ghost var i := 0;
      if prevPtr == bp {
        ThreadsDrop(hashHead, hashNext, chains, b, 0);
        hashHead := hashHead[b := hashNext[bp]];
      } else {
        i := 1;
        assert Link(hashNext, chain, 0);
        while hashNext[prevPtr] != -1
          invariant 0 < i <= |chain| && prevPtr == chain[i - 1] && hashNext[prevPtr] == At(chain, i)
          invariant forall j :: 0 <= j < i ==> chain[j] != bp
          decreases |chain| - i
        {
          if hashNext[prevPtr] == bp {
            break;
          }
          assert Link(hashNext, chain, i);
          prevPtr := hashNext[prevPtr];
          i := i + 1;
        }
        ThreadsDrop(hashHead, hashNext, chains, b, i);
        hashNext := hashNext[prevPtr := hashNext[bp]];
      }
      Unhashed(chains, blk, n, b, i, bp);
      chains := chains[b := DropAt(chain, i)];
    }

    /** get_block files a buffer under its new block number. */
    method Rehash(bp: nat)
      requires Hashed(bp) && bp < n
      modifies `hashHead, `hashNext, `chains
      ensures Hashed(-1)
    {
      var b := blk[bp] % n;
      ThreadsPrepend(hashHead, hashNext, chains, b, bp);
      hashNext := hashNext[bp := hashHead[b]];
      hashHead := hashHead[b := bp];
      chains := chains[b := [bp] + chains[b]];
    }

    // -------------------------------------------------------------- transfers

    /** rw_block for writing; a buffer that cannot be written is no longer the block's. */
    method WriteBlock(bp: nat)
      requires Filed() && bp < n
      modifies `dev, `dirty, `disk, `failures
      ensures Filed() && dirty == old(dirty)[bp := false] && failures >= old(failures)
      ensures failures == old(failures) ==> dev == old(dev) && Same(old(Contents()), Contents())
      ensures dev == old(dev) || dev == old(dev)[bp := NO_DEV]
    {
      ghost var c := Contents();
      if dev[bp] != NO_DEV {
        var fine: bool := *;
        if fine {
          WriteBackSame(c, bp);
          disk := disk[(dev[bp], blk[bp]) := data[bp]];
        } else {
          failures := failures + 1;
          dev := dev[bp := NO_DEV];
          ForgetSame(c, bp);
        }
      }
      if dev[bp] == NO_DEV {
        UnnamedFlag(Contents(), bp, false);
      }
      dirty := dirty[bp := false];
      assert dev[bp] != NO_DEV ==> Contents() == WriteBack(c, bp);
    }

    /** rw_block for reading, into a buffer that is to be filled. */
    method ReadBlock(bp: nat)
      requires Sized(Contents()) && |dev| == n && bp in unfilled && bp < n && dev[bp] != NO_DEV
      modifies `dev, `dirty, `data, `unfilled, `failures
      ensures failures >= old(failures) && dirty == old(dirty)[bp := false] && unfilled == old(unfilled) - {bp}
      ensures |data| == n && forall x: nat :: x < n && x != bp ==> data[x] == old(data)[x]
      ensures failures == old(failures) ==> dev == old(dev) && data[bp] == OnDisk(disk, dev[bp], blk[bp])
      ensures failures != old(failures) ==> dev == old(dev)[bp := NO_DEV]
    {
      var fine: bool := *;
      if fine {
        data := data[bp := OnDisk(disk, dev[bp], blk[bp])];
      } else {
        failures := failures + 1;
        var garbage: Data := *;
        data := data[bp := garbage];
        dev := dev[bp := NO_DEV];
      }
      dirty := dirty[bp := false];
      unfilled := unfilled - {bp};
    }

    /** rw_scattered for writing: the requests made, and how many buffers of the sorted queue were written. A request
        of which nothing is transferred ends it, and where that is an error its first buffer is no longer its block's. */
    method WriteScattered(device: nat, bufq: array<nat>) returns (done: nat, ghost log: seq<Run>)
      requires Filed() && device != NO_DEV && Within(bufq[..], n)
      requires forall i :: 0 <= i < bufq.Length ==> dev[bufq[i]] == device
      modifies bufq, `dev, `dirty, `disk, `failures
      ensures Filed() && Permuted(old(bufq[..]), bufq[..]) && Within(bufq[..], n) && Ascending(bufq[..], blk)
      ensures done <= bufq.Length && LogOk(log, bufq[..], blk, ioreqs, done)
      ensures done < bufq.Length ==> log != [] && log[|log| - 1].moved == 0
      ensures failures >= old(failures) && (failures == old(failures) <==> done == bufq.Length)
      ensures Cleaned(old(dirty), dirty, bufq[..], done)
      ensures failures == old(failures) ==> dev == old(dev) && Same(old(Contents()), Contents())
      ensures dev == old(dev) || (done < bufq.Length && dev == old(dev)[bufq[done] := NO_DEV])
      ensures Sent(log, bufq[..]) == bufq[..done]
      ensures failures == old(failures) && Distinct(old(bufq[..])) ==> OnceEach(log, bufq[..], old(bufq[..]))
    {
      ghost var q := bufq[..];
      SortQueue(bufq, blk);
      PermutedWithin(q, bufq[..], n);
      AllOfDevice(q, bufq[..], dev, device);
      done, log := WriteRuns(device, bufq);
      SentIs(log, bufq[..], blk, ioreqs, done);
      if Distinct(q) && done == bufq.Length {
        PermutedDistinct(q, bufq[..]);
        AllSent(log, bufq[..], blk, ioreqs, q);
      }
    }

    /** The loop of rw_scattered when writing. */
    method WriteRuns(device: nat, bufq: array<nat>) returns (done: nat, ghost log: seq<Run>)
      requires Filed() && device != NO_DEV && Within(bufq[..], n)
      requires forall i :: 0 <= i < bufq.Length ==> dev[bufq[i]] == device
      modifies `dev, `dirty, `disk, `failures
      ensures Filed() && done <= bufq.Length && LogOk(log, bufq[..], blk, ioreqs, done)
      ensures done < bufq.Length ==> log != [] && log[|log| - 1].moved == 0
      ensures failures >= old(failures) && (failures == old(failures) <==> done == bufq.Length)
      ensures Cleaned(old(dirty), dirty, bufq[..], done)
      ensures failures == old(failures) ==> dev == old(dev) && Same(old(Contents()), Contents())
      ensures dev == old(dev) || (done < bufq.Length && dev == old(dev)[bufq[done] := NO_DEV])
    {
      ghost var q, c0, dev0 := bufq[..], Contents(), dev;
      done, log := 0, [];
      while done < bufq.Length
        invariant forall i :: 0 <= i < |q| ==> dev0[q[i]] == device
        invariant bufq[..] == q && done <= |q| && LogOk(log, q, blk, ioreqs, done) && failures == old(failures)
        invariant Filed() && dev == dev0 && Same(c0, Contents()) && Cleaned(c0.dirty, dirty, q, done)
        decreases |q| - done
      {
        var len := RunFrom(bufq, done);
        var moved: nat :| moved <= len;
        WriteRun(bufq, done, moved, c0.dirty);
        log := log + [Run(done, len, moved)];
        if moved == 0 {
          GiveUp(bufq[done]);
          break;
        }
        done := done + moved;
      }
    }

    /** A request of which nothing was transferred. Where that is an error the buffer is no longer its block's. */
    method GiveUp(bp: nat)
      requires Filed() && bp < n
      modifies `dev, `failures
      ensures Filed() && failures == old(failures) + 1 && (dev == old(dev) || dev == old(dev)[bp := NO_DEV])
    {
      failures := failures + 1;
      if * {
        ForgetSame(Contents(), bp);
        dev := dev[bp := NO_DEV];
      }
    }

    /** How many buffers from `start` on make up one request. */
    method RunFrom(bufq: array<nat>, start: nat) returns (len: nat)
      requires |blk| == n && ioreqs > 0 && Within(bufq[..], n) && start < bufq.Length
      ensures RunAt(bufq[..], blk, start, len, ioreqs)
    {
      len := 0;
      while len < ioreqs && start + len < bufq.Length && blk[bufq[start + len]] == blk[bufq[start]] + len
        invariant len <= ioreqs && start + len <= bufq.Length
        invariant forall i :: start <= i < start + len ==> blk[bufq[i]] == blk[bufq[start]] + (i - start)
        invariant start + len < bufq.Length || len > 0
      {
        len := len + 1;
      }
    }

    /** The first `moved` buffers of a request reach the disk and are clean. */
    method WriteRun(bufq: array<nat>, start: nat, moved: nat, ghost before: seq<bool>)
      requires Filed() && Within(bufq[..], n) && start + moved <= bufq.Length && Cleaned(before, dirty, bufq[..], start)
      requires forall i :: 0 <= i < bufq.Length ==> dev[bufq[i]] != NO_DEV
      modifies `dirty, `disk
      ensures Filed() && Same(old(Contents()), Contents()) && Cleaned(before, dirty, bufq[..], start + moved)
    {
      var i := 0;
      ghost var c0 := Contents();
      while i < moved
        invariant i <= moved && Filed() && Same(c0, Contents()) && Cleaned(before, dirty, bufq[..], start + i)
      {
        var bp := bufq[start + i];
        WriteBackSame(Contents(), bp);
        CleanedOne(before, dirty, bufq[..], start + i);
        ghost var c := Contents();
        disk := disk[(dev[bp], blk[bp]) := data[bp]];
        dirty := dirty[bp := false];
        assert Contents() == WriteBack(c, bp);
        i := i + 1;
      }
    }

    /** flushall. */
    method FlushAll(device: nat) returns (ghost log: seq<Run>, ghost queue: seq<nat>)
      requires Filed() && device != NO_DEV
      modifies `dev, `dirty, `disk, `failures
      ensures Filed() && failures >= old(failures)
      ensures failures == old(failures) ==> dev == old(dev) && Same(old(Contents()), Contents())
      ensures failures == old(failures) ==> forall x: nat :: x < n ==> (dirty[x] <==> old(dirty)[x] && dev[x] != device)
      ensures forall x: nat :: x < n ==> (dirty[x] ==> old(dirty)[x]) && (dev[x] == old(dev)[x] || dev[x] == NO_DEV)
      ensures Distinct(queue) && forall x: nat :: x in queue <==> x < n && old(dirty)[x] && old(dev)[x] == device
      ensures failures == old(failures) ==> OnceEach(log, queue, queue)
    {
      var list: seq<nat> := [];
      var bp := 0;
      while bp < n
        invariant bp <= n && Within(list, n) && Distinct(list)
        invariant forall x: nat :: x in list <==> x < bp && dirty[x] && dev[x] == device
      {
        if dirty[bp] && dev[bp] == device {
          list := list + [bp];
        }
        bp := bp + 1;
      }
      var bufq := new nat[|list|](i requires 0 <= i < |list| => list[i]);
      assert bufq[..] == list;
      var done;
      done, log := WriteScattered(device, bufq);
      queue := bufq[..];
      PermutedWithin(list, queue, n);
      PermutedDistinct(list, queue);
      assert bufq[..][..done] == bufq[..done];
      assert done == bufq.Length ==> bufq[..done] == bufq[..];
    }

    /** get_block gives up what the buffer held. */
    method Evict(bp: nat)
      requires Filed() && bp < n && bp !in unfilled
      modifies `dev, `dirty, `disk, `failures
      ensures Filed() && dev[bp] == NO_DEV && failures >= old(failures)
      ensures failures == old(failures) ==> Same(old(Contents()), Contents()) && dev == old(dev)[bp := NO_DEV]
      ensures forall x: nat :: x < n ==> (dirty[x] ==> old(dirty)[x]) && (dev[x] == old(dev)[x] || dev[x] == NO_DEV)
    {
      if dev[bp] != NO_DEV {
        if dirty[bp] {
          ghost var log, queue := FlushAll(dev[bp]);
        }
        ForgetSame(Contents(), bp);
        dev := dev[bp := NO_DEV];
      }
    }

    /** get_block, from where a free buffer has been found for a block that is not cached. */
    method Acquire(bp: nat, device: nat, block: nat, mode: Mode)
      requires Filed() && Hashed(bp) && bp < n && dev[bp] == NO_DEV && bp !in unfilled && |count| == n
      requires device == NO_DEV || !Cached(Contents(), device, block)
      modifies `dev, `blk, `dirty, `data, `count, `hashHead, `hashNext, `chains, `unfilled, `failures
      ensures Filed() && Hashed(-1) && count == Used(old(count), bp) && blk == old(blk)[bp := block]
      ensures failures >= old(failures) && (forall x: nat :: x < n && x != bp ==> dev[x] == old(dev)[x] && data[x] == old(data)[x])
      ensures unfilled == if device != NO_DEV && mode == NO_READ then old(unfilled) + {bp} else old(unfilled)
      ensures bp in unfilled ==> SameBut(old(Contents()), Contents(), device, block)
      ensures bp !in unfilled ==> Same(old(Contents()), Contents())
      ensures dev[bp] == if mode == PREFETCH || failures != old(failures) then NO_DEV else device
    {
      ghost var c := Contents();
      dev := dev[bp := device];
      blk := blk[bp := block];
      count := Used(count, bp);
      Rehash(bp);
      if device == NO_DEV {
        FilledSame(c, Contents(), bp, NO_DEV, block);
        return;
      }
      unfilled := unfilled + {bp};
      if mode == PREFETCH {
        dev := dev[bp := NO_DEV];
        unfilled := unfilled - {bp};
      } else if mode == NORMAL {
        ReadBlock(bp);
      }
      FilledSame(c, Contents(), bp, dev[bp], block);
    }

    /** What get_block does with the buffer that it takes, off the list already. */
    method Reuse(bp: nat, device: nat, block: nat, mode: Mode)
      requires Filed() && Hashed(-1) && bp < n && bp !in unfilled && |count| == n
      requires device == NO_DEV || !Cached(Contents(), device, block)
      modifies `dev, `blk, `dirty, `data, `disk, `count, `hashHead, `hashNext, `chains, `unfilled, `failures
      ensures Filed() && Hashed(-1) && count == Used(old(count), bp) && blk == old(blk)[bp := block]
      ensures failures >= old(failures) && forall x: nat :: x < n && x != bp ==> data[x] == old(data)[x]
      ensures unfilled == if device != NO_DEV && mode == NO_READ then old(unfilled) + {bp} else old(unfilled)
      ensures failures == old(failures) ==> SameBut(old(Contents()), Contents(), device, block)
      ensures failures == old(failures) && bp !in unfilled ==> Same(old(Contents()), Contents())
      ensures failures == old(failures) ==> dev == old(dev)[bp := if mode == PREFETCH then NO_DEV else device]
    {
      Unhash(bp);
      ghost var c := Contents();
      Evict(bp);
      if device != NO_DEV {
        StillNotCached(c, Contents(), device, block);
      }
      Acquire(bp, device, block, mode);
    }

    /** What the clients that use buffers see of them: nothing has happened to any but `bp`. */
    twostate predicate OthersKept(bp: nat)
      reads `dev, `blk, `data, `count, `failures
    {
      && |count| == |blk| == |data| == |dev| == n && |old(blk)| == |old(data)| == |old(dev)| == n
      && forall x: nat :: x < n && x != bp && count[x] > 0 ==>
        && blk[x] == old(blk)[x] && data[x] == old(data)[x]
        && (failures == old(failures) ==> dev[x] == old(dev)[x])
    }

    /** get_block, when the block is cached. */
    method Hit(bp: nat)
      requires Valid() && bp < n
      modifies `count, `next, `prev, `front, `rear, `inUse, `lru
      ensures Valid() && count == Used(old(count), bp)
    {
      if count[bp] == 0 {
        ghost var i := RmLru(bp);
      }
      count := Used(count, bp);
    }

    /** get_block, when it is not: the least recently used buffer is taken. */
    method Miss(device: nat, block: nat, mode: Mode) returns (bp: nat)
      requires Valid() && front != -1 && (device == NO_DEV || !Cached(Contents(), device, block))
      modifies this
      ensures Valid() && bp < n && old(count)[bp] == 0 && count == Used(old(count), bp) && blk == old(blk)[bp := block]
      ensures failures >= old(failures) && forall x: nat :: x < n && x != bp ==> data[x] == old(data)[x]
      ensures unfilled == if device != NO_DEV && mode == NO_READ then old(unfilled) + {bp} else old(unfilled)
      ensures failures == old(failures) ==> SameBut(old(Contents()), Contents(), device, block)
      ensures failures == old(failures) && bp !in unfilled ==> Same(old(Contents()), Contents())
      ensures failures == old(failures) ==> dev == old(dev)[bp := if mode == PREFETCH then NO_DEV else device]
      ensures old(lru) != [] && bp == old(lru)[0] && lru == old(lru)[1..]
    {
      bp := front;
      assert bp == lru[0] && bp in lru;
      ghost var c := Contents();
      ghost var i := RmLru(bp);
      assert i == 0 && Contents() == c;
      Reuse(bp, device, block, mode);
    }

    /** get_block. The panic for "all buffers in use" is what the precondition is about. */
    method GetBlock(device: nat, block: nat, mode: Mode) returns (bp: nat)
      requires Valid() && (front != -1 || (device != NO_DEV && Cached(Contents(), device, block)))
      modifies this
      ensures Valid() && bp < n && blk[bp] == block && failures >= old(failures)
      ensures count == Used(old(count), bp) && OthersKept(bp)
      ensures !(device != NO_DEV && Cached(old(Contents()), device, block)) ==> old(lru) != [] && bp == old(lru)[0]
      ensures failures == old(failures) ==>
        dev[bp] == (if mode == PREFETCH && !Cached(old(Contents()), device, block) then NO_DEV else device)
      ensures bp in unfilled && old(count)[bp] == 0 ==> mode == NO_READ && !Cached(old(Contents()), device, block)
      ensures failures == old(failures) && bp !in unfilled ==> Same(old(Contents()), Contents())
      ensures failures == old(failures) ==> SameBut(old(Contents()), Contents(), device, block)
    {
      var found := -1;
      if device != NO_DEV {
        found := FindBuffer(device, block);
      }
      if found != -1 {
        bp := found;
        Hit(bp);
      } else {
        bp := Miss(device, block, mode);
      }
    }

    /** put_block. */
    method PutBlock(bp: nat, oneShot: bool, writeImmed: bool)
      requires Valid() && bp < n && count[bp] > 0 && bp !in unfilled
      modifies `dev, `dirty, `disk, `count, `next, `prev, `front, `rear, `inUse, `lru, `failures
      ensures Valid() && count == Unused(old(count), bp) && failures >= old(failures)
      ensures failures == old(failures) ==> dev == old(dev) && Same(old(Contents()), Contents())
      ensures dev == old(dev) || dev == old(dev)[bp := NO_DEV]
      ensures !writeImmed ==> failures == old(failures)
      ensures lru == if count[bp] != 0 then old(lru) else Listing(old(lru), bp, old(dev)[bp] == ramDev || oneShot)
    {
      count := Unused(count, bp);
      if count[bp] != 0 {
        return;
      }
      Retire(bp, oneShot, writeImmed);
    }

    /** put_block, when the last user has put the buffer. */
    method Retire(bp: nat, oneShot: bool, writeImmed: bool)
      requires Filed() && Listed(bp) && bp < n && count[bp] == 0
      modifies `dev, `dirty, `disk, `next, `prev, `front, `rear, `inUse, `lru, `failures
      ensures Filed() && Listed(-1) && failures >= old(failures)
      ensures failures == old(failures) ==> dev == old(dev) && Same(old(Contents()), Contents())
      ensures dev == old(dev) || dev == old(dev)[bp := NO_DEV]
      ensures !writeImmed ==> failures == old(failures)
      ensures lru == Listing(old(lru), bp, old(dev)[bp] == ramDev || oneShot)
    {
      ghost var c := Contents();
      Shelve(bp, dev[bp] == ramDev || oneShot);
      assert Contents() == c;
      ghost var list := lru;
      WriteNow(bp, writeImmed);
      assert lru == list;
    }

    method WriteNow(bp: nat, writeImmed: bool)
      requires Filed() && bp < n
      modifies `dev, `dirty, `disk, `failures
      ensures Filed() && failures >= old(failures) && (!writeImmed ==> failures == old(failures))
      ensures failures == old(failures) ==> dev == old(dev) && Same(old(Contents()), Contents())
      ensures dev == old(dev) || dev == old(dev)[bp := NO_DEV]
    {
      if writeImmed && dirty[bp] && dev[bp] != NO_DEV {
        WriteBlock(bp);
      }
    }

    /** put_block puts a buffer without users on one of the ends of the list. */
    method Shelve(bp: nat, first: bool)
      requires Listed(bp) && bp < n && count[bp] == 0
      modifies `next, `prev, `front, `rear, `inUse, `lru
      ensures Listed(-1) && lru == Listing(old(lru), bp, first)
    {
      inUse := inUse - 1;
      if first {
        DoublyFront(front, rear, next, prev, lru, bp);
        prev := prev[bp := -1];
        next := next[bp := front];
        if front == -1 {
          rear := bp;
        } else {
          prev := prev[front := bp];
        }
        front := bp;
        lru := [bp] + lru;
      } else {
        DoublyRear(front, rear, next, prev, lru, bp);
        prev := prev[bp := rear];
        next := next[bp := -1];
        if rear == -1 {
          front := bp;
        } else {
          next := next[rear := bp];
        }
        rear := bp;
        lru := lru + [bp];
      }
    }

    /** A client changes the data of a buffer in its hands and marks it. */
    method Modify(bp: nat, v: Data)
      requires Valid() && bp < n && count[bp] > 0
      modifies `data, `dirty, `unfilled
      ensures Valid() && SameBut(old(Contents()), Contents(), dev[bp], blk[bp]) && bp !in unfilled
      ensures dev[bp] != NO_DEV ==> Content(Contents(), dev[bp], blk[bp]) == v
    {
      FillChanges(Contents(), bp, v);
      ghost var c := Contents();
      data := data[bp := v];
      dirty := dirty[bp := true];
      unfilled := unfilled - {bp};
      assert Contents() == Fill(c, bp, v);
    }

    /** invalidate: what the buffers have of the device is given up, written or not. */
    method Invalidate(device: nat)
      requires Valid()
      modifies `dev
      ensures Valid() && dev == Purged(old(dev), device)
      ensures forall d: nat, b: nat :: d != NO_DEV ==>
        Content(Contents(), d, b) == if d == device then OnDisk(disk, d, b) else Content(old(Contents()), d, b)
    {
      ghost var c := Contents();
      var bp := 0;
      while bp < n
        invariant bp <= n && |dev| == n
        invariant forall x: nat :: x < n ==> dev[x] == if x < bp && c.dev[x] == device then NO_DEV else c.dev[x]
      {
        if dev[bp] == device {
          dev := dev[bp := NO_DEV];
        }
        bp := bp + 1;
      }
      assert dev == Purged(c.dev, device);
      PurgedContent(c, device);
    }
  }

  /** A request: where it begins in the queue, for how many buffers it is, and how many of them were transferred. */
  datatype Run = Run(start: nat, len: nat, moved: nat)

  /** The buffers from `start` on have consecutive blocks; there are not too many, and no more that would fit. */
  ghost predicate RunAt(q: seq<nat>, blk: seq<nat>, start: nat, len: nat, ioreqs: nat)
    requires Within(q, |blk|)
  {
    && 1 <= len <= ioreqs && start + len <= |q|
    && (forall i :: start <= i < start + len ==> blk[q[i]] == blk[q[start]] + (i - start))
    && (start + len < |q| && len < ioreqs ==> blk[q[start + len]] != blk[q[start]] + len)
  }

  ghost predicate LogOk(log: seq<Run>, q: seq<nat>, blk: seq<nat>, ioreqs: nat, done: nat)
    requires Within(q, |blk|)
    decreases |log|
  {
    if log == [] then done == 0
    else
      var run := log[|log| - 1];
      && RunAt(q, blk, run.start, run.len, ioreqs) && run.moved <= run.len && done == run.start + run.moved
      && LogOk(log[..|log| - 1], q, blk, ioreqs, run.start)
  }

  /** The buffers transferred, in order. */
  ghost function Sent(log: seq<Run>, q: seq<nat>): seq<nat> {
    if log == [] then []
    else
      var run := log[|log| - 1];
      Sent(log[..|log| - 1], q) + if run.start + run.moved <= |q| then q[run.start..run.start + run.moved] else []
  }

  lemma {:induction false} SentIs(log: seq<Run>, q: seq<nat>, blk: seq<nat>, ioreqs: nat, done: nat)
    requires Within(q, |blk|) && LogOk(log, q, blk, ioreqs, done)
    ensures done <= |q| && Sent(log, q) == q[..done]
    decreases |log|
  {
    if log != [] {
      SentIs(log[..|log| - 1], q, blk, ioreqs, log[|log| - 1].start);
    }
  }

  /** The part of a request that was transferred covers place `i` of the queue. */
  predicate Covers(run: Run, i: nat) {
    run.start <= i < run.start + run.moved
  }

  /** Exactly one request transferred buffer `x`. */
  ghost predicate SentOnce(log: seq<Run>, q: seq<nat>, x: nat) {
    exists k :: 0 <= k < |log| && Carries(log[k], q, x) && forall j :: 0 <= j < |log| && j != k ==> !Carries(log[j], q, x)
  }

  ghost predicate Carries(run: Run, q: seq<nat>, x: nat) {
    exists i :: 0 <= i < |q| && q[i] == x && Covers(run, i)
  }

  ghost predicate OnceEach(log: seq<Run>, q: seq<nat>, all: seq<nat>) {
    forall x :: x in all ==> SentOnce(log, q, x)
  }

  /** One request alone covers a place of the part of the queue that was transferred. */
  lemma {:induction false} CoveredOnce(log: seq<Run>, q: seq<nat>, blk: seq<nat>, ioreqs: nat, done: nat, i: nat)
    returns (k: nat)
    requires Within(q, |blk|) && LogOk(log, q, blk, ioreqs, done) && i < done
    ensures k < |log| && Covers(log[k], i) && forall j :: 0 <= j < |log| && j != k ==> !Covers(log[j], i)
    decreases |log|
  {
    var l := |log| - 1;
    if i < log[l].start {
      k := CoveredOnce(log[..l], q, blk, ioreqs, log[l].start, i);
      forall j | 0 <= j < |log| && j != k ensures !Covers(log[j], i) {
        if j < l { assert log[j] == log[..l][j]; }
      }
    } else {
      k := l;
      RunsBefore(log[..l], q, blk, ioreqs, log[l].start);
      forall j | 0 <= j < l ensures !Covers(log[j], i) {
        assert log[j] == log[..l][j];
      }
    }
  }

  lemma {:induction false} RunsBefore(log: seq<Run>, q: seq<nat>, blk: seq<nat>, ioreqs: nat, done: nat)
    requires Within(q, |blk|) && LogOk(log, q, blk, ioreqs, done)
    ensures forall j :: 0 <= j < |log| ==> log[j].start + log[j].moved <= done
    decreases |log|
  {
    if log != [] {
      RunsBefore(log[..|log| - 1], q, blk, ioreqs, log[|log| - 1].start);
    }
  }

  /** When the whole queue has been transferred each of its buffers was in exactly one request. */
  lemma AllSent(log: seq<Run>, q: seq<nat>, blk: seq<nat>, ioreqs: nat, all: seq<nat>)
    requires Within(q, |blk|) && LogOk(log, q, blk, ioreqs, |q|) && Distinct(q) && forall x :: x in all ==> x in q
    ensures OnceEach(log, q, all)
  {
    forall x | x in all ensures SentOnce(log, q, x) {
      var i: nat :| i < |q| && q[i] == x;
      var k := CoveredOnce(log, q, blk, ioreqs, |q|, i);
      assert Carries(log[k], q, x);
      assert forall j :: 0 <= j < |log| && j != k ==> !Carries(log[j], q, x);
    }
  }

  /** Of the buffers just those at the first `k` places of the queue have been marked clean. */
  ghost predicate Cleaned(before: seq<bool>, after: seq<bool>, q: seq<nat>, k: nat) {
    && |after| == |before| && k <= |q|
    && forall x: nat :: x < |after| ==> after[x] == (before[x] && x !in q[..k])
  }

  lemma CleanedOne(before: seq<bool>, after: seq<bool>, q: seq<nat>, k: nat)
    requires Cleaned(before, after, q, k) && k < |q| && q[k] < |after|
    ensures Cleaned(before, after[q[k] := false], q, k + 1)
  {
    assert q[..k + 1] == q[..k] + [q[k]];
  }

  lemma AllOfDevice(q: seq<nat>, r: seq<nat>, dev: seq<nat>, device: nat)
    requires Permuted(q, r) && Within(q, |dev|) && Within(r, |dev|) && forall i :: 0 <= i < |q| ==> dev[q[i]] == device
    ensures forall i :: 0 <= i < |r| ==> dev[r[i]] == device
  {
    PermutedWithin(q, r, |dev|);
    forall i | 0 <= i < |r| ensures dev[r[i]] == device {
      assert r[i] in q;
    }
  }

  /** One more user for buffer `bp`. */
  function Used(count: seq<nat>, bp: nat): (c: seq<nat>)
    requires bp < |count|
    ensures |c| == |count|
  {
    count[bp := count[bp] + 1]
  }

  /** The list with a buffer added at its front or rear. */
  function Listing(lru: seq<nat>, bp: nat, first: bool): seq<nat> {
    if first then [bp] + lru else lru + [bp]
  }

  /** One user fewer. */
  function Unused(count: seq<nat>, bp: nat): (c: seq<nat>)
    requires bp < |count| && count[bp] > 0
    ensures |c| == |count|
  {
    count[bp := count[bp] - 1]
  }

  /** The links of a list of all buffers in the order of the table. */
  function Following(n: nat): (s: seq<int>)
    ensures |s| == n && forall i :: 0 <= i < n ==> s[i] == if i + 1 < n then i + 1 else -1
  {
    seq(n, i requires 0 <= i < n => if i + 1 < n then i + 1 else -1)
  }

  function Preceding(n: nat): (s: seq<int>)
    ensures |s| == n && forall i :: 0 <= i < n ==> s[i] == i - 1
  {
    seq(n, i requires 0 <= i < n => i - 1)
  }

  function FirstOnly<T>(n: nat, x: T, y: T): (s: seq<T>)
    ensures |s| == n && forall i :: 0 <= i < n ==> s[i] == if i == 0 then x else y
  {
    seq(n, i requires 0 <= i < n => if i == 0 then x else y)
  }

  lemma StartLists(n: nat)
    requires n > 0
    ensures Doubly(0, n - 1, Following(n), Preceding(n), UpFrom(0, n))
    ensures forall x: nat :: x < n ==> x in UpFrom(0, n)
    ensures Threads(FirstOnly(n, 0, -1), Following(n), FirstOnly(n, UpFrom(0, n), []))
    ensures forall x: nat :: x < n ==> InChain(FirstOnly(n, UpFrom(0, n), []), 0 % n, x)
  {
    var list := UpFrom(0, n);
    forall x: nat | x < n ensures x in list {
      assert list[x] == x;
    }
    forall i: nat | i < n ensures BackAt(Preceding(n), list, i) {
    }
  }

  function UpFrom(lo: nat, hi: nat): (s: seq<nat>)
    requires lo <= hi
    ensures |s| == hi - lo && forall i :: 0 <= i < |s| ==> s[i] == lo + i
  {
    seq(hi - lo, i requires 0 <= i => lo + i)
  }

  function Purged(dev: seq<nat>, device: nat): (d: seq<nat>)
    ensures |d| == |dev| && forall x :: 0 <= x < |d| ==> d[x] == if dev[x] == device then NO_DEV else dev[x]
  {
    seq(|dev|, x requires 0 <= x < |dev| => if dev[x] == device then NO_DEV else dev[x])
  }

  lemma PurgedContent(c: Cache, device: nat)
    requires CacheOk(c)
    ensures var c' := c.(dev := Purged(c.dev, device));
      && CacheOk(c')
      && forall d: nat, b: nat :: d != NO_DEV ==>
           Content(c', d, b) == if d == device then OnDisk(c.disk, d, b) else Content(c, d, b)
  {
    var c' := c.(dev := Purged(c.dev, device));
    forall j: nat ensures CleanOk(c', j) {
      assert CleanOk(c, j);
    }
    forall d: nat, b: nat | d != NO_DEV
      ensures Content(c', d, b) == if d == device then OnDisk(c.disk, d, b) else Content(c, d, b)
    {
      if j: nat :| d != device && j < |c.dev| && Caches(c, j, d, b) {
        assert Caches(c', j, d, b);
        ContentIs(c', j, d, b);
      } else {
        forall k: nat | k < |c.dev| ensures !Caches(c', k, d, b) {
          assert d != device ==> !Caches(c, k, d, b);
        }
      }
    }
  }

  ghost predicate InChain(chains: seq<seq<nat>>, k: nat, x: nat) {
    k < |chains| && x in chains[k]
  }

  lemma Unhashed(chains: seq<seq<nat>>, blk: seq<nat>, n: nat, b: nat, i: nat, bp: nat)
    requires n > 0 && |chains| == |blk| == n && bp < n && b == blk[bp] % n && i < |chains[b]| && chains[b][i] == bp
    requires forall k :: 0 <= k < n ==> Distinct(chains[k])
    requires forall j, k, x :: 0 <= j < |chains| && 0 <= k < |chains| && x in chains[j] && x in chains[k] ==> j == k
    requires forall x: nat :: x < n ==> InChain(chains, blk[x] % n, x)
    ensures var left := chains[b := DropAt(chains[b], i)];
      OnNone(left, bp) && forall x: nat :: x < n && x != bp ==> InChain(left, blk[x] % n, x)
  {
    DropAtDistinct(chains[b], i);
    var left := chains[b := DropAt(chains[b], i)];
    forall x: nat | x < n && x != bp ensures InChain(left, blk[x] % n, x) {
      assert InChain(chains, blk[x] % n, x);
    }
  }
}
