/**
 The process table as the kernel keeps it: parallel fields indexed by process slot, with the scheduling
 queues and the caller queues threaded through link fields. Every method does to the links what the
 function of the same operation in module Rendezvous does to the lists.
 */
module KernelTable {
  import opened Lists
  import opened Links
  import opened WaitGraph
  import R = Rendezvous
  import opened ReadyProofs
  import opened RendezvousProofs
  import opened KernelRuns
  import opened Effects
  import opened MessageEffects

  class Kernel {
    const cfg: R.Config
    var rts: seq<set<R.Flag>>            // p_rts_flags
    var sendto: seq<R.Endpoint>          // p_sendto_e
    var getfrom: seq<R.Endpoint>         // p_getfrom_e
    var callerQ: seq<int>                // p_caller_q
    var qLink: seq<int>                  // p_q_link
    var replyPend: seq<bool>             // MF_REPLY_PEND
    var delivering: seq<bool>            // MF_DELIVERMSG
    var sendMsg: seq<int>                // p_sendmsg
    var inbox: seq<R.Msg>                // p_delivermsg
    var pending: seq<set<nat>>           // s_notify_pending
    var prio: seq<nat>                   // p_priority
    var cpuLeft: seq<nat>                // p_cpu_time_left
    var scheduler: seq<int>              // p_scheduler
    var nextReady: seq<int>              // p_nextready
    var rdyHead: seq<int>
    var rdyTail: seq<int>
    var cur: nat                         // proc_ptr
    ghost var queue: seq<seq<nat>>       // the caller queues as lists
    ghost var ready: seq<seq<nat>>       // the scheduling queues as lists

    ghost function Model(): R.State
      reads this
    {
      R.State(cfg, rts, sendto, getfrom, queue, replyPend, delivering, sendMsg, inbox, pending,
              prio, cpuLeft, scheduler, ready, cur)
    }

    ghost predicate ReadyLinks()
      reads `rdyHead, `rdyTail, `nextReady, `ready
    {
      && |rdyHead| == |rdyTail| == cfg.queues && |nextReady| == cfg.n
      && Threads(rdyHead, nextReady, ready)
      && forall k :: 0 <= k < cfg.queues ==> rdyTail[k] == Last(ready[k])
    }

    ghost predicate CallerLinks()
      reads `callerQ, `qLink, `queue
    {
      && |callerQ| == |qLink| == cfg.n
      && Threads(callerQ, qLink, queue) && LooseEnds(qLink, queue)
    }

    ghost predicate Valid()
      reads this
    {
      R.Wf(Model()) && ReadyLinks() && CallerLinks()
    }

    // -------------------------------------------------------------- boot

    /** The process table as main clears it; `cur` is the process that main will let in first. */
    constructor (cfg: R.Config, cur: nat, prio: seq<nat>, cpuLeft: seq<nat>, scheduler: seq<int>)
      requires R.ConfigOk(cfg) && cur < cfg.n && |prio| == |cpuLeft| == |scheduler| == cfg.n
      requires R.AllBelow(prio, cfg.queues) && R.SlotsOrNull(scheduler, cfg.n)
      ensures this.cfg == cfg && this.cur == cur && this.prio == prio && this.scheduler == scheduler
      ensures Valid() && R.Booting(Model()) && LetIn(rts, [])
    {
      var n := cfg.n;
      this.cfg, this.cur, this.prio, this.cpuLeft, this.scheduler := cfg, cur, prio, cpuLeft, scheduler;
      rts, sendto, getfrom := seq(n, _ => {R.SlotFree}), seq(n, _ => R.Nobody), seq(n, _ => R.Nobody);
      callerQ, qLink, replyPend, delivering := seq(n, _ => -1), seq(n, _ => -1), seq(n, _ => false), seq(n, _ => false);
      sendMsg, inbox, pending := seq(n, _ => 0), seq(n, _ => R.NoMsg), seq(n, _ => {});
      nextReady, rdyHead, rdyTail := seq(n, _ => -1), seq(cfg.queues, _ => -1), seq(cfg.queues, _ => -1);
      queue, ready := seq(n, _ => []), seq(cfg.queues, _ => []);
    }

    /** main, for one process of the boot image. */
    method Admit(p: nat, flags: set<R.Flag>)
      requires Valid() && R.Booting(Model()) && p < cfg.n && rts[p] == {R.SlotFree}
      requires Harmless(flags) && (p == cur || R.SlotFree !in rts[cur])
      modifies `rts, `nextReady, `rdyHead, `rdyTail, `ready
      ensures Valid() && R.Booting(Model()) && Model() == R.Admit(old(Model()), p, flags) && rts[p] == flags
      ensures forall q :: 0 <= q < cfg.n && q != p ==> (rts[q] == {R.SlotFree} <==> old(rts)[q] == {R.SlotFree})
    {
      AdmitBooting(Model(), p, flags);
      ghost var s := Model();
      assert R.IpcFlag(R.SlotFree);
      rts := rts[p := rts[p] + flags];
      assert R.ReadyOk(Model());
      RtsUnset(p, R.SlotFree);
    }

    method LetInOne(image: seq<nat>, flags: seq<set<R.Flag>>, i: nat)
      requires Valid() && R.Booting(Model()) && ImageOk(image, flags, cfg.n) && i < |image| && image[0] == cur
      requires LetIn(rts, image[..i])
      modifies `rts, `nextReady, `rdyHead, `rdyTail, `ready
      ensures Valid() && R.Booting(Model()) && LetIn(rts, image[..i + 1])
    {
      ghost var rts0 := rts;
      NextTaken(image, i);
      assert i > 0 ==> cur in image[..i];
      Occupied(Model(), cur);
      Admit(image[i], flags[i]);
      LetInNext(rts0, rts, image, i);
    }

    /** The loop of main over the boot image: what it leaves is a state from which the runs begin. */
    method BootImage(image: seq<nat>, flags: seq<set<R.Flag>>)
      requires Valid() && R.Booting(Model()) && LetIn(rts, []) && ImageOk(image, flags, cfg.n)
      requires image[0] == cur && cfg.idle in image
      modifies `rts, `nextReady, `rdyHead, `rdyTail, `ready
      ensures Valid() && R.Boot(Model()) && LetIn(rts, image)
    {
      var i := 0;
      while i < |image|
        invariant i <= |image| && Valid() && R.Booting(Model()) && LetIn(rts, image[..i])
      {
        LetInOne(image, flags, i);
        i := i + 1;
      }
      assert image[..i] == image;
      Occupied(Model(), cur);
      Occupied(Model(), cfg.idle);
    }

    // -------------------------------------------------------------- scheduling queues

    method Dequeue(p: nat)
      requires R.Wf(Model()) && ReadyLinks() && p < cfg.n
      modifies `nextReady, `rdyHead, `rdyTail, `ready
      ensures ReadyLinks() && ready == old(ready)[prio[p] := Remove(old(ready)[prio[p]], p)]
    {
      var q := prio[p];
      ghost var list := ready[q];
      assert Chain(rdyHead[q], nextReady, list);
      var at := -1;                      // whose link is examined: the queue head's, or entry `at`'s
      var prev := -1;
      ghost var i := 0;
      while (if at == -1 then rdyHead[q] else nextReady[at]) != -1
        invariant i <= |list| && (forall j :: 0 <= j < i ==> list[j] != p)
        invariant at == prev == if i == 0 then -1 else list[i - 1]
        invariant at < cfg.n && (if at == -1 then rdyHead[q] else nextReady[at]) == At(list, i)
        decreases |list| - i
      {
        var xp := if at == -1 then rdyHead[q] else nextReady[at];
        if xp == p {
          RemoveAt(list, p, i);
          Unlink(q, at, prev, p, i);
          return;
        }
        assert Link(nextReady, list, i);
        prev := xp;
        at := xp;
        i := i + 1;
      }
      assert p !in list;
      assert ready[q := Remove(ready[q], p)] == ready;
    }

    /** What dequeue does when it has found the process. */
    method Unlink(q: nat, at: int, prev: int, p: nat, ghost i: nat)
      requires |ready| == cfg.queues && ReadyLinks() && q < cfg.queues && i < |ready[q]| && ready[q][i] == p
      requires at == prev == if i == 0 then -1 else ready[q][i - 1]
      modifies `nextReady, `rdyHead, `rdyTail, `ready
      ensures ReadyLinks() && ready == old(ready)[q := DropAt(old(ready)[q], i)]
    {
      ghost var list := ready[q];
      assert Chain(rdyHead[q], nextReady, list);
      ThreadsDrop(rdyHead, nextReady, ready, q, i);
      DropLast(list, i);
      assert p == Last(list) <==> i == |list| - 1;
      if at == -1 {
        rdyHead := rdyHead[q := nextReady[p]];
      } else {
        nextReady := nextReady[at := nextReady[p]];
      }
      if p == rdyTail[q] {
        rdyTail := rdyTail[q := prev];
      }
      ready := ready[q := DropAt(list, i)];
    }

    method RtsSet(p: nat, f: R.Flag)
      requires R.Wf(Model()) && ReadyLinks() && R.ReadyOk(Model()) && p < cfg.n
      modifies `rts, `nextReady, `rdyHead, `rdyTail, `ready
      ensures Model() == R.RtsSet(old(Model()), p, f)
      ensures R.Wf(Model()) && ReadyLinks() && R.ReadyOk(Model())
    {
      RtsSetReady(Model(), p, f);
      var before := rts[p];
      rts := rts[p := rts[p] + {f}];
      if before == {} {
        Dequeue(p);
      }
    }

    method Enqueue(p: nat)
      requires R.Wf(Model()) && ReadyLinks() && p < cfg.n && R.Runnable(Model(), p) && ReadyBut(Model(), p)
      modifies `rts, `nextReady, `rdyHead, `rdyTail, `ready
      ensures Model() == R.Enqueue(old(Model()), p)
      ensures R.Wf(Model()) && ReadyLinks() && R.ReadyOk(Model())
      ensures Joined(old(Model()), Model(), p)
    {
      EnqueueEffect(Model(), p);
      AppendReady(Model(), p);
      NotQueued(Model(), p);
      EnqueueLinks(p);
      if prio[cur] > prio[p] && cfg.preemptible[cur] {
        RtsSet(cur, R.Preempted);
      }
    }

    /** The part of enqueue that links the process in, before it looks at the current process. */
    method EnqueueLinks(p: nat)
      requires R.Wf(Model()) && ReadyLinks() && p < cfg.n && OnNone(ready, p)
      modifies `nextReady, `rdyHead, `rdyTail, `ready
      ensures Model() == Appended(old(Model()), p)
      ensures ReadyLinks()
    {
      var q := prio[p];
      ThreadsAppend(rdyHead, nextReady, ready, q, p);
      assert Chain(rdyHead[q], nextReady, ready[q]);
      assert rdyHead[q] == -1 <==> ready[q] == [];
      if rdyHead[q] == -1 {
        rdyHead, rdyTail, nextReady := rdyHead[q := p], rdyTail[q := p], nextReady[p := -1];
      } else {
        nextReady, rdyTail := nextReady[rdyTail[q] := p][p := -1], rdyTail[q := p];
      }
      ready := ready[q := ready[q] + [p]];
    }

    method EnqueueHead(p: nat)
      requires R.Wf(Model()) && ReadyLinks() && p < cfg.n && OnNone(ready, p)
      modifies `nextReady, `rdyHead, `rdyTail, `ready
      ensures Model() == R.EnqueueHead(old(Model()), p)
      ensures ReadyLinks()
    {
      var q := prio[p];
      ghost var heads, links := rdyHead, nextReady;
      ThreadsPrepend(rdyHead, nextReady, ready, q, p);
      assert Chain(rdyHead[q], nextReady, ready[q]);
      if rdyHead[q] == -1 {
        rdyHead, rdyTail, nextReady := rdyHead[q := p], rdyTail[q := p], nextReady[p := -1];
      } else {
        nextReady := nextReady[p := rdyHead[q]];
      }
      rdyHead := rdyHead[q := p];        // also after the first branch: the else has no braces
      assert rdyHead == heads[q := p] && nextReady == links[p := heads[q]];
      ready := ready[q := [p] + ready[q]];
    }

    method RtsUnset(p: nat, f: R.Flag)
      requires R.Wf(Model()) && ReadyLinks() && R.ReadyOk(Model()) && p < cfg.n
      modifies `rts, `nextReady, `rdyHead, `rdyTail, `ready
      ensures Model() == R.RtsUnset(old(Model()), p, f)
      ensures R.Wf(Model()) && ReadyLinks() && R.ReadyOk(Model())
    {
      RtsUnsetReady(Model(), p, f);
      var before := rts[p];
      rts := rts[p := rts[p] - {f}];
      if before != {} && rts[p] == {} {
        assert ReadyBut(Model(), p);
        Enqueue(p);
      }
    }

    /** pick_proc; -1 stands for NULL. */
    method PickProc() returns (rp: int)
      requires R.Wf(Model()) && ReadyLinks() && R.ReadyOk(Model())
      ensures rp == R.Pick(Model(), 0)
      ensures rp == -1 <==> forall p :: 0 <= p < cfg.n ==> rts[p] != {}
      ensures rp != -1 ==>
        && 0 <= rp < cfg.n && rts[rp] == {} && IsHead(Model(), rp)
        && forall p :: 0 <= p < cfg.n && rts[p] == {} ==> prio[rp] <= prio[p]
    {
      PickIsBest(Model());
      assert forall p :: 0 <= p < cfg.n ==> R.Runnable(Model(), p) == (rts[p] == {});
      var q := 0;
      while q < cfg.queues
        invariant q <= cfg.queues && R.Pick(Model(), 0) == R.Pick(Model(), q)
      {
        rp := rdyHead[q];
        assert Chain(rp, nextReady, ready[q]);
        if rp != -1 {
          return;
        }
        q := q + 1;
      }
      rp := -1;
    }

    method SchedProc(p: nat, priority: nat, quantum: nat) returns (code: R.Code)
      requires R.Wf(Model()) && ReadyLinks() && R.ReadyOk(Model()) && p < cfg.n && priority != cfg.queues
      modifies `rts, `prio, `cpuLeft, `nextReady, `rdyHead, `rdyTail, `ready
      ensures R.Outcome(Model(), code) == R.SchedProc(old(Model()), p, priority, quantum)
      ensures R.Wf(Model()) && ReadyLinks() && R.ReadyOk(Model())
      ensures code == R.OK <==> priority < cfg.queues && quantum > 0
      ensures code == R.OK ==> Scheduled(old(Model()), Model(), p, priority, quantum)
    {
      SchedEffect(Model(), p, priority, quantum);
      if priority > cfg.queues {
        return R.EINVAL;
      }
      if quantum == 0 {
        return R.EINVAL;
      }
      if rts[p] == {} {
        RtsSet(p, R.NoQuantum);
      }
      PriorityReady(Model(), p, priority, quantum);
      prio, cpuLeft := prio[p := priority], cpuLeft[p := quantum];
      RtsUnset(p, R.NoQuantum);
      code := R.OK;
    }

    /** The part of switch_to_user that returns a preempted process to its queue. */
    method Requeue()
      requires R.Wf(Model()) && ReadyLinks() && R.ReadyOk(Model())
      modifies `rts, `nextReady, `rdyHead, `rdyTail, `ready
      ensures Model() == R.Requeue(old(Model()))
      ensures R.Wf(Model()) && ReadyLinks() && R.ReadyOk(Model())
    {
      SwitchReady(Model());
      if R.Preempted in rts[cur] {
        if rts[cur] - {R.Preempted} == {} {
          RequeueReady(Model());
        }
        rts := rts[cur := rts[cur] - {R.Preempted}];
        if rts[cur] == {} {
          if cpuLeft[cur] != 0 {
            EnqueueHead(cur);
          } else {
            Enqueue(cur);
          }
        }
      }
    }

    /** switch_to_user, up to the choice of the next process. */
    method SwitchToUser()
      requires R.Wf(Model()) && ReadyLinks() && R.ReadyOk(Model())
      modifies `rts, `cur, `nextReady, `rdyHead, `rdyTail, `ready
      ensures Model() == R.Switch(old(Model()))
      ensures ReadyLinks() && R.ReadyOk(Model())
    {
      SwitchReady(Model());
      if rts[cur] == {} {
        return;
      }
      Requeue();
      var next := PickProc();
      cur := if next != -1 then next else cfg.idle;
    }

    // -------------------------------------------------------------- message passing

    /** deadlock, at the places where it is called: not for a pair of processes that already wait for each
        other in the way the code exempts. `function` tells SEND from RECEIVE. */
    method Deadlock(function_: R.Call, cp: nat, src_dst: R.Endpoint) returns (group: nat)
      requires R.IpcInv(Model()) && cp < cfg.n && function_ in {R.SEND, R.RECEIVE}
      requires src_dst == R.Any || R.Live(Model(), src_dst)
      requires src_dst == R.Ep(cp) ==> NotBlocked(Model(), cp)
      requires src_dst.Ep? && R.BlockedOn(Model(), src_dst.slot) == R.Ep(cp) ==>
        (R.Sending in rts[src_dst.slot] <==> function_ == R.SEND)
      ensures group != 0 <==> src_dst.Ep? && Reaches(R.Waits(Model()), src_dst.slot, cp)
      ensures group != 0 ==> WouldCycle(R.Waits(Model()), src_dst, cp, group)
    {
      var processes := new nat[cfg.n];
      processes[0] := cp;
      group := 1;
      var e := src_dst;
      ghost var path: seq<nat> := [];
      while e != R.Any
        invariant group == |path| + 1 <= cfg.n
        invariant if path == [] then e == src_dst else OnWalk(Model(), cp, path, e) && src_dst == R.Ep(path[0])
        invariant e == R.Any || R.Live(Model(), e)
        invariant path != [] && e == R.Any ==> !Reaches(R.Waits(Model()), path[0], cp)
        decreases cfg.n - |path|
      {
        var xp := e.slot;
        WalkStep(Model(), cp, path, xp);
        processes[group] := xp;
        group := group + 1;
        e := if R.Sending in rts[xp] then sendto[xp]
             else if R.Receiving in rts[xp] then getfrom[xp] else R.Nobody;
        if e == R.Nobody {
          return 0;
        }
        if e == R.Ep(cp) {
          var exempt := (R.Sending in rts[xp]) != (function_ == R.SEND);
          if group == 2 && exempt {
            assert false;
          }
          PathIsShort(R.Waits(Model()), path + [xp] + [cp]);
          return;
        }
        path := path + [xp];
      }
      group := 0;
    }

    /** The end of mini_send: find the end of the destination's caller queue and link the caller there. */
    method JoinCallers(c: nat, d: nat)
      requires CallerLinks() && |queue| == cfg.n && c < cfg.n && d < cfg.n && OnNone(queue, c)
      modifies `callerQ, `qLink, `queue
      ensures CallerLinks() && queue == old(queue)[d := old(queue)[d] + [c]]
    {
      ghost var list := queue[d];
      assert Chain(callerQ[d], qLink, list);
      var at := -1;                      // whose link is examined: the queue head's, or entry `at`'s
      ghost var i := 0;
      while (if at == -1 then callerQ[d] else qLink[at]) != -1
        invariant i <= |list| && at == if i == 0 then -1 else list[i - 1]
        invariant at < cfg.n && (if at == -1 then callerQ[d] else qLink[at]) == At(list, i)
        decreases |list| - i
      {
        at := if at == -1 then callerQ[d] else qLink[at];
        assert Link(qLink, list, i);
        i := i + 1;
      }
      ThreadsJoin(callerQ, qLink, queue, d, c);
      if at == -1 {
        callerQ := callerQ[d := c];
      } else {
        qLink := qLink[at := c];
      }
      queue := queue[d := list + [c]];
    }

    method Put(p: nat, m: R.Msg)
      requires R.Wf(Model()) && p < cfg.n
      modifies `inbox, `delivering
      ensures Model() == R.Put(old(Model()), p, m)
    {
      inbox, delivering := inbox[p := m], delivering[p := true];
    }

    method SetReplyPend(p: nat, b: bool)
      requires R.Wf(Model()) && p < cfg.n
      modifies `replyPend
      ensures Model() == R.SetReplyPend(old(Model()), p, b)
    {
      replyPend := replyPend[p := b];
    }

    /** The branch of mini_send that delivers. */
    method HandOver(c: nat, d: nat, body: int)
      requires Valid() && R.ReadyOk(Model()) && c < cfg.n && d < cfg.n
      modifies `rts, `inbox, `delivering, `replyPend, `nextReady, `rdyHead, `rdyTail, `ready
      ensures Valid() && Model() == R.HandOver(old(Model()), c, d, body)
      ensures HandedOver(old(Model()), Model(), c, d, body)
    {
      HandOverEffect(Model(), c, d, body);
      Put(d, R.Sent(c, body));
      SetReplyPend(d, false);
      RtsUnset(d, R.Receiving);
    }

    /** The branch of mini_send that blocks. */
    method BlockInSend(c: nat, d: nat, body: int)
      requires Valid() && R.ReadyOk(Model()) && c < cfg.n && d < cfg.n && OnNone(queue, c)
      modifies this
      ensures Valid() && Model() == R.BlockInSend(old(Model()), c, d, body)
    {
      MarkSending(c, body);
      sendto := sendto[c := R.Ep(d)];
      assert qLink[c] == -1;             // the kernel asserts this
      JoinCallers(c, d);
    }

    method MarkSending(c: nat, body: int)
      requires R.Wf(Model()) && ReadyLinks() && R.ReadyOk(Model()) && c < cfg.n
      modifies `sendMsg, `rts, `nextReady, `rdyHead, `rdyTail, `ready
      ensures Model() == R.RtsSet(old(Model()).(sendMsg := old(sendMsg)[c := body]), c, R.Sending)
      ensures ReadyLinks()
    {
      sendMsg := sendMsg[c := body];
      RtsSet(c, R.Sending);
    }

    method MiniSend(c: nat, d: nat, body: int, mode: R.Mode, copyOk: bool) returns (code: R.Code)
      requires Valid() && R.Inv(Model()) && c < cfg.n && c != d && R.Live(Model(), R.Ep(d)) && NotBlocked(Model(), c)
      modifies this
      ensures Valid() && R.Outcome(Model(), code) == R.Send(old(Model()), c, d, body, mode, copyOk)
      ensures SentRight(old(Model()), c, d, body, mode, copyOk, R.Outcome(Model(), code))
    {
      SendEffect(Model(), c, d, body, mode, copyOk);
      assert R.ProcOk(Model(), d);
      if R.NoEndpoint in rts[d] {
        code := R.EDEADSRCDST;
      } else if R.Receiving in rts[d] && R.Sending !in rts[d] && (getfrom[d] == R.Any || getfrom[d] == R.Ep(c)) {
        assert !delivering[d];           // the kernel asserts this
        if mode != R.FromKernel && !copyOk {
          return R.EFAULT;
        }
        HandOver(c, d, body);
        code := R.OK;
      } else {
        code := SendLater(c, d, body, mode, copyOk);
      }
    }

    /** mini_send, when the receiver is not waiting for the message. */
    method SendLater(c: nat, d: nat, body: int, mode: R.Mode, copyOk: bool) returns (code: R.Code)
      requires Valid() && R.Inv(Model()) && c < cfg.n && c != d && R.Live(Model(), R.Ep(d)) && NotBlocked(Model(), c)
      requires R.NoEndpoint !in rts[d] && !R.WillReceive(Model(), d, c)
      modifies this
      ensures Valid() && R.Outcome(Model(), code) == R.Send(old(Model()), c, d, body, mode, copyOk)
    {
      if mode == R.NonBlocking {
        return R.ENOTREADY;
      }
      assert R.ProcOk(Model(), d);
      var group := Deadlock(R.SEND, c, R.Ep(d));
      if group != 0 {
        return R.ELOCKED;
      }
      if mode != R.FromKernel && !copyOk {
        return R.EFAULT;
      }
      NotCalling(Model(), c);
      BlockInSend(c, d, body);
      code := R.OK;
    }

    /** The scan of mini_receive for a pending notification; -1 if it takes none. */
    method ScanNotices(c: nat, src: R.Endpoint) returns (id: int)
      requires R.Wf(Model()) && c < cfg.n
      requires forall x :: x in pending[c] ==> x < cfg.n
      ensures id == R.PickNotice(Model(), c, src) && id < cfg.n
    {
      var chunks := R.Chunks(cfg.n);
      var chunk := 0;
      while chunk < chunks
        invariant chunk <= chunks
        invariant R.PickNotice(Model(), c, src) == R.NotifyPick(pending[c], src, chunk, chunks)
      {
        var i := 0;
        while i < R.CHUNK_BITS && chunk * R.CHUNK_BITS + i !in pending[c]
          invariant i <= R.CHUNK_BITS && R.LowBit(pending[c], chunk, 0) == R.LowBit(pending[c], chunk, i)
        {
          i := i + 1;
        }
        if i < R.CHUNK_BITS {
          id := chunk * R.CHUNK_BITS + i;
          if src == R.Any || src == R.Ep(id) {
            return;
          }
        }
        chunk := chunk + 1;
      }
      id := -1;
    }

    /** Unlinks the process whose link `at` names (the head of c's caller queue, or entry `at`). */
    method LeaveCallers(c: nat, at: int, sender: nat, ghost i: nat)
      requires CallerLinks() && |queue| == cfg.n && c < cfg.n && i < |queue[c]| && queue[c][i] == sender
      requires at == if i == 0 then -1 else queue[c][i - 1]
      modifies `callerQ, `qLink, `queue
      ensures CallerLinks() && queue == old(queue)[c := DropAt(old(queue)[c], i)]
    {
      ThreadsLeave(callerQ, qLink, queue, c, i);
      assert Chain(callerQ[c], qLink, queue[c]);
      if at == -1 {
        callerQ := callerQ[c := qLink[sender]];
      } else {
        qLink := qLink[at := qLink[sender]];
      }
      qLink := qLink[sender := -1];
      queue := queue[c := DropAt(queue[c], i)];
    }

    method PutAndRelease(c: nat, sender: nat)
      requires R.Wf(Model()) && ReadyLinks() && R.ReadyOk(Model()) && c < cfg.n && sender < cfg.n
      modifies `inbox, `delivering, `rts, `nextReady, `rdyHead, `rdyTail, `ready
      ensures Model() == R.RtsUnset(R.Put(old(Model()), c, R.Sent(sender, old(sendMsg)[sender])), sender, R.Sending)
      ensures ReadyLinks()
    {
      Put(c, R.Sent(sender, sendMsg[sender]));
      RtsUnset(sender, R.Sending);
    }

    /** mini_receive takes the message of the process whose link `at` names. */
    method TakeMessage(c: nat, at: int, sender: nat, ghost i: nat)
      requires Valid() && R.ReadyOk(Model()) && c < cfg.n && i < |queue[c]| && queue[c][i] == sender
      requires at == if i == 0 then -1 else queue[c][i - 1]
      modifies this
      ensures Valid() && Model() == R.TakeMessage(old(Model()), c, i)
    {
      assert sender in queue[c];
      PutAndRelease(c, sender);
      LeaveCallers(c, at, sender, i);
      SetReplyPend(c, false);
    }

    /** The walk over the caller queue in mini_receive: it stops at the first acceptable sender. */
    method FindCaller(c: nat, src: R.Endpoint) returns (at: int, sender: int, ghost i: nat)
      requires R.Wf(Model()) && CallerLinks() && c < cfg.n
      ensures i == R.FirstFrom(queue[c], src)
      ensures sender == At(queue[c], i) && at == if i == 0 then -1 else queue[c][i - 1]
    {
      ghost var list := queue[c];
      assert Chain(callerQ[c], qLink, list);
      i := 0;
      at := -1;
      sender := callerQ[c];
      while sender != -1 && !(src == R.Any || src == R.Ep(sender))
        invariant i <= |list| && at == (if i == 0 then -1 else list[i - 1]) && sender == At(list, i)
        invariant R.FirstFrom(list, src) == i + R.FirstFrom(list[i..], src)
        decreases |list| - i
      {
        assert Link(qLink, list, i);
        at := sender;
        sender := qLink[sender];
        i := i + 1;
      }
    }

    /** The branch of mini_receive that takes a pending notification. */
    method TakeNotice(c: nat, id: nat)
      requires Valid() && c < cfg.n
      modifies `pending, `inbox, `delivering, `replyPend
      ensures Valid() && Model() == R.TakeNotice(old(Model()), c, id)
    {
      pending := pending[c := pending[c] - {id}];
      Put(c, R.Notified(id));
      SetReplyPend(c, false);
    }

    /** The end of mini_receive: block, unless that would close a cycle. */
    method BlockInReceive(c: nat, src: R.Endpoint) returns (code: R.Code)
      requires Valid() && R.Inv(Model()) && c < cfg.n && (src == R.Any || R.Live(Model(), src))
      requires src == R.Ep(c) ==> NotBlocked(Model(), c)
      requires src.Ep? && R.BlockedOn(Model(), src.slot) == R.Ep(c) ==> R.Sending !in rts[src.slot]
      modifies `getfrom, `rts, `nextReady, `rdyHead, `rdyTail, `ready
      ensures Valid() && R.Outcome(Model(), code) == R.BlockInReceive(old(Model()), c, src)
    {
      var group := Deadlock(R.RECEIVE, c, src);
      if group != 0 {
        return R.ELOCKED;
      }
      MarkReceiving(c, src);
      code := R.OK;
    }

    method MarkReceiving(c: nat, src: R.Endpoint)
      requires R.Wf(Model()) && ReadyLinks() && R.ReadyOk(Model()) && c < cfg.n
      modifies `getfrom, `rts, `nextReady, `rdyHead, `rdyTail, `ready
      ensures Model() == R.RtsSet(old(Model()).(getfrom := old(getfrom)[c := src]), c, R.Receiving)
      ensures ReadyLinks()
    {
      getfrom := getfrom[c := src];
      RtsSet(c, R.Receiving);
    }

    method MiniReceive(c: nat, src: R.Endpoint) returns (code: R.Code)
      requires Valid() && R.Inv(Model()) && c < cfg.n && R.Receiving !in rts[c] && !delivering[c]
      requires src == R.Any || R.Live(Model(), src)
      requires R.Sending in rts[c] ==> src == sendto[c] && src != R.Ep(c)
      modifies this
      ensures Valid() && R.Outcome(Model(), code) == R.Receive(old(Model()), c, src)
      ensures ReceivedRight(old(Model()), c, src, R.Outcome(Model(), code))
    {
      assert R.ProcOk(Model(), c);
      ReceiveEffect(Model(), c, src);
      if src.Ep? && R.NoEndpoint in rts[src.slot] {
        return R.EDEADSRCDST;
      }
      if R.Sending !in rts[c] {
        var taken := TakeWaiting(c, src);
        if taken {
          return R.OK;
        }
      }
      NoMutualSend(Model(), c, src);
      code := BlockInReceive(c, src);
    }

    /** The part of mini_receive that looks for a notification or a message that is already there. */
    method TakeWaiting(c: nat, src: R.Endpoint) returns (taken: bool)
      requires Valid() && R.Inv(Model()) && c < cfg.n && R.Sending !in rts[c] && (src == R.Any || R.Live(Model(), src))
      requires src.Ep? ==> R.NoEndpoint !in rts[src.slot]
      modifies this
      ensures Valid()
      ensures taken ==> R.Outcome(Model(), R.OK) == R.Receive(old(Model()), c, src)
      ensures !taken ==> Model() == old(Model()) && R.FirstFrom(queue[c], src) == |queue[c]|
      ensures !taken ==> replyPend[c] || R.PickNotice(Model(), c, src) < 0
    {
      assert R.ProcOk(Model(), c);
      if !replyPend[c] {
        var id := ScanNotices(c, src);
        if id >= 0 {
          TakeNotice(c, id);
          return true;
        }
      }
      var at, sender, i := FindCaller(c, src);
      taken := sender != -1;
      if taken {
        TakeMessage(c, at, sender, i);
      }
    }

    method MiniNotify(c: nat, d: nat) returns (code: R.Code)
      requires Valid() && R.Inv(Model()) && c < cfg.n && d < cfg.n
      modifies this
      ensures Valid() && R.Outcome(Model(), code) == R.Notify(old(Model()), c, d)
      ensures NotifiedRight(old(Model()), c, d, R.Outcome(Model(), code))
    {
      NotifyEffect(Model(), c, d);
      if R.Receiving in rts[d] && R.Sending !in rts[d] && (getfrom[d] == R.Any || getfrom[d] == R.Ep(c)) && !replyPend[d] {
        assert !delivering[d] by { assert R.ProcOk(Model(), d); }   // the kernel asserts this
        NotifyNow(c, d);
        return R.OK;
      }
      NotifyLater(c, d);
      code := R.OK;
    }

    method NotifyLater(c: nat, d: nat)
      requires Valid() && c < cfg.n && d < cfg.n
      modifies `pending
      ensures Valid() && Model() == old(Model()).(pending := old(pending)[d := old(pending)[d] + {c}])
    {
      pending := pending[d := pending[d] + {c}];
    }

    method NotifyNow(c: nat, d: nat)
      requires Valid() && R.ReadyOk(Model()) && c < cfg.n && d < cfg.n
      modifies `inbox, `delivering, `rts, `nextReady, `rdyHead, `rdyTail, `ready
      ensures Valid() && Model() == R.RtsUnset(R.Put(old(Model()), d, R.Notified(c)), d, R.Receiving)
    {
      Put(d, R.Notified(c));
      RtsUnset(d, R.Receiving);
    }

    /** do_sync_ipc, for a caller that is running. */
    method DoSyncIpc(c: nat, call: R.Call, e: R.Endpoint, body: int, copyOk: bool) returns (code: R.Code)
      requires Valid() && R.Inv(Model()) && c < cfg.n && rts[c] == {} && !delivering[c]
      modifies this
      ensures Valid() && R.Outcome(Model(), code) == R.DoSync(old(Model()), c, call, e, body, copyOk)
      ensures e != R.Ep(c) ==> R.Inv(Model())
      ensures var refusal := R.Refusal(old(Model()), c, call, e);
        if refusal != R.OK then code == refusal && Model() == old(Model())
        else e != R.Ep(c) ==> CallDone(old(Model()), c, call, e, body, copyOk, R.Outcome(Model(), code))
    {
      if e != R.Ep(c) {
        DoSyncEffect(Model(), c, call, e, body, copyOk);
        DoSyncInv(Model(), c, call, e, body, copyOk);
      }
      code := Refuse(c, call, e);
      if code == R.OK {
        code := PerformIpc(c, call, e, body, copyOk);
      }
    }

    /** The tests at the beginning of do_sync_ipc. */
    method Refuse(c: nat, call: R.Call, e: R.Endpoint) returns (code: R.Code)
      requires R.Inv(Model()) && c < cfg.n
      ensures code == R.Refusal(Model(), c, call, e)
    {
      if call == R.BADCALL {
        return R.ETRAPDENIED;
      }
      if e == R.Any {
        if call != R.RECEIVE {
          return R.EINVAL;
        }
      } else {
        if !(e.Ep? && e.slot < cfg.n && rts[e.slot] != {R.SlotFree}) {
          return R.EDEADSRCDST;
        }
        if call != R.RECEIVE && e.slot !in cfg.mayTo[c] {
          return R.ECALLDENIED;
        }
      }
      if call !in cfg.traps[c] {
        return R.ETRAPDENIED;
      }
      if call != R.SENDREC && call != R.RECEIVE && e.slot < cfg.tasks {
        return R.ETRAPDENIED;
      }
      code := R.OK;
    }

    /** The switch at the end of do_sync_ipc. */
    method PerformIpc(c: nat, call: R.Call, e: R.Endpoint, body: int, copyOk: bool) returns (code: R.Code)
      requires Valid() && R.Inv(Model()) && c < cfg.n && rts[c] == {} && !delivering[c]
      requires R.Refusal(Model(), c, call, e) == R.OK
      modifies this
      ensures Valid() && R.Outcome(Model(), code) == R.DoSync(old(Model()), c, call, e, body, copyOk)
    {
      if e != R.Any {
        OkEndpointIsLive(Model(), e);
      }
      match call {
        case SEND => code := MiniSend(c, e.slot, body, R.Blocking, copyOk);
        case SENDNB => code := MiniSend(c, e.slot, body, R.NonBlocking, copyOk);
        case NOTIFY => code := MiniNotify(c, e.slot);
        case SENDREC => code := SendRec(c, e.slot, body, copyOk);
        case RECEIVE => code := ReceiveCall(c, e);
        case BADCALL =>
      }
    }

    method ReceiveCall(c: nat, e: R.Endpoint) returns (code: R.Code)
      requires Valid() && R.Inv(Model()) && c < cfg.n && rts[c] == {} && !delivering[c]
      requires e == R.Any || R.Live(Model(), e)
      modifies this
      ensures Valid() && R.Outcome(Model(), code) == R.Receive(R.SetReplyPend(old(Model()), c, false), c, e)
    {
      ReplyPendInv(Model(), c, false);
      SetReplyPend(c, false);
      code := MiniReceive(c, e);
    }

    method SendRec(c: nat, d: nat, body: int, copyOk: bool) returns (code: R.Code)
      requires Valid() && R.Inv(Model()) && c < cfg.n && c != d && R.Live(Model(), R.Ep(d)) && rts[c] == {} && !delivering[c]
      modifies this
      ensures Valid()
      ensures var o := R.Send(R.SetReplyPend(old(Model()), c, true), c, d, body, R.Blocking, copyOk);
        R.Outcome(Model(), code) == if o.code != R.OK then o else R.Receive(o.st, c, R.Ep(d))
    {
      ghost var s := R.SetReplyPend(Model(), c, true);
      BetweenHalves(Model(), c, d, body, copyOk);
      SetReplyPend(c, true);
      assert Model() == s;
      code := MiniSend(c, d, body, R.Blocking, copyOk);
      if code == R.OK {
        code := MiniReceive(c, R.Ep(d));
      }
    }

    /** notify_scheduler, for a process whose quantum is used up. */
    method NotifyScheduler(p: nat, body: int) returns (code: R.Code)
      requires Valid() && R.Inv(Model()) && p < cfg.n && rts[p] == {}
      requires 0 <= scheduler[p] != p && R.SlotFree !in rts[scheduler[p]]
      modifies this
      ensures Valid() && R.Outcome(Model(), code) == R.OutOfQuantum(old(Model()), p, body)
    {
      QuantumGone(Model(), p);
      ghost var t := R.RtsSet(Model(), p, R.NoQuantum);
      RtsSet(p, R.NoQuantum);
      assert Model() == t;
      code := MiniSend(p, scheduler[p], body, R.FromKernel, true);
    }
  }

  /** The processes in `some` have been let in, and no others. */
  ghost predicate LetIn(rts: seq<set<R.Flag>>, some: seq<nat>) {
    forall p :: 0 <= p < |rts| ==> (rts[p] == {R.SlotFree} <==> p !in some)
  }

  lemma LetInNext(rts0: seq<set<R.Flag>>, rts: seq<set<R.Flag>>, image: seq<nat>, i: nat)
    requires i < |image| && Distinct(image) && LetIn(rts0, image[..i]) && |rts| == |rts0| && image[i] < |rts|
    requires R.SlotFree !in rts[image[i]]
    requires forall q :: 0 <= q < |rts| && q != image[i] ==> (rts[q] == {R.SlotFree} <==> rts0[q] == {R.SlotFree})
    ensures LetIn(rts, image[..i + 1])
  {
    NextTaken(image, i);
  }

  /** A boot image: no process twice, and the flags that main sets for each are not about message passing. */
  ghost predicate ImageOk(image: seq<nat>, flags: seq<set<R.Flag>>, n: nat) {
    && |flags| == |image| > 0 && Distinct(image)
    && forall i :: 0 <= i < |image| ==> image[i] < n && Harmless(flags[i])
  }

  ghost predicate Harmless(flags: set<R.Flag>) {
    forall f :: f in flags ==> !R.IpcFlag(f)
  }

  lemma Occupied(s: R.State, p: nat)
    requires R.Booting(s) && p < s.cfg.n
    ensures s.rts[p] != {R.SlotFree} ==> R.SlotFree !in s.rts[p]
  {
    assert R.Fresh(s, p) && R.IpcFlag(R.SlotFree);
  }

  /** When no acceptable sender is queued and the source is live, the source is not blocked sending to c. */
  lemma NoMutualSend(s: R.State, c: nat, src: R.Endpoint)
    requires R.IpcInv(s) && c < s.cfg.n && (src == R.Any || R.Live(s, src))
    requires if R.Sending in s.rts[c] then src == s.sendto[c] && src != R.Ep(c)
             else R.FirstFrom(s.queue[c], src) == |s.queue[c]|
    ensures src.Ep? && R.BlockedOn(s, src.slot) == R.Ep(c) ==> R.Sending !in s.rts[src.slot]
  {
    if src.Ep? && R.BlockedOn(s, src.slot) == R.Ep(c) && R.Sending in s.rts[src.slot] {
      var g := R.Waits(s);
      assert g[src.slot] == R.WaitsFor(s, src.slot) && g[c] == R.WaitsFor(s, c);
      if R.Sending in s.rts[c] {
        TwoCycle(g, c, src.slot);
      } else {
        assert R.ProcOk(s, c) && R.SendsTo(s, src.slot, c);
      }
    }
  }

  /** A process that is not sending is on no caller queue. */
  lemma NotCalling(s: R.State, c: nat)
    requires R.IpcInv(s) && c < s.cfg.n && R.Sending !in s.rts[c]
    ensures OnNone(s.queue, c)
  {
    forall q | 0 <= q < s.cfg.n ensures c !in s.queue[q] {
      assert R.ProcOk(s, q) && !R.SendsTo(s, c, q);
    }
  }

  /** `path` is what the walk has followed so far, without meeting `cp`; its last process is blocked on `e`. */
  ghost predicate OnWalk(s: R.State, cp: nat, path: seq<nat>, e: R.Endpoint)
    requires R.Wf(s)
  {
    path != [] && Path(R.Waits(s), path) && cp !in path && e == R.BlockedOn(s, path[|path| - 1]) && e != R.Ep(cp)
  }

  /** One step of the walk: there is room to record the process, and if the walk ends there it has found
      out whether `cp` can be reached. */
  lemma WalkStep(s: R.State, cp: nat, path: seq<nat>, xp: nat)
    requires R.IpcInv(s) && cp < s.cfg.n && xp < s.cfg.n && (path == [] || OnWalk(s, cp, path, R.Ep(xp)))
    requires xp == cp ==> NotBlocked(s, cp)
    ensures |path| + 2 <= s.cfg.n
    ensures var e, first := R.BlockedOn(s, xp), (path + [xp])[0];
      && (e == R.Any || e == R.Nobody || R.Live(s, e))
      && (e == R.Any || e == R.Nobody ==> !Reaches(R.Waits(s), first, cp))
      && (e == R.Ep(cp) ==> Reaches(R.Waits(s), first, cp) && Path(R.Waits(s), path + [xp] + [cp]))
      && (e != R.Ep(cp) && e != R.Nobody ==> OnWalk(s, cp, path + [xp], e))
  {
    var g, longer, e := R.Waits(s), path + [xp], R.BlockedOn(s, xp);
    assert g[xp] == R.WaitsFor(s, xp) && R.ProcOk(s, xp);
    if path != [] {
      assert g[path[|path| - 1]] == R.WaitsFor(s, path[|path| - 1]);
      PathOn(g, path, xp);
    }
    WalkIsShort(g, cp, path, xp);
    if e == R.Ep(cp) {
      PathOn(g, longer, cp);
    } else if !e.Ep? {
      assert cp !in longer[1..];
      EndedPathIsAll(g, longer, cp);
    }
  }

  /** Waiting for `e` would close a cycle of `group` different processes, `cp` among them. */
  ghost predicate WouldCycle(g: Graph, e: R.Endpoint, cp: nat, group: nat) {
    e.Ep? && 2 <= group <= |g| && exists path: seq<nat> ::
      Path(g, path) && Distinct(path) && |path| == group && path[0] == e.slot && path[group - 1] == cp
  }

  /** The processes that the walk records are all different. */
  lemma WalkIsShort(g: Graph, cp: nat, path: seq<nat>, xp: nat)
    requires Acyclic(g) && Path(g, path + [xp]) && cp < |g| && 2 <= |g| && cp !in path && (path != [] ==> xp != cp)
    ensures |path| + 2 <= |g|
  {
    PathIsShort(g, path + [xp]);
    if path != [] {
      Pigeonhole([cp] + (path + [xp]), |g|);
    }
  }
}
