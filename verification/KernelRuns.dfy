/** Safety over whole runs of the kernel, and the places where the code falls short of it. */
module KernelRuns {
  import opened Lists
  import opened WaitGraph
  import opened Rendezvous
  import opened ReadyProofs
  import opened RendezvousProofs
  import opened Effects

  // ---------------------------------------------------------------- the ready queues under message passing

  lemma HandOverReady(s: State, c: nat, d: nat, body: int)
    requires Wf(s) && c < s.cfg.n && d < s.cfg.n && ReadyOk(s)
    ensures ReadyOk(HandOver(s, c, d, body))
  {
    RtsUnsetReady(SetReplyPend(Put(s, d, Sent(c, body)), d, false), d, Receiving);
  }

  lemma BlockInSendReady(s: State, c: nat, d: nat, body: int)
    requires Wf(s) && c < s.cfg.n && d < s.cfg.n && ReadyOk(s)
    ensures ReadyOk(BlockInSend(s, c, d, body))
  {
    var b := s.(sendMsg := s.sendMsg[c := body]);
    assert ReadyOk(b);
    RtsSetReady(b, c, Sending);
  }

  lemma SendReady(s: State, c: nat, d: nat, body: int, mode: Mode, copyOk: bool)
    requires Wf(s) && c < s.cfg.n && d < s.cfg.n && ReadyOk(s)
    ensures ReadyOk(Send(s, c, d, body, mode, copyOk).st)
  {
    HandOverReady(s, c, d, body);
    BlockInSendReady(s, c, d, body);
  }

  lemma ReceiveReady(s: State, c: nat, src: Endpoint)
    requires Wf(s) && c < s.cfg.n && (src == Any || (src.Ep? && src.slot < s.cfg.n)) && ReadyOk(s)
    ensures ReadyOk(Receive(s, c, src).st)
  {
    var b := s.(getfrom := s.getfrom[c := src]);
    assert ReadyOk(b);
    RtsSetReady(b, c, Receiving);
    var i := FirstFrom(s.queue[c], src);
    if i < |s.queue[c]| {
      TakeMessageReady(s, c, i);
    }
  }

  lemma TakeMessageReady(s: State, c: nat, i: nat)
    requires Wf(s) && c < s.cfg.n && i < |s.queue[c]| && ReadyOk(s)
    ensures ReadyOk(TakeMessage(s, c, i))
  {
    var sender := s.queue[c][i];
    assert sender in s.queue[c];
    RtsUnsetReady(Put(s, c, Sent(sender, s.sendMsg[sender])), sender, Sending);
  }

  lemma NotifyReady(s: State, c: nat, d: nat)
    requires Wf(s) && c < s.cfg.n && d < s.cfg.n && ReadyOk(s)
    ensures ReadyOk(Notify(s, c, d).st)
  {
    RtsUnsetReady(Put(s, d, Notified(c)), d, Receiving);
  }

  lemma DoSyncReady(s: State, c: nat, call: Call, e: Endpoint, body: int, copyOk: bool)
    requires Wf(s) && c < s.cfg.n && ReadyOk(s)
    ensures ReadyOk(DoSync(s, c, call, e, body, copyOk).st)
  {
    if Refusal(s, c, call, e) == OK {
      if call == RECEIVE {
        ReceiveReady(SetReplyPend(s, c, false), c, e);
      } else if call == NOTIFY {
        NotifyReady(s, c, e.slot);
      } else if call == SENDREC {
        var a := SetReplyPend(s, c, true);
        SendReady(a, c, e.slot, body, Blocking, copyOk);
        ReceiveReady(Send(a, c, e.slot, body, Blocking, copyOk).st, c, e);
      } else {
        SendReady(s, c, e.slot, body, if call == SENDNB then NonBlocking else Blocking, copyOk);
      }
    }
  }

  // ---------------------------------------------------------------- message passing

  /** The receive half of a SENDREC whose send half succeeded. */
  lemma SendRecInv(s: State, c: nat, d: nat, body: int, copyOk: bool)
    requires IpcInv(s) && c < s.cfg.n && d < s.cfg.n && c != d && Live(s, Ep(d)) && s.rts[c] == {}
    requires !s.delivering[c] && s.replyPend[c]
    ensures IpcInv(Send(s, c, d, body, Blocking, copyOk).st)
    ensures var o := Send(s, c, d, body, Blocking, copyOk);
      o.code == OK ==> IpcInv(Receive(o.st, c, Ep(d)).st) && Receive(o.st, c, Ep(d)).code == OK
  {
    SendInv(s, c, d, body, Blocking, copyOk);
    var o := Send(s, c, d, body, Blocking, copyOk);
    if o.code == OK {
      SendHalf(s, c, d, body, copyOk);
      ReceiveInv(o.st, c, Ep(d));
      ReceiveHalfUnlocked(o.st, c, d);
    }
  }

  /** When the send half has delivered or blocked, the receive half is never refused as a deadlock. */
  lemma ReceiveHalfUnlocked(t: State, c: nat, d: nat)
    requires IpcInv(t) && c < t.cfg.n && d < t.cfg.n && c != d && NoEndpoint !in t.rts[d] && Receiving !in t.rts[c]
    requires if Sending in t.rts[c] then t.sendto[c] == Ep(d) else NotBlocked(t, d)
    ensures Receive(t, c, Ep(d)).code == OK
  {
    var g := Waits(t);
    forall q: seq<nat> | Path(g, q) && |q| >= 2 && q[0] == d ensures q[|q| - 1] != c {
      if Sending in t.rts[c] && q[|q| - 1] == c {
        JoinPaths(g, [c, d], q);
      } else if Sending !in t.rts[c] {
        FirstEdge(g, q);
      }
    }
  }

  /** Every synchronous call that a runnable process makes to another process keeps the invariant. */
  lemma DoSyncInv(s: State, c: nat, call: Call, e: Endpoint, body: int, copyOk: bool)
    requires Inv(s) && c < s.cfg.n && s.rts[c] == {} && !s.delivering[c] && e != Ep(c)
    ensures Inv(DoSync(s, c, call, e, body, copyOk).st)
  {
    DoSyncReady(s, c, call, e, body, copyOk);
    if Refusal(s, c, call, e) == OK {
      if e != Any { OkEndpointIsLive(s, e); }
      if call == RECEIVE {
        ReplyPendInv(s, c, false);
        ReceiveInv(SetReplyPend(s, c, false), c, e);
      } else if call == NOTIFY {
        NotifyInv(s, c, e.slot);
      } else if call == SENDREC {
        ReplyPendInv(s, c, true);
        SendRecInv(SetReplyPend(s, c, true), c, e.slot, body, copyOk);
      } else {
        SendInv(s, c, e.slot, body, if call == SENDNB then NonBlocking else Blocking, copyOk);
      }
    }
  }

  /** A SENDREC whose message was accepted, delivered or queued, is never answered with an error. */
  lemma SendRecIsAtomic(s: State, c: nat, e: Endpoint, body: int, copyOk: bool)
    requires Inv(s) && c < s.cfg.n && s.rts[c] == {} && !s.delivering[c] && Refusal(s, c, SENDREC, e) == OK
    ensures DoSync(s, c, SENDREC, e, body, copyOk).code ==
            Send(SetReplyPend(s, c, true), c, e.slot, body, Blocking, copyOk).code
  {
    OkEndpointIsLive(s, e);
    ReplyPendInv(s, c, true);
    SendRecInv(SetReplyPend(s, c, true), c, e.slot, body, copyOk);
    SendRecIs(s, c, e.slot, body, copyOk);
  }

  lemma SendRecIs(s: State, c: nat, d: nat, body: int, copyOk: bool)
    requires Wf(s) && c < s.cfg.n && d < s.cfg.n && Refusal(s, c, SENDREC, Ep(d)) == OK
    ensures var o := Send(SetReplyPend(s, c, true), c, d, body, Blocking, copyOk);
      DoSync(s, c, SENDREC, Ep(d), body, copyOk) == if o.code != OK then o else Receive(o.st, c, Ep(d))
  {
  }

  /** What is known when the send half of a SENDREC has succeeded and its receive half is to be performed. */
  lemma BetweenHalves(s: State, c: nat, d: nat, body: int, copyOk: bool)
    requires Inv(s) && c < s.cfg.n && c != d && Live(s, Ep(d)) && s.rts[c] == {} && !s.delivering[c]
    ensures var u := SetReplyPend(s, c, true);
      && Inv(u) && u.cfg == s.cfg && Live(u, Ep(d)) && NotBlocked(u, c)
      && var o := Send(u, c, d, body, Blocking, copyOk);
      o.code == OK ==>
        && Inv(o.st) && Receiving !in o.st.rts[c] && !o.st.delivering[c] && Live(o.st, Ep(d))
        && (Sending in o.st.rts[c] ==> Ep(d) == o.st.sendto[c])
  {
    ReplyPendInv(s, c, true);
    var u := SetReplyPend(s, c, true);
    SendInv(u, c, d, body, Blocking, copyOk);
    SendReady(u, c, d, body, Blocking, copyOk);
    if Send(u, c, d, body, Blocking, copyOk).code == OK {
      SendHalf(u, c, d, body, copyOk);
    }
  }

  // ---------------------------------------------------------------- runs

  lemma OutOfQuantumInv(s: State, body: int)
    requires Inv(s) && Enabled(s, QuantumUsed(body))
    ensures Inv(OutOfQuantum(s, s.cur, body).st)
  {
    var t := RtsSet(s, s.cur, NoQuantum);
    RtsSetReady(s, s.cur, NoQuantum);
    assert SameIpc(s, t);
    SameIpcInv(s, t);
    SendInv(t, s.cur, s.scheduler[s.cur], body, FromKernel, true);
    SendReady(t, s.cur, s.scheduler[s.cur], body, FromKernel, true);
  }

  /** notify_scheduler panics when the kernel may not send for the process. That happens exactly when the scheduler's
      endpoint is gone, or the scheduler does not wait for the process and waits already, directly or not, for it. */
  lemma OutOfQuantumRefused(s: State, p: nat, body: int)
    requires Inv(s) && p < s.cfg.n && s.rts[p] == {} && 0 <= s.scheduler[p] < s.cfg.n && s.scheduler[p] != p
    ensures OutOfQuantum(s, p, body).code != OK <==>
      var d := s.scheduler[p];
      NoEndpoint in s.rts[d] || (!WillReceive(s, d, p) && Reaches(Waits(s), d, p))
  {
    QuantumGone(s, p);
  }

  /** A process whose quantum is used up waits for nobody, and nobody else's waiting has changed. */
  lemma QuantumGone(s: State, p: nat)
    requires Inv(s) && p < s.cfg.n && s.rts[p] == {}
    ensures var t := RtsSet(s, p, NoQuantum);
      && Inv(t) && NotBlocked(t, p) && t.cfg == s.cfg && t.scheduler == s.scheduler && Waits(t) == Waits(s)
      && t.getfrom == s.getfrom && forall q :: 0 <= q < s.cfg.n && q != p ==> t.rts[q] == s.rts[q]
  {
    SetFlagInv(s, p, NoQuantum);
    assert SameIpc(s, RtsSet(s, p, NoQuantum));
    SameWaits(s, RtsSet(s, p, NoQuantum));
  }

  lemma SetFlagInv(s: State, p: nat, f: Flag)
    requires Inv(s) && p < s.cfg.n && !IpcFlag(f) && SlotFree !in s.rts[p]
    ensures Inv(RtsSet(s, p, f))
  {
    RtsSetReady(s, p, f);
    assert SameIpc(s, RtsSet(s, p, f));
    SameIpcInv(s, RtsSet(s, p, f));
  }

  lemma ClearFlagInv(s: State, p: nat, f: Flag)
    requires Inv(s) && p < s.cfg.n && !IpcFlag(f) && SlotFree !in s.rts[p]
    ensures Inv(RtsUnset(s, p, f)) && RtsUnset(s, p, f).cfg == s.cfg
  {
    RtsUnsetReady(s, p, f);
    UnsetClears(s, p, f);
    assert IpcFlag(SlotFree);
    SameIpcInv(s, RtsUnset(s, p, f));
  }

  /** Changing the priority of a process that is on no queue. */
  lemma PriorityInv(s: State, p: nat, priority: nat, quantum: nat)
    requires Inv(s) && p < s.cfg.n && priority < s.cfg.queues && !Runnable(s, p)
    ensures var t := s.(prio := s.prio[p := priority], cpuLeft := s.cpuLeft[p := quantum]);
      Inv(t)
  {
    var t := s.(prio := s.prio[p := priority], cpuLeft := s.cpuLeft[p := quantum]);
    SameIpcInv(s, t);
    assert ReadyOk(t);
  }

  lemma ScheduleInv(s: State, p: nat, priority: nat, quantum: nat)
    requires Inv(s) && Enabled(s, Schedule(p, priority, quantum))
    ensures Inv(SchedProc(s, p, priority, quantum).st)
  {
    if priority < s.cfg.queues && quantum != 0 {
      var t := if Runnable(s, p) then RtsSet(s, p, NoQuantum) else s;
      SetFlagInv(s, p, NoQuantum);
      PriorityInv(t, p, priority, quantum);
      ClearFlagInv(t.(prio := t.prio[p := priority], cpuLeft := t.cpuLeft[p := quantum]), p, NoQuantum);
    }
  }

  lemma RequeueSame(s: State)
    requires Wf(s) && SlotFree !in s.rts[s.cur]
    ensures SameIpc(s, Requeue(s))
  {
    assert !IpcFlag(Preempted);
  }

  lemma SwitchInv(s: State)
    requires Inv(s)
    ensures Inv(Switch(s))
  {
    SwitchReady(s);
    PickIsBest(Requeue(s));
    RequeueSame(s);
    SameIpcInv(s, Requeue(s));
    if !Runnable(s, s.cur) {
      SameIpcInv(Requeue(s), Switch(s));
    }
  }

  lemma DeliveredInv(s: State, p: nat)
    requires Inv(s) && p < s.cfg.n
    ensures Inv(s.(delivering := s.delivering[p := false]))
  {
    var t := s.(delivering := s.delivering[p := false]);
    SameRtsWaits(s, t);
    forall q | 0 <= q < s.cfg.n ensures ProcOk(t, q) {
      assert ProcOk(s, q);
      assert forall r: nat :: SendsTo(t, r, q) == SendsTo(s, r, q);
    }
    assert ReadyOk(t);
  }

  lemma ApplyInv(s: State, ev: Event)
    requires Inv(s) && Enabled(s, ev)
    ensures Inv(Apply(s, ev))
  {
    match ev
    case Ipc(call, e, body, copyOk) => DoSyncInv(s, s.cur, call, e, body, copyOk);
    case QuantumUsed(body) => OutOfQuantumInv(s, body);
    case Schedule(p, priority, quantum) => ScheduleInv(s, p, priority, quantum);
    case SetFlag(p, f) => SetFlagInv(s, p, f);
    case ClearFlag(p, f) => ClearFlagInv(s, p, f);
    case SetScheduler(p, who) => SameIpcInv(s, Apply(s, ev)); assert ReadyOk(Apply(s, ev));
    case Delivered(p) => DeliveredInv(s, p);
    case TimeLeft(p, left) => SameIpcInv(s, Apply(s, ev)); assert ReadyOk(Apply(s, ev));
    case SwitchToUser => SwitchInv(s);
  }

  /** Letting a process in, the current one first, goes on with the boot, and leaves it with the flags of the image. */
  lemma AdmitBooting(s: State, p: nat, flags: set<Flag>)
    requires Booting(s) && p < s.cfg.n && s.rts[p] == {SlotFree} && forall f :: f in flags ==> !IpcFlag(f)
    requires p == s.cur || SlotFree !in s.rts[s.cur]
    ensures var t := Admit(s, p, flags);
      && Booting(t) && t.rts[p] == flags
      && forall q :: 0 <= q < s.cfg.n && q != p ==> (t.rts[q] == {SlotFree} <==> s.rts[q] == {SlotFree})
  {
    var u, t := s.(rts := s.rts[p := s.rts[p] + flags]), Admit(s, p, flags);
    assert IpcFlag(SlotFree) && !IpcFlag(Preempted);
    assert !Runnable(s, p) && !Runnable(u, p);
    RtsUnsetReady(u, p, SlotFree);
    RtsUnsetEffect(u, p, SlotFree);
    forall q | 0 <= q < s.cfg.n ensures Fresh(t, q) {
      assert Fresh(s, q) && Fresh(s, s.cur);
    }
  }

  lemma BootInv(s: State)
    requires Boot(s)
    ensures Inv(s)
  {
    assert IpcFlag(Sending) && IpcFlag(Receiving) && IpcFlag(SlotFree);
    forall p | 0 <= p < s.cfg.n ensures WaitsFor(s, p) == -1 && ProcOk(s, p) {
      assert Fresh(s, p);
      forall q: nat ensures !SendsTo(s, q, p) {
        assert q < s.cfg.n ==> Fresh(s, q);
      }
    }
    NoEdges(Waits(s));
  }

  lemma {:induction false} RunInv(s: State, evs: seq<Event>)
    requires Inv(s)
    ensures Inv(Run(s, evs))
    decreases evs
  {
    if evs != [] {
      if Enabled(s, evs[0]) {
        ApplyInv(s, evs[0]);
      }
      RunInv(if Enabled(s, evs[0]) then Apply(s, evs[0]) else s, evs[1..]);
    }
  }

  /** From boot on, whatever the processes and the rest of the kernel do: the wait-for graph has no cycle, the
      caller queues hold exactly the blocked senders, no rendezvous is missed, and runqueues_ok holds. */
  lemma EveryReachableState(s: State, evs: seq<Event>)
    requires Boot(s)
    ensures Inv(Run(s, evs))
  {
    BootInv(s);
    RunInv(s, evs);
  }

  /** In every reachable state the chain of processes that wait for one another, from any process on, ends
      within the size of the process table, at a process that is not blocked on a particular one. */
  lemma WaitingChainsEnd(s: State, evs: seq<Event>, p: nat) returns (chain: seq<nat>)
    requires Boot(s) && p < s.cfg.n
    ensures var t := Run(s, evs);
      && chain != [] && chain[0] == p && Distinct(chain) && |chain| <= t.cfg.n
      && Path(Waits(t), chain) && !BlockedOn(t, chain[|chain| - 1]).Ep?
  {
    EveryReachableState(s, evs);
    var t := Run(s, evs);
    forall q | 0 <= q < t.cfg.n ensures WaitsFor(t, q) < t.cfg.n {
      assert ProcOk(t, q);
    }
    chain := ChainEnds(Waits(t), [p]);
    PathIsShort(Waits(t), chain);
  }

  // ---------------------------------------------------------------- receiving from oneself

  /** do_sync_ipc does not reject a receive from the caller's own endpoint. Such a receive keeps the wait-for
      graph acyclic exactly when it returns without blocking, which can be told before the call. */
  lemma SelfReceive(s: State, c: nat)
    requires Inv(s) && c < s.cfg.n && NotBlocked(s, c)
    ensures Acyclic(Waits(Receive(s, c, Ep(c)).st)) <==>
            NoEndpoint in s.rts[c] || (!s.replyPend[c] && PickNotice(s, c, Ep(c)) >= 0)
  {
    assert ProcOk(s, c);
    forall q | q in s.queue[c] ensures !Accepts(Ep(c), q) {
      assert SendsTo(s, q, c);
    }
    var g := Waits(s);
    assert WaitsFor(s, c) == -1;
    forall q: seq<nat> | Path(g, q) && |q| >= 2 ensures q[0] != c {
      FirstEdge(g, q);
    }
    var t := Receive(s, c, Ep(c)).st;
    if NoEndpoint !in s.rts[c] {
      if !s.replyPend[c] && PickNotice(s, c, Ep(c)) >= 0 {
        SameRtsWaits(s, t);
      } else {
        assert Listening(s, t, c, Ep(c));
        ListeningWaits(s, t, c, Ep(c));
      }
    }
  }
}
