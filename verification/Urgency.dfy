/** Preemption over whole runs: nothing runnable is more urgent than a preemptible process that runs on. */
module Urgency {
  import opened Rendezvous
  import opened ReadyProofs
  import opened RendezvousProofs
  import opened KernelRuns
  import opened Effects

  /** No process that can run, but the current one, is more urgent than priority `k`. */
  predicate NoneAbove(s: State, k: nat)
    requires Wf(s)
  {
    forall p :: 0 <= p < s.cfg.n && p != s.cur && Runnable(s, p) ==> k <= s.prio[p]
  }

  /** Unless the current process may not be preempted, or has been, it is one of the most urgent. */
  predicate MostUrgent(s: State)
    requires Wf(s)
  {
    s.cfg.preemptible[s.cur] && Preempted !in s.rts[s.cur] ==> NoneAbove(s, s.prio[s.cur])
  }

  lemma UnsetUrgent(s: State, p: nat, f: Flag)
    requires Wf(s) && p < s.cfg.n && MostUrgent(s) && (p == s.cur ==> f != Preempted)
    ensures MostUrgent(RtsUnset(s, p, f))
  {
    RtsUnsetEffect(s, p, f);
    ReleasedUrgent(s, RtsUnset(s, p, f), p, f);
  }

  lemma ReleasedUrgent(s: State, t: State, p: nat, f: Flag)
    requires Wf(s) && Wf(t) && p < s.cfg.n && MostUrgent(s) && (p == s.cur ==> f != Preempted)
    requires Released(s, t, p, f)
    ensures MostUrgent(t)
  {
    if s.cfg.preemptible[s.cur] && Preempted !in t.rts[s.cur] {
      assert Preempted !in s.rts[s.cur] && !(Wakes(s, p, f) && Outranks(s, p));
      forall q | 0 <= q < s.cfg.n && q != s.cur && Runnable(t, q) ensures s.prio[s.cur] <= s.prio[q] {
        StillWaiting(s, t, p, f, q);
      }
    }
  }

  /** Only `p` can have become runnable. */
  lemma StillWaiting(s: State, t: State, p: nat, f: Flag, q: nat)
    requires Wf(s) && Wf(t) && p < s.cfg.n && q < s.cfg.n && Released(s, t, p, f) && Runnable(t, q)
    ensures Runnable(s, q) || (q == p && Wakes(s, p, f))
  {
    forall g | g in s.rts[q] ensures q == p && g == f {
      assert g !in t.rts[q];
    }
  }

  lemma SetUrgent(s: State, p: nat, f: Flag)
    requires Wf(s) && p < s.cfg.n && MostUrgent(s)
    ensures MostUrgent(RtsSet(s, p, f))
  {
    var t := RtsSet(s, p, f);
    forall q | 0 <= q < s.cfg.n && Runnable(t, q) ensures Runnable(s, q) {
    }
  }

  lemma HandOverUrgent(s: State, c: nat, d: nat, body: int)
    requires Wf(s) && c < s.cfg.n && d < s.cfg.n && MostUrgent(s)
    ensures MostUrgent(HandOver(s, c, d, body))
  {
    UnsetUrgent(SetReplyPend(Put(s, d, Sent(c, body)), d, false), d, Receiving);
  }

  lemma BlockInSendUrgent(s: State, c: nat, d: nat, body: int)
    requires Wf(s) && c < s.cfg.n && d < s.cfg.n && MostUrgent(s)
    ensures MostUrgent(BlockInSend(s, c, d, body))
  {
    SetUrgent(s.(sendMsg := s.sendMsg[c := body]), c, Sending);
  }

  lemma SendUrgent(s: State, c: nat, d: nat, body: int, mode: Mode, copyOk: bool)
    requires Wf(s) && c < s.cfg.n && d < s.cfg.n && MostUrgent(s)
    ensures MostUrgent(Send(s, c, d, body, mode, copyOk).st)
  {
    HandOverUrgent(s, c, d, body);
    BlockInSendUrgent(s, c, d, body);
  }

  lemma ReceiveUrgent(s: State, c: nat, src: Endpoint)
    requires Wf(s) && c < s.cfg.n && (src == Any || (src.Ep? && src.slot < s.cfg.n)) && MostUrgent(s)
    ensures MostUrgent(Receive(s, c, src).st)
  {
    SetUrgent(s.(getfrom := s.getfrom[c := src]), c, Receiving);
    var i := FirstFrom(s.queue[c], src);
    if i < |s.queue[c]| {
      TakeMessageUrgent(s, c, i);
    }
  }

  lemma TakeMessageUrgent(s: State, c: nat, i: nat)
    requires Wf(s) && c < s.cfg.n && i < |s.queue[c]| && MostUrgent(s)
    ensures MostUrgent(TakeMessage(s, c, i))
  {
    var sender := s.queue[c][i];
    assert sender in s.queue[c];
    UnsetUrgent(Put(s, c, Sent(sender, s.sendMsg[sender])), sender, Sending);
  }

  lemma DoSyncUrgent(s: State, c: nat, call: Call, e: Endpoint, body: int, copyOk: bool)
    requires Wf(s) && c < s.cfg.n && MostUrgent(s)
    ensures MostUrgent(DoSync(s, c, call, e, body, copyOk).st)
  {
    if Refusal(s, c, call, e) == OK {
      if call == RECEIVE {
        ReceiveUrgent(SetReplyPend(s, c, false), c, e);
      } else if call == NOTIFY {
        UnsetUrgent(Put(s, e.slot, Notified(c)), e.slot, Receiving);
      } else if call == SENDREC {
        var a := SetReplyPend(s, c, true);
        SendUrgent(a, c, e.slot, body, Blocking, copyOk);
        ReceiveUrgent(Send(a, c, e.slot, body, Blocking, copyOk).st, c, e);
      } else {
        SendUrgent(s, c, e.slot, body, if call == SENDNB then NonBlocking else Blocking, copyOk);
      }
    }
  }

  /** The two events that leave a more urgent process waiting: giving the current process a less urgent priority, and
      taking back its preemption. */
  predicate Calm(s: State, ev: Event)
    requires Wf(s)
  {
    match ev
    case Schedule(p, priority, quantum) =>
      p == s.cur && Accepted(s, priority, quantum) && s.cfg.preemptible[p] && Preempted !in s.rts[p] ==>
        NoneAbove(s, priority)
    case ClearFlag(p, f) =>
      p == s.cur && f == Preempted && s.cfg.preemptible[p] ==> NoneAbove(s, s.prio[p])
    case _ => true
  }

  lemma ScheduleUrgent(s: State, p: nat, priority: nat, quantum: nat)
    requires Wf(s) && ReadyOk(s) && MostUrgent(s) && p < s.cfg.n && priority != s.cfg.queues
    ensures MostUrgent(SchedProc(s, p, priority, quantum).st) <==> Calm(s, Schedule(p, priority, quantum))
  {
    SchedEffect(s, p, priority, quantum);
    var t := SchedProc(s, p, priority, quantum).st;
    if Accepted(s, priority, quantum) {
      if p == s.cur {
        OthersRunOn(s, t, p);
        assert Preempted in t.rts[p] <==> Preempted in s.rts[p];
        assert forall q :: 0 <= q < s.cfg.n && q != p ==> Runnable(t, q) == Runnable(s, q) && t.prio[q] == s.prio[q];
        assert NoneAbove(t, priority) <==> NoneAbove(s, priority);
      } else {
        ScheduledUrgent(s, t, p, priority, quantum);
      }
    }
  }

  /** Another process than the current one has been scheduled. */
  lemma ScheduledUrgent(s: State, t: State, p: nat, priority: nat, quantum: nat)
    requires Wf(s) && Wf(t) && p < s.cfg.n && p != s.cur && MostUrgent(s)
    requires t.cfg == s.cfg && priority < s.cfg.queues && Scheduled(s, t, p, priority, quantum)
    ensures MostUrgent(t)
  {
    if s.cfg.preemptible[s.cur] && Preempted !in t.rts[s.cur] {
      assert Preempted !in s.rts[s.cur];
      forall q | 0 <= q < s.cfg.n && q != s.cur && Runnable(t, q) ensures s.prio[s.cur] <= t.prio[q] {
        if q == p {
          assert forall g :: g in s.rts[p] ==> g in t.rts[p] || g == NoQuantum;
        } else {
          assert forall g :: g in s.rts[q] ==> g in t.rts[q];
        }
      }
    }
  }

  lemma OthersRunOn(s: State, t: State, p: nat)
    requires Wf(s) && Wf(t) && t.cfg == s.cfg && p < s.cfg.n
    requires forall q, g :: 0 <= q < s.cfg.n && q != p ==> (g in t.rts[q] <==> g in s.rts[q])
    ensures forall q :: 0 <= q < s.cfg.n && q != p ==> t.rts[q] == s.rts[q]
  {
  }

  lemma ClearUrgent(s: State, p: nat, f: Flag)
    requires Wf(s) && p < s.cfg.n && MostUrgent(s)
    ensures MostUrgent(RtsUnset(s, p, f)) <==> Calm(s, ClearFlag(p, f))
  {
    if p != s.cur || f != Preempted {
      UnsetUrgent(s, p, f);
    } else {
      RtsUnsetEffect(s, p, f);
      OthersRunOn(s, RtsUnset(s, p, f), p);
    }
  }

  lemma SwitchUrgent(s: State)
    requires Wf(s) && ReadyOk(s)
    ensures !Runnable(s, s.cur) || MostUrgent(s) ==> MostUrgent(Switch(s))
  {
    SwitchPicksBest(s);
  }

  /** Every event but the two kinds keeps the current process the most urgent, and those do exactly when no more urgent
      process is waiting. */
  lemma UrgencyStep(s: State, ev: Event)
    requires Inv(s) && Enabled(s, ev) && MostUrgent(s)
    ensures MostUrgent(Apply(s, ev)) <==> Calm(s, ev)
  {
    match ev
    case Ipc(call, e, body, copyOk) => DoSyncUrgent(s, s.cur, call, e, body, copyOk);
    case QuantumUsed(body) =>
      SetUrgent(s, s.cur, NoQuantum);
      SendUrgent(RtsSet(s, s.cur, NoQuantum), s.cur, s.scheduler[s.cur], body, FromKernel, true);
    case Schedule(p, priority, quantum) => ScheduleUrgent(s, p, priority, quantum);
    case SetFlag(p, f) => SetUrgent(s, p, f);
    case ClearFlag(p, f) => ClearUrgent(s, p, f);
    case SwitchToUser => SwitchUrgent(s);
    case _ =>
  }

  ghost predicate CalmRun(s: State, evs: seq<Event>)
    requires Wf(s)
    decreases evs
  {
    evs == [] || ((Enabled(s, evs[0]) ==> Calm(s, evs[0]))
      && CalmRun(if Enabled(s, evs[0]) then Apply(s, evs[0]) else s, evs[1..]))
  }

  lemma {:induction false} UrgencyRun(s: State, evs: seq<Event>)
    requires Inv(s) && MostUrgent(s) && CalmRun(s, evs)
    ensures MostUrgent(Run(s, evs))
    decreases evs
  {
    if evs != [] {
      if Enabled(s, evs[0]) {
        ApplyInv(s, evs[0]);
        UrgencyStep(s, evs[0]);
      }
      UrgencyRun(if Enabled(s, evs[0]) then Apply(s, evs[0]) else s, evs[1..]);
    }
  }

  /** From any switch to a new process in a reachable state on, whatever calls are made and whoever is woken, and through
      all later switches: while a preemptible process runs, no runnable process is more urgent. */
  lemma NothingMoreUrgent(s: State, before: seq<Event>, evs: seq<Event>)
    requires Boot(s)
    requires var t := Run(s, before); !Runnable(t, t.cur) && CalmRun(Switch(t), evs)
    ensures var u := Run(Switch(Run(s, before)), evs);
      u.cfg.preemptible[u.cur] && Runnable(u, u.cur) ==>
        forall p :: 0 <= p < u.cfg.n && Runnable(u, p) ==> u.prio[u.cur] <= u.prio[p]
  {
    EveryReachableState(s, before);
    var t := Run(s, before);
    SwitchUrgent(t);
    ApplyInv(t, SwitchToUser);
    UrgencyRun(Switch(t), evs);
  }
}
