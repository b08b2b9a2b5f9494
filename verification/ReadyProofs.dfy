/** The scheduling queues hold exactly the runnable processes, whatever the kernel does. */
module ReadyProofs {
  import opened Lists
  import opened Links
  import opened Rendezvous

  /** The queues are right but for the runnable process `x`, which is on none. */
  ghost predicate ReadyBut(s: State, x: nat)
    requires Wf(s)
  {
    forall k {:trigger s.ready[k]} :: 0 <= k < s.cfg.queues ==>
      && Distinct(s.ready[k])
      && (forall p: nat :: p in s.ready[k] <==> p < s.cfg.n && p != x && s.rts[p] == {} && s.prio[p] == k)
  }

  lemma NotQueued(s: State, x: nat)
    requires Wf(s) && ReadyBut(s, x)
    ensures OnNone(s.ready, x)
  {
  }

  lemma RtsSetReady(s: State, p: nat, f: Flag)
    requires Wf(s) && p < s.cfg.n && ReadyOk(s)
    ensures ReadyOk(RtsSet(s, p, f))
  {
    RemoveDistinct(s.ready[s.prio[p]], p);
  }

  /** `s` with p at the end of the queue of its priority. */
  function Appended(s: State, p: nat): State
    requires Wf(s) && p < s.cfg.n
  {
    s.(ready := s.ready[s.prio[p] := s.ready[s.prio[p]] + [p]])
  }

  lemma AppendReady(s: State, p: nat)
    requires Wf(s) && p < s.cfg.n && Runnable(s, p) && ReadyBut(s, p)
    ensures Wf(Appended(s, p)) && ReadyOk(Appended(s, p))
    ensures ReadyOk(EnqueueHead(s, p))
    ensures ReadyOk(Enqueue(s, p))
  {
    AppendDistinct(s.ready[s.prio[p]], p);
    RtsSetReady(Appended(s, p), s.cur, Preempted);
  }

  lemma RtsUnsetReady(s: State, p: nat, f: Flag)
    requires Wf(s) && p < s.cfg.n && ReadyOk(s)
    ensures ReadyOk(RtsUnset(s, p, f))
  {
    var t := s.(rts := s.rts[p := s.rts[p] - {f}]);
    if !Runnable(s, p) && Runnable(t, p) {
      assert ReadyBut(t, p);
      AppendReady(t, p);
    }
  }

  /** A process that is on no queue can be given another priority. */
  lemma PriorityReady(s: State, p: nat, priority: nat, quantum: nat)
    requires Wf(s) && ReadyOk(s) && p < s.cfg.n && priority < s.cfg.queues && !Runnable(s, p)
    ensures var t := s.(prio := s.prio[p := priority], cpuLeft := s.cpuLeft[p := quantum]);
      Wf(t) && ReadyOk(t)
  {
  }

  /** sched_proc moves a process to the queue of its new priority. */
  lemma SchedReady(s: State, p: nat, priority: nat, quantum: nat)
    requires Wf(s) && p < s.cfg.n && priority != s.cfg.queues && ReadyOk(s)
    ensures ReadyOk(SchedProc(s, p, priority, quantum).st)
  {
    if priority < s.cfg.queues && quantum != 0 {
      RtsSetReady(s, p, NoQuantum);
      var t := if Runnable(s, p) then RtsSet(s, p, NoQuantum) else s;
      PriorityReady(t, p, priority, quantum);
      var u := t.(prio := t.prio[p := priority], cpuLeft := t.cpuLeft[p := quantum]);
      RtsUnsetReady(u, p, NoQuantum);
    }
  }

  /** A current process that is only preempted becomes runnable, and is then on no queue. */
  lemma RequeueReady(s: State)
    requires Wf(s) && ReadyOk(s) && Preempted in s.rts[s.cur] && s.rts[s.cur] - {Preempted} == {}
    ensures var t := s.(rts := s.rts[s.cur := {}]);
      Wf(t) && ReadyBut(t, s.cur) && OnNone(t.ready, s.cur)
  {
    var t := s.(rts := s.rts[s.cur := {}]);
    assert ReadyBut(t, s.cur);
    NotQueued(t, s.cur);
  }

  lemma SwitchReady(s: State)
    requires Wf(s) && ReadyOk(s)
    ensures ReadyOk(Requeue(s)) && ReadyOk(Switch(s))
  {
    var t := s.(rts := s.rts[s.cur := s.rts[s.cur] - {Preempted}]);
    if Preempted in s.rts[s.cur] && Runnable(t, s.cur) {
      assert ReadyBut(t, s.cur);
      AppendReady(t, s.cur);
    }
  }

  /** p has waited longest on the queue of its priority. */
  predicate IsHead(s: State, p: nat)
    requires Wf(s) && p < s.cfg.n
  {
    s.ready[s.prio[p]] != [] && s.ready[s.prio[p]][0] == p
  }

  /** pick_proc finds a runnable process of the best priority that any runnable process has, the first one on the queue
      of that priority, and returns NULL exactly when no process is runnable. */
  lemma PickIsBest(s: State)
    requires Wf(s) && ReadyOk(s)
    ensures Pick(s, 0) == -1 <==> forall p :: 0 <= p < s.cfg.n ==> !Runnable(s, p)
    ensures Pick(s, 0) != -1 ==>
      && Runnable(s, Pick(s, 0)) && IsHead(s, Pick(s, 0))
      && forall p :: 0 <= p < s.cfg.n && Runnable(s, p) ==> s.prio[Pick(s, 0)] <= s.prio[p]
  {
    PickFrom(s, 0);
    forall p | 0 <= p < s.cfg.n && Runnable(s, p) ensures Pick(s, 0) != -1 && s.prio[Pick(s, 0)] <= s.prio[p] {
      assert p in s.ready[s.prio[p]];
    }
  }

  lemma {:induction false} PickFrom(s: State, q: nat)
    requires Wf(s) && ReadyOk(s) && q <= s.cfg.queues
    ensures Pick(s, q) == -1 ==> forall k :: q <= k < s.cfg.queues ==> s.ready[k] == []
    ensures Pick(s, q) != -1 ==> Runnable(s, Pick(s, q)) && IsHead(s, Pick(s, q)) && q <= s.prio[Pick(s, q)]
    ensures Pick(s, q) != -1 ==> forall k :: q <= k < s.prio[Pick(s, q)] ==> s.ready[k] == []
    decreases s.cfg.queues - q
  {
    if q < s.cfg.queues {
      if s.ready[q] != [] {
        assert s.ready[q][0] in s.ready[q];
      } else {
        PickFrom(s, q + 1);
      }
    }
  }

  /** switch_to_user changes nothing while the current process can run on. Otherwise the new current process is
      runnable and first on its queue, nothing runnable is more urgent, and IDLE stands in exactly when nothing is runnable. */
  lemma SwitchPicksBest(s: State)
    requires Wf(s) && ReadyOk(s)
    ensures var t := Switch(s);
      if Runnable(s, s.cur) then t == s
      else if exists p :: 0 <= p < t.cfg.n && Runnable(t, p)
      then Runnable(t, t.cur) && IsHead(t, t.cur) && forall p :: 0 <= p < t.cfg.n && Runnable(t, p) ==> t.prio[t.cur] <= t.prio[p]
      else t.cur == t.cfg.idle
  {
    if !Runnable(s, s.cur) {
      SwitchReady(s);
      PickIsBest(Requeue(s));
      assert forall p :: 0 <= p < s.cfg.n ==> Runnable(Switch(s), p) == Runnable(Requeue(s), p);
    }
  }

  /** sched_proc lets one priority through that names no queue, and no other. */
  lemma AcceptedPriority(s: State, p: nat, priority: nat, quantum: nat)
    requires Wf(s) && p < s.cfg.n && Accepted(s, priority, quantum)
    ensures AllBelow(s.prio[p := priority], s.cfg.queues) <==> priority != s.cfg.queues
  {
    assert s.prio[p := priority][p] == priority;
  }
}
