/** What scheduling operations do to the flags and the ready queues of all processes, stated on the states before and
    after. */
module Effects {
  import opened Lists
  import opened Rendezvous
  import opened ReadyProofs

  // ---------------------------------------------------------------- becoming runnable

  /** Enqueueing `p` preempts the current process. The test does not look at whether that one can run. */
  predicate Outranks(s: State, p: nat)
    requires Wf(s) && p < s.cfg.n
  {
    s.cfg.preemptible[s.cur] && s.prio[p] < s.prio[s.cur]
  }

  /** `t` is `s` after `p` has joined the end of its queue: the current process is newly preempted, and leaves its
      queue, if and only if it is preemptible and `p` has a strictly smaller priority number. Nobody else gets or loses
      a flag, and no other queue changes. */
  ghost predicate Joined(s: State, t: State, p: nat)
    requires Wf(s) && Wf(t) && p < s.cfg.n
  {
    && t == s.(rts := t.rts, ready := t.ready)
    && (forall q, f :: 0 <= q < s.cfg.n ==>
        (f in t.rts[q] <==> f in s.rts[q] || (f == Preempted && q == s.cur && Outranks(s, p))))
    && (forall k :: 0 <= k < s.cfg.queues ==>
        t.ready[k] == if k == s.prio[p] then s.ready[k] + [p]
                      else if k == s.prio[s.cur] && Runnable(s, s.cur) && Outranks(s, p) then Remove(s.ready[k], s.cur)
                      else s.ready[k])
  }

  lemma EnqueueEffect(s: State, p: nat)
    requires Wf(s) && p < s.cfg.n
    ensures Joined(s, Enqueue(s, p), p)
  {
  }

  /** `p` becomes runnable when the flag `f` is cleared. */
  predicate Wakes(s: State, p: nat, f: Flag)
    requires Wf(s) && p < s.cfg.n
  {
    s.rts[p] == {f}
  }

  /** `t` is `s` with flag `f` of `p` cleared: if that was p's only flag, `p` joins the end of its queue, and the current
      process is preempted if and only if it is preemptible and less urgent; no other flag changes. */
  ghost predicate Released(s: State, t: State, p: nat, f: Flag)
    requires Wf(s) && Wf(t) && p < s.cfg.n
  {
    && t == s.(rts := t.rts, ready := t.ready)
    && (forall q, g :: 0 <= q < s.cfg.n ==>
        (g in t.rts[q] <==>
          (g in s.rts[q] && !(q == p && g == f)) || (g == Preempted && q == s.cur && Wakes(s, p, f) && Outranks(s, p))))
    && (!Wakes(s, p, f) ==> t.ready == s.ready)
    && (Wakes(s, p, f) ==> t.ready[s.prio[p]] == s.ready[s.prio[p]] + [p])
    && (forall k :: 0 <= k < s.cfg.queues && k != s.prio[p] ==>
        t.ready[k] == if k == s.prio[s.cur] && Runnable(s, s.cur) && Wakes(s, p, f) && Outranks(s, p)
                      then Remove(s.ready[k], s.cur) else s.ready[k])
  }

  lemma RtsUnsetEffect(s: State, p: nat, f: Flag)
    requires Wf(s) && p < s.cfg.n
    ensures Released(s, RtsUnset(s, p, f), p, f)
  {
    if Wakes(s, p, f) {
      var u := s.(rts := s.rts[p := s.rts[p] - {f}]);
      assert Runnable(u, p);
      EnqueueEffect(u, p);
      JoinedReleased(s, u, RtsUnset(s, p, f), p, f);
    }
  }

  lemma JoinedReleased(s: State, u: State, t: State, p: nat, f: Flag)
    requires Wf(s) && Wf(u) && Wf(t) && p < s.cfg.n && Wakes(s, p, f) && u == s.(rts := s.rts[p := {}]) && Joined(u, t, p)
    ensures Released(s, t, p, f)
  {
    assert Outranks(u, p) == Outranks(s, p);
    forall q, g | 0 <= q < s.cfg.n
      ensures g in t.rts[q] <==> (g in s.rts[q] && !(q == p && g == f)) || (g == Preempted && q == s.cur && Outranks(s, p)) {
      assert g in u.rts[q] <==> g in s.rts[q] && !(q == p && g == f);
    }
    assert Outranks(s, p) ==> s.cur != p && Runnable(u, s.cur) == Runnable(s, s.cur);
  }

  /** `t` is `s` with flag `f` of `p` set: `p` leaves its queue if it was runnable, and the others keep their order. */
  ghost predicate Stopped(s: State, t: State, p: nat, f: Flag)
    requires Wf(s) && Wf(t) && p < s.cfg.n
  {
    && t == s.(rts := t.rts, ready := t.ready)
    && (forall q, g :: 0 <= q < s.cfg.n ==> (g in t.rts[q] <==> g in s.rts[q] || (q == p && g == f)))
    && (forall k :: 0 <= k < s.cfg.queues ==>
        t.ready[k] == if k == s.prio[p] && Runnable(s, p) then Remove(s.ready[k], p) else s.ready[k])
  }

  lemma RtsSetEffect(s: State, p: nat, f: Flag)
    requires Wf(s) && p < s.cfg.n
    ensures Stopped(s, RtsSet(s, p, f), p, f)
  {
  }

  /** `t` is `s` with the current process no longer preempted. If nothing else stops it, it goes back to the head of its
      queue while it has time left, and to the end when it has none. */
  ghost predicate PutBack(s: State, t: State)
    requires Wf(s) && Wf(t)
  {
    && t == s.(rts := t.rts, ready := t.ready)
    && (forall q, g :: 0 <= q < s.cfg.n ==> (g in t.rts[q] <==> g in s.rts[q] && !(q == s.cur && g == Preempted)))
    && (s.rts[s.cur] != {Preempted} ==> t.ready == s.ready)
    && (s.rts[s.cur] == {Preempted} ==>
        t.ready == var k := s.prio[s.cur];
          s.ready[k := if s.cpuLeft[s.cur] > 0 then [s.cur] + s.ready[k] else s.ready[k] + [s.cur]])
  }

  lemma RequeueEffect(s: State)
    requires Wf(s)
    ensures PutBack(s, Requeue(s))
  {
    var u := s.(rts := s.rts[s.cur := s.rts[s.cur] - {Preempted}]);
    assert Preempted in s.rts[s.cur] && Runnable(u, s.cur) <==> s.rts[s.cur] == {Preempted};
  }

  /** switch_to_user puts a preempted process back before it picks another, and changes nothing but the current process
      besides. */
  lemma SwitchEffect(s: State)
    requires Wf(s)
    ensures var t := Switch(s);
      if Runnable(s, s.cur) then t == s else PutBack(s, t.(cur := s.cur))
  {
    RequeueEffect(s);
    if !Runnable(s, s.cur) {
      assert Switch(s).(cur := s.cur) == Requeue(s);
    }
  }

  /** `t` is `s` after `p` has got a priority and a quantum: NoQuantum is cleared, the current process is preempted if and
      only if it is another one, preemptible and less urgent than a `p` that can run, and no other flag changes. */
  ghost predicate Scheduled(s: State, t: State, p: nat, priority: nat, quantum: nat)
    requires Wf(s) && Wf(t) && p < s.cfg.n && t.cfg == s.cfg && priority < s.cfg.queues
  {
    && t == s.(rts := t.rts, ready := t.ready, prio := s.prio[p := priority], cpuLeft := s.cpuLeft[p := quantum])
    && (forall q, g :: 0 <= q < s.cfg.n ==>
        (g in t.rts[q] <==>
          || (g in s.rts[q] && !(q == p && g == NoQuantum))
          || (g == Preempted && q == s.cur && q != p && s.rts[p] <= {NoQuantum}
              && s.cfg.preemptible[q] && priority < s.prio[q])))
    && (s.rts[p] <= {NoQuantum} ==> t.ready[priority] != [] && t.ready[priority][|t.ready[priority]| - 1] == p)
  }

  /** sched_proc answers EINVAL, and changes nothing, exactly when the priority is larger than the number of queues or
      the quantum is not positive. Otherwise the process has the new priority and the new quantum, and is last on the
      queue of the new priority if nothing but the end of its quantum had stopped it. */
  lemma SchedEffect(s: State, p: nat, priority: nat, quantum: nat)
    requires Wf(s) && p < s.cfg.n && priority != s.cfg.queues && ReadyOk(s)
    ensures var o := SchedProc(s, p, priority, quantum);
      if priority > s.cfg.queues || quantum == 0 then o == Outcome(s, EINVAL)
      else o.code == OK && Scheduled(s, o.st, p, priority, quantum)
  {
    if priority < s.cfg.queues && quantum != 0 {
      var t := if Runnable(s, p) then RtsSet(s, p, NoQuantum) else s;
      var u := t.(prio := t.prio[p := priority], cpuLeft := t.cpuLeft[p := quantum]);
      RtsSetEffect(s, p, NoQuantum);
      RtsUnsetEffect(u, p, NoQuantum);
      assert s.rts[p] <= {NoQuantum} <==> Wakes(u, p, NoQuantum);
    }
  }
}
