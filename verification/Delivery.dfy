/** Messages over whole runs: what is sent is received, once and in order, and nothing else is. */
module Delivery {
  import opened Lists
  import opened WaitGraph
  import opened Rendezvous
  import opened RendezvousProofs
  import opened KernelRuns
  import opened Effects
  import opened MessageEffects

  /** The message that `q` has sent to `d` and that `d` has not received yet. */
  function InFlight(s: State, q: nat, d: nat): (r: seq<int>)
    requires Wf(s) && q < s.cfg.n && d < s.cfg.n
    ensures |r| <= 1
  {
    if q in s.queue[d] then [s.sendMsg[q]] else []
  }

  /** The message from `q` that `d` receives between two states. */
  function Got(s: State, t: State, q: nat, d: nat): (r: seq<int>)
    requires Wf(s) && Wf(t) && d < s.cfg.n && t.cfg == s.cfg
  {
    if !s.delivering[d] && t.delivering[d] && t.inbox[d].Sent? && t.inbox[d].source == q then [t.inbox[d].body] else []
  }

  predicate GotNotice(s: State, t: State, q: nat, d: nat)
    requires Wf(s) && Wf(t) && d < s.cfg.n && t.cfg == s.cfg
  {
    !s.delivering[d] && t.delivering[d] && t.inbox[d] == Notified(q)
  }

  /** Between `s` and `t`, where `q` has sent `sent` to `d`: what was in flight or sent has been received or is in
      flight. */
  predicate Balanced(s: State, t: State, sent: seq<int>, q: nat, d: nat)
    requires Wf(s) && Wf(t) && q < s.cfg.n && d < s.cfg.n && t.cfg == s.cfg
  {
    InFlight(s, q, d) + sent == Got(s, t, q, d) + InFlight(t, q, d)
  }

  /** A notification that was pending or is made stays pending or has been received; no other is or has been. */
  predicate NoticesBalanced(s: State, t: State, made: bool, q: nat, d: nat)
    requires Wf(s) && Wf(t) && q < s.cfg.n && d < s.cfg.n && t.cfg == s.cfg
  {
    q in s.pending[d] || made <==> q in t.pending[d] || GotNotice(s, t, q, d)
  }

  /** A message that waits to be copied to its receiver is not overwritten or dropped. */
  predicate Kept(s: State, t: State, d: nat)
    requires Wf(s) && Wf(t) && d < s.cfg.n && t.cfg == s.cfg
  {
    s.delivering[d] ==> t.delivering[d] && t.inbox[d] == s.inbox[d]
  }

  /** `sent` and `made` account for everything between `s` and `t`. */
  predicate Accounted(s: State, t: State, sent: seq<int>, made: bool, q: nat, d: nat)
    requires Wf(s) && Wf(t) && q < s.cfg.n && d < s.cfg.n && t.cfg == s.cfg
  {
    Balanced(s, t, sent, q, d) && NoticesBalanced(s, t, made, q, d) && Kept(s, t, d)
  }

  predicate SameMail(s: State, t: State)
    requires Wf(s) && Wf(t)
  {
    t.cfg == s.cfg && t.inbox == s.inbox && t.delivering == s.delivering && t.sendMsg == s.sendMsg && t.queue == s.queue
    && t.pending == s.pending
  }

  lemma NotInFlight(s: State, q: nat, d: nat)
    requires IpcInv(s) && q < s.cfg.n && d < s.cfg.n && Sending !in s.rts[q]
    ensures q !in s.queue[d]
  {
    assert ProcOk(s, d) && !SendsTo(s, q, d);
  }

  /** `t` is `s` with the message `m` put in p's inbox. */
  predicate PutThere(s: State, t: State, p: nat, m: Msg)
    requires Wf(s) && Wf(t) && p < s.cfg.n
  {
    t.cfg == s.cfg && t.inbox == s.inbox[p := m] && t.delivering == s.delivering[p := true] && t.sendMsg == s.sendMsg
  }

  lemma PutAccounted(s: State, t: State, c: nat, e: nat, body: int, q: nat, d: nat)
    requires IpcInv(s) && Wf(t) && c < s.cfg.n && e < s.cfg.n && q < s.cfg.n && d < s.cfg.n
    requires Sending !in s.rts[c] && !s.delivering[e] && PutThere(s, t, e, Sent(c, body))
    requires t.queue == s.queue && t.pending == s.pending
    ensures Accounted(s, t, if c == q && e == d then [body] else [], false, q, d)
  {
    NotInFlight(s, c, d);
  }

  lemma WaitingAccounted(s: State, t: State, c: nat, e: nat, body: int, q: nat, d: nat)
    requires IpcInv(s) && Wf(t) && c < s.cfg.n && e < s.cfg.n && q < s.cfg.n && d < s.cfg.n && Sending !in s.rts[c]
    requires t.cfg == s.cfg && t.inbox == s.inbox && t.delivering == s.delivering && t.pending == s.pending
    requires t.sendMsg == s.sendMsg[c := body] && t.queue == s.queue[e := s.queue[e] + [c]]
    ensures Accounted(s, t, if c == q && e == d then [body] else [], false, q, d)
  {
    NotInFlight(s, c, d);
  }

  lemma SendAccounted(s: State, c: nat, e: nat, body: int, mode: Mode, copyOk: bool, q: nat, d: nat)
    requires IpcInv(s) && c < s.cfg.n && e < s.cfg.n && q < s.cfg.n && d < s.cfg.n && Sending !in s.rts[c]
    ensures var o := Send(s, c, e, body, mode, copyOk);
      Accounted(s, o.st, if o.code == OK && c == q && e == d then [body] else [], false, q, d)
  {
    SendEffect(s, c, e, body, mode, copyOk);
    assert ProcOk(s, e);
    var o := Send(s, c, e, body, mode, copyOk);
    if o.code == OK {
      if WillReceive(s, e, c) {
        PutAccounted(s, o.st, c, e, body, q, d);
      } else {
        WaitingAccounted(s, o.st, c, e, body, q, d);
      }
    }
  }

  lemma TakenAccounted(s: State, t: State, c: nat, i: nat, q: nat, d: nat)
    requires IpcInv(s) && Wf(t) && c < s.cfg.n && q < s.cfg.n && d < s.cfg.n && !s.delivering[c]
    requires i < |s.queue[c]| && s.queue[c][i] < s.cfg.n
    requires PutThere(s, t, c, Sent(s.queue[c][i], s.sendMsg[s.queue[c][i]]))
    requires t.pending == s.pending && t.queue == s.queue[c := DropAt(s.queue[c], i)]
    ensures Accounted(s, t, [], false, q, d)
  {
    assert ProcOk(s, c);
    DropAtDistinct(s.queue[c], i);
  }

  lemma NoticeAccounted(s: State, t: State, c: nat, id: nat, q: nat, d: nat)
    requires Wf(s) && Wf(t) && c < s.cfg.n && q < s.cfg.n && d < s.cfg.n && !s.delivering[c]
    requires id in s.pending[c] && TookNotice(s, t, c, id)
    ensures Accounted(s, t, [], false, q, d)
  {
  }

  lemma ReceiveAccounted(s: State, c: nat, src: Endpoint, q: nat, d: nat)
    requires IpcInv(s) && c < s.cfg.n && q < s.cfg.n && d < s.cfg.n && !s.delivering[c]
    requires src == Any || (src.Ep? && src.slot < s.cfg.n)
    ensures Accounted(s, Receive(s, c, src).st, [], false, q, d)
  {
    assert ProcOk(s, c);
    ReceiveEffect(s, c, src);
    var t := Receive(s, c, src).st;
    if Dead(s, src) {
      SameMailAccounted(s, t, q, d);
    } else if Sending !in s.rts[c] && !NoNotice(s, c, src) {
      var id: nat :| NoticeFor(s.pending[c], src, id) && TookNotice(s, t, c, id);
      NoticeAccounted(s, t, c, id, q, d);
    } else if Sending !in s.rts[c] && !NoCaller(s.queue[c], src) {
      var i: nat :| FirstCaller(s.queue[c], src, i) && TookMessage(s, t, c, i);
      assert s.queue[c][i] in s.queue[c];
      TakenAccounted(s, t, c, i, q, d);
    } else {
      SameMailAccounted(s, t, q, d);
    }
  }

  lemma NotifyAccounted(s: State, c: nat, e: nat, q: nat, d: nat)
    requires IpcInv(s) && c < s.cfg.n && e < s.cfg.n && q < s.cfg.n && d < s.cfg.n
    ensures Accounted(s, Notify(s, c, e).st, [], c == q && e == d, q, d)
  {
    NotifyEffect(s, c, e);
    assert ProcOk(s, e);
  }

  // ---------------------------------------------------------------- calls

  lemma SameMailBefore(s: State, u: State, t: State, sent: seq<int>, made: bool, q: nat, d: nat)
    requires Wf(s) && Wf(u) && Wf(t) && q < s.cfg.n && d < s.cfg.n && t.cfg == s.cfg
    requires SameMail(s, u) && Accounted(u, t, sent, made, q, d)
    ensures Accounted(s, t, sent, made, q, d)
  {
  }

  lemma SameMailAfter(s: State, u: State, t: State, sent: seq<int>, made: bool, q: nat, d: nat)
    requires Wf(s) && Wf(u) && Wf(t) && q < s.cfg.n && d < s.cfg.n && u.cfg == s.cfg
    requires SameMail(u, t) && Accounted(s, u, sent, made, q, d)
    ensures Accounted(s, t, sent, made, q, d)
  {
  }

  lemma SameMailAccounted(s: State, t: State, q: nat, d: nat)
    requires Wf(s) && Wf(t) && q < s.cfg.n && d < s.cfg.n && SameMail(s, t)
    ensures Accounted(s, t, [], false, q, d)
  {
  }

  /** The receive half of a SENDREC whose send half succeeded always waits for the reply. */
  lemma ReceiveHalfWaits(s: State, c: nat, d: nat, body: int, copyOk: bool)
    requires Inv(s) && c < s.cfg.n && d < s.cfg.n && c != d && Live(s, Ep(d)) && s.rts[c] == {} && !s.delivering[c]
    requires s.replyPend[c] && Send(s, c, d, body, Blocking, copyOk).code == OK
    ensures var t := Send(s, c, d, body, Blocking, copyOk).st;
      LeftListening(t, Receive(t, c, Ep(d)).st, c, Ep(d)) && Receive(t, c, Ep(d)).code == OK && !t.delivering[c]
  {
    var t := Send(s, c, d, body, Blocking, copyOk).st;
    SendInv(s, c, d, body, Blocking, copyOk);
    SendHalf(s, c, d, body, copyOk);
    ReceiveHalfUnlocked(t, c, d);
    assert ProcOk(t, c);
    if Sending !in t.rts[c] {
      forall q | q in t.queue[c] ensures !Accepts(Ep(d), q) {
        assert SendsTo(t, q, c);
      }
    }
    ReceiveWaits(t, c, Ep(d));
  }

  /** What the two halves of a SENDREC have done together. */
  lemma BothHalves(u: State, c: nat, d: nat, body: int, copyOk: bool)
    requires Inv(u) && c < u.cfg.n && d < u.cfg.n && c != d && Live(u, Ep(d)) && u.rts[c] == {} && !u.delivering[c]
    requires u.replyPend[c] && Send(u, c, d, body, Blocking, copyOk).code == OK
    ensures var v := Send(u, c, d, body, Blocking, copyOk).st;
      var t := Receive(v, c, Ep(d)).st;
      && Receiving in t.rts[c] && t.getfrom[c] == Ep(d) && t.replyPend[c] && !t.delivering[c]
      && (if WillReceive(u, d, c) then t.inbox[d] == Sent(c, body) && t.delivering[d]
          else t.sendMsg[c] == body && t.queue[d] == u.queue[d] + [c] && Sending in t.rts[c])
  {
    ReceiveHalfWaits(u, c, d, body, copyOk);
    SendHalf(u, c, d, body, copyOk);
    var v := Send(u, c, d, body, Blocking, copyOk).st;
    SendEffect(u, c, d, body, Blocking, copyOk);
    if WillReceive(u, d, c) {
      assert v.inbox[d] == Sent(c, body) && v.delivering[d];
    } else {
      assert v.sendMsg[c] == body && v.queue[d] == u.queue[d] + [c] && Sending in v.rts[c];
    }
  }

  /** A SENDREC that is answered OK leaves the caller waiting for the reply, and for nothing before it: its message has
      been handed over, or it is last in the destination's queue with it. */
  lemma SendRecWaits(s: State, c: nat, e: Endpoint, body: int, copyOk: bool)
    requires Inv(s) && c < s.cfg.n && e != Ep(c) && s.rts[c] == {} && !s.delivering[c]
    requires DoSync(s, c, SENDREC, e, body, copyOk).code == OK
    ensures e.Ep? && e.slot < s.cfg.n
    ensures var t := DoSync(s, c, SENDREC, e, body, copyOk).st;
      && Receiving in t.rts[c] && t.getfrom[c] == e && t.replyPend[c] && !t.delivering[c]
      && (if WillReceive(s, e.slot, c) then t.inbox[e.slot] == Sent(c, body) && t.delivering[e.slot]
          else t.sendMsg[c] == body && t.queue[e.slot] == s.queue[e.slot] + [c] && Sending in t.rts[c])
  {
    assert Refusal(s, c, SENDREC, e) == OK;
    OkEndpointIsLive(s, e);
    ReplyPendInv(s, c, true);
    SendRecIs(s, c, e.slot, body, copyOk);
    BothHalves(SetReplyPend(s, c, true), c, e.slot, body, copyOk);
  }

  predicate Sends(call: Call) {
    call == SEND || call == SENDREC || call == SENDNB
  }

  lemma SendRecAccounted(s: State, c: nat, e: Endpoint, body: int, copyOk: bool, q: nat, d: nat)
    requires Inv(s) && c < s.cfg.n && s.rts[c] == {} && !s.delivering[c] && e != Ep(c) && q < s.cfg.n && d < s.cfg.n
    requires Refusal(s, c, SENDREC, e) == OK
    ensures var o := DoSync(s, c, SENDREC, e, body, copyOk);
      Accounted(s, o.st, if o.code == OK && c == q && e == Ep(d) then [body] else [], false, q, d)
  {
    var u := SetReplyPend(s, c, true);
    OkEndpointIsLive(s, e);
    ReplyPendInv(s, c, true);
    SendRecIs(s, c, e.slot, body, copyOk);
    var o := Send(u, c, e.slot, body, Blocking, copyOk);
    SendAccounted(u, c, e.slot, body, Blocking, copyOk, q, d);
    var sent := if o.code == OK && c == q && e == Ep(d) then [body] else [];
    SameMailBefore(s, u, o.st, sent, false, q, d);
    if o.code == OK {
      ReceiveHalfWaits(u, c, e.slot, body, copyOk);
      SameMailAfter(s, o.st, Receive(o.st, c, e).st, sent, false, q, d);
    }
  }

  lemma ReceiveCallAccounted(s: State, c: nat, e: Endpoint, body: int, copyOk: bool, q: nat, d: nat)
    requires Inv(s) && c < s.cfg.n && s.rts[c] == {} && !s.delivering[c] && q < s.cfg.n && d < s.cfg.n
    requires Refusal(s, c, RECEIVE, e) == OK
    ensures Accounted(s, DoSync(s, c, RECEIVE, e, body, copyOk).st, [], false, q, d)
  {
    var u := SetReplyPend(s, c, false);
    ReplyPendInv(s, c, false);
    ReceiveAccounted(u, c, e, q, d);
    SameMailBefore(s, u, Receive(u, c, e).st, [], false, q, d);
  }

  lemma NotifyCallAccounted(s: State, c: nat, e: Endpoint, body: int, copyOk: bool, q: nat, d: nat)
    requires Inv(s) && c < s.cfg.n && q < s.cfg.n && d < s.cfg.n && Refusal(s, c, NOTIFY, e) == OK
    ensures var o := DoSync(s, c, NOTIFY, e, body, copyOk);
      o.code == OK && Accounted(s, o.st, [], c == q && e == Ep(d), q, d)
  {
    NotifyAccounted(s, c, e.slot, q, d);
  }

  lemma SendCallAccounted(s: State, c: nat, call: Call, e: Endpoint, body: int, copyOk: bool, q: nat, d: nat)
    requires Inv(s) && c < s.cfg.n && s.rts[c] == {} && q < s.cfg.n && d < s.cfg.n
    requires (call == SEND || call == SENDNB) && Refusal(s, c, call, e) == OK
    ensures var o := DoSync(s, c, call, e, body, copyOk);
      Accounted(s, o.st, if o.code == OK && c == q && e == Ep(d) then [body] else [], false, q, d)
  {
    SendAccounted(s, c, e.slot, body, if call == SENDNB then NonBlocking else Blocking, copyOk, q, d);
  }

  lemma DoSyncAccounted(s: State, c: nat, call: Call, e: Endpoint, body: int, copyOk: bool, q: nat, d: nat)
    requires Inv(s) && c < s.cfg.n && s.rts[c] == {} && !s.delivering[c] && e != Ep(c) && q < s.cfg.n && d < s.cfg.n
    ensures var o := DoSync(s, c, call, e, body, copyOk);
      Accounted(s, o.st, if o.code == OK && c == q && e == Ep(d) && Sends(call) then [body] else [],
                o.code == OK && c == q && e == Ep(d) && call == NOTIFY, q, d)
  {
    if Refusal(s, c, call, e) != OK {
      SameMailAccounted(s, s, q, d);
    } else {
      match call
      case RECEIVE => ReceiveCallAccounted(s, c, e, body, copyOk, q, d);
      case NOTIFY => NotifyCallAccounted(s, c, e, body, copyOk, q, d);
      case SENDREC => SendRecAccounted(s, c, e, body, copyOk, q, d);
      case SENDNB => SendCallAccounted(s, c, call, e, body, copyOk, q, d);
      case SEND => SendCallAccounted(s, c, call, e, body, copyOk, q, d);
      case BADCALL => assert false;
    }
  }

  // ---------------------------------------------------------------- runs

  /** The message that an event makes `q` send to `d`: one of an accepted call, or the kernel's when q's quantum is
      used up. */
  ghost function SentNow(s: State, ev: Event, q: nat, d: nat): seq<int>
    requires Wf(s) && Enabled(s, ev)
  {
    match ev
    case Ipc(call, e, body, copyOk) =>
      if s.cur == q && e == Ep(d) && Sends(call) && DoSync(s, q, call, e, body, copyOk).code == OK then [body] else []
    case QuantumUsed(body) =>
      if s.cur == q && s.scheduler[q] == d && OutOfQuantum(s, q, body).code == OK then [body] else []
    case _ => []
  }

  ghost predicate NotifiesNow(s: State, ev: Event, q: nat, d: nat)
    requires Wf(s) && Enabled(s, ev)
  {
    ev.Ipc? && s.cur == q && ev.e == Ep(d) && ev.call == NOTIFY
    && DoSync(s, q, NOTIFY, ev.e, ev.body, ev.copyOk).code == OK
  }

  lemma QuantumAccounted(s: State, body: int, q: nat, d: nat)
    requires Inv(s) && Enabled(s, QuantumUsed(body)) && q < s.cfg.n && d < s.cfg.n
    ensures Accounted(s, Apply(s, QuantumUsed(body)), SentNow(s, QuantumUsed(body), q, d), false, q, d)
  {
    var u := RtsSet(s, s.cur, NoQuantum);
    RtsSetEffect(s, s.cur, NoQuantum);
    QuantumGone(s, s.cur);
    SendAccounted(u, s.cur, s.scheduler[s.cur], body, FromKernel, true, q, d);
    SameMailBefore(s, u, Apply(s, QuantumUsed(body)), SentNow(s, QuantumUsed(body), q, d), false, q, d);
  }

  lemma DeliveredAccounted(s: State, p: nat, q: nat, d: nat)
    requires Wf(s) && p < s.cfg.n && q < s.cfg.n && d < s.cfg.n
    ensures var t := s.(delivering := s.delivering[p := false]);
      && Balanced(s, t, [], q, d) && NoticesBalanced(s, t, false, q, d) && (p != d ==> Kept(s, t, d))
  {
  }

  lemma OthersSameMail(s: State, ev: Event)
    requires Inv(s) && Enabled(s, ev) && !ev.Ipc? && !ev.QuantumUsed? && !ev.Delivered?
    ensures SameMail(s, Apply(s, ev))
  {
    match ev
    case Schedule(p, priority, quantum) => SchedEffect(s, p, priority, quantum);
    case SetFlag(p, f) => RtsSetEffect(s, p, f);
    case ClearFlag(p, f) => RtsUnsetEffect(s, p, f);
    case SwitchToUser => RequeueEffect(s);
    case _ =>
  }

  /** Every event accounts for the messages and notifications from `q` to `d`; that a message has been copied to its
      receiver is an event of its own. */
  lemma StepAccounted(s: State, ev: Event, q: nat, d: nat)
    requires Inv(s) && Enabled(s, ev) && q < s.cfg.n && d < s.cfg.n
    ensures Balanced(s, Apply(s, ev), SentNow(s, ev, q, d), q, d)
    ensures NoticesBalanced(s, Apply(s, ev), NotifiesNow(s, ev, q, d), q, d)
    ensures ev != Delivered(d) ==> Kept(s, Apply(s, ev), d)
  {
    match ev
    case Ipc(call, e, body, copyOk) => DoSyncAccounted(s, s.cur, call, e, body, copyOk, q, d);
    case QuantumUsed(body) => QuantumAccounted(s, body, q, d);
    case Delivered(p) => DeliveredAccounted(s, p, q, d);
    case _ =>
      OthersSameMail(s, ev);
      SameMailAccounted(s, Apply(s, ev), q, d);
  }

  ghost function Next(s: State, ev: Event): (t: State)
    requires Wf(s)
    ensures Wf(t) && t.cfg == s.cfg
  {
    if Enabled(s, ev) then Apply(s, ev) else s
  }

  /** The messages that `q` sends to `d` during a run, in order. */
  ghost function AllSent(s: State, evs: seq<Event>, q: nat, d: nat): seq<int>
    requires Wf(s)
    decreases evs
  {
    if evs == [] then []
    else (if Enabled(s, evs[0]) then SentNow(s, evs[0], q, d) else []) + AllSent(Next(s, evs[0]), evs[1..], q, d)
  }

  /** The messages from `q` that `d` receives during a run, in order. */
  ghost function AllGot(s: State, evs: seq<Event>, q: nat, d: nat): seq<int>
    requires Wf(s) && d < s.cfg.n
    decreases evs
  {
    if evs == [] then [] else Got(s, Next(s, evs[0]), q, d) + AllGot(Next(s, evs[0]), evs[1..], q, d)
  }

  ghost predicate SomeNotified(s: State, evs: seq<Event>, q: nat, d: nat)
    requires Wf(s)
    decreases evs
  {
    evs != [] && ((Enabled(s, evs[0]) && NotifiesNow(s, evs[0], q, d)) || SomeNotified(Next(s, evs[0]), evs[1..], q, d))
  }

  ghost predicate SomeNoticeGot(s: State, evs: seq<Event>, q: nat, d: nat)
    requires Wf(s) && d < s.cfg.n
    decreases evs
  {
    evs != [] && (GotNotice(s, Next(s, evs[0]), q, d) || SomeNoticeGot(Next(s, evs[0]), evs[1..], q, d))
  }

  lemma NextInv(s: State, ev: Event)
    requires Inv(s)
    ensures Inv(Next(s, ev))
  {
    if Enabled(s, ev) {
      ApplyInv(s, ev);
    }
  }

  lemma NextAccounted(s: State, ev: Event, q: nat, d: nat)
    requires Inv(s) && q < s.cfg.n && d < s.cfg.n
    ensures Balanced(s, Next(s, ev), if Enabled(s, ev) then SentNow(s, ev, q, d) else [], q, d)
    ensures NoticesBalanced(s, Next(s, ev), Enabled(s, ev) && NotifiesNow(s, ev, q, d), q, d)
  {
    if Enabled(s, ev) {
      StepAccounted(s, ev, q, d);
    }
  }

  lemma Chained(before: seq<int>, sent: seq<int>, got: seq<int>, between: seq<int>, sents: seq<int>, gots: seq<int>,
                after: seq<int>)
    requires before + sent == got + between && between + sents == gots + after
    ensures before + (sent + sents) == (got + gots) + after
  {
    assert before + (sent + sents) == (before + sent) + sents == (got + between) + sents == got + (between + sents);
    assert got + (gots + after) == (got + gots) + after;
  }

  lemma {:induction false} RunBalanced(s: State, evs: seq<Event>, q: nat, d: nat)
    requires Inv(s) && q < s.cfg.n && d < s.cfg.n
    ensures InFlight(s, q, d) + AllSent(s, evs, q, d) == AllGot(s, evs, q, d) + InFlight(Run(s, evs), q, d)
    decreases evs
  {
    if evs != [] {
      var t := Next(s, evs[0]);
      NextInv(s, evs[0]);
      NextAccounted(s, evs[0], q, d);
      RunBalanced(t, evs[1..], q, d);
      var sent := if Enabled(s, evs[0]) then SentNow(s, evs[0], q, d) else [];
      Chained(InFlight(s, q, d), sent, Got(s, t, q, d), InFlight(t, q, d), AllSent(t, evs[1..], q, d),
              AllGot(t, evs[1..], q, d), InFlight(Run(s, evs), q, d));
    }
  }

  /** From boot on, between any two processes: the messages that the receiver has got are exactly those that were sent,
      each once and in order of sending, except that the last one may still be in flight. */
  lemma ReceivedAsSent(s: State, evs: seq<Event>, q: nat, d: nat)
    requires Boot(s) && q < s.cfg.n && d < s.cfg.n
    ensures AllSent(s, evs, q, d) == AllGot(s, evs, q, d) + InFlight(Run(s, evs), q, d)
    ensures |AllSent(s, evs, q, d)| - 1 <= |AllGot(s, evs, q, d)| <= |AllSent(s, evs, q, d)|
  {
    BootInv(s);
    assert Fresh(s, d);
    RunBalanced(s, evs, q, d);
    assert InFlight(s, q, d) + AllSent(s, evs, q, d) == AllSent(s, evs, q, d);
  }

  lemma {:induction false} RunNotices(s: State, evs: seq<Event>, q: nat, d: nat)
    requires Inv(s) && q < s.cfg.n && d < s.cfg.n
    ensures q in s.pending[d] || SomeNotified(s, evs, q, d) <==>
            q in Run(s, evs).pending[d] || SomeNoticeGot(s, evs, q, d)
    decreases evs
  {
    if evs != [] {
      NextInv(s, evs[0]);
      NextAccounted(s, evs[0], q, d);
      RunNotices(Next(s, evs[0]), evs[1..], q, d);
    }
  }

  /** A message that has been received is there, unchanged, until it has been copied to the receiver. */
  lemma {:induction false} KeptUntilDelivered(s: State, evs: seq<Event>, d: nat)
    requires Inv(s) && d < s.cfg.n && s.delivering[d] && Delivered(d) !in evs
    ensures Run(s, evs).delivering[d] && Run(s, evs).inbox[d] == s.inbox[d]
    decreases evs
  {
    if evs != [] {
      assert evs[0] != Delivered(d);
      NextInv(s, evs[0]);
      if Enabled(s, evs[0]) {
        StepAccounted(s, evs[0], d, d);
      }
      KeptUntilDelivered(Next(s, evs[0]), evs[1..], d);
    }
  }
}
