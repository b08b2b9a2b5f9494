/** What a send, a receive and a notification do to messages, queues and flags of all processes, stated on the states
    before and after. */
module MessageEffects {
  import opened Lists
  import opened WaitGraph
  import opened Rendezvous
  import opened RendezvousProofs
  import opened Effects

  /** `t` is `s` after `d`, which waited for it, has got c's message: the message is in d's inbox and flagged for
      delivery, `d` has stopped waiting, and nothing else about messages changes. */
  ghost predicate HandedOver(s: State, t: State, c: nat, d: nat, body: int)
    requires Wf(s) && Wf(t) && c < s.cfg.n && d < s.cfg.n
  {
    var u := s.(inbox := s.inbox[d := Sent(c, body)], delivering := s.delivering[d := true],
                replyPend := s.replyPend[d := false]);
    Released(u, t, d, Receiving)
  }

  /** `t` is `s` after `c` has blocked in its send: its message is kept, and it is last on d's caller queue. */
  ghost predicate LeftWaiting(s: State, t: State, c: nat, d: nat, body: int)
    requires Wf(s) && Wf(t) && c < s.cfg.n && d < s.cfg.n
  {
    var u := s.(sendMsg := s.sendMsg[c := body], sendto := s.sendto[c := Ep(d)],
                queue := s.queue[d := s.queue[d] + [c]]);
    Stopped(u, t, c, Sending)
  }

  lemma HandOverEffect(s: State, c: nat, d: nat, body: int)
    requires Wf(s) && c < s.cfg.n && d < s.cfg.n
    ensures HandedOver(s, HandOver(s, c, d, body), c, d, body)
  {
    RtsUnsetEffect(SetReplyPend(Put(s, d, Sent(c, body)), d, false), d, Receiving);
  }

  lemma BlockInSendEffect(s: State, c: nat, d: nat, body: int)
    requires Wf(s) && c < s.cfg.n && d < s.cfg.n
    ensures LeftWaiting(s, BlockInSend(s, c, d, body), c, d, body)
  {
    RtsSetEffect(s.(sendMsg := s.sendMsg[c := body]), c, Sending);
  }

  /** The outcome `o` of a send. When it is answered OK the message has either been handed to a destination that waits for
      it, or is left with the caller, last in the destination's queue. Any other answer leaves everything as it was; each
      has one cause. */
  ghost predicate SentRight(s: State, c: nat, d: nat, body: int, mode: Mode, copyOk: bool, o: Outcome)
    requires Wf(s) && Wf(o.st) && c < s.cfg.n && d < s.cfg.n
  {
    var waits, gone, readable := WillReceive(s, d, c), NoEndpoint in s.rts[d], mode == FromKernel || copyOk;
    && (o.code == OK && waits ==> HandedOver(s, o.st, c, d, body))
    && (o.code == OK && !waits ==> LeftWaiting(s, o.st, c, d, body))
    && (o.code != OK ==> o.st == s)
    && o.code in {OK, EDEADSRCDST, ENOTREADY, ELOCKED, EFAULT}
    && (o.code == EDEADSRCDST <==> gone)
    && (o.code == ENOTREADY <==> !gone && !waits && mode == NonBlocking)
    && (o.code == ELOCKED <==> !gone && !waits && mode != NonBlocking && Reaches(Waits(s), d, c))
    && (o.code == EFAULT <==> !gone && !readable && (waits || (mode != NonBlocking && !Reaches(Waits(s), d, c))))
  }

  lemma SendEffect(s: State, c: nat, d: nat, body: int, mode: Mode, copyOk: bool)
    requires Wf(s) && c < s.cfg.n && d < s.cfg.n
    ensures SentRight(s, c, d, body, mode, copyOk, Send(s, c, d, body, mode, copyOk))
  {
    HandOverEffect(s, c, d, body);
    BlockInSendEffect(s, c, d, body);
  }

  /** A process whose quantum is used up is stopped for that, whatever becomes of the message to its scheduler; when it is
      accepted, the scheduler has it, from that process, or the process is last in the scheduler's queue with it. */
  lemma OutOfQuantumEffect(s: State, p: nat, body: int)
    requires Wf(s) && p < s.cfg.n && 0 <= s.scheduler[p] < s.cfg.n && s.scheduler[p] != p && Sending !in s.rts[p]
    ensures var o, d := OutOfQuantum(s, p, body), s.scheduler[p];
      && NoQuantum in o.st.rts[p]
      && (o.code == OK && WillReceive(s, d, p) ==> o.st.inbox[d] == Sent(p, body) && o.st.delivering[d])
      && (o.code == OK && !WillReceive(s, d, p) ==> o.st.sendMsg[p] == body && o.st.queue[d] == s.queue[d] + [p])
  {
    var t := RtsSet(s, p, NoQuantum);
    RtsSetEffect(s, p, NoQuantum);
    SendEffect(t, p, s.scheduler[p], body, FromKernel, true);
    assert WillReceive(t, s.scheduler[p], p) == WillReceive(s, s.scheduler[p], p);
  }

  /** `t` is `s` after `c` has received the notification of `id`. */
  ghost predicate TookNotice(s: State, t: State, c: nat, id: nat)
    requires Wf(s) && Wf(t) && c < s.cfg.n
  {
    t == s.(pending := s.pending[c := s.pending[c] - {id}], inbox := s.inbox[c := Notified(id)],
            delivering := s.delivering[c := true], replyPend := s.replyPend[c := false])
  }

  /** `t` is `s` after `c` has received the message that the i-th process on its caller queue keeps: that process leaves
      the queue and has stopped sending, and nothing else about messages changes. */
  ghost predicate TookMessage(s: State, t: State, c: nat, i: nat)
    requires Wf(s) && Wf(t) && c < s.cfg.n && i < |s.queue[c]|
  {
    var q := s.queue[c][i];
    assert q in s.queue[c];
    var u := s.(inbox := s.inbox[c := Sent(q, s.sendMsg[q])], delivering := s.delivering[c := true],
                replyPend := s.replyPend[c := false], queue := s.queue[c := DropAt(s.queue[c], i)]);
    Wf(u) && Released(u, t, q, Sending)
  }

  /** `t` is `s` after `c` has blocked in a receive from `src`. */
  ghost predicate LeftListening(s: State, t: State, c: nat, src: Endpoint)
    requires Wf(s) && Wf(t) && c < s.cfg.n
  {
    var u := s.(getfrom := s.getfrom[c := src]);
    Stopped(u, t, c, Receiving)
  }

  /** The notification that a receive from `src` finds: the lowest one for ANY; for one source that source's, if no
      lower one of the same chunk is pending. */
  ghost predicate NoticeFor(pending: set<nat>, src: Endpoint, id: nat) {
    && id in pending && Accepts(src, id)
    && (src == Any ==> forall k :: k in pending ==> id <= k)
    && (src != Any ==> forall k :: k in pending && k < id ==> k / CHUNK_BITS != id / CHUNK_BITS)
  }

  lemma LowestIs(pending: set<nat>, id: nat)
    ensures LowestInChunk(pending, id) <==>
            id in pending && forall k :: k in pending && k < id ==> k / CHUNK_BITS != id / CHUNK_BITS
  {
    var chunk := id / CHUNK_BITS;
    LowBitIsLowest(pending, chunk, 0);
    var low := LowBit(pending, chunk, 0);
    if id in pending && low != id {
      assert low / CHUNK_BITS == chunk;
    }
    if LowestInChunk(pending, id) {
      forall k | k in pending && k < id ensures k / CHUNK_BITS != chunk {
        assert chunk * CHUNK_BITS <= k ==> k !in pending;
      }
    }
  }

  lemma NoticeIs(s: State, c: nat, src: Endpoint, id: nat)
    requires Wf(s) && c < s.cfg.n && BuffersOk(s, c) && (src == Any || (src.Ep? && src.slot < s.cfg.n))
    ensures NoticeFor(s.pending[c], src, id) <==> PickNotice(s, c, src) == id
  {
    var pending, chunks := s.pending[c], Chunks(s.cfg.n);
    if src == Any {
      var some := PickNotice(s, c, src);
      if id in pending {
        AnyTakesLowest(pending, 0, chunks, id);
      } else if some == id {
        PickedIsPending(pending, src, 0, chunks);
      }
    } else {
      SourceFoundIffLowest(pending, src.slot, 0, chunks);
      LowestIs(pending, src.slot);
    }
  }

  lemma {:induction false} PickedIsPending(pending: set<nat>, src: Endpoint, chunk: nat, chunks: nat)
    requires chunk <= chunks
    ensures var id := NotifyPick(pending, src, chunk, chunks);
      id >= 0 ==> id in pending
    decreases chunks - chunk
  {
    if chunk < chunks {
      LowBitIsLowest(pending, chunk, 0);
      PickedIsPending(pending, src, chunk + 1, chunks);
    }
  }

  /** The position of the first acceptable sender in a caller queue. */
  ghost predicate FirstCaller(queue: seq<nat>, src: Endpoint, i: nat) {
    i < |queue| && Accepts(src, queue[i]) && forall k :: 0 <= k < i ==> !Accepts(src, queue[k])
  }

  lemma FirstCallerIs(queue: seq<nat>, src: Endpoint, i: nat)
    ensures FirstCaller(queue, src, i) <==> i < |queue| && FirstFrom(queue, src) == i
  {
  }

  lemma TakeMessageEffect(s: State, c: nat, i: nat)
    requires Wf(s) && c < s.cfg.n && i < |s.queue[c]| && s.queue[c][i] < s.cfg.n
    ensures TookMessage(s, TakeMessage(s, c, i), c, i)
  {
    var q := s.queue[c][i];
    assert q in s.queue[c];
    RtsUnsetEffect(Put(s, c, Sent(q, s.sendMsg[q])), q, Sending);
  }

  lemma BlockInReceiveEffect(s: State, c: nat, src: Endpoint)
    requires Wf(s) && c < s.cfg.n
    ensures var o, cycle := BlockInReceive(s, c, src), src.Ep? && Reaches(Waits(s), src.slot, c);
      if cycle then o == Outcome(s, ELOCKED) else o.code == OK && LeftListening(s, o.st, c, src)
  {
    RtsSetEffect(s.(getfrom := s.getfrom[c := src]), c, Receiving);
  }

  ghost predicate NoNotice(s: State, c: nat, src: Endpoint)
    requires Wf(s) && c < s.cfg.n
  {
    s.replyPend[c] || forall id: nat :: !NoticeFor(s.pending[c], src, id)
  }

  lemma NoNoticeIs(s: State, c: nat, src: Endpoint)
    requires Wf(s) && c < s.cfg.n && BuffersOk(s, c) && (src == Any || (src.Ep? && src.slot < s.cfg.n))
    ensures NoNotice(s, c, src) <==> s.replyPend[c] || PickNotice(s, c, src) < 0
  {
    forall k: nat ensures NoticeFor(s.pending[c], src, k) <==> PickNotice(s, c, src) == k {
      NoticeIs(s, c, src, k);
    }
    var id := PickNotice(s, c, src);
    assert id >= 0 ==> NoticeFor(s.pending[c], src, id);
  }

  predicate NoCaller(queue: seq<nat>, src: Endpoint) {
    forall q :: q in queue ==> !Accepts(src, q)
  }

  lemma NoCallerIs(queue: seq<nat>, src: Endpoint)
    ensures NoCaller(queue, src) <==> FirstFrom(queue, src) == |queue|
  {
    var i := FirstFrom(queue, src);
    assert i < |queue| ==> queue[i] in queue;
  }

  ghost predicate Dead(s: State, src: Endpoint)
    requires Wf(s) && (src == Any || (src.Ep? && src.slot < s.cfg.n))
  {
    src.Ep? && NoEndpoint in s.rts[src.slot]
  }

  /** A receive takes a notification it may take before any message. */
  lemma ReceiveNotice(s: State, c: nat, src: Endpoint, id: nat)
    requires Wf(s) && c < s.cfg.n && BuffersOk(s, c) && (src == Any || (src.Ep? && src.slot < s.cfg.n))
    requires !Dead(s, src) && Sending !in s.rts[c] && !s.replyPend[c] && NoticeFor(s.pending[c], src, id)
    ensures Receive(s, c, src).code == OK && TookNotice(s, Receive(s, c, src).st, c, id)
  {
    NoticeIs(s, c, src, id);
  }

  /** A receive takes the message of the first acceptable caller in order of arrival. */
  lemma ReceiveMessage(s: State, c: nat, src: Endpoint, i: nat)
    requires Wf(s) && c < s.cfg.n && BuffersOk(s, c) && (src == Any || (src.Ep? && src.slot < s.cfg.n))
    requires !Dead(s, src) && Sending !in s.rts[c] && NoNotice(s, c, src) && FirstCaller(s.queue[c], src, i)
    ensures s.queue[c][i] < s.cfg.n && Receive(s, c, src).code == OK && TookMessage(s, Receive(s, c, src).st, c, i)
  {
    NoNoticeIs(s, c, src);
    FirstCallerIs(s.queue[c], src, i);
    assert s.queue[c][i] in s.queue[c];
    TakeMessageEffect(s, c, i);
  }

  /** A receive waits only when there is nothing to take, or the caller is still in its send, and not if that would close
      a cycle. */
  lemma ReceiveWaits(s: State, c: nat, src: Endpoint)
    requires Wf(s) && c < s.cfg.n && BuffersOk(s, c) && (src == Any || (src.Ep? && src.slot < s.cfg.n))
    requires !Dead(s, src) && (Sending in s.rts[c] || (NoNotice(s, c, src) && NoCaller(s.queue[c], src)))
    ensures var o, cycle := Receive(s, c, src), src.Ep? && Reaches(Waits(s), src.slot, c);
      if cycle then o == Outcome(s, ELOCKED) else o.code == OK && LeftListening(s, o.st, c, src)
  {
    NoNoticeIs(s, c, src);
    NoCallerIs(s.queue[c], src);
    BlockInReceiveEffect(s, c, src);
  }

  /** The outcome `o` of a receive, in each of its five cases. */
  ghost predicate ReceivedRight(s: State, c: nat, src: Endpoint, o: Outcome)
    requires Wf(s) && Wf(o.st) && c < s.cfg.n && (src == Any || (src.Ep? && src.slot < s.cfg.n))
  {
    if Dead(s, src) then o == Outcome(s, EDEADSRCDST)
    else if Sending !in s.rts[c] && !NoNotice(s, c, src) then
      o.code == OK && exists id: nat :: NoticeFor(s.pending[c], src, id) && TookNotice(s, o.st, c, id)
    else if Sending !in s.rts[c] && !NoCaller(s.queue[c], src) then
      o.code == OK && exists i: nat :: FirstCaller(s.queue[c], src, i) && TookMessage(s, o.st, c, i)
    else if src.Ep? && Reaches(Waits(s), src.slot, c) then o == Outcome(s, ELOCKED)
    else o.code == OK && LeftListening(s, o.st, c, src)
  }

  lemma ReceiveEffect(s: State, c: nat, src: Endpoint)
    requires Wf(s) && c < s.cfg.n && BuffersOk(s, c) && (src == Any || (src.Ep? && src.slot < s.cfg.n))
    ensures ReceivedRight(s, c, src, Receive(s, c, src))
  {
    if Dead(s, src) {
    } else if Sending !in s.rts[c] && !NoNotice(s, c, src) {
      var id: nat :| NoticeFor(s.pending[c], src, id);
      ReceiveNotice(s, c, src, id);
    } else if Sending !in s.rts[c] && !NoCaller(s.queue[c], src) {
      var i := FirstFrom(s.queue[c], src);
      NoCallerIs(s.queue[c], src);
      FirstCallerIs(s.queue[c], src, i);
      ReceiveMessage(s, c, src, i);
    } else {
      ReceiveWaits(s, c, src);
    }
  }

  /** The outcome `o` of a notification: it reaches a process that waits for it and for no reply, and stays pending
      otherwise. */
  ghost predicate NotifiedRight(s: State, c: nat, d: nat, o: Outcome)
    requires Wf(s) && Wf(o.st) && c < s.cfg.n && d < s.cfg.n
  {
    && o.code == OK
    && if WillReceive(s, d, c) && !s.replyPend[d]
       then Released(s.(inbox := s.inbox[d := Notified(c)], delivering := s.delivering[d := true]), o.st, d, Receiving)
       else o.st == s.(pending := s.pending[d := s.pending[d] + {c}])
  }

  lemma NotifyEffect(s: State, c: nat, d: nat)
    requires Wf(s) && c < s.cfg.n && d < s.cfg.n
    ensures NotifiedRight(s, c, d, Notify(s, c, d))
  {
    if WillReceive(s, d, c) && !s.replyPend[d] {
      RtsUnsetEffect(Put(s, d, Notified(c)), d, Receiving);
    }
  }

  /** The conditions for a call to be performed, and the cause of each refusal. */
  lemma RefusalCauses(s: State, c: nat, call: Call, e: Endpoint)
    requires Wf(s) && c < s.cfg.n
    ensures var code, sends := Refusal(s, c, call, e), call in {SEND, SENDREC, NOTIFY, SENDNB};
      && (code == OK <==>
          && call != BADCALL && call in s.cfg.traps[c]
          && (if e == Any then call == RECEIVE else OkEndpoint(s, e))
          && (sends ==> e.slot in s.cfg.mayTo[c])
          && (e.Ep? && e.slot < s.cfg.tasks ==> call == RECEIVE || call == SENDREC))
      && (code == EINVAL <==> sends && e == Any)
      && (code == EDEADSRCDST <==> call != BADCALL && e != Any && !OkEndpoint(s, e))
      && (code == ECALLDENIED <==> sends && OkEndpoint(s, e) && e.slot !in s.cfg.mayTo[c])
      && code in {OK, EINVAL, EDEADSRCDST, ECALLDENIED, ETRAPDENIED}
  {
  }

  /** The outcome `o` of a call to do_sync_ipc that is not refused. A SENDREC is marked as expecting a reply, sends, and if
      that succeeded receives; only then does its caller get more than the answer to the send. */
  ghost predicate CallDone(s: State, c: nat, call: Call, e: Endpoint, body: int, copyOk: bool, o: Outcome)
    requires Wf(s) && Wf(o.st) && c < s.cfg.n && Refusal(s, c, call, e) == OK
  {
    match call
    case SEND => SentRight(s, c, e.slot, body, Blocking, copyOk, o)
    case SENDNB => SentRight(s, c, e.slot, body, NonBlocking, copyOk, o)
    case NOTIFY => NotifiedRight(s, c, e.slot, o)
    case RECEIVE => ReceivedRight(s.(replyPend := s.replyPend[c := false]), c, e, o)
    case SENDREC =>
      exists u: Outcome :: Wf(u.st) && u.st.cfg == s.cfg
        && SentRight(s.(replyPend := s.replyPend[c := true]), c, e.slot, body, Blocking, copyOk, u)
        && if u.code != OK then o == u else ReceivedRight(u.st, c, e, o)
    case BADCALL => false
  }

  /** What a call does, whatever it is; a call that is refused does nothing. */
  lemma DoSyncEffect(s: State, c: nat, call: Call, e: Endpoint, body: int, copyOk: bool)
    requires IpcInv(s) && c < s.cfg.n && s.rts[c] == {} && !s.delivering[c] && e != Ep(c)
    ensures var o := DoSync(s, c, call, e, body, copyOk);
      if Refusal(s, c, call, e) == OK then CallDone(s, c, call, e, body, copyOk, o)
      else o == Outcome(s, Refusal(s, c, call, e))
  {
    if Refusal(s, c, call, e) == OK {
      match call
      case SEND => SendEffect(s, c, e.slot, body, Blocking, copyOk);
      case SENDNB => SendEffect(s, c, e.slot, body, NonBlocking, copyOk);
      case NOTIFY => NotifyEffect(s, c, e.slot);
      case RECEIVE =>
        assert ProcOk(s, c);
        ReceiveEffect(SetReplyPend(s, c, false), c, e);
      case SENDREC => SendRecEffect(s, c, e, body, copyOk);
      case BADCALL => assert false;
    }
  }

  lemma SendRecEffect(s: State, c: nat, e: Endpoint, body: int, copyOk: bool)
    requires IpcInv(s) && c < s.cfg.n && s.rts[c] == {} && !s.delivering[c] && e != Ep(c)
    requires Refusal(s, c, SENDREC, e) == OK
    ensures CallDone(s, c, SENDREC, e, body, copyOk, DoSync(s, c, SENDREC, e, body, copyOk))
  {
    var u := SetReplyPend(s, c, true);
    var o := Send(u, c, e.slot, body, Blocking, copyOk);
    OkEndpointIsLive(s, e);
    ReplyPendInv(s, c, true);
    SendEffect(u, c, e.slot, body, Blocking, copyOk);
    SendInv(u, c, e.slot, body, Blocking, copyOk);
    if o.code == OK {
      assert ProcOk(o.st, c);
      ReceiveEffect(o.st, c, e);
    }
  }
}
