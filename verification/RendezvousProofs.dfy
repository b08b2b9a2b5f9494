/** The invariant of message passing holds in every reachable state. */
module RendezvousProofs {
  import opened Lists
  import opened WaitGraph
  import opened Rendezvous

  predicate NotBlocked(s: State, c: nat)
    requires Wf(s) && c < s.cfg.n
  {
    Sending !in s.rts[c] && Receiving !in s.rts[c]
  }

  /** Two states that differ only in scheduling. */
  ghost predicate SameIpc(s: State, t: State)
    requires Wf(s) && Wf(t)
  {
    && t.cfg == s.cfg && t.sendto == s.sendto && t.getfrom == s.getfrom && t.queue == s.queue
    && t.replyPend == s.replyPend && t.delivering == s.delivering && t.pending == s.pending
    && (forall p, f :: 0 <= p < s.cfg.n && IpcFlag(f) ==> (f in t.rts[p] <==> f in s.rts[p]))
    && (forall p :: 0 <= p < s.cfg.n && SlotFree in s.rts[p] ==> t.rts[p] == s.rts[p])
    && SlotFree !in t.rts[t.cur]
  }

  lemma SameWaits(s: State, t: State)
    requires Wf(s) && Wf(t) && SameIpc(s, t)
    ensures Waits(t) == Waits(s)
  {
    forall p | 0 <= p < s.cfg.n ensures WaitsFor(t, p) == WaitsFor(s, p) {
      assert IpcFlag(Sending) && IpcFlag(Receiving);
    }
  }

  lemma SameIpcInv(s: State, t: State)
    requires IpcInv(s) && Wf(t) && SameIpc(s, t)
    ensures IpcInv(t)
  {
    assert IpcFlag(Sending) && IpcFlag(Receiving) && IpcFlag(SlotFree) && IpcFlag(NoEndpoint);
    SameWaits(s, t);
    forall p | 0 <= p < s.cfg.n ensures ProcOk(t, p) {
      assert ProcOk(s, p);
      assert forall q: nat :: SendsTo(t, q, p) == SendsTo(s, q, p);
    }
  }

  /** The flags message passing looks at after clearing flag `f` of process `p`. */
  ghost predicate Cleared(s: State, t: State, p: nat, f: Flag)
    requires Wf(s) && Wf(t)
  {
    && t.cfg == s.cfg && t.cur == s.cur
    && (forall q, g :: 0 <= q < s.cfg.n && IpcFlag(g) ==> (g in t.rts[q] <==> g in s.rts[q] && !(q == p && g == f)))
    && (forall q :: 0 <= q < s.cfg.n && SlotFree in s.rts[q] ==> t.rts[q] == s.rts[q])
  }

  lemma UnsetClears(s: State, p: nat, f: Flag)
    requires Wf(s) && p < s.cfg.n && SlotFree !in s.rts[s.cur] && SlotFree !in s.rts[p] && f != SlotFree
    ensures var t := RtsUnset(s, p, f);
      && Cleared(s, t, p, f)
      && t == s.(rts := t.rts, ready := t.ready)
  {
    assert !IpcFlag(Preempted);
  }

  /** `t` is `s` with `d` no longer waiting in its receive and d's own buffers changed. */
  ghost predicate Unblocked(s: State, t: State, d: nat)
    requires Wf(s) && Wf(t) && d < s.cfg.n
  {
    && Cleared(s, t, d, Receiving) && Sending !in s.rts[d]
    && t.sendto == s.sendto && t.getfrom == s.getfrom && t.queue == s.queue && t.pending == s.pending
    && forall p :: 0 <= p < s.cfg.n && p != d ==> t.replyPend[p] == s.replyPend[p] && t.delivering[p] == s.delivering[p]
  }

  lemma UnblockedWaits(s: State, b: State, d: nat)
    requires Wf(s) && Wf(b) && d < s.cfg.n && Unblocked(s, b, d) && Acyclic(Waits(s))
    ensures Acyclic(Waits(b))
  {
    assert IpcFlag(Sending) && IpcFlag(Receiving);
    forall p | 0 <= p < s.cfg.n ensures Waits(b)[p] == Waits(s)[p] || Waits(b)[p] == -1 {
      assert WaitsFor(b, p) == if p == d then -1 else WaitsFor(s, p);
    }
    DropEdges(Waits(s), Waits(b));
  }

  lemma UnblockedProc(s: State, b: State, d: nat, p: nat)
    requires Wf(s) && Wf(b) && d < s.cfg.n && p < s.cfg.n && Unblocked(s, b, d) && ProcOk(s, p)
    ensures ProcOk(b, p)
  {
    assert IpcFlag(Sending) && IpcFlag(Receiving) && IpcFlag(SlotFree) && IpcFlag(NoEndpoint);
    assert forall q: nat :: SendsTo(b, q, p) == SendsTo(s, q, p);
  }

  lemma UnblockedInv(s: State, t: State, d: nat)
    requires IpcInv(s) && Wf(t) && d < s.cfg.n && Unblocked(s, t, d)
    ensures IpcInv(t)
  {
    assert IpcFlag(SlotFree);
    UnblockedWaits(s, t, d);
    forall p | 0 <= p < s.cfg.n ensures ProcOk(t, p) {
      UnblockedProc(s, t, d, p);
    }
  }

  /** A destination that takes a message stops waiting. */
  lemma HandOverInv(s: State, c: nat, d: nat, body: int)
    requires IpcInv(s) && c < s.cfg.n && d < s.cfg.n && WillReceive(s, d, c)
    ensures IpcInv(HandOver(s, c, d, body))
  {
    assert ProcOk(s, d);
    UnsetClears(SetReplyPend(Put(s, d, Sent(c, body)), d, false), d, Receiving);
    UnblockedInv(s, HandOver(s, c, d, body), d);
  }

  /** `b` is `s` with `c` blocked sending to `d`. */
  ghost predicate Blocked(s: State, b: State, c: nat, d: nat)
    requires Wf(s) && Wf(b) && c < s.cfg.n && d < s.cfg.n
  {
    && b.cfg == s.cfg && b.getfrom == s.getfrom && b.pending == s.pending && b.cur == s.cur
    && b.replyPend == s.replyPend && b.delivering == s.delivering
    && b.rts == s.rts[c := s.rts[c] + {Sending}]
    && b.sendto == s.sendto[c := Ep(d)]
    && b.queue == s.queue[d := s.queue[d] + [c]]
  }

  lemma BlockedWaits(s: State, b: State, c: nat, d: nat)
    requires Wf(s) && Wf(b) && c < s.cfg.n && d < s.cfg.n && c != d && Blocked(s, b, c, d) && Acyclic(Waits(s))
    requires NotBlocked(s, c) && !Reaches(Waits(s), d, c)
    ensures Acyclic(Waits(b))
  {
    forall p | 0 <= p < s.cfg.n ensures Waits(b)[p] == Waits(s)[c := d][p] {
      assert WaitsFor(b, p) == if p == c then d else WaitsFor(s, p);
    }
    assert Waits(b) == Waits(s)[c := d];
    AddEdge(Waits(s), c, d);
  }

  lemma BlockedProc(s: State, b: State, c: nat, d: nat, p: nat)
    requires Wf(s) && Wf(b) && c < s.cfg.n && d < s.cfg.n && p < s.cfg.n && c != d
    requires Blocked(s, b, c, d) && ProcOk(s, p)
    requires Live(s, Ep(d)) && !WillReceive(s, d, c)
    requires NotBlocked(s, c) && SlotFree !in s.rts[c] && NoEndpoint !in s.rts[c]
    ensures ProcOk(b, p)
  {
    assert forall q: nat :: SendsTo(b, q, p) <==> SendsTo(s, q, p) || (q == c && p == d);
    if p == d {
      assert c !in s.queue[d];
      AppendDistinct(s.queue[d], c);
    }
  }

  /** A sender that blocks adds one edge, which closes no cycle, and one waiting caller, which its
      destination is not waiting for. */
  lemma BlockInSendInv(s: State, c: nat, d: nat, body: int)
    requires IpcInv(s) && c < s.cfg.n && d < s.cfg.n && c != d && Live(s, Ep(d)) && !WillReceive(s, d, c)
    requires NotBlocked(s, c) && SlotFree !in s.rts[c] && NoEndpoint !in s.rts[c]
    requires !Reaches(Waits(s), d, c)
    ensures IpcInv(BlockInSend(s, c, d, body))
  {
    var t := BlockInSend(s, c, d, body);
    BlockedWaits(s, t, c, d);
    forall p | 0 <= p < s.cfg.n ensures ProcOk(t, p) {
      BlockedProc(s, t, c, d, p);
    }
  }

  /** mini_send, called for a process that is not blocked. */
  lemma SendInv(s: State, c: nat, d: nat, body: int, mode: Mode, copyOk: bool)
    requires IpcInv(s) && c < s.cfg.n && d < s.cfg.n && c != d && Live(s, Ep(d))
    requires NotBlocked(s, c) && SlotFree !in s.rts[c] && NoEndpoint !in s.rts[c]
    ensures IpcInv(Send(s, c, d, body, mode, copyOk).st)
  {
    if NoEndpoint !in s.rts[d] {
      if WillReceive(s, d, c) {
        HandOverInv(s, c, d, body);
      } else if mode != NonBlocking && !Reaches(Waits(s), d, c) {
        BlockInSendInv(s, c, d, body);
      }
    }
  }

  /** `t` is `s` after `c` took the message of the i-th process on its caller queue. */
  ghost predicate Taken(s: State, t: State, c: nat, i: nat)
    requires Wf(s) && Wf(t) && c < s.cfg.n && i < |s.queue[c]|
  {
    && Cleared(s, t, s.queue[c][i], Sending)
    && t.sendto == s.sendto && t.getfrom == s.getfrom && t.pending == s.pending
    && t.queue == s.queue[c := DropAt(s.queue[c], i)]
    && forall p :: 0 <= p < s.cfg.n && p != c ==> t.replyPend[p] == s.replyPend[p] && t.delivering[p] == s.delivering[p]
  }

  lemma TakenWaits(s: State, t: State, c: nat, i: nat)
    requires Wf(s) && Wf(t) && c < s.cfg.n && i < |s.queue[c]| && Taken(s, t, c, i)
    requires Acyclic(Waits(s)) && s.queue[c][i] < s.cfg.n && TargetOk(s, s.queue[c][i])
    ensures Acyclic(Waits(t))
  {
    assert IpcFlag(Sending) && IpcFlag(Receiving);
    forall p | 0 <= p < s.cfg.n ensures Waits(t)[p] == Waits(s)[p] || Waits(t)[p] == -1 {
      assert WaitsFor(t, p) == WaitsFor(s, p) || WaitsFor(t, p) == -1;
    }
    DropEdges(Waits(s), Waits(t));
  }

  /** Also the sender, when it goes on to the receive half of a SENDREC, misses nothing: it waits for `c`,
      and `c` is on nobody's caller queue. */
  lemma TakenProc(s: State, t: State, c: nat, i: nat, p: nat)
    requires Wf(s) && Wf(t) && c < s.cfg.n && p < s.cfg.n && i < |s.queue[c]| && Taken(s, t, c, i)
    requires ProcOk(s, p) && ProcOk(s, c) && NotBlocked(s, c)
    ensures ProcOk(t, p)
  {
    assert IpcFlag(Sending) && IpcFlag(Receiving) && IpcFlag(SlotFree) && IpcFlag(NoEndpoint);
    var sender := s.queue[c][i];
    assert sender in s.queue[c] && SendsTo(s, sender, c);
    DropAtDistinct(s.queue[c], i);
    assert forall q: nat :: SendsTo(t, q, p) <==> SendsTo(s, q, p) && q != sender;
    assert !SendsTo(s, c, p);
    if p != c {
      assert sender !in s.queue[p] by { assert !SendsTo(s, sender, p); }
    }
  }

  lemma TakeMessageShape(s: State, c: nat, i: nat)
    requires IpcInv(s) && c < s.cfg.n && i < |s.queue[c]|
    ensures Taken(s, TakeMessage(s, c, i), c, i) && SendsTo(s, s.queue[c][i], c)
  {
    var sender := s.queue[c][i];
    assert ProcOk(s, c) && sender in s.queue[c] && SendsTo(s, sender, c);
    assert ProcOk(s, sender);
    UnsetClears(Put(s, c, Sent(sender, s.sendMsg[sender])), sender, Sending);
  }

  lemma TakeMessageInv(s: State, c: nat, i: nat)
    requires IpcInv(s) && c < s.cfg.n && i < |s.queue[c]| && NotBlocked(s, c)
    ensures IpcInv(TakeMessage(s, c, i))
  {
    TakeMessageShape(s, c, i);
    var t := TakeMessage(s, c, i);
    assert IpcFlag(SlotFree);
    assert ProcOk(s, s.queue[c][i]);
    TakenWaits(s, t, c, i);
    forall p | 0 <= p < s.cfg.n ensures ProcOk(t, p) {
      assert ProcOk(s, p) && ProcOk(s, c);
      TakenProc(s, t, c, i, p);
    }
  }

  lemma TakeNoticeInv(s: State, c: nat, id: nat)
    requires IpcInv(s) && c < s.cfg.n && NotBlocked(s, c)
    ensures IpcInv(TakeNotice(s, c, id))
  {
    var t := TakeNotice(s, c, id);
    SameRtsWaits(s, t);
    forall p | 0 <= p < s.cfg.n ensures ProcOk(t, p) {
      assert ProcOk(s, p);
      assert forall q: nat :: SendsTo(t, q, p) == SendsTo(s, q, p);
    }
  }

  lemma SameRtsWaits(s: State, t: State)
    requires Wf(s) && Wf(t) && t.cfg == s.cfg && t.rts == s.rts && t.sendto == s.sendto && t.getfrom == s.getfrom
    ensures Waits(t) == Waits(s)
  {
    forall p | 0 <= p < s.cfg.n ensures WaitsFor(t, p) == WaitsFor(s, p) {
    }
  }

  /** `t` is `s` with `c` blocked in a receive from `src`. */
  ghost predicate Listening(s: State, t: State, c: nat, src: Endpoint)
    requires Wf(s) && Wf(t) && c < s.cfg.n
  {
    && t.cfg == s.cfg && t.sendto == s.sendto && t.pending == s.pending && t.cur == s.cur && t.queue == s.queue
    && t.replyPend == s.replyPend && t.delivering == s.delivering
    && t.rts == s.rts[c := s.rts[c] + {Receiving}]
    && t.getfrom == s.getfrom[c := src]
  }

  lemma ListeningWaits(s: State, t: State, c: nat, src: Endpoint)
    requires Wf(s) && Wf(t) && c < s.cfg.n && Listening(s, t, c, src) && Acyclic(Waits(s))
    requires Receiving !in s.rts[c]
    requires src == Any || (src.Ep? && src.slot < s.cfg.n)
    ensures Sending in s.rts[c] || src == Any ==> Waits(t) == Waits(s)
    ensures Sending !in s.rts[c] && src.Ep? ==> Waits(t) == Waits(s)[c := src.slot]
    ensures Acyclic(Waits(t)) <==>
      Sending in s.rts[c] || src == Any || (src.slot != c && !Reaches(Waits(s), src.slot, c))
  {
    var adds := Sending !in s.rts[c] && src.Ep?;
    var g := if adds then Waits(s)[c := src.slot] else Waits(s);
    forall p | 0 <= p < s.cfg.n ensures Waits(t)[p] == g[p] {
      assert WaitsFor(t, p) == if p == c && adds then src.slot else WaitsFor(s, p);
    }
    assert Waits(t) == g;
    if adds {
      AddEdge(Waits(s), c, src.slot);
    }
  }

  lemma ListeningProc(s: State, t: State, c: nat, src: Endpoint, p: nat)
    requires Wf(s) && Wf(t) && c < s.cfg.n && p < s.cfg.n && Listening(s, t, c, src) && ProcOk(s, p)
    requires SlotFree !in s.rts[c] && !s.delivering[c] && (src == Any || Live(s, src))
    requires Sending in s.rts[c] ==> src == s.sendto[c] && s.replyPend[c]
    requires Sending !in s.rts[c] ==> forall q :: q in s.queue[c] ==> !Accepts(src, q)
    requires Sending !in s.rts[c] && src == Any && !s.replyPend[c] ==> s.pending[c] == {}
    ensures ProcOk(t, p)
  {
    assert forall q: nat :: SendsTo(t, q, p) == SendsTo(s, q, p);
  }

  lemma BlockInReceiveInv(s: State, c: nat, src: Endpoint)
    requires IpcInv(s) && c < s.cfg.n && Receiving !in s.rts[c] && SlotFree !in s.rts[c] && !s.delivering[c]
    requires src == Any || (Live(s, src) && src.slot != c)
    requires Sending in s.rts[c] ==> src == s.sendto[c] && s.replyPend[c]
    requires Sending !in s.rts[c] ==> forall q :: q in s.queue[c] ==> !Accepts(src, q)
    requires Sending !in s.rts[c] && src == Any && !s.replyPend[c] ==> s.pending[c] == {}
    ensures IpcInv(BlockInReceive(s, c, src).st)
  {
    if src == Any || !Reaches(Waits(s), src.slot, c) {
      var t := BlockInReceive(s, c, src).st;
      assert Listening(s, t, c, src);
      ListeningWaits(s, t, c, src);
      forall p | 0 <= p < s.cfg.n ensures ProcOk(t, p) {
        assert ProcOk(s, p);
        ListeningProc(s, t, c, src, p);
      }
    }
  }

  /** mini_receive, called for a process that is not blocked, or blocked in the send half of its SENDREC. */
  lemma ReceiveInv(s: State, c: nat, src: Endpoint)
    requires IpcInv(s) && c < s.cfg.n && Receiving !in s.rts[c] && SlotFree !in s.rts[c] && !s.delivering[c]
    requires src == Any || (Live(s, src) && src.slot != c)
    requires Sending in s.rts[c] ==> src == s.sendto[c] && s.replyPend[c]
    ensures IpcInv(Receive(s, c, src).st)
  {
    assert ProcOk(s, c);
    if src.Ep? && NoEndpoint in s.rts[src.slot] {
    } else if Sending in s.rts[c] {
      BlockInReceiveInv(s, c, src);
    } else if !s.replyPend[c] && PickNotice(s, c, src) >= 0 {
      TakeNoticeInv(s, c, PickNotice(s, c, src));
    } else if FirstFrom(s.queue[c], src) < |s.queue[c]| {
      TakeMessageInv(s, c, FirstFrom(s.queue[c], src));
    } else {
      if src == Any && !s.replyPend[c] && s.pending[c] != {} {
        var id :| id in s.pending[c];
        AnyTakesLowest(s.pending[c], 0, Chunks(s.cfg.n), id);
      }
      BlockInReceiveInv(s, c, src);
    }
  }

  lemma NotifyInv(s: State, c: nat, d: nat)
    requires IpcInv(s) && c < s.cfg.n && d < s.cfg.n
    ensures IpcInv(Notify(s, c, d).st)
  {
    assert ProcOk(s, d);
    var t := Notify(s, c, d).st;
    if WillReceive(s, d, c) && !s.replyPend[d] {
      UnsetClears(Put(s, d, Notified(c)), d, Receiving);
      UnblockedInv(s, t, d);
    } else {
      SameRtsWaits(s, t);
      forall p | 0 <= p < s.cfg.n ensures ProcOk(t, p) {
        assert ProcOk(s, p);
        assert forall q: nat :: SendsTo(t, q, p) == SendsTo(s, q, p);
      }
    }
  }

  // ---------------------------------------------------------------- pending notifications

  lemma {:induction false} LowBitIsLowest(pending: set<nat>, chunk: nat, i: nat)
    requires i <= CHUNK_BITS
    ensures var id := LowBit(pending, chunk, i);
      && (id != -1 ==> id in pending && chunk * CHUNK_BITS + i <= id < (chunk + 1) * CHUNK_BITS)
      && forall k :: chunk * CHUNK_BITS + i <= k < (if id == -1 then (chunk + 1) * CHUNK_BITS else id) ==> k !in pending
    decreases CHUNK_BITS - i
  {
    if i < CHUNK_BITS && chunk * CHUNK_BITS + i !in pending {
      LowBitIsLowest(pending, chunk, i + 1);
    }
  }

  /** A receive from ANY takes the lowest pending notification, if there is one. */
  lemma {:induction false} AnyTakesLowest(pending: set<nat>, chunk: nat, chunks: nat, some: nat)
    requires chunk <= chunks && some in pending && chunk * CHUNK_BITS <= some < chunks * CHUNK_BITS
    ensures var id := NotifyPick(pending, Any, chunk, chunks);
      0 <= id <= some && id in pending && forall k :: chunk * CHUNK_BITS <= k < id ==> k !in pending
    decreases chunks - chunk
  {
    LowBitIsLowest(pending, chunk, 0);
    var id := LowBit(pending, chunk, 0);
    if id == -1 {
      AnyTakesLowest(pending, chunk + 1, chunks, some);
    }
  }

  /** The lowest pending notification of its chunk. */
  predicate LowestInChunk(pending: set<nat>, id: nat) {
    id in pending && LowBit(pending, id / CHUNK_BITS, 0) == id
  }

  /** A receive from one source finds that source's pending notification exactly when it is the lowest of its
      chunk: a lower one in the same chunk hides it. */
  lemma {:induction false} SourceFoundIffLowest(pending: set<nat>, source: nat, chunk: nat, chunks: nat)
    requires chunk <= chunks && chunk * CHUNK_BITS <= source < chunks * CHUNK_BITS
    ensures NotifyPick(pending, Ep(source), chunk, chunks) == (if LowestInChunk(pending, source) then source else -1)
    decreases chunks - chunk
  {
    LowBitIsLowest(pending, chunk, 0);
    var id := LowBit(pending, chunk, 0);
    assert NotifyPick(pending, Ep(source), chunk, chunks) ==
      if id == source then id else NotifyPick(pending, Ep(source), chunk + 1, chunks);
    if source < (chunk + 1) * CHUNK_BITS {
      assert source / CHUNK_BITS == chunk;
      assert LowestInChunk(pending, source) <==> id == source;
      NoneAfter(pending, source, chunk + 1, chunks);
    } else {
      SourceFoundIffLowest(pending, source, chunk + 1, chunks);
    }
  }

  lemma {:induction false} NoneAfter(pending: set<nat>, source: nat, chunk: nat, chunks: nat)
    requires chunk <= chunks && source < chunk * CHUNK_BITS
    ensures NotifyPick(pending, Ep(source), chunk, chunks) == -1
    decreases chunks - chunk
  {
    if chunk < chunks {
      LowBitIsLowest(pending, chunk, 0);
      NoneAfter(pending, source, chunk + 1, chunks);
    }
  }

  /** Process 1 has notified, but its notification is not found while that of process 0 is pending. */
  lemma HiddenNotification()
    ensures NotifyPick({0, 1}, Ep(1), 0, 1) == -1
  {
    SourceFoundIffLowest({0, 1}, 1, 0, 1);
    assert LowBit({0, 1}, 0, 0) == 0;
  }

  // ---------------------------------------------------------------- the kernel's steps

  /** An endpoint that isokendpt accepts names a process that is alive. */
  lemma OkEndpointIsLive(s: State, e: Endpoint)
    requires IpcInv(s) && OkEndpoint(s, e)
    ensures Live(s, e)
  {
    assert ProcOk(s, e.slot);
  }

  /** Setting or clearing MF_REPLY_PEND of a process that is not blocked. */
  lemma ReplyPendInv(s: State, c: nat, b: bool)
    requires IpcInv(s) && c < s.cfg.n && NotBlocked(s, c)
    ensures IpcInv(SetReplyPend(s, c, b))
  {
    var t := SetReplyPend(s, c, b);
    SameRtsWaits(s, t);
    forall p | 0 <= p < s.cfg.n ensures ProcOk(t, p) {
      assert ProcOk(s, p);
      assert forall q: nat :: SendsTo(t, q, p) == SendsTo(s, q, p);
    }
  }

  /** The send half of a SENDREC leaves the caller unblocked, or blocked sending, and the destination live. */
  lemma SendHalf(s: State, c: nat, d: nat, body: int, copyOk: bool)
    requires IpcInv(s) && c < s.cfg.n && d < s.cfg.n && c != d && Live(s, Ep(d)) && NotBlocked(s, c)
    requires SlotFree !in s.rts[c] && !s.delivering[c] && s.replyPend[c]
    requires Send(s, c, d, body, Blocking, copyOk).code == OK
    ensures var t := Send(s, c, d, body, Blocking, copyOk).st;
      && Receiving !in t.rts[c] && SlotFree !in t.rts[c] && !t.delivering[c] && Live(t, Ep(d)) && t.replyPend[c]
      && (Sending in t.rts[c] ==> t.sendto[c] == Ep(d))
      && NoEndpoint !in t.rts[d]
      && (Sending !in t.rts[c] ==> WillReceive(s, d, c) && NotBlocked(t, d))
  {
    if WillReceive(s, d, c) {
      UnsetClears(SetReplyPend(Put(s, d, Sent(c, body)), d, false), d, Receiving) by { assert ProcOk(s, d); }
      assert IpcFlag(Sending) && IpcFlag(Receiving) && IpcFlag(SlotFree) && IpcFlag(NoEndpoint);
    }
  }
}
