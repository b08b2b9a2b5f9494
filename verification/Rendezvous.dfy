/**
 The kernel's rendezvous message passing and its ready queues, as a state machine on values: one function
 for each kernel operation, taken branch by branch from kernel/proc.c, and the invariant of all reachable
 states. The class Kernel works on links and refines these functions; module RendezvousProofs proves the
 invariant.
 */
module Rendezvous {
  import opened Lists
  import opened WaitGraph

  /** The bits of p_rts_flags. A process is runnable iff it has none. */
  datatype Flag =
    | SlotFree | ProcStop | Sending | Receiving | Signaled | SigPending | PStop | NoPriv | NoEndpoint
    | VmInhibit | PageFault | VmRequest | VmReqTarget | Preempted | NoQuantum

  /** An endpoint as the callers pass it: ANY, NONE or one that names a process slot. */
  datatype Endpoint = Any | Nobody | Ep(slot: nat)

  datatype Msg = NoMsg | Sent(source: nat, body: int) | Notified(source: nat)

  datatype Call = SEND | RECEIVE | SENDREC | NOTIFY | SENDNB | BADCALL

  /** How mini_send is asked to send: normally, without blocking, or by the kernel on a process's behalf. */
  datatype Mode = Blocking | NonBlocking | FromKernel

  datatype Code = OK | EDEADSRCDST | ENOTREADY | ELOCKED | EFAULT | EINVAL | ECALLDENIED | ETRAPDENIED

  const CHUNK_BITS: nat := 32

  /** What does not change while the system runs. `mayTo` is the send mask s_ipc_to, `traps` the trap mask. */
  datatype Config = Config(n: nat, tasks: nat, idle: nat, queues: nat,
                           preemptible: seq<bool>, mayTo: seq<set<nat>>, traps: seq<set<Call>>)

  /** The process table, field by field. `queue[q]` holds the processes on q's p_caller_q, in order;
      `ready[k]` the processes on scheduling queue k; `scheduler[p]` is p_scheduler, -1 for NULL. */
  datatype State = State(
    cfg: Config,
    rts: seq<set<Flag>>, sendto: seq<Endpoint>, getfrom: seq<Endpoint>, queue: seq<seq<nat>>,
    replyPend: seq<bool>, delivering: seq<bool>, sendMsg: seq<int>, inbox: seq<Msg>, pending: seq<set<nat>>,
    prio: seq<nat>, cpuLeft: seq<nat>, scheduler: seq<int>, ready: seq<seq<nat>>, cur: nat)

  datatype Outcome = Outcome(st: State, code: Code)

  predicate ConfigOk(cfg: Config) {
    && 2 <= cfg.n && cfg.idle < cfg.n && cfg.tasks <= cfg.n
    && |cfg.preemptible| == |cfg.mayTo| == |cfg.traps| == cfg.n
    // a process is never allowed to send to itself (set_sendto_bit)
    && forall p :: 0 <= p < cfg.n ==> p !in cfg.mayTo[p]
  }

  predicate AllBelow(s: seq<nat>, bound: nat) {
    forall p :: 0 <= p < |s| ==> s[p] < bound
  }

  predicate SlotsOrNull(s: seq<int>, n: nat) {
    forall p :: 0 <= p < |s| ==> -1 <= s[p] < n
  }

  predicate ListsBelow(lists: seq<seq<nat>>, n: nat) {
    forall k, p: nat :: 0 <= k < |lists| && p in lists[k] ==> p < n
  }

  /** The tables have the right sizes and hold process slots and priorities. */
  predicate Wf(s: State) {
    var n := s.cfg.n;
    && ConfigOk(s.cfg) && s.cur < n
    && |s.rts| == |s.sendto| == |s.getfrom| == |s.queue| == n
    && |s.replyPend| == |s.delivering| == |s.sendMsg| == |s.inbox| == |s.pending| == n
    && |s.prio| == |s.cpuLeft| == |s.scheduler| == n
    && |s.ready| == s.cfg.queues
    && AllBelow(s.prio, s.cfg.queues) && SlotsOrNull(s.scheduler, n)
    && ListsBelow(s.queue, n) && ListsBelow(s.ready, n)
  }

  /** The flags that are about message passing and about whether there is a process at all. */
  predicate IpcFlag(f: Flag) {
    f in {SlotFree, NoEndpoint, Sending, Receiving}
  }

  predicate Runnable(s: State, p: nat)
    requires p < |s.rts|
  {
    s.rts[p] == {}
  }

  // ---------------------------------------------------------------- scheduling queues

  /** RTS_SET: set a flag and take the process off its queue if that makes it stop being runnable. */
  function RtsSet(s: State, p: nat, f: Flag): (t: State)
    requires Wf(s) && p < s.cfg.n
    ensures Wf(t) && t.cfg == s.cfg && t.cur == s.cur
  {
    var t := s.(rts := s.rts[p := s.rts[p] + {f}]);
    if Runnable(s, p) then t.(ready := t.ready[s.prio[p] := Remove(s.ready[s.prio[p]], p)]) else t
  }

  /** enqueue: append to the queue of the process's priority, and preempt a less urgent current process. */
  function Enqueue(s: State, p: nat): (t: State)
    requires Wf(s) && p < s.cfg.n
    ensures Wf(t) && t.cfg == s.cfg && t.cur == s.cur
  {
    var t := s.(ready := s.ready[s.prio[p] := s.ready[s.prio[p]] + [p]]);
    if s.prio[s.cur] > s.prio[p] && s.cfg.preemptible[s.cur] then RtsSet(t, s.cur, Preempted) else t
  }

  function EnqueueHead(s: State, p: nat): (t: State)
    requires Wf(s) && p < s.cfg.n
    ensures Wf(t) && t.cfg == s.cfg && t.cur == s.cur
  {
    s.(ready := s.ready[s.prio[p] := [p] + s.ready[s.prio[p]]])
  }

  /** RTS_UNSET: clear a flag and enqueue the process if it becomes runnable. */
  function RtsUnset(s: State, p: nat, f: Flag): (t: State)
    requires Wf(s) && p < s.cfg.n
    ensures Wf(t) && t.cfg == s.cfg && t.cur == s.cur
  {
    var t := s.(rts := s.rts[p := s.rts[p] - {f}]);
    if !Runnable(s, p) && Runnable(t, p) then Enqueue(t, p) else t
  }

  /** pick_proc: the head of the first nonempty queue from `q` on, -1 if there is none. */
  function Pick(s: State, q: nat): (p: int)
    requires Wf(s) && q <= |s.ready|
    ensures -1 <= p < s.cfg.n
    decreases |s.ready| - q
  {
    if q == |s.ready| then -1
    else if s.ready[q] != [] then assert s.ready[q][0] in s.ready[q]; s.ready[q][0]
    else Pick(s, q + 1)
  }

  /** The ranges that sched_proc checks. */
  predicate Accepted(s: State, priority: nat, quantum: nat) {
    priority <= s.cfg.queues && quantum > 0
  }

  /** sched_proc, for a priority that names an existing queue or is rejected. */
  function SchedProc(s: State, p: nat, priority: nat, quantum: nat): (o: Outcome)
    requires Wf(s) && p < s.cfg.n && priority != s.cfg.queues
    ensures Wf(o.st) && o.st.cfg == s.cfg && o.st.cur == s.cur
  {
    if !Accepted(s, priority, quantum) then Outcome(s, EINVAL)
    else
      var t := if Runnable(s, p) then RtsSet(s, p, NoQuantum) else s;
      var u := t.(prio := t.prio[p := priority], cpuLeft := t.cpuLeft[p := quantum]);
      Outcome(RtsUnset(u, p, NoQuantum), OK)
  }

  /** The part of switch_to_user that puts a preempted process back. */
  function Requeue(s: State): (t: State)
    requires Wf(s)
    ensures Wf(t) && t.cfg == s.cfg && t.cur == s.cur
  {
    var p := s.cur;
    if Preempted !in s.rts[p] then s
    else
      var t := s.(rts := s.rts[p := s.rts[p] - {Preempted}]);
      if !Runnable(t, p) then t
      else if t.cpuLeft[p] != 0 then EnqueueHead(t, p)
      else Enqueue(t, p)
  }

  /** switch_to_user up to the point where the next process is known; IDLE stands in when none is ready. */
  function Switch(s: State): (t: State)
    requires Wf(s)
    ensures Wf(t) && t.cfg == s.cfg
  {
    if Runnable(s, s.cur) then s
    else
      var t := Requeue(s);
      var next := Pick(t, 0);
      t.(cur := if next != -1 then next else s.cfg.idle)
  }

  // ---------------------------------------------------------------- message passing

  /** P_BLOCKEDON. */
  function BlockedOn(s: State, p: nat): Endpoint
    requires Wf(s) && p < s.cfg.n
  {
    if Sending in s.rts[p] then s.sendto[p]
    else if Receiving in s.rts[p] then s.getfrom[p]
    else Nobody
  }

  /** The process p is blocked on, -1 when it is not blocked or waits for anyone. */
  function WaitsFor(s: State, p: nat): int
    requires Wf(s) && p < s.cfg.n
  {
    match BlockedOn(s, p)
    case Ep(q) => q
    case _ => -1
  }

  function Waits(s: State): (g: Graph)
    requires Wf(s)
    ensures |g| == s.cfg.n
    ensures forall p :: 0 <= p < s.cfg.n ==> g[p] == WaitsFor(s, p)
  {
    seq(s.cfg.n, p requires 0 <= p < s.cfg.n => WaitsFor(s, p))
  }

  predicate Accepts(e: Endpoint, source: nat) {
    e == Any || e == Ep(source)
  }

  /** WILLRECEIVE: blocked in a receive, not in a send, for which the source is acceptable. */
  predicate WillReceive(s: State, target: nat, source: nat)
    requires Wf(s) && target < s.cfg.n
  {
    Receiving in s.rts[target] && Sending !in s.rts[target] && Accepts(s.getfrom[target], source)
  }

  /** isokendpt. */
  predicate OkEndpoint(s: State, e: Endpoint)
    requires Wf(s)
  {
    e.Ep? && e.slot < s.cfg.n && s.rts[e.slot] != {SlotFree}
  }

  /** A message is put where the process will find it before it runs on (MF_DELIVERMSG). */
  function Put(s: State, p: nat, m: Msg): (t: State)
    requires Wf(s) && p < s.cfg.n
    ensures Wf(t) && t.cfg == s.cfg && t.cur == s.cur
  {
    s.(inbox := s.inbox[p := m], delivering := s.delivering[p := true])
  }

  /** MF_REPLY_PEND. */
  function SetReplyPend(s: State, p: nat, b: bool): (t: State)
    requires Wf(s) && p < s.cfg.n
    ensures Wf(t) && t.cfg == s.cfg && t.cur == s.cur
  {
    s.(replyPend := s.replyPend[p := b])
  }

  /** mini_send hands the message to a destination that waits for it, and unblocks the destination. */
  function HandOver(s: State, c: nat, d: nat, body: int): (t: State)
    requires Wf(s) && c < s.cfg.n && d < s.cfg.n
    ensures Wf(t) && t.cfg == s.cfg && t.cur == s.cur
  {
    RtsUnset(SetReplyPend(Put(s, d, Sent(c, body)), d, false), d, Receiving)
  }

  /** mini_send blocks the caller and puts it at the end of the destination's caller queue. */
  function BlockInSend(s: State, c: nat, d: nat, body: int): (t: State)
    requires Wf(s) && c < s.cfg.n && d < s.cfg.n
    ensures Wf(t) && t.cfg == s.cfg && t.cur == s.cur
  {
    var t := RtsSet(s.(sendMsg := s.sendMsg[c := body]), c, Sending);
    t.(sendto := t.sendto[c := Ep(d)], queue := t.queue[d := t.queue[d] + [c]])
  }

  /** mini_send. Whether the message can be copied from the caller's memory is `copyOk`. */
  ghost function Send(s: State, c: nat, d: nat, body: int, mode: Mode, copyOk: bool): (o: Outcome)
    requires Wf(s) && c < s.cfg.n && d < s.cfg.n
    ensures Wf(o.st) && o.st.cfg == s.cfg && o.st.cur == s.cur
  {
    if NoEndpoint in s.rts[d] then Outcome(s, EDEADSRCDST)
    else if WillReceive(s, d, c) then
      if mode != FromKernel && !copyOk then Outcome(s, EFAULT) else Outcome(HandOver(s, c, d, body), OK)
    else if mode == NonBlocking then Outcome(s, ENOTREADY)
    else if Reaches(Waits(s), d, c) then Outcome(s, ELOCKED)
    else if mode != FromKernel && !copyOk then Outcome(s, EFAULT)
    else Outcome(BlockInSend(s, c, d, body), OK)
  }

  /** The lowest pending bit of one chunk, from bit `i` on; -1 if the rest of the chunk is zero. */
  function LowBit(pending: set<nat>, chunk: nat, i: nat): (id: int)
    requires i <= CHUNK_BITS
    decreases CHUNK_BITS - i
  {
    if i == CHUNK_BITS then -1
    else if chunk * CHUNK_BITS + i in pending then chunk * CHUNK_BITS + i
    else LowBit(pending, chunk, i + 1)
  }

  /** The scan for a pending notification: it looks at the lowest bit of each chunk only; -1 if none is taken. */
  function NotifyPick(pending: set<nat>, src: Endpoint, chunk: nat, chunks: nat): int
    requires chunk <= chunks
    decreases chunks - chunk
  {
    if chunk == chunks then -1
    else
      var id := LowBit(pending, chunk, 0);
      if 0 <= id && Accepts(src, id) then id else NotifyPick(pending, src, chunk + 1, chunks)
  }

  function Chunks(n: nat): nat {
    (n + CHUNK_BITS - 1) / CHUNK_BITS
  }

  function PickNotice(s: State, c: nat, src: Endpoint): int
    requires Wf(s) && c < s.cfg.n
  {
    NotifyPick(s.pending[c], src, 0, Chunks(s.cfg.n))
  }

  /** The position of the first acceptable sender in a caller queue, its length if there is none. */
  function FirstFrom(queue: seq<nat>, src: Endpoint): (i: nat)
    ensures i <= |queue|
    ensures i < |queue| ==> Accepts(src, queue[i])
    ensures forall k :: 0 <= k < i ==> !Accepts(src, queue[k])
  {
    if queue == [] then 0
    else if Accepts(src, queue[0]) then 0
    else 1 + FirstFrom(queue[1..], src)
  }

  /** mini_receive takes a pending notification. */
  function TakeNotice(s: State, c: nat, id: nat): (t: State)
    requires Wf(s) && c < s.cfg.n
    ensures Wf(t) && t.cfg == s.cfg && t.cur == s.cur
  {
    SetReplyPend(Put(s.(pending := s.pending[c := s.pending[c] - {id}]), c, Notified(id)), c, false)
  }

  /** mini_receive takes the message of the i-th process in its caller queue and unblocks that process. */
  function TakeMessage(s: State, c: nat, i: nat): (t: State)
    requires Wf(s) && c < s.cfg.n && i < |s.queue[c]|
    ensures Wf(t) && t.cfg == s.cfg && t.cur == s.cur
  {
    var sender := s.queue[c][i];
    assert sender in s.queue[c];
    var t := RtsUnset(Put(s, c, Sent(sender, s.sendMsg[sender])), sender, Sending);
    SetReplyPend(t.(queue := t.queue[c := DropAt(t.queue[c], i)]), c, false)
  }

  /** mini_receive blocks, or refuses to. */
  ghost function BlockInReceive(s: State, c: nat, src: Endpoint): (o: Outcome)
    requires Wf(s) && c < s.cfg.n
    ensures Wf(o.st) && o.st.cfg == s.cfg && o.st.cur == s.cur
  {
    if src.Ep? && Reaches(Waits(s), src.slot, c) then Outcome(s, ELOCKED)
    else Outcome(RtsSet(s.(getfrom := s.getfrom[c := src]), c, Receiving), OK)
  }

  /** mini_receive, for ANY or an endpoint that names a slot. */
  ghost function Receive(s: State, c: nat, src: Endpoint): (o: Outcome)
    requires Wf(s) && c < s.cfg.n && (src == Any || (src.Ep? && src.slot < s.cfg.n))
    ensures Wf(o.st) && o.st.cfg == s.cfg && o.st.cur == s.cur
  {
    if src.Ep? && NoEndpoint in s.rts[src.slot] then Outcome(s, EDEADSRCDST)
    else if Sending in s.rts[c] then BlockInReceive(s, c, src)
    else if !s.replyPend[c] && PickNotice(s, c, src) >= 0 then Outcome(TakeNotice(s, c, PickNotice(s, c, src)), OK)
    else if FirstFrom(s.queue[c], src) < |s.queue[c]| then
      Outcome(TakeMessage(s, c, FirstFrom(s.queue[c], src)), OK)
    else BlockInReceive(s, c, src)
  }

  /** mini_notify, for a destination that names a live process. */
  function Notify(s: State, c: nat, d: nat): (o: Outcome)
    requires Wf(s) && c < s.cfg.n && d < s.cfg.n
    ensures Wf(o.st) && o.st.cfg == s.cfg && o.st.cur == s.cur
  {
    if WillReceive(s, d, c) && !s.replyPend[d] then
      Outcome(RtsUnset(Put(s, d, Notified(c)), d, Receiving), OK)
    else
      Outcome(s.(pending := s.pending[d := s.pending[d] + {c}]), OK)
  }

  /** The tests do_sync_ipc makes before it performs a call, in its order. */
  function Refusal(s: State, c: nat, call: Call, e: Endpoint): Code
    requires Wf(s) && c < s.cfg.n
  {
    if call == BADCALL then ETRAPDENIED
    else if e == Any && call != RECEIVE then EINVAL
    else if e != Any && !OkEndpoint(s, e) then EDEADSRCDST
    else if e != Any && call != RECEIVE && e.slot !in s.cfg.mayTo[c] then ECALLDENIED
    else if call !in s.cfg.traps[c] then ETRAPDENIED
    else if call != SENDREC && call != RECEIVE && e.slot < s.cfg.tasks then ETRAPDENIED
    else OK
  }

  /** do_sync_ipc. A SENDREC is a send followed, if that succeeded, by a receive from the same process. */
  ghost function DoSync(s: State, c: nat, call: Call, e: Endpoint, body: int, copyOk: bool): (o: Outcome)
    requires Wf(s) && c < s.cfg.n
    ensures Wf(o.st) && o.st.cfg == s.cfg && o.st.cur == s.cur
  {
    if Refusal(s, c, call, e) != OK then Outcome(s, Refusal(s, c, call, e))
    else if call == RECEIVE then Receive(SetReplyPend(s, c, false), c, e)
    else if call == NOTIFY then Notify(s, c, e.slot)
    else if call == SENDREC then
      var o := Send(SetReplyPend(s, c, true), c, e.slot, body, Blocking, copyOk);
      if o.code != OK then o else Receive(o.st, c, e)
    else Send(s, c, e.slot, body, if call == SENDNB then NonBlocking else Blocking, copyOk)
  }

  /** notify_scheduler: the kernel sends an out-of-quantum message for p to p's scheduler. */
  ghost function OutOfQuantum(s: State, p: nat, body: int): (o: Outcome)
    requires Wf(s) && p < s.cfg.n && 0 <= s.scheduler[p] < s.cfg.n
    ensures Wf(o.st) && o.st.cfg == s.cfg && o.st.cur == s.cur
  {
    var t := RtsSet(s, p, NoQuantum);
    Send(t, p, s.scheduler[p], body, FromKernel, true)
  }

  // ---------------------------------------------------------------- the invariant

  /** runqueues_ok: every process on a queue is runnable and of the queue's priority, none is on a queue
      twice, and every runnable process is on a queue. */
  ghost predicate ReadyOk(s: State)
    requires Wf(s)
  {
    ReadyLists(s.rts, s.prio, s.ready)
  }

  ghost predicate ReadyLists(rts: seq<set<Flag>>, prio: seq<nat>, ready: seq<seq<nat>>)
    requires |rts| == |prio|
  {
    forall k {:trigger ready[k]} :: 0 <= k < |ready| ==>
      && Distinct(ready[k])
      && (forall p: nat :: p in ready[k] <==> p < |rts| && rts[p] == {} && prio[p] == k)
  }

  predicate SendsTo(s: State, p: nat, q: nat)
    requires Wf(s)
  {
    p < s.cfg.n && Sending in s.rts[p] && s.sendto[p] == Ep(q)
  }

  /** p is on q's caller queue, once, iff p is blocked sending to q. */
  ghost predicate CallersOk(s: State, q: nat)
    requires Wf(s) && q < s.cfg.n
  {
    Distinct(s.queue[q]) && forall p: nat :: p in s.queue[q] <==> SendsTo(s, p, q)
  }

  predicate Live(s: State, e: Endpoint)
    requires Wf(s)
  {
    e.Ep? && e.slot < s.cfg.n && SlotFree !in s.rts[e.slot]
  }

  /** What a blocked process waits for is a live process (or anyone), and the receive half of a blocked
      SENDREC waits for the process it sends to. */
  predicate TargetOk(s: State, p: nat)
    requires Wf(s) && p < s.cfg.n
  {
    && (SlotFree in s.rts[p] ==> s.rts[p] == {SlotFree})
    && (Sending in s.rts[p] ==> NoEndpoint !in s.rts[p] && Live(s, s.sendto[p]))
    && (Receiving in s.rts[p] ==> s.getfrom[p] == Any || Live(s, s.getfrom[p]))
    && (Sending in s.rts[p] && Receiving in s.rts[p] ==> s.getfrom[p] == s.sendto[p] && s.replyPend[p])
  }

  /** No rendezvous is missed: a process that waits in a receive, and not in a send, has no acceptable
      sender in its caller queue, and no notification when it would take any. */
  ghost predicate NothingMissed(s: State, p: nat)
    requires Wf(s) && p < s.cfg.n
  {
    Receiving in s.rts[p] && Sending !in s.rts[p] ==>
      && (forall q :: q in s.queue[p] ==> !Accepts(s.getfrom[p], q))
      && (s.getfrom[p] == Any && !s.replyPend[p] ==> s.pending[p] == {})
  }

  /** A process that waits in a receive has no message waiting to be copied to it, and pending
      notifications come from processes. */
  ghost predicate BuffersOk(s: State, p: nat)
    requires Wf(s) && p < s.cfg.n
  {
    && (Receiving in s.rts[p] ==> !s.delivering[p])
    && (forall id :: id in s.pending[p] ==> id < s.cfg.n)
  }

  ghost predicate ProcOk(s: State, p: nat)
    requires Wf(s) && p < s.cfg.n
  {
    CallersOk(s, p) && TargetOk(s, p) && NothingMissed(s, p) && BuffersOk(s, p)
  }

  ghost predicate IpcInv(s: State) {
    && Wf(s) && Acyclic(Waits(s))
    && SlotFree !in s.rts[s.cur] && SlotFree !in s.rts[s.cfg.idle]
    && forall p :: 0 <= p < s.cfg.n ==> ProcOk(s, p)
  }

  ghost predicate Inv(s: State) {
    IpcInv(s) && ReadyOk(s)
  }

  // ---------------------------------------------------------------- runs

  datatype Event =
    | Ipc(call: Call, e: Endpoint, body: int, copyOk: bool)
    | QuantumUsed(body: int)
    | Schedule(p: nat, priority: nat, quantum: nat)
    | SetScheduler(p: nat, who: int)
    | SetFlag(p: nat, f: Flag)
    | ClearFlag(p: nat, f: Flag)
    | Delivered(p: nat)
    | TimeLeft(p: nat, left: nat)
    | SwitchToUser

  /** System calls are made by the current process while it is runnable and has no undelivered message;
      the other parts of the kernel set and clear the flags that are not about message passing. */
  predicate Enabled(s: State, ev: Event)
    requires Wf(s)
  {
    match ev
    case Ipc(_, e, _, _) => Runnable(s, s.cur) && !s.delivering[s.cur] && e != Ep(s.cur)
    case QuantumUsed(_) =>
      var who := s.scheduler[s.cur];
      Runnable(s, s.cur) && who != -1 && who != s.cur && SlotFree !in s.rts[who]
    case Schedule(p, priority, _) => p < s.cfg.n && priority != s.cfg.queues && SlotFree !in s.rts[p]
    case SetScheduler(p, who) => p < s.cfg.n && -1 <= who < s.cfg.n
    case SetFlag(p, f) => p < s.cfg.n && SlotFree !in s.rts[p] && !IpcFlag(f)
    case ClearFlag(p, f) => p < s.cfg.n && SlotFree !in s.rts[p] && !IpcFlag(f)
    case Delivered(p) => p < s.cfg.n
    case TimeLeft(p, _) => p < s.cfg.n
    case SwitchToUser => true
  }

  ghost function Apply(s: State, ev: Event): (t: State)
    requires Wf(s) && Enabled(s, ev)
    ensures Wf(t) && t.cfg == s.cfg
  {
    match ev
    case Ipc(call, e, body, copyOk) => DoSync(s, s.cur, call, e, body, copyOk).st
    case QuantumUsed(body) => OutOfQuantum(s, s.cur, body).st
    case Schedule(p, priority, quantum) => SchedProc(s, p, priority, quantum).st
    case SetScheduler(p, who) => s.(scheduler := s.scheduler[p := who])
    case SetFlag(p, f) => RtsSet(s, p, f)
    case ClearFlag(p, f) => RtsUnset(s, p, f)
    case Delivered(p) => s.(delivering := s.delivering[p := false])
    case TimeLeft(p, left) => s.(cpuLeft := s.cpuLeft[p := left])
    case SwitchToUser => Switch(s)
  }

  /** A process that main has not reached, or one that it has let in: no flag of it is about message passing. */
  ghost predicate Fresh(s: State, p: nat)
    requires Wf(s) && p < s.cfg.n
  {
    && (s.rts[p] == {SlotFree} || forall f :: f in s.rts[p] ==> !IpcFlag(f))
    && s.queue[p] == [] && s.pending[p] == {}
  }

  /** While main goes through the boot image. */
  ghost predicate Booting(s: State) {
    Wf(s) && ReadyOk(s) && forall p :: 0 <= p < s.cfg.n ==> Fresh(s, p)
  }

  /** main lets a process in: some flags are set, RTS_SLOT_FREE is cleared, and the process is scheduled if it can run. */
  function Admit(s: State, p: nat, flags: set<Flag>): (t: State)
    requires Wf(s) && p < s.cfg.n
    ensures Wf(t) && t.cfg == s.cfg && t.cur == s.cur
  {
    RtsUnset(s.(rts := s.rts[p := s.rts[p] + flags]), p, SlotFree)
  }

  /** The state after boot: the first process of the boot image and IDLE have been let in. */
  ghost predicate Boot(s: State) {
    Booting(s) && SlotFree !in s.rts[s.cur] && SlotFree !in s.rts[s.cfg.idle]
  }

  /** The state after a sequence of events; an event that is not enabled does not happen. */
  ghost function Run(s: State, evs: seq<Event>): (t: State)
    requires Wf(s)
    ensures Wf(t) && t.cfg == s.cfg
    decreases evs
  {
    if evs == [] then s
    else Run(if Enabled(s, evs[0]) then Apply(s, evs[0]) else s, evs[1..])
  }
}
