/** The life of an op in msg_thread.c as a state machine: any number of senders and one worker
    interleave, and a fixed pool of ops moves between the free queue, a sender, the active queue and
    the worker. Every access to a field of an op that another thread may reach is a step of its own. */
module MsgThread {
  import opened Options
  import opened Words
  import opened OpQueues

  // ---- state

  datatype Request = Request(opId: nat, data: seq<nat>)

  /** struct msg_op; signal counts the completions that have been raised and not yet waited for. */
  datatype Op = Op(request: Request, timeout: nat, result: int, signal: nat, ref: int)

  /** Bookkeeping that no step looks at: the ticket of a send, and whether it stored a timeout. */
  datatype Call = Call(ticket: nat, waits: bool)

  /** Where a sender stands in msg_thread_send_* and msg_evt_put_op_to_active. */
  datatype Sender =
    | Idle
    | Taken(op: nat, timeout: nat)    // took an op off the free queue, cleared it and filled in the request
    | Got(op: nat)                    // stored the timeout
    | Reset(op: nat)                  // wrote the result -9
    | Inited(op: nat)                 // initialised the completion
    | Counted(op: nat)                // set the reference count to its own references
    | Ready(op: nat)                  // added the worker's
    | Posted(op: nat, me: Call)       // put it on the active queue
    | Waiting(op: nat, me: Call)      // found a timeout in it
    | Woken(op: nat, me: Call)        // was signalled
    | TimedOut(op: nat, me: Call)
    | Leaving(op: nat, me: Call, ret: int, woken: bool)    // has its return value
    | Dropping(op: nat, me: Call, ret: int, woken: bool)   // found a timeout again, and will drop a reference
    | Freeing(op: nat)                // dropped the last reference

  /** Where the worker stands in msg_evt_thread. */
  datatype Worker =
    | Waits
    | Holds(op: nat)                 // took an op off the active queue
    | Handled(op: nat, ret: int)     // the handler has returned
    | Dropped(op: nat, ret: int)     // dropped a reference that was not the last
    | Writing(op: nat, ret: int)     // found a timeout
    | Raising(op: nat)               // wrote the result
    | Returning(op: nat)             // dropped the last reference

  /** Bookkeeping that no step looks at: who may hold a reference to an op. */
  datatype Home =
    | InFree
    | WithSender(sender: nat)
    | Shared(waiter: Option<nat>, worker: bool)   // published: by a sender that waits, and to the worker
    | WithWorker

  datatype Return = Return(me: Call, ret: int, woken: bool)

  /** History. Every send that gets an op draws a ticket; the n-th ticket is n. */
  datatype Log = Log(
    home: seq<Home>,
    ticket: seq<nat>,          // of each op, the ticket of the send it last served
    sent: seq<Request>,        // what each ticket asked for
    opOf: seq<nat>,            // the op each ticket got
    freed: seq<nat>,           // tickets, as their ops went back to the free queue
    enqueued: seq<nat>,        // tickets, as their ops were put on the active queue
    handled: seq<nat>,         // tickets, as their ops were handled
    served: seq<Request>,      // what the handler was given each time
    produced: map<nat, int>,   // what it returned, by ticket
    returned: seq<Return>)     // what senders came back with

  datatype State = State(
    handlers: seq<bool>,       // op_func: which operations have a handler
    free: Queue, active: Queue,
    ops: seq<Op>, senders: seq<Sender>, worker: Worker,
    log: Log)

  // ---- steps

  datatype Step =
    | SenderGet(i: nat, request: Request, wait: Option<int>)
    | SenderPrepare(i: nat)
    | SenderEnqueue(i: nat)
    | SenderLook(i: nat)
    | SenderWake(i: nat)
    | SenderTimeout(i: nat)
    | SenderCheck(i: nat)
    | SenderTest(i: nat)
    | SenderDrop(i: nat)
    | SenderFree(i: nat)
    | WorkerGet
    | WorkerHandle(value: int)   // what the operation's own function returns
    | WorkerDrop
    | WorkerTest
    | WorkerWrite
    | WorkerRaise
    | WorkerFree
    | WorkerFinish               // WorkerDrop, WorkerTest, WorkerWrite and WorkerRaise in one

  const MSG_OP_TIMEOUT := 20000

  /** The stored timeout: msg_thread_send_2 does not wait, msg_thread_send_wait_4 always does. */
  function Timeout(wait: Option<int>): nat {
    match wait
    case None => 0
    case Some(t) => if t > 0 then t else MSG_OP_TIMEOUT
  }

  const NO_OP := Op(Request(0, []), 0, 0, 0, 0)

  function At<T>(s: seq<T>, i: nat, default: T): T { if i < |s| then s[i] else default }

  function Set<T>(s: seq<T>, i: nat, x: T): seq<T> { if i < |s| then s[i := x] else s }

  function Moved(s: State, o: nat, h: Home): Log { s.log.(home := Set(s.log.home, o, h)) }

  // a step of sender i that concerns op o
  function SenderMoves(s: State, i: nat, next: Sender, o: nat, op: Op, h: Home): State
    requires i < |s.senders|
  {
    s.(senders := s.senders[i := next], ops := Set(s.ops, o, op), log := Moved(s, o, h))
  }

  function GetFree(s: State, i: nat, request: Request, wait: Option<int>): State
    requires Sized(s) && i < |s.senders|
  {
    var (free, got) := Get(s.free);
    match got
    case None => s   // the send fails with -1
    case Some(o) =>
      var op := Op(request, 0, 0, 0, 0);
      var s' := SenderMoves(s, i, Taken(o, Timeout(wait)), o, op, WithSender(i)).(free := free);
      s'.(log := s'.log.(ticket := Set(s.log.ticket, o, |s.log.sent|),
                         sent := s.log.sent + [request], opOf := s.log.opOf + [o]))
  }

  /** The stores to the op before it is published, one at a time: the timeout, and those of
      msg_evt_put_op_to_active. */
  function Prepared(x: Sender, op: Op): (Sender, Op) {
    match x
    case Taken(o, timeout) => (Got(o), op.(timeout := timeout))
    case Got(o) => if op.timeout > 0 then (Reset(o), op.(result := -9)) else (Counted(o), op.(ref := 0))
    case Reset(o) => (Inited(o), op.(signal := 0))
    case Inited(o) => (Counted(o), op.(ref := 1))
    case Counted(o) => (Ready(o), op.(ref := op.ref + 1))
    case _ => (x, op)
  }

  predicate Preparing(x: Sender) { x.Taken? || x.Got? || x.Reset? || x.Inited? || x.Counted? }

  function Prepare(s: State, i: nat, o: nat): State
    requires i < |s.senders|
  {
    var (next, op) := Prepared(s.senders[i], At(s.ops, o, NO_OP));
    s.(senders := s.senders[i := next], ops := Set(s.ops, o, op))
  }

  function Enqueue(s: State, i: nat, o: nat): State
    requires Sized(s) && i < |s.senders|
  {
    var (active, code) := Put(s.active, o);
    var op, t := At(s.ops, o, NO_OP), At(s.log.ticket, o, 0);
    var waits := op.timeout > 0;
    if code != 0 then   // QueuesNeverFull shows when this does not happen
      s.(ops := Set(s.ops, o, op.(ref := op.ref - 1)),
         senders := s.senders[i := Leaving(o, Call(t, waits), code, false)])
    else
      s.(active := active,
         senders := s.senders[i := Posted(o, Call(t, waits))],
         log := Moved(s, o, Shared(if waits then Some(i) else None, true)).(enqueued := s.log.enqueued + [t]))
  }

  /** What a sender does between publishing the op and leaving that changes nothing but itself. It looks
      whether to wait, waits, and takes the result: always in the op, whoever owns it by now. */
  function Learned(x: Sender, op: Op, step: Step): Sender {
    match (x, step)
    case (Posted(o, me), SenderLook(_)) => if op.timeout == 0 then Leaving(o, me, 0, false) else Waiting(o, me)
    case (Waiting(o, me), SenderTimeout(_)) => TimedOut(o, me)
    case (Woken(o, me), SenderCheck(_)) => Leaving(o, me, op.result, true)
    case (TimedOut(o, me), SenderCheck(_)) => Leaving(o, me, op.result, false)
    case _ => x
  }

  function Wake(s: State, i: nat, o: nat, me: Call): State
    requires i < |s.senders|
  {
    var op := At(s.ops, o, NO_OP);
    if op.signal == 0 then s
    else s.(senders := s.senders[i := Woken(o, me)], ops := Set(s.ops, o, op.(signal := op.signal - 1)))
  }

  /** The sender looks again before it drops a reference. */
  function Test(s: State, i: nat, x: Sender): State
    requires i < |s.senders| && x.Leaving?
  {
    if At(s.ops, x.op, NO_OP).timeout > 0 then
      s.(senders := s.senders[i := Dropping(x.op, x.me, x.ret, x.woken)])
    else
      s.(senders := s.senders[i := Idle],
         log := s.log.(returned := s.log.returned + [Return(x.me, x.ret, x.woken)]))
  }

  /** atomic_dec_and_test of the sender. */
  function DropBySender(s: State, i: nat, x: Sender): State
    requires i < |s.senders| && x.Dropping?
  {
    var op := At(s.ops, x.op, NO_OP);
    var last := op.ref == 1;
    var h := if !x.me.waits then At(s.log.home, x.op, InFree) else if last then WithSender(i) else Shared(None, true);
    var s' := SenderMoves(s, i, if last then Freeing(x.op) else Idle, x.op, op.(ref := op.ref - 1), h);
    s'.(log := s'.log.(returned := s.log.returned + [Return(x.me, x.ret, x.woken)]))
  }

  function PutFree(s: State, o: nat): State
    requires Sized(s)
  {
    var (free, code) := Put(s.free, o);
    if code != 0 then s   // QueuesNeverFull shows when this does not happen
    else s.(free := free, log := Moved(s, o, InFree).(freed := s.log.freed + [At(s.log.ticket, o, 0)]))
  }

  function AdvanceSender(s: State, i: nat, step: Step): State
    requires Sized(s) && i < |s.senders|
  {
    var x := s.senders[i];
    match step
    case SenderGet(_, request, wait) => if x.Idle? then GetFree(s, i, request, wait) else s
    case SenderPrepare(_) => if Preparing(x) then Prepare(s, i, x.op) else s
    case SenderEnqueue(_) => if x.Ready? then Enqueue(s, i, x.op) else s
    case SenderWake(_) => if x.Waiting? then Wake(s, i, x.op, x.me) else s
    case SenderTest(_) => if x.Leaving? then Test(s, i, x) else s
    case SenderDrop(_) => if x.Dropping? then DropBySender(s, i, x) else s
    case SenderFree(_) => if x.Freeing? then PutFree(s, x.op).(senders := s.senders[i := Idle]) else s
    case _ => if x.Idle? then s else s.(senders := s.senders[i := Learned(x, At(s.ops, x.op, NO_OP), step)])
  }

  function TakeActive(s: State): State
    requires Sized(s)
  {
    var (active, got) := Get(s.active);
    match got
    case None => s
    case Some(o) => s.(active := active, worker := Holds(o))
  }

  /** msg_evt_opid_handler */
  function HandlerResult(handlers: seq<bool>, opId: nat, value: int): int {
    if opId >= |handlers| then -3 else if !handlers[opId] then -4 else value
  }

  function Handle(s: State, o: nat, value: int): State {
    var request, t := At(s.ops, o, NO_OP).request, At(s.log.ticket, o, 0);
    var ret := HandlerResult(s.handlers, request.opId, value);
    s.(worker := Handled(o, ret),
       log := s.log.(handled := s.log.handled + [t], served := s.log.served + [request],
                     produced := s.log.produced[t := ret]))
  }

  /** atomic_dec_and_test of the worker. */
  function DropByWorker(s: State, o: nat, ret: int): State {
    var op := At(s.ops, o, NO_OP);
    var last := op.ref == 1;
    var h := if last then WithWorker
             else match At(s.log.home, o, InFree) case Shared(waiter, _) => Shared(waiter, false) case other => other;
    s.(ops := Set(s.ops, o, op.(ref := op.ref - 1)),
       worker := if last then Returning(o) else Dropped(o, ret), log := Moved(s, o, h))
  }

  function Write(s: State, o: nat, ret: int): State {
    s.(ops := Set(s.ops, o, At(s.ops, o, NO_OP).(result := ret)), worker := Raising(o))
  }

  function Raise(s: State, o: nat): State {
    var op := At(s.ops, o, NO_OP);
    s.(ops := Set(s.ops, o, op.(signal := op.signal + 1)), worker := Waits)
  }

  function TestByWorker(s: State, o: nat, ret: int): State {
    s.(worker := if At(s.ops, o, NO_OP).timeout > 0 then Writing(o, ret) else Waits)
  }

  /** All that the worker does after the handler has returned, undisturbed. */
  function Finish(s: State, o: nat, ret: int): State {
    var s' := DropByWorker(s, o, ret);
    if s'.worker.Returning? then s'
    else
      var s'' := TestByWorker(s', o, ret);
      if s''.worker.Waits? then s'' else Raise(Write(s'', o, ret), o)
  }

  function AdvanceWorker(s: State, step: Step): State
    requires Sized(s)
  {
    match (s.worker, step)
    case (Waits, WorkerGet) => TakeActive(s)
    case (Holds(o), WorkerHandle(value)) => Handle(s, o, value)
    case (Handled(o, ret), WorkerDrop) => DropByWorker(s, o, ret)
    case (Handled(o, ret), WorkerFinish) => Finish(s, o, ret)
    case (Dropped(o, ret), WorkerTest) => TestByWorker(s, o, ret)
    case (Writing(o, ret), WorkerWrite) => Write(s, o, ret)
    case (Raising(o), WorkerRaise) => Raise(s, o)
    case (Returning(o), WorkerFree) => PutFree(s, o).(worker := Waits)
    case _ => s
  }

  predicate Sized(s: State) { |s.free.slots| > 0 && |s.active.slots| > 0 }

  predicate ByWorker(step: Step) {
    step.WorkerGet? || step.WorkerHandle? || step.WorkerDrop? || step.WorkerTest? || step.WorkerWrite?
    || step.WorkerRaise? || step.WorkerFree? || step.WorkerFinish?
  }

  /** Steps that are not enabled leave the state as it is. */
  function Apply(s: State, step: Step): State
    requires Sized(s)
  {
    if ByWorker(step) then AdvanceWorker(s, step)
    else if step.i < |s.senders| then AdvanceSender(s, step.i, step)
    else s
  }

  /** After msg_thread_init, with n ops and k threads that may send. */
  function Init(n: nat, k: nat, handlers: seq<bool>): State
    requires n > 0
  {
    State(handlers, OpQueues.Filled(n, n), OpQueues.Filled(n, 0),
          seq(n, _ => NO_OP), seq(k, _ => Idle), Waits,
          Log(seq(n, _ => InFree), seq(n, _ => 0), [], [], [], [], [], [], map[], []))
  }

  // ---- the invariant, part by part

  ghost predicate NoDup(s: seq<nat>) { forall i, j :: 0 <= i < j < |s| ==> s[i] != s[j] }

  /** The free queue holds each op that is at home there once, and nothing else. */
  ghost predicate FreeInv(free: Queue, home: seq<Home>) {
    && Ok(free) && |free.slots| == |home|
    && NoDup(Contents(free))
    && forall o: nat :: o in Contents(free) <==> o < |home| && home[o].InFree?
  }

  /** The op in the worker's hands that still holds the worker's reference. */
  function Hand(w: Worker): seq<nat> {
    match w
    case Holds(o) => [o]
    case Handled(o, _) => [o]
    case _ => []
  }

  predicate ForWorker(h: Home) { h.Shared? && h.worker }

  /** The worker's references: its hand and the active queue hold each op published to it once. */
  ghost predicate ActiveInv(active: Queue, w: Worker, home: seq<Home>) {
    && Ok(active) && |active.slots| == |home|
    && NoDup(Hand(w) + Contents(active))
    && (forall o: nat :: o in Hand(w) + Contents(active) <==> o < |home| && ForWorker(home[o]))
    && (forall o: nat :: o < |home| ==> (home[o] == WithWorker <==> w == Returning(o)))
    && (w.Returning? ==> w.op < |home|)
  }

  /** The op this sender holds or has a reference to. One that stored no timeout has none left once the
      op is published, though it goes on looking at the op. */
  function OpOf(x: Sender): Option<nat> {
    match x
    case Idle => None
    case Posted(o, me) => if me.waits then Some(o) else None
    case Waiting(o, me) => if me.waits then Some(o) else None
    case Woken(o, me) => if me.waits then Some(o) else None
    case TimedOut(o, me) => if me.waits then Some(o) else None
    case Leaving(o, me, _, _) => if me.waits then Some(o) else None
    case Dropping(o, me, _, _) => if me.waits then Some(o) else None
    case _ => Some(x.op)
  }

  /** Nobody else has a reference to this sender's op. */
  predicate Alone(x: Sender) { Preparing(x) || x.Ready? || x.Freeing? }

  function Owner(h: Home): Option<nat> {
    match h
    case WithSender(i) => Some(i)
    case Shared(waiter, _) => waiter
    case _ => None
  }

  predicate Agree(i: nat, x: Sender, o: nat, h: Home) {
    && (OpOf(x) == Some(o) <==> Owner(h) == Some(i))
    && (Owner(h) == Some(i) ==> (h.WithSender? <==> Alone(x)))
  }

  /** Senders and ops agree about who holds whom. */
  ghost predicate SendersInv(senders: seq<Sender>, home: seq<Home>) {
    && (forall i, o :: 0 <= i < |senders| && 0 <= o < |home| ==> Agree(i, senders[i], o, home[o]))
    && (forall i :: 0 <= i < |senders| && OpOf(senders[i]).Some? ==> OpOf(senders[i]).value < |home|)
    && (forall o :: 0 <= o < |home| && Owner(home[o]).Some? ==> Owner(home[o]).value < |senders|)
  }

  function Bit(b: bool): int { if b then 1 else 0 }

  /** The reference count is the number of references held, from when the sender sets it until the last
      one is dropped. */
  predicate RefOk(op: Op, h: Home, senders: seq<Sender>) {
    match h
    case WithSender(i) =>
      (match At(senders, i, Idle)
       case Reset(_) => op.ref <= 0 < op.timeout
       case Inited(_) => op.ref <= 0 < op.timeout
       case Counted(_) => op.ref == Bit(op.timeout > 0)
       case Ready(_) => op.ref == 1 + Bit(op.timeout > 0)
       case _ => op.ref <= 0)
    case Shared(waiter, worker) =>
      op.ref == Bit(waiter.Some?) + Bit(worker) > 0 && (waiter.Some? ==> op.timeout > 0)
    case _ => op.ref <= 0
  }

  ghost predicate RefInv(ops: seq<Op>, home: seq<Home>, senders: seq<Sender>) {
    |ops| == |home| && forall o :: 0 <= o < |ops| ==> RefOk(ops[o], home[o], senders)
  }

  // ticket t is being served by the op it got
  predicate Serving(t: nat, o: nat, home: seq<Home>, ticket: seq<nat>) {
    o < |home| == |ticket| && !home[o].InFree? && ticket[o] == t
  }

  /** Every ticket has either been freed, once, or is being served by its own op. */
  ghost predicate TicketInv(home: seq<Home>, ticket: seq<nat>, opOf: seq<nat>, freed: seq<nat>) {
    && |ticket| == |home|
    && (forall o :: 0 <= o < |home| && !home[o].InFree? ==> ticket[o] < |opOf| && opOf[ticket[o]] == o)
    && NoDup(freed)
    && (forall t: nat :: t in freed <==> t < |opOf| && !Serving(t, opOf[t], home, ticket))
  }

  /** What the worker has not yet handled, oldest first. */
  ghost function Unhandled(w: Worker, active: Queue): seq<nat>
    requires Ok(active)
  {
    (if w.Holds? then [w.op] else []) + Contents(active)
  }

  function Tickets(ticket: seq<nat>, os: seq<nat>): (ts: seq<nat>)
    ensures |ts| == |os|
  {
    seq(|os|, k requires 0 <= k < |os| => At(ticket, os[k], 0))
  }

  /** First in, first out, and each time the handler was given what the sender asked for. */
  ghost predicate OrderInv(active: Queue, w: Worker, log: Log) {
    && Ok(active)
    && log.enqueued == log.handled + Tickets(log.ticket, Unhandled(w, active))
    && |log.served| == |log.handled|
    && forall k :: 0 <= k < |log.served| ==> log.handled[k] < |log.sent| && log.served[k] == log.sent[log.handled[k]]
  }

  ghost predicate RequestInv(ops: seq<Op>, log: Log) {
    && |ops| == |log.home| == |log.ticket|
    && |log.sent| == |log.opOf|
    && forall o :: 0 <= o < |ops| && !log.home[o].InFree? ==>
         log.ticket[o] < |log.sent| && ops[o].request == log.sent[log.ticket[o]]
  }

  ghost predicate Inv(s: State) {
    && |s.log.home| > 0
    && FreeInv(s.free, s.log.home)
    && ActiveInv(s.active, s.worker, s.log.home)
    && SendersInv(s.senders, s.log.home)
    && RefInv(s.ops, s.log.home, s.senders)
    && TicketInv(s.log.home, s.log.ticket, s.log.opOf, s.log.freed)
    && OrderInv(s.active, s.worker, s.log)
    && RequestInv(s.ops, s.log)
  }

  // the reference count of an op is in use
  predicate InUse(h: Home, senders: seq<Sender>) {
    match h
    case WithSender(i) => At(senders, i, Idle).Counted? || At(senders, i, Idle).Ready?
    case Shared(_, _) => true
    case _ => false
  }

  /** A sender that stored no timeout finds one when it looks again: the worker has given its op back,
      and another send has it. It drops a reference that it does not hold. */
  predicate StaleDrop(s: State, step: Step) {
    && step.SenderDrop? && step.i < |s.senders|
    && s.senders[step.i].Dropping? && !s.senders[step.i].me.waits
    && InUse(At(s.log.home, s.senders[step.i].op, InFree), s.senders)
  }

  // ---- what single changes do to the parts

  /** A sender's step that changes only who holds op o, and how. */
  lemma SendersStep(senders: seq<Sender>, home: seq<Home>, i: nat, next: Sender, o: nat, h: Home)
    requires SendersInv(senders, home) && i < |senders| && o < |home|
    requires OpOf(senders[i]) == None || OpOf(senders[i]) == Some(o)
    requires OpOf(next) == None || OpOf(next) == Some(o)
    requires Owner(home[o]) == None || Owner(home[o]) == Some(i)
    requires Owner(h) == None || Owner(h) == Some(i)
    requires Agree(i, next, o, h)
    ensures SendersInv(senders[i := next], home[o := h])
  {
    var senders', home' := senders[i := next], home[o := h];
    forall j, p | 0 <= j < |senders'| && 0 <= p < |home'|
      ensures Agree(j, senders'[j], p, home'[p])
    {
      assert Agree(j, senders[j], p, home[p]);
      assert Agree(i, senders[i], p, home[p]);
      assert Agree(j, senders[j], o, home[o]);
    }
  }

  /** A worker's step: op o stays with the sender that had it. */
  lemma SendersKept(senders: seq<Sender>, home: seq<Home>, o: nat, h: Home)
    requires SendersInv(senders, home) && o < |home|
    requires Owner(h) == Owner(home[o]) && h.WithSender? == home[o].WithSender?
    ensures SendersInv(senders, home[o := h])
  {
    var home' := home[o := h];
    forall j, p | 0 <= j < |senders| && 0 <= p < |home'|
      ensures Agree(j, senders[j], p, home'[p])
    {
      assert Agree(j, senders[j], p, home[p]);
    }
  }

  lemma RefStep(ops: seq<Op>, home: seq<Home>, senders: seq<Sender>, i: nat, next: Sender, o: nat, op: Op, h: Home)
    requires RefInv(ops, home, senders) && SendersInv(senders, home) && i < |senders| && o < |home|
    requires OpOf(senders[i]) == None || OpOf(senders[i]) == Some(o)
    requires RefOk(op, h, senders[i := next])
    ensures RefInv(ops[o := op], home[o := h], senders[i := next])
  {
    var ops', home' := ops[o := op], home[o := h];
    forall p | 0 <= p < |ops'|
      ensures RefOk(ops'[p], home'[p], senders[i := next])
    {
      assert RefOk(ops[p], home[p], senders);
      assert Agree(i, senders[i], p, home[p]);
    }
  }

  /** A step of a sender without a reference. */
  lemma StrangerStep(senders: seq<Sender>, home: seq<Home>, ops: seq<Op>, i: nat, next: Sender)
    requires SendersInv(senders, home) && RefInv(ops, home, senders) && i < |senders|
    requires OpOf(senders[i]) == OpOf(next) == None
    ensures SendersInv(senders[i := next], home) && RefInv(ops, home, senders[i := next])
  {
    var senders' := senders[i := next];
    forall j, p | 0 <= j < |senders'| && 0 <= p < |home|
      ensures Agree(j, senders'[j], p, home[p])
    {
      assert Agree(j, senders[j], p, home[p]);
    }
    forall p | 0 <= p < |ops|
      ensures RefOk(ops[p], home[p], senders')
    {
      assert RefOk(ops[p], home[p], senders) && Agree(i, senders[i], p, home[p]);
    }
  }

  lemma RefKept(ops: seq<Op>, home: seq<Home>, senders: seq<Sender>, o: nat, op: Op, h: Home)
    requires RefInv(ops, home, senders) && o < |home| && RefOk(op, h, senders)
    ensures RefInv(ops[o := op], home[o := h], senders)
  {}

  lemma FreeKept(free: Queue, home: seq<Home>, o: nat, h: Home)
    requires FreeInv(free, home) && o < |home| && !home[o].InFree? && !h.InFree?
    ensures FreeInv(free, home[o := h])
  {}

  lemma ActiveKept(active: Queue, w: Worker, home: seq<Home>, o: nat, h: Home)
    requires ActiveInv(active, w, home) && o < |home|
    requires ForWorker(h) == ForWorker(home[o]) && (h == WithWorker <==> home[o] == WithWorker)
    ensures ActiveInv(active, w, home[o := h])
  {}

  lemma TicketKept(home: seq<Home>, ticket: seq<nat>, opOf: seq<nat>, freed: seq<nat>, o: nat, h: Home)
    requires TicketInv(home, ticket, opOf, freed) && o < |home| && !home[o].InFree? && !h.InFree?
    ensures TicketInv(home[o := h], ticket, opOf, freed)
  {
    forall t: nat
      ensures t in freed <==> t < |opOf| && !Serving(t, opOf[t], home[o := h], ticket)
    {
      assert t < |opOf| ==> Serving(t, opOf[t], home[o := h], ticket) == Serving(t, opOf[t], home, ticket);
    }
  }

  ghost function Below(n: nat): (b: set<nat>)
    ensures |b| == n && forall x: nat :: x in b <==> x < n
  {
    if n == 0 then {} else Below(n - 1) + {n - 1}
  }

  ghost function Elements(s: seq<nat>): set<nat> { set x | x in s }

  lemma {:induction false} SetOfSize(s: seq<nat>)
    requires NoDup(s)
    ensures |Elements(s)| == |s|
    decreases |s|
  {
    if s != [] {
      var most, last := s[..|s| - 1], s[|s| - 1];
      SetOfSize(most);
      assert s == most + [last];
      assert Elements(s) == Elements(most) + {last};
    }
  }

  /** Distinct numbers below n, one of them left out, are fewer than n. */
  lemma Pigeons(s: seq<nat>, n: nat, o: nat)
    requires NoDup(s) && o < n && o !in s && forall k :: 0 <= k < |s| ==> s[k] < n
    ensures |s| < n
  {
    SetOfSize(s);
    SubsetSize(Elements(s), Below(n) - {o});
  }

  lemma {:induction false} SubsetSize(a: set<nat>, b: set<nat>)
    requires a <= b
    ensures |a| <= |b|
    decreases |a|
  {
    if a != {} {
      var x :| x in a;
      SubsetSize(a - {x}, b - {x});
    }
  }

  // an op that is elsewhere fits into either queue

  lemma FreeHasRoom(free: Queue, home: seq<Home>, o: nat)
    requires FreeInv(free, home) && o < |home| && !home[o].InFree?
    ensures |Contents(free)| < |free.slots| && o !in Contents(free)
  {
    forall k | 0 <= k < |Contents(free)| ensures Contents(free)[k] < |home| {
      assert Contents(free)[k] in Contents(free);
    }
    Pigeons(Contents(free), |home|, o);
  }

  lemma ActiveHasRoom(active: Queue, w: Worker, home: seq<Home>, o: nat)
    requires ActiveInv(active, w, home) && o < |home| && !ForWorker(home[o])
    ensures |Contents(active)| < |active.slots| && o !in Hand(w) + Contents(active)
  {
    var all := Hand(w) + Contents(active);
    forall k | 0 <= k < |all| ensures all[k] < |home| { assert all[k] in all; }
    Pigeons(all, |home|, o);
  }

  lemma NoDupAppend(s: seq<nat>, x: nat)
    requires NoDup(s) && x !in s
    ensures NoDup(s + [x])
    ensures forall y :: y in s + [x] <==> y in s || y == x
  {}

  lemma NoDupTail(s: seq<nat>)
    requires NoDup(s) && s != []
    ensures NoDup(s[1..])
    ensures forall y :: y in s[1..] <==> y in s && y != s[0]
  {
    assert s == [s[0]] + s[1..];
    forall y ensures y in s[1..] <==> y in s && y != s[0] {
      if y in s && y != s[0] {
        var k :| 0 <= k < |s| && s[k] == y;
        assert s[1..][k - 1] == y;
      }
    }
  }

  // ---- every step keeps the invariant

  lemma GetFreeFree(free: Queue, home: seq<Home>, h: Home)
    requires FreeInv(free, home) && Contents(free) != [] && !h.InFree?
    ensures var (free', got) := Get(free);
            && got.Some? && got.value < |home| && home[got.value].InFree?
            && FreeInv(free', home[got.value := h])
  {
    GetTakesFront(free);
    NoDupTail(Contents(free));
    assert Contents(free)[0] in Contents(free);
  }

  lemma PutFreeFree(free: Queue, home: seq<Home>, o: nat)
    requires FreeInv(free, home) && o < |home| && !home[o].InFree?
    ensures Put(free, o).1 == 0 && FreeInv(Put(free, o).0, home[o := InFree])
  {
    FreeHasRoom(free, home, o);
    PutAppends(free, o);
    NoDupAppend(Contents(free), o);
  }

  lemma NewTicket(home: seq<Home>, ticket: seq<nat>, opOf: seq<nat>, freed: seq<nat>, o: nat, h: Home)
    requires TicketInv(home, ticket, opOf, freed) && o < |home| && home[o].InFree? && !h.InFree?
    ensures TicketInv(home[o := h], ticket[o := |opOf|], opOf + [o], freed)
  {
    var home', ticket', opOf' := home[o := h], ticket[o := |opOf|], opOf + [o];
    forall t: nat
      ensures t in freed <==> t < |opOf'| && !Serving(t, opOf'[t], home', ticket')
    {
      assert t < |opOf| ==> opOf'[t] == opOf[t];
      assert t in freed <==> t < |opOf| && !Serving(t, opOf[t], home, ticket);
      assert |opOf| !in freed;
    }
  }

  lemma TicketFreed(home: seq<Home>, ticket: seq<nat>, opOf: seq<nat>, freed: seq<nat>, o: nat)
    requires TicketInv(home, ticket, opOf, freed) && o < |home| && !home[o].InFree?
    ensures TicketInv(home[o := InFree], ticket, opOf, freed + [ticket[o]])
  {
    var home', freed' := home[o := InFree], freed + [ticket[o]];
    assert Serving(ticket[o], opOf[ticket[o]], home, ticket);
    NoDupAppend(freed, ticket[o]);
    forall t: nat
      ensures t in freed' <==> t < |opOf| && !Serving(t, opOf[t], home', ticket)
    {
      assert t in freed <==> t < |opOf| && !Serving(t, opOf[t], home, ticket);
    }
  }

  /** A ticket drawn for an op that is not on the active queue does not touch those that are. */
  lemma TicketsSame(ticket: seq<nat>, os: seq<nat>, o: nat, t: nat)
    requires o < |ticket| && o !in os
    ensures Tickets(ticket[o := t], os) == Tickets(ticket, os)
  {}

  lemma GetKeepsInv(s: State, i: nat, request: Request, wait: Option<int>)
    requires Inv(s) && i < |s.senders| && s.senders[i].Idle?
    ensures Inv(GetFree(s, i, request, wait))
  {
    var log := s.log;
    GetTakesFront(s.free);
    if Contents(s.free) != [] {
      var o := Contents(s.free)[0];
      var h, op, next := WithSender(i), Op(request, 0, 0, 0, 0), Taken(o, Timeout(wait));
      GetFreeFree(s.free, log.home, h);
      ActiveKept(s.active, s.worker, log.home, o, h);
      SendersStep(s.senders, log.home, i, next, o, h);
      RefStep(s.ops, log.home, s.senders, i, next, o, op, h);
      NewTicket(log.home, log.ticket, log.opOf, log.freed, o, h);
      assert o !in Unhandled(s.worker, s.active) by {
        assert o !in Hand(s.worker) + Contents(s.active);
      }
      TicketsSame(log.ticket, Unhandled(s.worker, s.active), o, |log.sent|);
    }
  }

  lemma PrepareKeepsInv(s: State, i: nat)
    requires Inv(s) && i < |s.senders| && Preparing(s.senders[i])
    ensures Inv(Prepare(s, i, s.senders[i].op))
  {
    var o, home := s.senders[i].op, s.log.home;
    assert Agree(i, s.senders[i], o, home[o]);
    assert RefOk(s.ops[o], home[o], s.senders);
    var (next, op) := Prepared(s.senders[i], s.ops[o]);
    SendersStep(s.senders, home, i, next, o, home[o]);
    RefStep(s.ops, home, s.senders, i, next, o, op, home[o]);
    assert home[o := home[o]] == home;
  }

  lemma PublishActive(active: Queue, w: Worker, home: seq<Home>, o: nat, h: Home)
    requires ActiveInv(active, w, home) && o < |home| && home[o].WithSender? && ForWorker(h)
    ensures Put(active, o).1 == 0 && ActiveInv(Put(active, o).0, w, home[o := h])
    ensures Contents(Put(active, o).0) == Contents(active) + [o]
  {
    ActiveHasRoom(active, w, home, o);
    PutAppends(active, o);
    NoDupAppend(Hand(w) + Contents(active), o);
    assert Hand(w) + (Contents(active) + [o]) == Hand(w) + Contents(active) + [o];
  }

  lemma EnqueueOrder(active: Queue, w: Worker, log: Log, o: nat)
    requires OrderInv(active, w, log)
    requires var (active', code) := Put(active, o); Ok(active') && Contents(active') == Contents(active) + [o]
    ensures OrderInv(Put(active, o).0, w, log.(enqueued := log.enqueued + [At(log.ticket, o, 0)]))
  {
    var active' := Put(active, o).0;
    assert Unhandled(w, active') == Unhandled(w, active) + [o];
    assert Tickets(log.ticket, Unhandled(w, active'))
             == Tickets(log.ticket, Unhandled(w, active)) + [At(log.ticket, o, 0)];
  }

  lemma EnqueueKeepsInv(s: State, i: nat)
    requires Inv(s) && i < |s.senders| && s.senders[i].Ready?
    ensures Inv(Enqueue(s, i, s.senders[i].op))
  {
    var o, log := s.senders[i].op, s.log;
    assert Agree(i, s.senders[i], o, log.home[o]);
    var waits := s.ops[o].timeout > 0;
    var h := Shared(if waits then Some(i) else None, true);
    var next := Posted(o, Call(log.ticket[o], waits));
    FreeKept(s.free, log.home, o, h);
    PublishActive(s.active, s.worker, log.home, o, h);
    SendersStep(s.senders, log.home, i, next, o, h);
    RefStep(s.ops, log.home, s.senders, i, next, o, s.ops[o], h);
    assert s.ops[o := s.ops[o]] == s.ops;
    TicketKept(log.home, log.ticket, log.opOf, log.freed, o, h);
    EnqueueOrder(s.active, s.worker, log, o);
  }

  // a sender learns something: nothing else changes
  lemma LearnKeepsInv(s: State, i: nat, next: Sender)
    requires Inv(s) && i < |s.senders| && OpOf(next) == OpOf(s.senders[i])
    requires !Alone(s.senders[i]) && !Alone(next)
    ensures Inv(s.(senders := s.senders[i := next]))
  {
    var home := s.log.home;
    if OpOf(next) == None {
      StrangerStep(s.senders, home, s.ops, i, next);
    } else {
      var o := OpOf(next).value;
      assert Agree(i, s.senders[i], o, home[o]);
      SendersStep(s.senders, home, i, next, o, home[o]);
      assert RefOk(s.ops[o], home[o], s.senders);
      RefStep(s.ops, home, s.senders, i, next, o, s.ops[o], home[o]);
      assert home[o := home[o]] == home && s.ops[o := s.ops[o]] == s.ops;
    }
  }

  lemma LearnedKeepsInv(s: State, i: nat, step: Step)
    requires Inv(s) && i < |s.senders| && !s.senders[i].Idle?
    ensures Inv(s.(senders := s.senders[i := Learned(s.senders[i], At(s.ops, s.senders[i].op, NO_OP), step)]))
  {
    var x := s.senders[i];
    var next := Learned(x, At(s.ops, x.op, NO_OP), step);
    if Alone(x) {
      assert next == x && s.senders[i := x] == s.senders;
    } else {
      LearnKeepsInv(s, i, next);
    }
  }

  /** Results and completions have nothing to do with places and references. */
  lemma OpChangeKeepsInv(s: State, o: nat, op: Op)
    requires Inv(s) && op == At(s.ops, o, NO_OP).(result := op.result, signal := op.signal)
    ensures Inv(s.(ops := Set(s.ops, o, op)))
  {
    if o < |s.ops| {
      assert RefOk(s.ops[o], s.log.home[o], s.senders);
      RefKept(s.ops, s.log.home, s.senders, o, op, s.log.home[o]);
      assert s.log.home[o := s.log.home[o]] == s.log.home;
    }
  }

  lemma WakeKeepsInv(s: State, i: nat)
    requires Inv(s) && i < |s.senders| && s.senders[i].Waiting?
    ensures Inv(Wake(s, i, s.senders[i].op, s.senders[i].me))
  {
    var o, op := s.senders[i].op, At(s.ops, s.senders[i].op, NO_OP);
    if op.signal > 0 {
      OpChangeKeepsInv(s, o, op.(signal := op.signal - 1));
      LearnKeepsInv(s.(ops := Set(s.ops, o, op.(signal := op.signal - 1))), i, Woken(o, s.senders[i].me));
    }
  }

  /** A sender that has a reference finds a timeout. */
  lemma WaiterTimeout(s: State, i: nat)
    requires Inv(s) && i < |s.senders| && !Alone(s.senders[i]) && OpOf(s.senders[i]).Some?
    ensures At(s.ops, OpOf(s.senders[i]).value, NO_OP).timeout > 0
  {
    var o := OpOf(s.senders[i]).value;
    assert Agree(i, s.senders[i], o, s.log.home[o]);
    assert RefOk(s.ops[o], s.log.home[o], s.senders);
  }

  lemma TestKeepsInv(s: State, i: nat)
    requires Inv(s) && i < |s.senders| && s.senders[i].Leaving?
    ensures Inv(Test(s, i, s.senders[i]))
  {
    var x := s.senders[i];
    if OpOf(x).Some? { WaiterTimeout(s, i); }
    if At(s.ops, x.op, NO_OP).timeout > 0 {
      LearnKeepsInv(s, i, Dropping(x.op, x.me, x.ret, x.woken));
    } else {
      LearnKeepsInv(s, i, Idle);
    }
  }

  lemma WaiterDropKeepsInv(s: State, i: nat)
    requires Inv(s) && i < |s.senders| && s.senders[i].Dropping? && s.senders[i].me.waits
    ensures Inv(DropBySender(s, i, s.senders[i]))
  {
    var o, log := s.senders[i].op, s.log;
    assert Agree(i, s.senders[i], o, log.home[o]);
    var op := s.ops[o];
    assert RefOk(op, log.home[o], s.senders);
    var last := op.ref == 1;
    var h, next := if last then WithSender(i) else Shared(None, true), if last then Freeing(o) else Idle;
    FreeKept(s.free, log.home, o, h);
    ActiveKept(s.active, s.worker, log.home, o, h);
    SendersStep(s.senders, log.home, i, next, o, h);
    RefStep(s.ops, log.home, s.senders, i, next, o, op.(ref := op.ref - 1), h);
    TicketKept(log.home, log.ticket, log.opOf, log.freed, o, h);
  }

  lemma StrangerDropKeepsInv(s: State, i: nat)
    requires Inv(s) && i < |s.senders| && s.senders[i].Dropping? && !s.senders[i].me.waits
    requires !StaleDrop(s, SenderDrop(i))
    ensures Inv(DropBySender(s, i, s.senders[i]))
  {
    var o, home := s.senders[i].op, s.log.home;
    if o < |s.ops| {
      var op := s.ops[o].(ref := s.ops[o].ref - 1);
      assert RefOk(s.ops[o], home[o], s.senders) && RefOk(op, home[o], s.senders);
      RefKept(s.ops, home, s.senders, o, op, home[o]);
      assert home[o := home[o]] == home;
    }
    StrangerStep(s.senders, home, DropBySender(s, i, s.senders[i]).ops, i, Idle);
  }

  lemma SenderFreeKeepsInv(s: State, i: nat)
    requires Inv(s) && i < |s.senders| && s.senders[i].Freeing?
    ensures Inv(PutFree(s, s.senders[i].op).(senders := s.senders[i := Idle]))
  {
    var o, log := s.senders[i].op, s.log;
    assert Agree(i, s.senders[i], o, log.home[o]);
    assert RefOk(s.ops[o], log.home[o], s.senders);
    PutFreeFree(s.free, log.home, o);
    ActiveKept(s.active, s.worker, log.home, o, InFree);
    SendersStep(s.senders, log.home, i, Idle, o, InFree);
    RefStep(s.ops, log.home, s.senders, i, Idle, o, s.ops[o], InFree);
    assert s.ops[o := s.ops[o]] == s.ops;
    TicketFreed(log.home, log.ticket, log.opOf, log.freed, o);
  }

  lemma TakeKeepsInv(s: State)
    requires Inv(s) && s.worker.Waits?
    ensures Inv(TakeActive(s))
  {
    GetTakesFront(s.active);
    if Contents(s.active) != [] {
      var o, active := Contents(s.active)[0], Get(s.active).0;
      assert Hand(Holds(o)) + Contents(active) == Contents(s.active) == Hand(s.worker) + Contents(s.active);
      assert Unhandled(Holds(o), active) == Unhandled(s.worker, s.active);
    }
  }

  lemma HandleOrder(s: State, value: int)
    requires s.worker.Holds? && s.worker.op < |s.ops| && OrderInv(s.active, s.worker, s.log) && RequestInv(s.ops, s.log)
    requires !s.log.home[s.worker.op].InFree?
    ensures var s' := Handle(s, s.worker.op, value); OrderInv(s'.active, s'.worker, s'.log)
  {
    var o, log, w := s.worker.op, s.log, Handle(s, s.worker.op, value).worker;
    assert Unhandled(s.worker, s.active) == [o] + Unhandled(w, s.active);
    assert Tickets(log.ticket, Unhandled(s.worker, s.active))
             == [log.ticket[o]] + Tickets(log.ticket, Unhandled(w, s.active));
  }

  lemma HandleKeepsInv(s: State, value: int)
    requires Inv(s) && s.worker.Holds?
    ensures Inv(Handle(s, s.worker.op, value))
  {
    assert s.worker.op in Hand(s.worker) + Contents(s.active);
    HandleOrder(s, value);
  }

  lemma NoDupHead(x: nat, s: seq<nat>)
    requires NoDup([x] + s)
    ensures NoDup(s) && forall y :: y in s <==> y in [x] + s && y != x
  {
    NoDupTail([x] + s);
    assert ([x] + s)[1..] == s;
  }

  lemma DropActive(active: Queue, w: Worker, next: Worker, home: seq<Home>, h: Home)
    requires ActiveInv(active, w, home) && w.Handled? && w.op < |home|
    requires (h == WithWorker && next == Returning(w.op)) || (h.Shared? && !h.worker && next.Dropped?)
    ensures ActiveInv(active, next, home[w.op := h])
  {
    assert Hand(next) + Contents(active) == Contents(active);
    NoDupHead(w.op, Contents(active));
  }

  lemma WorkerDropKeepsInv(s: State)
    requires Inv(s) && s.worker.Handled?
    ensures Inv(DropByWorker(s, s.worker.op, s.worker.ret))
  {
    var o, log, s' := s.worker.op, s.log, DropByWorker(s, s.worker.op, s.worker.ret);
    assert o in Hand(s.worker) + Contents(s.active);
    var h := s'.log.home[o];
    assert RefOk(s.ops[o], log.home[o], s.senders);
    FreeKept(s.free, log.home, o, h);
    DropActive(s.active, s.worker, s'.worker, log.home, h);
    SendersKept(s.senders, log.home, o, h);
    RefKept(s.ops, log.home, s.senders, o, s'.ops[o], h);
    TicketKept(log.home, log.ticket, log.opOf, log.freed, o, h);
  }

  // the worker goes on to where it has no reference
  lemma WorkerMovesOn(s: State, w: Worker)
    requires Inv(s) && (s.worker.Dropped? || s.worker.Writing? || s.worker.Raising?)
    requires w.Waits? || w.Writing? || w.Raising?
    ensures Inv(s.(worker := w))
  {
    assert Hand(w) == Hand(s.worker);
  }

  /** The result may be written after the op has been recycled: references and places do not care. */
  lemma WriteKeepsInv(s: State)
    requires Inv(s) && s.worker.Writing?
    ensures Inv(Write(s, s.worker.op, s.worker.ret))
  {
    var o := s.worker.op;
    WorkerMovesOn(s, Raising(o));
    OpChangeKeepsInv(s.(worker := Raising(o)), o, At(s.ops, o, NO_OP).(result := s.worker.ret));
  }

  /** Nor do they if the completion is raised then. */
  lemma RaiseKeepsInv(s: State)
    requires Inv(s) && s.worker.Raising?
    ensures Inv(Raise(s, s.worker.op))
  {
    var o, op := s.worker.op, At(s.ops, s.worker.op, NO_OP);
    WorkerMovesOn(s, Waits);
    OpChangeKeepsInv(s.(worker := Waits), o, op.(signal := op.signal + 1));
  }

  lemma FinishKeepsInv(s: State)
    requires Inv(s) && s.worker.Handled?
    ensures Inv(Finish(s, s.worker.op, s.worker.ret))
  {
    var o, ret := s.worker.op, s.worker.ret;
    var s' := DropByWorker(s, o, ret);
    WorkerDropKeepsInv(s);
    if s'.worker.Dropped? {
      var s'' := TestByWorker(s', o, ret);
      WorkerMovesOn(s', s''.worker);
      if s''.worker.Writing? {
        WriteKeepsInv(s'');
        RaiseKeepsInv(Write(s'', o, ret));
      }
    }
  }

  lemma WorkerFreeKeepsInv(s: State)
    requires Inv(s) && s.worker.Returning?
    ensures Inv(PutFree(s, s.worker.op).(worker := Waits))
  {
    var o, log := s.worker.op, s.log;
    assert log.home[o] == WithWorker;
    assert RefOk(s.ops[o], log.home[o], s.senders);
    PutFreeFree(s.free, log.home, o);
    SendersKept(s.senders, log.home, o, InFree);
    RefKept(s.ops, log.home, s.senders, o, s.ops[o], InFree);
    assert s.ops[o := s.ops[o]] == s.ops;
    TicketFreed(log.home, log.ticket, log.opOf, log.freed, o);
  }

  lemma DropKeepsInv(s: State, i: nat)
    requires Inv(s) && i < |s.senders| && s.senders[i].Dropping? && !StaleDrop(s, SenderDrop(i))
    ensures Inv(DropBySender(s, i, s.senders[i]))
  {
    if s.senders[i].me.waits { WaiterDropKeepsInv(s, i); } else { StrangerDropKeepsInv(s, i); }
  }

  predicate Sends(step: Step) { step.SenderGet? || step.SenderPrepare? || step.SenderEnqueue? }

  lemma SendKeepsInv(s: State, i: nat, step: Step)
    requires Inv(s) && i < |s.senders| && Sends(step)
    ensures Inv(AdvanceSender(s, i, step))
  {
    var x := s.senders[i];
    if step.SenderGet? { if x.Idle? { GetKeepsInv(s, i, step.request, step.wait); } }
    else if step.SenderPrepare? { if Preparing(x) { PrepareKeepsInv(s, i); } }
    else if x.Ready? { EnqueueKeepsInv(s, i); }
  }

  lemma TestStepKeepsInv(s: State, i: nat)
    requires Inv(s) && i < |s.senders|
    ensures Inv(AdvanceSender(s, i, SenderTest(i)))
  {
    if s.senders[i].Leaving? { TestKeepsInv(s, i); }
  }

  lemma DropStepKeepsInv(s: State, i: nat)
    requires Inv(s) && i < |s.senders| && !StaleDrop(s, SenderDrop(i))
    ensures Inv(AdvanceSender(s, i, SenderDrop(i)))
  {
    if s.senders[i].Dropping? { DropKeepsInv(s, i); }
  }

  lemma FreeStepKeepsInv(s: State, i: nat)
    requires Inv(s) && i < |s.senders|
    ensures Inv(AdvanceSender(s, i, SenderFree(i)))
  {
    if s.senders[i].Freeing? { SenderFreeKeepsInv(s, i); }
  }

  lemma WaitKeepsInv(s: State, i: nat, step: Step)
    requires Inv(s) && i < |s.senders| && !ByWorker(step) && !Sends(step)
    requires !step.SenderTest? && !step.SenderDrop? && !step.SenderFree?
    ensures Inv(AdvanceSender(s, i, step))
  {
    var x := s.senders[i];
    if step.SenderWake? { if x.Waiting? { WakeKeepsInv(s, i); } }
    else if !x.Idle? { LearnedKeepsInv(s, i, step); }
  }

  lemma WorkerKeepsInv(s: State, step: Step)
    requires Inv(s)
    ensures Inv(AdvanceWorker(s, step))
  {
    match (s.worker, step)
    case (Waits, WorkerGet) => TakeKeepsInv(s);
    case (Holds(_), WorkerHandle(value)) => HandleKeepsInv(s, value);
    case (Handled(_, _), WorkerDrop) => WorkerDropKeepsInv(s);
    case (Handled(_, _), WorkerFinish) => FinishKeepsInv(s);
    case (Dropped(o, ret), WorkerTest) => WorkerMovesOn(s, TestByWorker(s, o, ret).worker);
    case (Writing(_, _), WorkerWrite) => WriteKeepsInv(s);
    case (Raising(_), WorkerRaise) => RaiseKeepsInv(s);
    case (Returning(_), WorkerFree) => WorkerFreeKeepsInv(s);
    case _ =>
  }

  /** Every step keeps the invariant, unless a reference is dropped that is not held. */
  lemma StepKeepsInv(s: State, step: Step)
    requires Inv(s) && !StaleDrop(s, step)
    ensures Inv(Apply(s, step))
  {
    if ByWorker(step) {
      WorkerKeepsInv(s, step);
    } else if step.i < |s.senders| {
      if Sends(step) { SendKeepsInv(s, step.i, step); }
      else if step.SenderTest? { TestStepKeepsInv(s, step.i); }
      else if step.SenderDrop? { DropStepKeepsInv(s, step.i); }
      else if step.SenderFree? { FreeStepKeepsInv(s, step.i); }
      else { WaitKeepsInv(s, step.i, step); }
    }
  }

  lemma InitInv(n: u32, k: nat, handlers: seq<bool>)
    requires ValidSize(n)
    ensures Inv(Init(n, k, handlers))
  {
    var s := Init(n, k, handlers);
    FilledHolds(n, n);
    FilledHolds(n, 0);
    assert FreeInv(s.free, s.log.home) by {
      forall o: nat ensures o in Iota(n) <==> o < n {
        if o < n { assert Iota(n)[o] == o; }
      }
    }
  }
}
