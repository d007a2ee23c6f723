/** Which value a waiting sender of msg_thread.c gets back. The worker drops its reference first and
    writes the result and raises the completion after that; in between the op can be recycled. */
module MsgThreadResults {
  import opened Options
  import opened Words
  import opened OpQueues
  import opened MsgThread
  import opened MsgThreadTheorems

  // ret is what ticket t's own handler returned
  predicate Own(ret: int, t: nat, produced: map<nat, int>) { t in produced && produced[t] == ret }

  /** What a sender may come back with: its own handler's value, or -9 if it was not woken. */
  predicate RetOk(ret: int, woken: bool, t: nat, produced: map<nat, int>) {
    Own(ret, t, produced) || (ret == -9 && !woken)
  }

  /** The value the worker is about to write into op o. */
  function Late(w: Worker, o: nat): Option<int> {
    match w
    case Dropped(p, ret) => if p == o then Some(ret) else None
    case Writing(p, ret) => if p == o then Some(ret) else None
    case _ => None
  }

  // the sender has written its -9, and will still read the result
  predicate AwaitsResult(x: Sender, op: Op) {
    || x.Reset? || x.Inited? || ((x.Counted? || x.Ready?) && op.timeout > 0)
    || x.Posted? || x.Waiting? || x.TimedOut?
  }

  // the sender has initialised the completion, and may still wait for it
  predicate AwaitsSignal(x: Sender, op: Op) {
    x.Inited? || ((x.Counted? || x.Ready?) && op.timeout > 0) || x.Posted? || x.Waiting?
  }

  /** The op as this sender prepared it, as far as it will still look. */
  predicate Untouched(op: Op, x: Sender) {
    && (AwaitsResult(x, op) ==> op.result == -9)
    && (AwaitsSignal(x, op) ==> op.signal == 0)
    && !x.Woken?
  }

  predicate OpResultOk(op: Op, h: Home, senders: seq<Sender>, t: nat, produced: map<nat, int>, late: Option<int>) {
    match h
    case WithSender(i) => Untouched(op, At(senders, i, Idle))
    case Shared(Some(i), true) => Untouched(op, At(senders, i, Idle))
    case Shared(Some(i), false) =>
      (match late
       case Some(ret) => Own(ret, t, produced) && Untouched(op, At(senders, i, Idle))
       case None => Own(op.result, t, produced))
    case _ => true
  }

  predicate SenderResultOk(x: Sender, t: nat, produced: map<nat, int>) {
    && (HasCall(x) ==> x.me.ticket == t)
    && (x.Leaving? || x.Dropping? ==> RetOk(x.ret, x.woken, t, produced))
  }

  ghost predicate OpsInv(s: State) {
    |s.ops| == |s.log.home| == |s.log.ticket| &&
    forall o :: 0 <= o < |s.ops| ==>
      OpResultOk(s.ops[o], s.log.home[o], s.senders, s.log.ticket[o], s.log.produced, Late(s.worker, o))
  }

  ghost predicate WaitersInv(s: State) {
    forall i :: 0 <= i < |s.senders| && OpOf(s.senders[i]).Some? ==>
      SenderResultOk(s.senders[i], At(s.log.ticket, s.senders[i].op, 0), s.log.produced)
  }

  predicate ReturnOk(r: Return, produced: map<nat, int>) {
    r.me.waits ==> RetOk(r.ret, r.woken, r.me.ticket, produced)
  }

  ghost predicate LogInv(s: State) {
    && (forall t :: t in s.log.produced ==> t in s.log.handled)
    && (s.worker.Handled? ==> Own(s.worker.ret, At(s.log.ticket, s.worker.op, 0), s.log.produced))
    && (forall j :: 0 <= j < |s.log.returned| ==> ReturnOk(s.log.returned[j], s.log.produced))
  }

  ghost predicate ResultInv(s: State) { OpsInv(s) && WaitersInv(s) && LogInv(s) }

  /** All that holds in every state of a run without a stale step. */
  ghost predicate Sound(s: State) { Inv(s) && ResultInv(s) && OnceInv(s.senders, s.log) }

  /** The sender of a call of op o that waits, or may, and that the worker has not yet handled. */
  function Pending(s: State, o: nat): Option<Sender> {
    match At(s.log.home, o, InFree)
    case WithSender(i) => Some(At(s.senders, i, Idle))
    case Shared(Some(i), true) => Some(At(s.senders, i, Idle))
    case _ => None
  }

  /** The worker is about to write its result into an op that has been recycled, over the -9 that the new
      sender will read; ... */
  predicate StaleWrite(s: State) {
    && s.worker.Writing? && s.worker.ret != -9
    && var x := Pending(s, s.worker.op);
       x.Some? && AwaitsResult(x.value, At(s.ops, s.worker.op, NO_OP))
  }

  /** ... or to raise the completion that the new sender will wait for. */
  predicate StaleRaise(s: State) {
    && s.worker.Raising?
    && var x := Pending(s, s.worker.op);
       x.Some? && AwaitsSignal(x.value, At(s.ops, s.worker.op, NO_OP))
  }

  predicate StaleSignal(s: State, step: Step) {
    (step.WorkerWrite? && StaleWrite(s)) || (step.WorkerRaise? && StaleRaise(s))
  }

  // ---- steps of a sender

  /** From s to s' only sender i and op o change. */
  ghost predicate Touches(s: State, s': State, i: nat, o: nat) {
    && |s'.senders| == |s.senders|
    && (forall j :: 0 <= j < |s.senders| && j != i ==> s'.senders[j] == s.senders[j])
    && |s'.ops| == |s'.log.home| == |s'.log.ticket| == |s.ops| == |s.log.home| == |s.log.ticket|
    && (forall p :: 0 <= p < |s.ops| && p != o ==>
          s'.ops[p] == s.ops[p] && s'.log.home[p] == s.log.home[p] && s'.log.ticket[p] == s.log.ticket[p])
    && s'.worker == s.worker && s'.log.produced == s.log.produced
  }

  lemma OpsStep(s: State, s': State, i: nat, o: nat)
    requires SendersInv(s.senders, s.log.home) && OpsInv(s) && i < |s.senders| && o < |s.ops| && Touches(s, s', i, o)
    requires OpOf(s.senders[i]) == None || OpOf(s.senders[i]) == Some(o)
    requires OpResultOk(s'.ops[o], s'.log.home[o], s'.senders, s'.log.ticket[o], s.log.produced, Late(s.worker, o))
    ensures OpsInv(s')
  {
    forall p | 0 <= p < |s'.ops|
      ensures OpResultOk(s'.ops[p], s'.log.home[p], s'.senders, s'.log.ticket[p], s'.log.produced, Late(s'.worker, p))
    {
      assert Agree(i, s.senders[i], p, s.log.home[p]);
      if p != o {
        assert OpResultOk(s.ops[p], s.log.home[p], s.senders, s.log.ticket[p], s.log.produced, Late(s.worker, p));
      }
    }
  }

  lemma WaitersStep(s: State, s': State, i: nat, o: nat)
    requires SendersInv(s.senders, s.log.home) && WaitersInv(s) && i < |s.senders|
    requires o < |s.ops| && Touches(s, s', i, o)
    requires Owner(s.log.home[o]) == None || Owner(s.log.home[o]) == Some(i)
    requires OpOf(s'.senders[i]) == Some(o) || OpOf(s'.senders[i]) == None
    requires OpOf(s'.senders[i]) == Some(o) ==>
               SenderResultOk(s'.senders[i], s'.log.ticket[o], s.log.produced)
    ensures WaitersInv(s')
  {
    forall j | 0 <= j < |s'.senders| && OpOf(s'.senders[j]).Some?
      ensures SenderResultOk(s'.senders[j], At(s'.log.ticket, s'.senders[j].op, 0), s'.log.produced)
    {
      assert Agree(j, s.senders[j], o, s.log.home[o]);
    }
  }

  lemma GetResult(s: State, i: nat, request: Request, wait: Option<int>)
    requires Inv(s) && ResultInv(s) && i < |s.senders| && s.senders[i].Idle?
    ensures ResultInv(GetFree(s, i, request, wait))
  {
    GetTakesFront(s.free);
    if Contents(s.free) != [] {
      var s', o := GetFree(s, i, request, wait), Contents(s.free)[0];
      assert o in Contents(s.free);
      OpsStep(s, s', i, o);
      WaitersStep(s, s', i, o);
      if s.worker.Handled? { assert s.worker.op in Hand(s.worker) + Contents(s.active); }
    }
  }

  lemma PrepareResult(s: State, i: nat)
    requires Inv(s) && ResultInv(s) && i < |s.senders| && Preparing(s.senders[i])
    ensures ResultInv(Prepare(s, i, s.senders[i].op))
  {
    var o, s' := s.senders[i].op, Prepare(s, i, s.senders[i].op);
    assert Agree(i, s.senders[i], o, s.log.home[o]);
    assert OpResultOk(s.ops[o], s.log.home[o], s.senders, s.log.ticket[o], s.log.produced, Late(s.worker, o));
    OpsStep(s, s', i, o);
    WaitersStep(s, s', i, o);
  }

  lemma EnqueueResult(s: State, i: nat)
    requires Inv(s) && ResultInv(s) && i < |s.senders| && s.senders[i].Ready?
    ensures ResultInv(Enqueue(s, i, s.senders[i].op))
  {
    var o, s' := s.senders[i].op, Enqueue(s, i, s.senders[i].op);
    assert Agree(i, s.senders[i], o, s.log.home[o]);
    PublishActive(s.active, s.worker, s.log.home, o, Shared(None, true));
    assert OpResultOk(s.ops[o], s.log.home[o], s.senders, s.log.ticket[o], s.log.produced, Late(s.worker, o));
    OpsStep(s, s', i, o);
    WaitersStep(s, s', i, o);
  }

  /** What a sender without a reference does concerns no other. */
  lemma StrangerResult(s: State, i: nat, next: Sender)
    requires Inv(s) && ResultInv(s) && i < |s.senders| && OpOf(s.senders[i]) == OpOf(next) == None
    ensures ResultInv(s.(senders := s.senders[i := next]))
  {
    var s' := s.(senders := s.senders[i := next]);
    forall p | 0 <= p < |s'.ops|
      ensures OpResultOk(s'.ops[p], s'.log.home[p], s'.senders, s'.log.ticket[p], s'.log.produced, Late(s'.worker, p))
    {
      assert Agree(i, s.senders[i], p, s.log.home[p]);
      assert OpResultOk(s.ops[p], s.log.home[p], s.senders, s.log.ticket[p], s.log.produced, Late(s.worker, p));
    }
  }

  /** A sender that waits goes on to `next`. */
  lemma LearnResult(s: State, i: nat, next: Sender)
    requires Inv(s) && ResultInv(s) && i < |s.senders| && OpOf(s.senders[i]).Some?
    requires !Alone(s.senders[i]) && !Alone(next) && OpOf(next) == OpOf(s.senders[i])
    requires var o := next.op;
             && SenderResultOk(next, At(s.log.ticket, o, 0), s.log.produced)
             && (Untouched(At(s.ops, o, NO_OP), s.senders[i]) ==> Untouched(At(s.ops, o, NO_OP), next))
    ensures ResultInv(s.(senders := s.senders[i := next]))
  {
    var o, s' := next.op, s.(senders := s.senders[i := next]);
    assert Agree(i, s.senders[i], o, s.log.home[o]);
    assert OpResultOk(s.ops[o], s.log.home[o], s.senders, s.log.ticket[o], s.log.produced, Late(s.worker, o));
    OpsStep(s, s', i, o);
    WaitersStep(s, s', i, o);
  }

  /** What a waiting sender finds in the op. */
  lemma ResultFound(s: State, i: nat)
    requires Inv(s) && ResultInv(s) && i < |s.senders| && (s.senders[i].Woken? || s.senders[i].TimedOut?)
    requires s.senders[i].me.waits
    ensures var o := s.senders[i].op;
            && o < |s.ops| && s.senders[i].me.ticket == s.log.ticket[o]
            && RetOk(s.ops[o].result, s.senders[i].Woken?, s.log.ticket[o], s.log.produced)
  {
    var o := s.senders[i].op;
    assert Agree(i, s.senders[i], o, s.log.home[o]);
    assert OpResultOk(s.ops[o], s.log.home[o], s.senders, s.log.ticket[o], s.log.produced, Late(s.worker, o));
    assert SenderResultOk(s.senders[i], s.log.ticket[o], s.log.produced);
  }

  lemma LearnedResult(s: State, i: nat, step: Step)
    requires Inv(s) && ResultInv(s) && i < |s.senders| && !s.senders[i].Idle?
    ensures ResultInv(s.(senders := s.senders[i := Learned(s.senders[i], At(s.ops, s.senders[i].op, NO_OP), step)]))
  {
    var x := s.senders[i];
    var next := Learned(x, At(s.ops, x.op, NO_OP), step);
    if next == x {
      assert s.senders[i := x] == s.senders;
    } else if OpOf(x) == None {
      StrangerResult(s, i, next);
    } else {
      WaiterTimeout(s, i);
      assert SenderResultOk(x, At(s.log.ticket, x.op, 0), s.log.produced);
      if x.Woken? || x.TimedOut? { ResultFound(s, i); }
      LearnResult(s, i, next);
    }
  }

  /** An op changes, for reasons that its sender need not know. */
  lemma OpChangeResult(s: State, o: nat, op: Op)
    requires ResultInv(s)
    requires o < |s.ops| ==>
               OpResultOk(op, s.log.home[o], s.senders, s.log.ticket[o], s.log.produced, Late(s.worker, o))
    ensures ResultInv(s.(ops := Set(s.ops, o, op)))
  {
    var s' := s.(ops := Set(s.ops, o, op));
    forall p | 0 <= p < |s'.ops|
      ensures OpResultOk(s'.ops[p], s'.log.home[p], s'.senders, s'.log.ticket[p], s'.log.produced, Late(s'.worker, p))
    {
      if p != o {
        assert OpResultOk(s.ops[p], s.log.home[p], s.senders, s.log.ticket[p], s.log.produced, Late(s.worker, p));
      }
    }
  }

  lemma WakeResult(s: State, i: nat)
    requires Inv(s) && ResultInv(s) && i < |s.senders| && s.senders[i].Waiting?
    ensures ResultInv(Wake(s, i, s.senders[i].op, s.senders[i].me))
  {
    var x := s.senders[i];
    var o, op := x.op, At(s.ops, x.op, NO_OP);
    if op.signal > 0 {
      if o < |s.ops| {
        assert OpResultOk(s.ops[o], s.log.home[o], s.senders, s.log.ticket[o], s.log.produced, Late(s.worker, o));
      }
      OpChangeResult(s, o, op.(signal := op.signal - 1));
      OpChangeKeepsInv(s, o, op.(signal := op.signal - 1));
      var s' := s.(ops := Set(s.ops, o, op.(signal := op.signal - 1)));
      if x.me.waits { WokenResult(s, s', i); } else { StrangerResult(s', i, Woken(o, x.me)); }
    }
  }

  /** A waiter that is woken has its result. */
  lemma WokenResult(s: State, s': State, i: nat)
    requires Inv(s) && ResultInv(s) && i < |s.senders| && s.senders[i].Waiting? && s.senders[i].me.waits
    requires Inv(s') && ResultInv(s') && At(s.ops, s.senders[i].op, NO_OP).signal > 0
    requires var o := s.senders[i].op;
             o < |s.ops| && s' == s.(ops := s.ops[o := s.ops[o].(signal := s.ops[o].signal - 1)])
    ensures ResultInv(s'.(senders := s.senders[i := Woken(s.senders[i].op, s.senders[i].me)]))
  {
    var o := s.senders[i].op;
    assert Agree(i, s.senders[i], o, s.log.home[o]);
    assert OpResultOk(s.ops[o], s.log.home[o], s.senders, s.log.ticket[o], s.log.produced, Late(s.worker, o));
    assert SenderResultOk(s.senders[i], s.log.ticket[o], s.log.produced);
    var next := s'.(senders := s.senders[i := Woken(o, s.senders[i].me)]);
    OpsStep(s', next, i, o);
    WaitersStep(s', next, i, o);
  }

  lemma TestResult(s: State, i: nat)
    requires Inv(s) && ResultInv(s) && i < |s.senders| && s.senders[i].Leaving?
    ensures ResultInv(Test(s, i, s.senders[i]))
  {
    var x := s.senders[i];
    var next := Dropping(x.op, x.me, x.ret, x.woken);
    if x.me.waits {
      WaiterTimeout(s, i);
      assert SenderResultOk(x, At(s.log.ticket, x.op, 0), s.log.produced);
      LearnResult(s, i, next);
    } else {
      StrangerResult(s, i, next);
      StrangerResult(s, i, Idle);
    }
  }

  lemma WaiterDropResult(s: State, i: nat)
    requires Inv(s) && ResultInv(s) && i < |s.senders| && s.senders[i].Dropping? && s.senders[i].me.waits
    ensures ResultInv(DropBySender(s, i, s.senders[i]))
  {
    var o, x := s.senders[i].op, s.senders[i];
    var s' := DropBySender(s, i, x);
    assert Agree(i, x, o, s.log.home[o]);
    OpsStep(s, s', i, o);
    WaitersStep(s, s', i, o);
    assert SenderResultOk(x, s.log.ticket[o], s.log.produced);
  }

  lemma StrangerDropResult(s: State, i: nat)
    requires Inv(s) && ResultInv(s) && i < |s.senders| && s.senders[i].Dropping? && !s.senders[i].me.waits
    requires !StaleDrop(s, SenderDrop(i))
    ensures ResultInv(DropBySender(s, i, s.senders[i]))
  {
    var o, home := s.senders[i].op, s.log.home;
    var op := At(s.ops, o, NO_OP);
    StrangerResult(s, i, Idle);
    var s' := s.(senders := s.senders[i := Idle]);
    if o < |s.ops| {
      assert RefOk(s.ops[o], home[o], s.senders);
      assert OpResultOk(op, home[o], s'.senders, s.log.ticket[o], s.log.produced, Late(s.worker, o));
      assert home[o := home[o]] == home;
    }
    OpChangeResult(s', o, op.(ref := op.ref - 1));
  }

  lemma SenderFreeResult(s: State, i: nat)
    requires Inv(s) && ResultInv(s) && i < |s.senders| && s.senders[i].Freeing?
    ensures ResultInv(PutFree(s, s.senders[i].op).(senders := s.senders[i := Idle]))
  {
    var o, s' := s.senders[i].op, PutFree(s, s.senders[i].op).(senders := s.senders[i := Idle]);
    assert Agree(i, s.senders[i], o, s.log.home[o]);
    PutFreeFree(s.free, s.log.home, o);
    OpsStep(s, s', i, o);
    WaitersStep(s, s', i, o);
  }

  lemma SenderKeepsResult(s: State, i: nat, step: Step)
    requires Inv(s) && ResultInv(s) && i < |s.senders| && !ByWorker(step) && step.i == i && !StaleDrop(s, step)
    ensures ResultInv(AdvanceSender(s, i, step))
  {
    var x := s.senders[i];
    match step
    case SenderGet(_, request, wait) => if x.Idle? { GetResult(s, i, request, wait); }
    case SenderPrepare(_) => if Preparing(x) { PrepareResult(s, i); }
    case SenderEnqueue(_) => if x.Ready? { EnqueueResult(s, i); }
    case SenderWake(_) => if x.Waiting? { WakeResult(s, i); }
    case SenderTest(_) => if x.Leaving? { TestResult(s, i); }
    case SenderDrop(_) =>
      if x.Dropping? && x.me.waits { WaiterDropResult(s, i); }
      else if x.Dropping? { StrangerDropResult(s, i); }
    case SenderFree(_) => if x.Freeing? { SenderFreeResult(s, i); }
    case _ => if !x.Idle? { LearnedResult(s, i, step); }
  }

  // ---- steps of the worker

  lemma TakeResult(s: State)
    requires Inv(s) && ResultInv(s) && s.worker.Waits?
    ensures ResultInv(TakeActive(s))
  {
    var s' := TakeActive(s);
    forall o | 0 <= o < |s'.ops|
      ensures OpResultOk(s'.ops[o], s'.log.home[o], s'.senders, s'.log.ticket[o], s'.log.produced, Late(s'.worker, o))
    {
      assert Late(s.worker, o) == Late(s'.worker, o) == None;
    }
  }

  lemma NotYetProduced(s: State)
    requires Inv(s) && OnceInv(s.senders, s.log) && s.worker.Holds?
    requires forall t :: t in s.log.produced ==> t in s.log.handled
    ensures s.worker.op < |s.ops| && s.log.ticket[s.worker.op] !in s.log.produced
  {
    var o, n := s.worker.op, |s.log.handled|;
    assert o in Hand(s.worker) + Contents(s.active);
    assert s.log.enqueued[n] == Tickets(s.log.ticket, Unhandled(s.worker, s.active))[0] == s.log.ticket[o];
    forall j | 0 <= j < n ensures s.log.handled[j] != s.log.ticket[o] {
      assert s.log.enqueued[j] == s.log.handled[j];
    }
  }

  lemma HandleResult(s: State, value: int)
    requires Inv(s) && ResultInv(s) && OnceInv(s.senders, s.log) && s.worker.Holds?
    ensures ResultInv(Handle(s, s.worker.op, value))
  {
    NotYetProduced(s);
    var s' := Handle(s, s.worker.op, value);
    forall o | 0 <= o < |s'.ops|
      ensures OpResultOk(s'.ops[o], s'.log.home[o], s'.senders, s'.log.ticket[o], s'.log.produced, Late(s'.worker, o))
    {
      assert OpResultOk(s.ops[o], s.log.home[o], s.senders, s.log.ticket[o], s.log.produced, Late(s.worker, o));
    }
    forall i | 0 <= i < |s'.senders| && OpOf(s'.senders[i]).Some?
      ensures SenderResultOk(s'.senders[i], At(s'.log.ticket, s'.senders[i].op, 0), s'.log.produced)
    {
      assert SenderResultOk(s.senders[i], At(s.log.ticket, s.senders[i].op, 0), s.log.produced);
    }
    forall j | 0 <= j < |s'.log.returned| ensures ReturnOk(s'.log.returned[j], s'.log.produced) {
      assert ReturnOk(s.log.returned[j], s.log.produced);
    }
  }

  // only op o changes
  ghost predicate WorkerTouches(s: State, s': State, o: nat) {
    && s'.senders == s.senders
    && |s'.ops| == |s'.log.home| == |s.ops| == |s.log.home| == |s.log.ticket| && o < |s.ops|
    && (forall p :: 0 <= p < |s.ops| && p != o ==> s'.ops[p] == s.ops[p] && s'.log.home[p] == s.log.home[p])
    && s'.log.ticket == s.log.ticket && s'.log.produced == s.log.produced
    && s'.log.handled == s.log.handled && s'.log.returned == s.log.returned
    && !s'.worker.Handled?
  }

  lemma WorkerStep(s: State, s': State, o: nat)
    requires ResultInv(s) && WorkerTouches(s, s', o)
    requires forall p :: 0 <= p < |s.ops| && p != o ==> Late(s'.worker, p) == Late(s.worker, p)
    requires OpResultOk(s'.ops[o], s'.log.home[o], s.senders, s.log.ticket[o], s.log.produced, Late(s'.worker, o))
    ensures ResultInv(s')
  {
    forall p | 0 <= p < |s'.ops|
      ensures OpResultOk(s'.ops[p], s'.log.home[p], s'.senders, s'.log.ticket[p], s'.log.produced, Late(s'.worker, p))
    {
      if p != o {
        assert OpResultOk(s.ops[p], s.log.home[p], s.senders, s.log.ticket[p], s.log.produced, Late(s.worker, p));
      }
    }
  }

  lemma WorkerDropResult(s: State)
    requires Inv(s) && ResultInv(s) && s.worker.Handled?
    ensures ResultInv(DropByWorker(s, s.worker.op, s.worker.ret))
  {
    var o, s' := s.worker.op, DropByWorker(s, s.worker.op, s.worker.ret);
    assert o in Hand(s.worker) + Contents(s.active);
    assert RefOk(s.ops[o], s.log.home[o], s.senders);
    assert OpResultOk(s.ops[o], s.log.home[o], s.senders, s.log.ticket[o], s.log.produced, Late(s.worker, o));
    WorkerStep(s, s', o);
  }

  // the op the worker deals with is not there: nothing changes
  lemma NoOpResult(s: State, s': State)
    requires ResultInv(s) && s' == s.(worker := s'.worker) && !s'.worker.Handled?
    requires forall o :: 0 <= o < |s.ops| ==> Late(s.worker, o) == Late(s'.worker, o)
    ensures ResultInv(s')
  {
    forall o | 0 <= o < |s'.ops|
      ensures OpResultOk(s'.ops[o], s'.log.home[o], s'.senders, s'.log.ticket[o], s'.log.produced, Late(s'.worker, o))
    {
      assert OpResultOk(s.ops[o], s.log.home[o], s.senders, s.log.ticket[o], s.log.produced, Late(s.worker, o));
    }
  }

  lemma WorkerTestResult(s: State)
    requires Inv(s) && ResultInv(s) && s.worker.Dropped?
    ensures ResultInv(TestByWorker(s, s.worker.op, s.worker.ret))
  {
    var o, s' := s.worker.op, TestByWorker(s, s.worker.op, s.worker.ret);
    if o < |s.ops| {
      assert RefOk(s.ops[o], s.log.home[o], s.senders);
      assert OpResultOk(s.ops[o], s.log.home[o], s.senders, s.log.ticket[o], s.log.produced, Late(s.worker, o));
      WorkerStep(s, s', o);
    } else {
      NoOpResult(s, s');
    }
  }

  lemma WriteResult(s: State)
    requires Inv(s) && ResultInv(s) && s.worker.Writing? && !StaleWrite(s)
    ensures ResultInv(Write(s, s.worker.op, s.worker.ret))
  {
    var o, s' := s.worker.op, Write(s, s.worker.op, s.worker.ret);
    if o < |s.ops| {
      assert OpResultOk(s.ops[o], s.log.home[o], s.senders, s.log.ticket[o], s.log.produced, Late(s.worker, o));
      WorkerStep(s, s', o);
    } else {
      NoOpResult(s, s');
    }
  }

  lemma RaiseResult(s: State)
    requires Inv(s) && ResultInv(s) && s.worker.Raising? && !StaleRaise(s)
    ensures ResultInv(Raise(s, s.worker.op))
  {
    var o, s' := s.worker.op, Raise(s, s.worker.op);
    if o < |s.ops| {
      assert OpResultOk(s.ops[o], s.log.home[o], s.senders, s.log.ticket[o], s.log.produced, Late(s.worker, o));
      WorkerStep(s, s', o);
    } else {
      NoOpResult(s, s');
    }
  }

  lemma WorkerFreeResult(s: State)
    requires Inv(s) && ResultInv(s) && s.worker.Returning?
    ensures ResultInv(PutFree(s, s.worker.op).(worker := Waits))
  {
    var o := s.worker.op;
    PutFreeFree(s.free, s.log.home, o);
    WorkerStep(s, PutFree(s, o).(worker := Waits), o);
  }

  /** Right after the worker's drop the waiter may have left, but cannot have been replaced. */
  lemma NotStaleYet(s: State)
    requires Inv(s) && s.worker.Handled?
    ensures Pending(DropByWorker(s, s.worker.op, s.worker.ret), s.worker.op) == None
  {
    assert s.worker.op in Hand(s.worker) + Contents(s.active);
  }

  lemma FinishResult(s: State)
    requires Inv(s) && ResultInv(s) && s.worker.Handled?
    ensures ResultInv(Finish(s, s.worker.op, s.worker.ret))
  {
    var o, ret := s.worker.op, s.worker.ret;
    var s' := DropByWorker(s, o, ret);
    WorkerDropResult(s);
    WorkerDropKeepsInv(s);
    NotStaleYet(s);
    if s'.worker.Dropped? {
      var s'' := TestByWorker(s', o, ret);
      WorkerTestResult(s');
      WorkerMovesOn(s', s''.worker);
      if s''.worker.Writing? {
        WriteResult(s'');
        WriteKeepsInv(s'');
        RaiseResult(Write(s'', o, ret));
      }
    }
  }

  lemma WorkerKeepsResult(s: State, step: Step)
    requires Inv(s) && ResultInv(s) && OnceInv(s.senders, s.log) && !StaleSignal(s, step)
    ensures ResultInv(AdvanceWorker(s, step))
  {
    match (s.worker, step)
    case (Waits, WorkerGet) => TakeResult(s);
    case (Holds(_), WorkerHandle(value)) => HandleResult(s, value);
    case (Handled(_, _), WorkerDrop) => WorkerDropResult(s);
    case (Handled(_, _), WorkerFinish) => FinishResult(s);
    case (Dropped(_, _), WorkerTest) => WorkerTestResult(s);
    case (Writing(_, _), WorkerWrite) => WriteResult(s);
    case (Raising(_), WorkerRaise) => RaiseResult(s);
    case (Returning(_), WorkerFree) => WorkerFreeResult(s);
    case _ =>
  }

  lemma StepKeepsResult(s: State, step: Step)
    requires Inv(s) && ResultInv(s) && OnceInv(s.senders, s.log) && !StaleDrop(s, step) && !StaleSignal(s, step)
    ensures ResultInv(Apply(s, step))
  {
    if ByWorker(step) { WorkerKeepsResult(s, step); }
    else if step.i < |s.senders| { SenderKeepsResult(s, step.i, step); }
  }

  // ---- over whole runs

  /** No step of the run writes into or signals an op that has been recycled. */
  ghost predicate NoStaleSignal(n: u32, k: nat, handlers: seq<bool>, steps: seq<Step>)
    requires ValidSize(n)
    decreases |steps|
  {
    steps != [] ==>
      && NoStaleSignal(n, k, handlers, steps[..|steps| - 1])
      && !StaleSignal(Run(n, k, handlers, steps[..|steps| - 1]), steps[|steps| - 1])
  }

  lemma {:induction false} RunResults(n: u32, k: nat, handlers: seq<bool>, steps: seq<Step>)
    requires ValidSize(n) && NoStaleDrop(n, k, handlers, steps) && NoStaleSignal(n, k, handlers, steps)
    ensures ResultInv(Run(n, k, handlers, steps))
    decreases |steps|
  {
    if steps != [] {
      var m := |steps| - 1;
      RunResults(n, k, handlers, steps[..m]);
      RunInv(n, k, handlers, steps[..m]);
      RunOnce(n, k, handlers, steps[..m]);
      StepKeepsResult(Run(n, k, handlers, steps[..m]), steps[m]);
    }
  }

  /** As long as no recycled op is written or signalled, every waiting sender that was woken returns what
      its own handler returned, and one that timed out returns that or -9. */
  lemma OwnResults(n: u32, k: nat, handlers: seq<bool>, steps: seq<Step>)
    requires ValidSize(n) && NoStaleDrop(n, k, handlers, steps) && NoStaleSignal(n, k, handlers, steps)
    ensures var log := Run(n, k, handlers, steps).log;
            forall j :: 0 <= j < |log.returned| && log.returned[j].me.waits ==>
              RetOk(log.returned[j].ret, log.returned[j].woken, log.returned[j].me.ticket, log.produced)
  {
    RunResults(n, k, handlers, steps);
    var log := Run(n, k, handlers, steps).log;
    forall j | 0 <= j < |log.returned| ensures ReturnOk(log.returned[j], log.produced) {}
  }

  predicate Undisturbed(w: Worker) { !w.Dropped? && !w.Writing? && !w.Raising? }

  /** In particular when the worker drops its reference, writes and signals in one step. */
  lemma {:induction false} OwnResultsWhenAtomic(n: u32, k: nat, handlers: seq<bool>, steps: seq<Step>)
    requires ValidSize(n) && forall j :: 0 <= j < |steps| ==> !steps[j].WorkerDrop?
    ensures NoStaleSignal(n, k, handlers, steps)
    decreases |steps|
  {
    if steps != [] {
      OwnResultsWhenAtomic(n, k, handlers, steps[..|steps| - 1]);
      NeverDropped(n, k, handlers, steps[..|steps| - 1]);
    }
  }

  lemma StepNeverDrops(s: State, step: Step)
    requires Sized(s) && Undisturbed(s.worker) && !step.WorkerDrop?
    ensures Undisturbed(Apply(s, step).worker)
  {}

  lemma {:induction false} NeverDropped(n: u32, k: nat, handlers: seq<bool>, steps: seq<Step>)
    requires ValidSize(n) && forall j :: 0 <= j < |steps| ==> !steps[j].WorkerDrop?
    ensures Undisturbed(Run(n, k, handlers, steps).worker)
    decreases |steps|
  {
    if steps != [] {
      NeverDropped(n, k, handlers, steps[..|steps| - 1]);
      StepNeverDrops(Run(n, k, handlers, steps[..|steps| - 1]), steps[|steps| - 1]);
    }
  }
}
