/** Runs of msg_thread.c in which no send times out: nobody leaves before the worker has raised the
    completion, so no op is recycled between the worker's drop and its signal. */
module MsgThreadTimely {
  import opened Options
  import opened Words
  import opened OpQueues
  import opened MsgThread
  import opened MsgThreadTheorems
  import opened MsgThreadResults

  predicate Patient(x: Sender) { x.Posted? || x.Waiting? }

  // between its drop and the end of its signal
  predicate Busy(w: Worker) { w.Dropped? || w.Writing? || w.Raising? }

  /** The call of op o waits, and its completion is still to be raised. */
  predicate Due(h: Home, w: Worker, o: nat) {
    h.Shared? && h.waiter.Some? && (h.worker || (Busy(w) && w.op == o))
  }

  predicate DueOk(op: Op, h: Home, senders: seq<Sender>, w: Worker, o: nat) {
    Due(h, w, o) ==> Patient(At(senders, h.waiter.value, Idle)) && op.signal == 0
  }

  // the op that the worker signals is still its waiter's
  predicate BusyOk(w: Worker, home: seq<Home>) {
    Busy(w) ==> w.op < |home| && Due(home[w.op], w, w.op) && !home[w.op].worker
  }

  ghost predicate TimelyInv(s: State) {
    && |s.ops| == |s.log.home|
    && (forall o :: 0 <= o < |s.ops| ==> DueOk(s.ops[o], s.log.home[o], s.senders, s.worker, o))
    && BusyOk(s.worker, s.log.home)
    && forall i :: 0 <= i < |s.senders| ==> !s.senders[i].TimedOut?
  }

  lemma NotStale(s: State, step: Step)
    requires TimelyInv(s)
    ensures !StaleSignal(s, step)
  {}

  // ---- steps of a sender

  lemma TimelyStep(s: State, s': State, i: nat, o: nat)
    requires SendersInv(s.senders, s.log.home) && TimelyInv(s) && i < |s.senders|
    requires o < |s.ops| && Touches(s, s', i, o)
    requires OpOf(s.senders[i]) == None || OpOf(s.senders[i]) == Some(o)
    requires DueOk(s'.ops[o], s'.log.home[o], s'.senders, s.worker, o)
    requires BusyOk(s.worker, s'.log.home) && !s'.senders[i].TimedOut?
    ensures TimelyInv(s')
  {
    forall p | 0 <= p < |s'.ops|
      ensures DueOk(s'.ops[p], s'.log.home[p], s'.senders, s'.worker, p)
    {
      assert Agree(i, s.senders[i], p, s.log.home[p]);
      if p != o { assert DueOk(s.ops[p], s.log.home[p], s.senders, s.worker, p); }
    }
  }

  lemma GetTimely(s: State, i: nat, request: Request, wait: Option<int>)
    requires Inv(s) && TimelyInv(s) && i < |s.senders| && s.senders[i].Idle?
    ensures TimelyInv(GetFree(s, i, request, wait))
  {
    GetTakesFront(s.free);
    if Contents(s.free) != [] {
      var s', o := GetFree(s, i, request, wait), Contents(s.free)[0];
      assert o in Contents(s.free);
      TimelyStep(s, s', i, o);
    }
  }

  lemma PrepareTimely(s: State, i: nat)
    requires Inv(s) && TimelyInv(s) && i < |s.senders| && Preparing(s.senders[i])
    ensures TimelyInv(Prepare(s, i, s.senders[i].op))
  {
    var o := s.senders[i].op;
    assert Agree(i, s.senders[i], o, s.log.home[o]);
    TimelyStep(s, Prepare(s, i, o), i, o);
  }

  lemma EnqueueTimely(s: State, i: nat)
    requires Inv(s) && ResultInv(s) && TimelyInv(s) && i < |s.senders| && s.senders[i].Ready?
    ensures TimelyInv(Enqueue(s, i, s.senders[i].op))
  {
    var o := s.senders[i].op;
    assert Agree(i, s.senders[i], o, s.log.home[o]);
    assert OpResultOk(s.ops[o], s.log.home[o], s.senders, s.log.ticket[o], s.log.produced, Late(s.worker, o));
    PublishActive(s.active, s.worker, s.log.home, o, Shared(None, true));
    TimelyStep(s, Enqueue(s, i, o), i, o);
  }

  /** A sender that goes on has no call due, or goes on being patient. */
  lemma GoesOnTimely(s: State, s': State, i: nat)
    requires Inv(s) && TimelyInv(s) && i < |s.senders| == |s'.senders|
    requires s' == s.(senders := s.senders[i := s'.senders[i]], log := s.log.(returned := s'.log.returned))
    requires OpOf(s.senders[i]).Some? && Patient(s.senders[i]) ==> Patient(s'.senders[i])
    requires !s'.senders[i].TimedOut?
    ensures TimelyInv(s')
  {
    var o := if OpOf(s.senders[i]).Some? then OpOf(s.senders[i]).value else 0;
    assert Agree(i, s.senders[i], o, s.log.home[o]);
    assert DueOk(s.ops[o], s.log.home[o], s.senders, s.worker, o);
    TimelyStep(s, s', i, o);
  }

  lemma LearnedTimely(s: State, i: nat, step: Step)
    requires Inv(s) && TimelyInv(s) && i < |s.senders| && !s.senders[i].Idle? && !step.SenderTimeout?
    ensures TimelyInv(s.(senders := s.senders[i := Learned(s.senders[i], At(s.ops, s.senders[i].op, NO_OP), step)]))
  {
    var x := s.senders[i];
    if !Alone(x) && OpOf(x).Some? { WaiterTimeout(s, i); }
    GoesOnTimely(s, s.(senders := s.senders[i := Learned(x, At(s.ops, x.op, NO_OP), step)]), i);
  }

  lemma WakeTimely(s: State, i: nat)
    requires Inv(s) && TimelyInv(s) && i < |s.senders| && s.senders[i].Waiting?
    ensures TimelyInv(Wake(s, i, s.senders[i].op, s.senders[i].me))
  {
    var x, s' := s.senders[i], Wake(s, i, s.senders[i].op, s.senders[i].me);
    var o := if x.op < |s.ops| then x.op else 0;
    assert Agree(i, x, o, s.log.home[o]);
    assert DueOk(s.ops[o], s.log.home[o], s.senders, s.worker, o);
    if s' != s { TimelyStep(s, s', i, o); }
  }

  lemma TestTimely(s: State, i: nat)
    requires Inv(s) && TimelyInv(s) && i < |s.senders| && s.senders[i].Leaving?
    ensures TimelyInv(Test(s, i, s.senders[i]))
  {
    GoesOnTimely(s, Test(s, i, s.senders[i]), i);
  }

  lemma DropTimely(s: State, i: nat)
    requires Inv(s) && TimelyInv(s) && i < |s.senders| && s.senders[i].Dropping? && !StaleDrop(s, SenderDrop(i))
    ensures TimelyInv(DropBySender(s, i, s.senders[i]))
  {
    var x, s' := s.senders[i], DropBySender(s, i, s.senders[i]);
    var o := if x.op < |s.ops| then x.op else 0;
    assert Agree(i, x, o, s.log.home[o]);
    assert DueOk(s.ops[o], s.log.home[o], s.senders, s.worker, o);
    assert RefOk(s.ops[o], s.log.home[o], s.senders);
    TimelyStep(s, s', i, o);
  }

  lemma FreeTimely(s: State, i: nat)
    requires Inv(s) && TimelyInv(s) && i < |s.senders| && s.senders[i].Freeing?
    ensures TimelyInv(PutFree(s, s.senders[i].op).(senders := s.senders[i := Idle]))
  {
    var o := s.senders[i].op;
    assert Agree(i, s.senders[i], o, s.log.home[o]);
    TimelyStep(s, PutFree(s, o).(senders := s.senders[i := Idle]), i, o);
  }

  lemma SenderKeepsTimely(s: State, i: nat, step: Step)
    requires Inv(s) && ResultInv(s) && TimelyInv(s) && i < |s.senders| && !ByWorker(step) && step.i == i
    requires !StaleDrop(s, step) && !step.SenderTimeout?
    ensures TimelyInv(AdvanceSender(s, i, step))
  {
    var x := s.senders[i];
    match step
    case SenderGet(_, request, wait) => if x.Idle? { GetTimely(s, i, request, wait); }
    case SenderPrepare(_) => if Preparing(x) { PrepareTimely(s, i); }
    case SenderEnqueue(_) => if x.Ready? { EnqueueTimely(s, i); }
    case SenderWake(_) => if x.Waiting? { WakeTimely(s, i); }
    case SenderTest(_) => if x.Leaving? { TestTimely(s, i); }
    case SenderDrop(_) => if x.Dropping? { DropTimely(s, i); }
    case SenderFree(_) => if x.Freeing? { FreeTimely(s, i); }
    case _ => if !x.Idle? { LearnedTimely(s, i, step); }
  }

  // ---- steps of the worker

  /** Nothing but op o changes, in the worker's hands or by them. */
  lemma WorkerTimely(s: State, s': State, o: nat)
    requires TimelyInv(s) && s'.senders == s.senders && |s'.ops| == |s'.log.home| == |s.ops|
    requires forall p :: 0 <= p < |s.ops| && p != o ==> s'.ops[p] == s.ops[p] && s'.log.home[p] == s.log.home[p]
    requires Busy(s'.worker) ==> s'.worker.op == o
    requires o < |s.ops| ==> DueOk(s'.ops[o], s'.log.home[o], s.senders, s'.worker, o)
    requires BusyOk(s'.worker, s'.log.home)
    ensures TimelyInv(s')
  {
    forall p | 0 <= p < |s'.ops|
      ensures DueOk(s'.ops[p], s'.log.home[p], s'.senders, s'.worker, p)
    {
      assert DueOk(s.ops[p], s.log.home[p], s.senders, s.worker, p);
    }
  }

  lemma TakeTimely(s: State)
    requires Inv(s) && TimelyInv(s) && s.worker.Waits?
    ensures TimelyInv(TakeActive(s))
  {
    GetTakesFront(s.active);
    if Contents(s.active) != [] {
      var o := Contents(s.active)[0];
      assert o in Hand(s.worker) + Contents(s.active);
      assert DueOk(s.ops[o], s.log.home[o], s.senders, s.worker, o);
      WorkerTimely(s, TakeActive(s), o);
    }
  }

  lemma HandleTimely(s: State, value: int)
    requires Inv(s) && TimelyInv(s) && s.worker.Holds?
    ensures TimelyInv(Handle(s, s.worker.op, value))
  {
    var o := s.worker.op;
    assert o in Hand(s.worker) + Contents(s.active);
    assert DueOk(s.ops[o], s.log.home[o], s.senders, s.worker, o);
    WorkerTimely(s, Handle(s, o, value), o);
  }

  lemma WorkerDropTimely(s: State)
    requires Inv(s) && TimelyInv(s) && s.worker.Handled?
    ensures TimelyInv(DropByWorker(s, s.worker.op, s.worker.ret))
  {
    var o := s.worker.op;
    assert o in Hand(s.worker) + Contents(s.active);
    assert DueOk(s.ops[o], s.log.home[o], s.senders, s.worker, o);
    assert RefOk(s.ops[o], s.log.home[o], s.senders);
    WorkerTimely(s, DropByWorker(s, o, s.worker.ret), o);
  }

  lemma WorkerTestTimely(s: State)
    requires Inv(s) && TimelyInv(s) && s.worker.Dropped?
    ensures TimelyInv(TestByWorker(s, s.worker.op, s.worker.ret))
  {
    var o := s.worker.op;
    assert RefOk(s.ops[o], s.log.home[o], s.senders);
    assert DueOk(s.ops[o], s.log.home[o], s.senders, s.worker, o);
    WorkerTimely(s, TestByWorker(s, o, s.worker.ret), o);
  }

  lemma WriteTimely(s: State)
    requires TimelyInv(s) && s.worker.Writing?
    ensures TimelyInv(Write(s, s.worker.op, s.worker.ret))
  {
    var o := s.worker.op;
    assert DueOk(s.ops[o], s.log.home[o], s.senders, s.worker, o);
    WorkerTimely(s, Write(s, o, s.worker.ret), o);
  }

  lemma RaiseTimely(s: State)
    requires TimelyInv(s) && s.worker.Raising?
    ensures TimelyInv(Raise(s, s.worker.op))
  {
    WorkerTimely(s, Raise(s, s.worker.op), s.worker.op);
  }

  lemma WorkerFreeTimely(s: State)
    requires Inv(s) && TimelyInv(s) && s.worker.Returning?
    ensures TimelyInv(PutFree(s, s.worker.op).(worker := Waits))
  {
    PutFreeFree(s.free, s.log.home, s.worker.op);
    WorkerTimely(s, PutFree(s, s.worker.op).(worker := Waits), s.worker.op);
  }

  lemma FinishTimely(s: State)
    requires Inv(s) && TimelyInv(s) && s.worker.Handled?
    ensures TimelyInv(Finish(s, s.worker.op, s.worker.ret))
  {
    var o, ret := s.worker.op, s.worker.ret;
    var s' := DropByWorker(s, o, ret);
    WorkerDropTimely(s);
    WorkerDropKeepsInv(s);
    if s'.worker.Dropped? {
      var s'' := TestByWorker(s', o, ret);
      WorkerTestTimely(s');
      if s''.worker.Writing? {
        WriteTimely(s'');
        RaiseTimely(Write(s'', o, ret));
      }
    }
  }

  lemma WorkerKeepsTimely(s: State, step: Step)
    requires Inv(s) && TimelyInv(s)
    ensures TimelyInv(AdvanceWorker(s, step))
  {
    match (s.worker, step)
    case (Waits, WorkerGet) => TakeTimely(s);
    case (Holds(_), WorkerHandle(value)) => HandleTimely(s, value);
    case (Handled(_, _), WorkerDrop) => WorkerDropTimely(s);
    case (Handled(_, _), WorkerFinish) => FinishTimely(s);
    case (Dropped(_, _), WorkerTest) => WorkerTestTimely(s);
    case (Writing(_, _), WorkerWrite) => WriteTimely(s);
    case (Raising(_), WorkerRaise) => RaiseTimely(s);
    case (Returning(_), WorkerFree) => WorkerFreeTimely(s);
    case _ =>
  }

  lemma StepKeepsTimely(s: State, step: Step)
    requires Inv(s) && ResultInv(s) && TimelyInv(s) && !StaleDrop(s, step) && !step.SenderTimeout?
    ensures TimelyInv(Apply(s, step))
  {
    if ByWorker(step) { WorkerKeepsTimely(s, step); }
    else if step.i < |s.senders| { SenderKeepsTimely(s, step.i, step); }
  }

  // ---- nobody leaves unwoken

  predicate WokenOk(x: Sender) {
    !x.TimedOut? && ((x.Leaving? || x.Dropping?) && x.me.waits ==> x.woken)
  }

  ghost predicate WokenInv(s: State) {
    && (forall i :: 0 <= i < |s.senders| ==> WokenOk(s.senders[i]))
    && forall j :: 0 <= j < |s.log.returned| && s.log.returned[j].me.waits ==> s.log.returned[j].woken
  }

  lemma LearnedWoken(s: State, i: nat, step: Step)
    requires Inv(s) && WokenInv(s) && i < |s.senders| && !s.senders[i].Idle? && !step.SenderTimeout?
    ensures WokenInv(s.(senders := s.senders[i := Learned(s.senders[i], At(s.ops, s.senders[i].op, NO_OP), step)]))
  {
    if !Alone(s.senders[i]) && OpOf(s.senders[i]).Some? { WaiterTimeout(s, i); }
  }

  lemma EnqueueWoken(s: State, i: nat)
    requires Inv(s) && WokenInv(s) && i < |s.senders| && s.senders[i].Ready?
    ensures WokenInv(Enqueue(s, i, s.senders[i].op))
  {
    assert Agree(i, s.senders[i], s.senders[i].op, s.log.home[s.senders[i].op]);
    PublishActive(s.active, s.worker, s.log.home, s.senders[i].op, Shared(None, true));
  }

  /** A sender's other steps. */
  lemma QuietWoken(s: State, i: nat, step: Step)
    requires Sized(s) && WokenInv(s) && i < |s.senders| && !ByWorker(step)
    requires !step.SenderEnqueue? && !step.SenderLook? && !step.SenderTimeout? && !step.SenderCheck?
    ensures WokenInv(AdvanceSender(s, i, step))
  {
    var x, s' := s.senders[i], AdvanceSender(s, i, step);
    assert s'.senders == s.senders[i := s'.senders[i]] && WokenOk(s'.senders[i]);
    assert s'.log.returned == s.log.returned
           || ((x.Leaving? || x.Dropping?) && s'.log.returned == s.log.returned + [Return(x.me, x.ret, x.woken)]);
  }

  lemma WorkerWoken(s: State, step: Step)
    requires Sized(s) && WokenInv(s)
    ensures WokenInv(AdvanceWorker(s, step))
  {
    var s' := AdvanceWorker(s, step);
    assert s'.senders == s.senders && s'.log.returned == s.log.returned;
  }

  lemma StepKeepsWoken(s: State, step: Step)
    requires Inv(s) && WokenInv(s) && !step.SenderTimeout?
    ensures WokenInv(Apply(s, step))
  {
    if ByWorker(step) {
      WorkerWoken(s, step);
    } else if step.i < |s.senders| {
      var x := s.senders[step.i];
      if step.SenderEnqueue? { if x.Ready? { EnqueueWoken(s, step.i); } }
      else if step.SenderLook? || step.SenderCheck? { if !x.Idle? { LearnedWoken(s, step.i, step); } }
      else { QuietWoken(s, step.i, step); }
    }
  }

  // ---- over whole runs

  predicate NoneTimesOut(steps: seq<Step>) { forall j :: 0 <= j < |steps| ==> !steps[j].SenderTimeout? }

  /** Where no send times out and no drop is stale, no recycled op is written or signalled. */
  lemma {:induction false} TimelyRun(n: u32, k: nat, handlers: seq<bool>, steps: seq<Step>)
    requires ValidSize(n) && NoStaleDrop(n, k, handlers, steps) && NoneTimesOut(steps)
    ensures NoStaleSignal(n, k, handlers, steps) && TimelyInv(Run(n, k, handlers, steps))
    decreases |steps|
  {
    if steps != [] {
      var m := |steps| - 1;
      var s := Run(n, k, handlers, steps[..m]);
      TimelyRun(n, k, handlers, steps[..m]);
      RunInv(n, k, handlers, steps[..m]);
      RunResults(n, k, handlers, steps[..m]);
      StepKeepsTimely(s, steps[m]);
      NotStale(s, steps[m]);
    }
  }

  lemma {:induction false} WokenRun(n: u32, k: nat, handlers: seq<bool>, steps: seq<Step>)
    requires ValidSize(n) && NoStaleDrop(n, k, handlers, steps) && NoneTimesOut(steps)
    ensures WokenInv(Run(n, k, handlers, steps))
    decreases |steps|
  {
    if steps != [] {
      var m := |steps| - 1;
      WokenRun(n, k, handlers, steps[..m]);
      RunInv(n, k, handlers, steps[..m]);
      StepKeepsWoken(Run(n, k, handlers, steps[..m]), steps[m]);
    }
  }

  /** Where no send times out, every sender that waits is woken, and comes back with exactly what its own
      handler returned: in every interleaving if all sends wait, and otherwise if no drop is stale. */
  lemma OwnResultsWithoutTimeouts(n: u32, k: nat, handlers: seq<bool>, steps: seq<Step>)
    requires ValidSize(n) && NoneTimesOut(steps) && (EveryWaits(steps) || NoStaleDrop(n, k, handlers, steps))
    ensures var log := Run(n, k, handlers, steps).log;
            forall j :: 0 <= j < |log.returned| && log.returned[j].me.waits ==>
              Own(log.returned[j].ret, log.returned[j].me.ticket, log.produced)
  {
    if EveryWaits(steps) { OneKindOfSend(n, k, handlers, steps); }
    TimelyRun(n, k, handlers, steps);
    WokenRun(n, k, handlers, steps);
    OwnResults(n, k, handlers, steps);
  }
}
