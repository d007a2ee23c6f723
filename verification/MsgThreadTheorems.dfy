/** What holds of every interleaving of senders and worker in msg_thread.c, as long as no sender drops a
    reference that it does not hold, and when that can happen. */
module MsgThreadTheorems {
  import opened Options
  import opened Words
  import opened OpQueues
  import opened MsgThread

  lemma StepKeepsSized(s: State, step: Step)
    requires Sized(s)
    ensures Sized(Apply(s, step))
  {}

  /** The state after any interleaving of steps of k senders and the worker, with n ops. */
  ghost function Run(n: u32, k: nat, handlers: seq<bool>, steps: seq<Step>): (s: State)
    requires ValidSize(n)
    ensures Sized(s)
    decreases |steps|
  {
    if steps == [] then Init(n, k, handlers)
    else
      var s := Run(n, k, handlers, steps[..|steps| - 1]);
      StepKeepsSized(s, steps[|steps| - 1]);
      Apply(s, steps[|steps| - 1])
  }

  lemma RunStep(n: u32, k: nat, handlers: seq<bool>, steps: seq<Step>, j: nat)
    requires ValidSize(n) && j < |steps|
    ensures Run(n, k, handlers, steps[..j + 1]) == Apply(Run(n, k, handlers, steps[..j]), steps[j])
  {
    assert steps[..j + 1][..j] == steps[..j];
  }

  /** No sender that stored no timeout finds one when it looks again. */
  ghost predicate NoStaleDrop(n: u32, k: nat, handlers: seq<bool>, steps: seq<Step>)
    requires ValidSize(n)
    decreases |steps|
  {
    steps != [] ==>
      && NoStaleDrop(n, k, handlers, steps[..|steps| - 1])
      && !StaleDrop(Run(n, k, handlers, steps[..|steps| - 1]), steps[|steps| - 1])
  }

  lemma {:induction false} NoStaleDropBefore(n: u32, k: nat, handlers: seq<bool>, steps: seq<Step>, m: nat)
    requires ValidSize(n) && NoStaleDrop(n, k, handlers, steps) && m <= |steps|
    ensures NoStaleDrop(n, k, handlers, steps[..m])
    decreases |steps|
  {
    if m == |steps| {
      assert steps[..m] == steps;
    } else {
      NoStaleDropBefore(n, k, handlers, steps[..|steps| - 1], m);
      assert steps[..|steps| - 1][..m] == steps[..m];
    }
  }

  lemma {:induction false} RunInv(n: u32, k: nat, handlers: seq<bool>, steps: seq<Step>)
    requires ValidSize(n) && NoStaleDrop(n, k, handlers, steps)
    ensures Inv(Run(n, k, handlers, steps))
    decreases |steps|
  {
    if steps == [] {
      InitInv(n, k, handlers);
    } else {
      var m := |steps| - 1;
      RunInv(n, k, handlers, steps[..m]);
      StepKeepsInv(Run(n, k, handlers, steps[..m]), steps[m]);
    }
  }

  // ---- places and references

  ghost predicate InFreeQueue(s: State, o: nat)
    requires Ok(s.free)
  {
    o in Contents(s.free)
  }

  ghost predicate HeldAlone(s: State, o: nat) {
    exists i :: 0 <= i < |s.senders| && OpOf(s.senders[i]) == Some(o) && Alone(s.senders[i])
  }

  ghost predicate WaitedFor(s: State, o: nat) {
    exists i :: 0 <= i < |s.senders| && OpOf(s.senders[i]) == Some(o) && !Alone(s.senders[i])
  }

  // on the active queue, or in the worker's hands and not yet dropped
  ghost predicate AtWorker(s: State, o: nat)
    requires Ok(s.active)
  {
    o in Hand(s.worker) + Contents(s.active)
  }

  ghost predicate BeingReturned(s: State, o: nat) { s.worker == Returning(o) }

  lemma PlaceOf(s: State, o: nat)
    requires Inv(s) && o < |s.ops|
    ensures InFreeQueue(s, o) <==> s.log.home[o].InFree?
    ensures HeldAlone(s, o) <==> s.log.home[o].WithSender?
    ensures WaitedFor(s, o) <==> s.log.home[o].Shared? && s.log.home[o].waiter.Some?
    ensures AtWorker(s, o) <==> ForWorker(s.log.home[o])
    ensures BeingReturned(s, o) <==> s.log.home[o] == WithWorker
  {
    var h := s.log.home[o];
    if Owner(h).Some? {
      assert Agree(Owner(h).value, s.senders[Owner(h).value], o, h);
    }
    if HeldAlone(s, o) {
      var i :| 0 <= i < |s.senders| && OpOf(s.senders[i]) == Some(o) && Alone(s.senders[i]);
      assert Agree(i, s.senders[i], o, h);
    }
    if WaitedFor(s, o) {
      var i :| 0 <= i < |s.senders| && OpOf(s.senders[i]) == Some(o) && !Alone(s.senders[i]);
      assert Agree(i, s.senders[i], o, h);
    }
  }

  /** The reference count is the number of parties the op is published to: one sender that waits, and the
      worker, once. Before that it is what the sender has counted so far. */
  ghost predicate CountRight(s: State, o: nat)
    requires Ok(s.active) && o < |s.ops|
  {
    && (WaitedFor(s, o) || AtWorker(s, o) ==> s.ops[o].ref == Bit(WaitedFor(s, o)) + Bit(AtWorker(s, o)))
    && forall i :: 0 <= i < |s.senders| && OpOf(s.senders[i]) == Some(o) ==>
         && (s.senders[i].Counted? ==> s.ops[o].ref == Bit(s.ops[o].timeout > 0))
         && (s.senders[i].Ready? ==> s.ops[o].ref == 1 + Bit(s.ops[o].timeout > 0))
  }

  ghost predicate OneHolder(s: State, o: nat) {
    forall i, j :: 0 <= i < j < |s.senders| ==> !(OpOf(s.senders[i]) == OpOf(s.senders[j]) == Some(o))
  }

  /** Op o is in exactly one place: once in the free queue, with one sender that nobody can disturb,
      published, or on its way back from the worker; and its reference count is right. */
  ghost predicate Placed(s: State, o: nat) {
    && Ok(s.free) && Ok(s.active) && o < |s.ops|
    && Bit(InFreeQueue(s, o)) + Bit(HeldAlone(s, o)) + Bit(WaitedFor(s, o) || AtWorker(s, o))
       + Bit(BeingReturned(s, o)) == 1
    && CountRight(s, o)
    && NoDup(Contents(s.free)) && NoDup(Hand(s.worker) + Contents(s.active))
    && OneHolder(s, o)
  }

  lemma InvPlaces(s: State, o: nat)
    requires Inv(s) && o < |s.ops|
    ensures Placed(s, o)
  {
    PlaceOf(s, o);
    assert RefOk(s.ops[o], s.log.home[o], s.senders);
    forall i | 0 <= i < |s.senders| && OpOf(s.senders[i]) == Some(o)
      ensures Owner(s.log.home[o]) == Some(i)
    {
      assert Agree(i, s.senders[i], o, s.log.home[o]);
    }
  }

  /** ... in every state of every interleaving without a stale drop. */
  lemma OpConservation(n: u32, k: nat, handlers: seq<bool>, steps: seq<Step>, o: nat)
    requires ValidSize(n) && NoStaleDrop(n, k, handlers, steps) && o < n
    ensures Placed(Run(n, k, handlers, steps), o)
  {
    RunInv(n, k, handlers, steps);
    PoolStays(n, k, handlers, steps);
    InvPlaces(Run(n, k, handlers, steps), o);
  }

  // everybody but sender i is where they were
  lemma OthersStay(s: State, s': State, i: nat, o: nat)
    requires Inv(s) && i < |s.senders| && OpOf(s.senders[i]) == None && o < |s.ops|
    requires |s'.senders| == |s.senders| && s'.senders == s.senders[i := s'.senders[i]]
    requires s'.active == s.active && s'.worker == s.worker
    requires OpOf(s'.senders[i]) == None || Alone(s'.senders[i])
    ensures WaitedFor(s', o) <==> WaitedFor(s, o)
    ensures Ok(s'.active) && (AtWorker(s', o) <==> AtWorker(s, o))
    ensures Owner(s.log.home[o]).Some? ==>
              var j := Owner(s.log.home[o]).value;
              && j != i && j < |s.senders| && s'.senders[j] == s.senders[j] && OpOf(s.senders[j]) == Some(o)
  {
    if Owner(s.log.home[o]).Some? {
      var j := Owner(s.log.home[o]).value;
      assert Agree(j, s.senders[j], o, s.log.home[o]);
    }
    if WaitedFor(s, o) {
      var j :| 0 <= j < |s.senders| && OpOf(s.senders[j]) == Some(o) && !Alone(s.senders[j]);
      assert s'.senders[j] == s.senders[j];
    }
    if WaitedFor(s', o) {
      var j :| 0 <= j < |s'.senders| && OpOf(s'.senders[j]) == Some(o) && !Alone(s'.senders[j]);
      assert s'.senders[j] == s.senders[j];
    }
  }

  /** A stale drop breaks it at once: the count is one too low, or two parties hold the op. */
  lemma StaleDropBreaks(s: State, step: Step)
    requires Inv(s) && StaleDrop(s, step)
    ensures var o := s.senders[step.i].op; o < |s.ops| && !Placed(Apply(s, step), o)
  {
    var i, o, s' := step.i, s.senders[step.i].op, Apply(s, step);
    var h := s.log.home[o];
    PlaceOf(s, o);
    assert RefOk(s.ops[o], h, s.senders);
    OthersStay(s, s', i, o);
    if s.ops[o].ref == 1 {
      assert s'.senders[i] == Freeing(o);
      assert HeldAlone(s', o);
      if h.WithSender? { assert !OneHolder(s', o); }
    } else {
      assert !CountRight(s', o);
    }
  }

  /** Ops are conserved along the whole run exactly if no drop in it is stale. */
  lemma ConservedExactly(n: u32, k: nat, handlers: seq<bool>, steps: seq<Step>)
    requires ValidSize(n)
    ensures NoStaleDrop(n, k, handlers, steps) <==>
            forall j, o: nat :: 0 <= j <= |steps| && o < n ==> Placed(Run(n, k, handlers, steps[..j]), o)
  {
    if NoStaleDrop(n, k, handlers, steps) {
      forall j, o: nat | 0 <= j <= |steps| && o < n ensures Placed(Run(n, k, handlers, steps[..j]), o) {
        NoStaleDropBefore(n, k, handlers, steps, j);
        OpConservation(n, k, handlers, steps[..j], o);
      }
    } else {
      var j := FirstStale(n, k, handlers, steps);
      var s := Run(n, k, handlers, steps[..j]);
      RunInv(n, k, handlers, steps[..j]);
      PoolStays(n, k, handlers, steps[..j]);
      StaleDropBreaks(s, steps[j]);
      RunStep(n, k, handlers, steps, j);
      assert !Placed(Run(n, k, handlers, steps[..j + 1]), s.senders[steps[j].i].op);
    }
  }

  lemma {:induction false} FirstStale(n: u32, k: nat, handlers: seq<bool>, steps: seq<Step>) returns (j: nat)
    requires ValidSize(n) && !NoStaleDrop(n, k, handlers, steps)
    ensures j < |steps| && NoStaleDrop(n, k, handlers, steps[..j])
    ensures StaleDrop(Run(n, k, handlers, steps[..j]), steps[j])
    decreases |steps|
  {
    var m := |steps| - 1;
    if !NoStaleDrop(n, k, handlers, steps[..m]) {
      j := FirstStale(n, k, handlers, steps[..m]);
      assert steps[..m][..j] == steps[..j] && steps[..m][j] == steps[j];
    } else {
      j := m;
    }
  }

  // ---- who can be stale

  predicate EveryWaits(steps: seq<Step>) { forall j :: 0 <= j < |steps| && steps[j].SenderGet? ==> steps[j].wait.Some? }

  predicate NoneWaits(steps: seq<Step>) { forall j :: 0 <= j < |steps| && steps[j].SenderGet? ==> steps[j].wait.None? }

  predicate HasCall(x: Sender) {
    x.Posted? || x.Waiting? || x.Woken? || x.TimedOut? || x.Leaving? || x.Dropping?
  }

  // the sender has not yet stored the timeout
  predicate FillingIn(h: Home, senders: seq<Sender>) { h.WithSender? && At(senders, h.sender, Idle).Taken? }

  ghost predicate WaitsInv(s: State) {
    && (forall o :: 0 <= o < |s.ops| <= |s.log.home| && !s.log.home[o].InFree? ==>
          s.ops[o].timeout > 0 || FillingIn(s.log.home[o], s.senders))
    && forall i :: 0 <= i < |s.senders| ==>
         && (s.senders[i].Taken? ==> s.senders[i].timeout > 0)
         && (HasCall(s.senders[i]) ==> s.senders[i].me.waits)
  }

  /** A sender's step that takes no op off the free queue. */
  lemma WaitsStep(s: State, s': State, i: nat, next: Sender)
    requires WaitsInv(s) && i < |s.senders| && s'.senders == s.senders[i := next]
    requires !s.senders[i].Taken? && !next.Taken? && (HasCall(next) ==> next.me.waits)
    requires |s'.ops| == |s.ops| && |s'.log.home| == |s.log.home|
    requires forall o :: 0 <= o < |s.ops| ==> s'.ops[o].timeout == s.ops[o].timeout
    requires forall o :: 0 <= o < |s.log.home| && !s'.log.home[o].InFree? ==>
               s'.log.home[o] == s.log.home[o] || (!s.log.home[o].InFree? && Owner(s.log.home[o]) in {None, Some(i)})
    ensures WaitsInv(s')
  {}

  lemma GetWaits(s: State, i: nat, request: Request, timeout: int)
    requires Inv(s) && WaitsInv(s) && i < |s.senders| && s.senders[i].Idle?
    ensures WaitsInv(GetFree(s, i, request, Some(timeout)))
  {
    GetTakesFront(s.free);
  }

  lemma PrepareWaits(s: State, i: nat, o: nat)
    requires Inv(s) && WaitsInv(s) && i < |s.senders| && Preparing(s.senders[i]) && o == s.senders[i].op
    ensures WaitsInv(Prepare(s, i, o))
  {
    var s', x := Prepare(s, i, o), s.senders[i];
    if x.Taken? {
      forall p | 0 <= p < |s.log.home| ensures Agree(i, x, p, s.log.home[p]) {}
    } else {
      WaitsStep(s, s', i, s'.senders[i]);
    }
  }

  lemma EnqueueWaits(s: State, i: nat)
    requires Inv(s) && WaitsInv(s) && i < |s.senders| && s.senders[i].Ready?
    ensures WaitsInv(Enqueue(s, i, s.senders[i].op))
  {
    var s' := Enqueue(s, i, s.senders[i].op);
    assert Agree(i, s.senders[i], s.senders[i].op, s.log.home[s.senders[i].op]);
    WaitsStep(s, s', i, s'.senders[i]);
  }

  lemma TestWaits(s: State, i: nat)
    requires Inv(s) && WaitsInv(s) && i < |s.senders| && s.senders[i].Leaving?
    ensures WaitsInv(Test(s, i, s.senders[i]))
  {
    var s' := Test(s, i, s.senders[i]);
    WaitsStep(s, s', i, s'.senders[i]);
  }

  lemma DropWaits(s: State, i: nat)
    requires Inv(s) && WaitsInv(s) && i < |s.senders| && s.senders[i].Dropping?
    ensures WaitsInv(DropBySender(s, i, s.senders[i]))
  {
    var s' := DropBySender(s, i, s.senders[i]);
    assert Agree(i, s.senders[i], s.senders[i].op, s.log.home[s.senders[i].op]);
    WaitsStep(s, s', i, s'.senders[i]);
  }

  lemma FreeWaits(s: State, i: nat)
    requires Inv(s) && WaitsInv(s) && i < |s.senders| && s.senders[i].Freeing?
    ensures WaitsInv(PutFree(s, s.senders[i].op).(senders := s.senders[i := Idle]))
  {
    WaitsStep(s, PutFree(s, s.senders[i].op).(senders := s.senders[i := Idle]), i, Idle);
  }

  lemma WakeWaits(s: State, i: nat)
    requires Inv(s) && WaitsInv(s) && i < |s.senders| && s.senders[i].Waiting?
    ensures WaitsInv(Wake(s, i, s.senders[i].op, s.senders[i].me))
  {
    var s' := Wake(s, i, s.senders[i].op, s.senders[i].me);
    WaitsStep(s, s', i, s'.senders[i]);
  }

  lemma LearnedWaits(s: State, i: nat, step: Step)
    requires Inv(s) && WaitsInv(s) && i < |s.senders| && !s.senders[i].Idle?
    ensures WaitsInv(s.(senders := s.senders[i := Learned(s.senders[i], At(s.ops, s.senders[i].op, NO_OP), step)]))
  {
    var x := s.senders[i];
    var next := Learned(x, At(s.ops, x.op, NO_OP), step);
    if x.Taken? {
      assert next == x && s.senders[i := x] == s.senders;
    } else {
      WaitsStep(s, s.(senders := s.senders[i := next]), i, next);
    }
  }

  lemma SenderWaits(s: State, i: nat, step: Step)
    requires Inv(s) && WaitsInv(s) && i < |s.senders| && (step.SenderGet? ==> step.wait.Some?)
    ensures WaitsInv(AdvanceSender(s, i, step))
  {
    var x := s.senders[i];
    match step
    case SenderGet(_, request, wait) => if x.Idle? { GetWaits(s, i, request, wait.value); }
    case SenderPrepare(_) => if Preparing(x) { PrepareWaits(s, i, x.op); }
    case SenderEnqueue(_) => if x.Ready? { EnqueueWaits(s, i); }
    case SenderWake(_) => if x.Waiting? { WakeWaits(s, i); }
    case SenderTest(_) => if x.Leaving? { TestWaits(s, i); }
    case SenderDrop(_) => if x.Dropping? { DropWaits(s, i); }
    case SenderFree(_) => if x.Freeing? { FreeWaits(s, i); }
    case _ => if !x.Idle? { LearnedWaits(s, i, step); }
  }

  lemma WorkerDropWaits(s: State)
    requires Inv(s) && WaitsInv(s) && s.worker.Handled?
    ensures WaitsInv(DropByWorker(s, s.worker.op, s.worker.ret))
  {
    assert s.worker.op in Hand(s.worker) + Contents(s.active);
  }

  lemma FinishWaits(s: State)
    requires Inv(s) && WaitsInv(s) && s.worker.Handled?
    ensures WaitsInv(Finish(s, s.worker.op, s.worker.ret))
  {
    WorkerDropWaits(s);
  }

  lemma WorkerWaits(s: State, step: Step)
    requires Inv(s) && WaitsInv(s)
    ensures WaitsInv(AdvanceWorker(s, step))
  {
    match (s.worker, step)
    case (Handled(_, _), WorkerDrop) => WorkerDropWaits(s);
    case (Handled(_, _), WorkerFinish) => FinishWaits(s);
    case _ =>
  }

  lemma StepWaits(s: State, step: Step)
    requires Inv(s) && WaitsInv(s) && (step.SenderGet? ==> step.wait.Some?)
    ensures WaitsInv(Apply(s, step)) && !StaleDrop(s, step)
  {
    if ByWorker(step) { WorkerWaits(s, step); }
    else if step.i < |s.senders| { SenderWaits(s, step.i, step); }
  }

  lemma {:induction false} EveryWaitsRun(n: u32, k: nat, handlers: seq<bool>, steps: seq<Step>)
    requires ValidSize(n) && EveryWaits(steps)
    ensures NoStaleDrop(n, k, handlers, steps) && WaitsInv(Run(n, k, handlers, steps))
    decreases |steps|
  {
    if steps != [] {
      var m := |steps| - 1;
      EveryWaitsRun(n, k, handlers, steps[..m]);
      RunInv(n, k, handlers, steps[..m]);
      StepWaits(Run(n, k, handlers, steps[..m]), steps[m]);
    }
  }

  ghost predicate NoTimeouts(s: State) {
    && (forall o :: 0 <= o < |s.ops| ==> s.ops[o].timeout == 0)
    && forall i :: 0 <= i < |s.senders| ==>
         !s.senders[i].Dropping? && (s.senders[i].Taken? ==> s.senders[i].timeout == 0)
  }

  lemma SenderNoTimeouts(s: State, i: nat, step: Step)
    requires Sized(s) && NoTimeouts(s) && i < |s.senders| && (step.SenderGet? ==> step.wait.None?)
    ensures NoTimeouts(AdvanceSender(s, i, step))
  {}

  lemma WorkerNoTimeouts(s: State, step: Step)
    requires Sized(s) && NoTimeouts(s)
    ensures NoTimeouts(AdvanceWorker(s, step))
  {}

  lemma StepNoTimeouts(s: State, step: Step)
    requires Sized(s) && NoTimeouts(s) && (step.SenderGet? ==> step.wait.None?)
    ensures NoTimeouts(Apply(s, step)) && !StaleDrop(s, step)
  {
    if ByWorker(step) { WorkerNoTimeouts(s, step); }
    else if step.i < |s.senders| { SenderNoTimeouts(s, step.i, step); }
  }

  lemma {:induction false} NoneWaitsRun(n: u32, k: nat, handlers: seq<bool>, steps: seq<Step>)
    requires ValidSize(n) && NoneWaits(steps)
    ensures NoStaleDrop(n, k, handlers, steps) && NoTimeouts(Run(n, k, handlers, steps))
    decreases |steps|
  {
    if steps != [] {
      var m := |steps| - 1;
      var s := Run(n, k, handlers, steps[..m]);
      NoneWaitsRun(n, k, handlers, steps[..m]);
      StepNoTimeouts(s, steps[m]);
      RunStep(n, k, handlers, steps, m);
    }
  }

  /** If all sends wait, or none does, ops are conserved. */
  lemma OneKindOfSend(n: u32, k: nat, handlers: seq<bool>, steps: seq<Step>)
    requires ValidSize(n) && (EveryWaits(steps) || NoneWaits(steps))
    ensures NoStaleDrop(n, k, handlers, steps)
  {
    if EveryWaits(steps) { EveryWaitsRun(n, k, handlers, steps); } else { NoneWaitsRun(n, k, handlers, steps); }
  }

  // ---- what follows from the invariant

  lemma StepKeepsPool(s: State, step: Step)
    requires Sized(s)
    ensures var s' := Apply(s, step); |s'.ops| == |s.ops| && |s'.senders| == |s.senders|
  {}

  /** The pool neither grows nor shrinks. */
  lemma {:induction false} PoolStays(n: u32, k: nat, handlers: seq<bool>, steps: seq<Step>)
    requires ValidSize(n)
    ensures |Run(n, k, handlers, steps).ops| == n && |Run(n, k, handlers, steps).senders| == k
    decreases |steps|
  {
    if steps != [] {
      PoolStays(n, k, handlers, steps[..|steps| - 1]);
      StepKeepsPool(Run(n, k, handlers, steps[..|steps| - 1]), steps[|steps| - 1]);
    }
  }

  /** Whenever sender i or the worker puts an op on a queue, the put succeeds. */
  ghost predicate Fits(s: State, i: nat)
    requires Sized(s) && i < |s.senders|
  {
    && (s.senders[i].Ready? ==> Put(s.active, s.senders[i].op).1 == 0)
    && (s.senders[i].Freeing? ==> Put(s.free, s.senders[i].op).1 == 0)
    && (s.worker.Returning? ==> Put(s.free, s.worker.op).1 == 0)
  }

  lemma InvFits(s: State, i: nat)
    requires Inv(s) && i < |s.senders|
    ensures Fits(s, i)
  {
    if OpOf(s.senders[i]).Some? {
      var o := s.senders[i].op;
      assert Agree(i, s.senders[i], o, s.log.home[o]);
      if s.senders[i].Ready? { PublishActive(s.active, s.worker, s.log.home, o, Shared(None, true)); }
      if s.senders[i].Freeing? { PutFreeFree(s.free, s.log.home, o); }
    }
    if s.worker.Returning? { PutFreeFree(s.free, s.log.home, s.worker.op); }
  }

  /** The queues are never full when an op is put on them: the -4 path is dead. */
  lemma QueuesNeverFull(n: u32, k: nat, handlers: seq<bool>, steps: seq<Step>, i: nat)
    requires ValidSize(n) && NoStaleDrop(n, k, handlers, steps) && i < |Run(n, k, handlers, steps).senders|
    ensures Fits(Run(n, k, handlers, steps), i)
  {
    RunInv(n, k, handlers, steps);
    InvFits(Run(n, k, handlers, steps), i);
  }

  /** Each send gives its op back exactly once: its ticket is among the freed ones, where no ticket
      occurs twice, or its op is still out and serving it. */
  lemma FreedExactlyOnce(n: u32, k: nat, handlers: seq<bool>, steps: seq<Step>, t: nat)
    requires ValidSize(n) && NoStaleDrop(n, k, handlers, steps) && t < |Run(n, k, handlers, steps).log.sent|
    ensures var s := Run(n, k, handlers, steps);
            && t < |s.log.opOf| && Ok(s.free) && |s.log.ticket| == |s.ops|
            && NoDup(s.log.freed) && (forall f :: f in s.log.freed ==> f < |s.log.sent|)
            && var o := s.log.opOf[t];
               t !in s.log.freed <==> o < |s.ops| && !InFreeQueue(s, o) && s.log.ticket[o] == t
  {
    RunInv(n, k, handlers, steps);
    var s := Run(n, k, handlers, steps);
    var o := s.log.opOf[t];
    assert t in s.log.freed <==> !Serving(t, o, s.log.home, s.log.ticket);
    if o < |s.ops| { PlaceOf(s, o); }
  }

  // ---- order

  /** Every send is put on the active queue at most once. */
  ghost predicate OnceInv(senders: seq<Sender>, log: Log) {
    && NoDup(log.enqueued)
    && (forall t :: t in log.enqueued ==> t < |log.sent|)
    && forall i :: 0 <= i < |senders| && (Preparing(senders[i]) || senders[i].Ready?) ==>
         At(log.ticket, senders[i].op, 0) !in log.enqueued
  }

  lemma TicketOf(s: State, i: nat)
    requires Inv(s) && i < |s.senders| && OpOf(s.senders[i]).Some?
    ensures var o := s.senders[i].op;
            && o < |s.ops| && Owner(s.log.home[o]) == Some(i)
            && s.log.ticket[o] < |s.log.sent| && s.log.opOf[s.log.ticket[o]] == o
  {
    assert Agree(i, s.senders[i], s.senders[i].op, s.log.home[s.senders[i].op]);
  }

  lemma GetOnce(s: State, i: nat, request: Request, wait: Option<int>)
    requires Inv(s) && OnceInv(s.senders, s.log) && i < |s.senders| && s.senders[i].Idle?
    ensures var s' := GetFree(s, i, request, wait); OnceInv(s'.senders, s'.log)
  {
    var s' := GetFree(s, i, request, wait);
    GetTakesFront(s.free);
    if Contents(s.free) != [] {
      var o := Contents(s.free)[0];
      assert o in Contents(s.free);
      forall j | 0 <= j < |s'.senders| && (Preparing(s'.senders[j]) || s'.senders[j].Ready?)
        ensures At(s'.log.ticket, s'.senders[j].op, 0) !in s'.log.enqueued
      {
        if j != i { TicketOf(s, j); }
      }
    }
  }

  /** The other steps of a sender. */
  lemma QuietOnce(s: State, i: nat, step: Step)
    requires Sized(s) && OnceInv(s.senders, s.log) && i < |s.senders| && !step.SenderGet? && !step.SenderEnqueue?
    ensures var s' := AdvanceSender(s, i, step); OnceInv(s'.senders, s'.log)
  {
    var s' := AdvanceSender(s, i, step);
    assert s'.log.ticket == s.log.ticket && s'.log.sent == s.log.sent && s'.log.enqueued == s.log.enqueued;
    var x, next := s.senders[i], s'.senders[i];
    assert s'.senders == s.senders[i := next];
    assert Preparing(next) || next.Ready? ==> (Preparing(x) || x.Ready?) && next.op == x.op;
  }

  lemma EnqueueOnce(s: State, i: nat)
    requires Inv(s) && OnceInv(s.senders, s.log) && i < |s.senders| && s.senders[i].Ready?
    ensures var s' := Enqueue(s, i, s.senders[i].op); OnceInv(s'.senders, s'.log)
  {
    var s', o := Enqueue(s, i, s.senders[i].op), s.senders[i].op;
    TicketOf(s, i);
    PublishActive(s.active, s.worker, s.log.home, o, Shared(None, true));
    NoDupAppend(s.log.enqueued, s.log.ticket[o]);
    forall j | 0 <= j < |s'.senders| && (Preparing(s'.senders[j]) || s'.senders[j].Ready?)
      ensures At(s'.log.ticket, s'.senders[j].op, 0) !in s'.log.enqueued
    {
      TicketOf(s, j);
    }
  }

  lemma WorkerLeavesSenders(s: State, step: Step)
    requires Sized(s)
    ensures var s' := AdvanceWorker(s, step);
            && s'.senders == s.senders && s'.log.ticket == s.log.ticket
            && s'.log.sent == s.log.sent && s'.log.enqueued == s.log.enqueued
  {}

  lemma SenderOnce(s: State, i: nat, step: Step)
    requires Inv(s) && OnceInv(s.senders, s.log) && i < |s.senders|
    ensures var s' := AdvanceSender(s, i, step); OnceInv(s'.senders, s'.log)
  {
    var x := s.senders[i];
    match step
    case SenderGet(_, request, wait) => if x.Idle? { GetOnce(s, i, request, wait); }
    case SenderEnqueue(_) => if x.Ready? { EnqueueOnce(s, i); }
    case _ => QuietOnce(s, i, step);
  }

  lemma StepOnce(s: State, step: Step)
    requires Inv(s) && OnceInv(s.senders, s.log)
    ensures var s' := Apply(s, step); OnceInv(s'.senders, s'.log)
  {
    if ByWorker(step) {
      WorkerLeavesSenders(s, step);
    } else if step.i < |s.senders| {
      SenderOnce(s, step.i, step);
    }
  }

  lemma {:induction false} RunOnce(n: u32, k: nat, handlers: seq<bool>, steps: seq<Step>)
    requires ValidSize(n) && NoStaleDrop(n, k, handlers, steps)
    ensures var s := Run(n, k, handlers, steps); OnceInv(s.senders, s.log)
    decreases |steps|
  {
    if steps != [] {
      var m := |steps| - 1;
      RunInv(n, k, handlers, steps[..m]);
      RunOnce(n, k, handlers, steps[..m]);
      StepOnce(Run(n, k, handlers, steps[..m]), steps[m]);
    }
  }

  /** The worker handles sends in the order they were put on the active queue, each at most once, and
      gives the handler exactly what the sender asked for. */
  lemma HandledInOrder(n: u32, k: nat, handlers: seq<bool>, steps: seq<Step>)
    requires ValidSize(n) && NoStaleDrop(n, k, handlers, steps)
    ensures var log := Run(n, k, handlers, steps).log;
            && log.handled <= log.enqueued && NoDup(log.handled)
            && |log.served| == |log.handled|
            && forall j :: 0 <= j < |log.served| ==>
                 log.handled[j] < |log.sent| && log.served[j] == log.sent[log.handled[j]]
  {
    var s := Run(n, k, handlers, steps);
    RunInv(n, k, handlers, steps);
    RunOnce(n, k, handlers, steps);
    assert s.log.handled == s.log.enqueued[..|s.log.handled|];
  }
}
