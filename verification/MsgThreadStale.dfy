/** What a write into a recycled op leads to, in msg_thread.c, and the raising of its completion: its new
    sender comes back with a value that is not its own handler's. */
module MsgThreadStale {
  import opened Options
  import opened Words
  import opened OpQueues
  import opened MsgThread
  import opened MsgThreadTheorems
  import opened MsgThreadResults

  ghost predicate Misled(s: State) {
    exists j :: 0 <= j < |s.log.returned| && !ReturnOk(s.log.returned[j], s.log.produced)
  }

  /** The state after more steps. */
  ghost function After(s: State, steps: seq<Step>): State
    requires Sized(s)
    decreases |steps|
  {
    if steps == [] then s
    else
      StepKeepsSized(s, steps[0]);
      After(Apply(s, steps[0]), steps[1..])
  }

  /** Only senders move, and none drops a reference that it does not hold. */
  ghost predicate BySenders(s: State, steps: seq<Step>)
    requires Sized(s)
    decreases |steps|
  {
    steps != [] ==>
      && !ByWorker(steps[0]) && !StaleDrop(s, steps[0])
      && (StepKeepsSized(s, steps[0]); BySenders(Apply(s, steps[0]), steps[1..]))
  }

  lemma Then(s: State, step: Step, steps: seq<Step>)
    requires Sized(s) && !ByWorker(step) && !StaleDrop(s, step)
    requires Sized(Apply(s, step)) && BySenders(Apply(s, step), steps)
    ensures BySenders(s, [step] + steps) && After(s, [step] + steps) == After(Apply(s, step), steps)
  {
    assert ([step] + steps)[0] == step && ([step] + steps)[1..] == steps;
  }

  // ---- the new sender goes on

  /** Sender i is about to come back with a value that is not its own handler's: that has not run. */
  predicate Doomed(x: Sender, op: Op) {
    || (AwaitsResult(x, op) && op.result != -9)
    || (AwaitsSignal(x, op) && op.signal > 0)
    || x.Woken?
    || ((x.Leaving? || x.Dropping?) && (x.woken || x.ret != -9))
  }

  ghost predicate Foreign(s: State, i: nat, o: nat) {
    && i < |s.senders| && o < |s.ops| && OpOf(s.senders[i]) == Some(o)
    && s.ops[o].timeout > 0 && At(s.log.ticket, o, 0) !in s.log.produced
    && (HasCall(s.senders[i]) ==> s.senders[i].me == Call(At(s.log.ticket, o, 0), true))
    && Doomed(s.senders[i], s.ops[o])
  }

  function NextStep(x: Sender, op: Op, i: nat): Step {
    match x
    case Ready(_) => SenderEnqueue(i)
    case Posted(_, _) => SenderLook(i)
    case Waiting(_, _) => if op.signal > 0 then SenderWake(i) else SenderTimeout(i)
    case Woken(_, _) => SenderCheck(i)
    case TimedOut(_, _) => SenderCheck(i)
    case Leaving(_, _, _, _) => SenderTest(i)
    case Dropping(_, _, _, _) => SenderDrop(i)
    case _ => SenderPrepare(i)
  }

  // how many steps are left
  function Rank(x: Sender): nat {
    match x
    case Reset(_) => 10
    case Inited(_) => 9
    case Counted(_) => 8
    case Ready(_) => 7
    case Posted(_, _) => 6
    case Waiting(_, _) => 5
    case Woken(_, _) => 4
    case TimedOut(_, _) => 4
    case Leaving(_, _, _, _) => 3
    case Dropping(_, _, _, _) => 2
    case _ => 0
  }

  lemma GoesOnPreparing(s: State, i: nat, o: nat)
    requires Inv(s) && Foreign(s, i, o) && Preparing(s.senders[i])
    ensures var s' := Apply(s, SenderPrepare(i)); Foreign(s', i, o) && Rank(s'.senders[i]) < Rank(s.senders[i])
  {
    var s' := Apply(s, SenderPrepare(i));
    assert s' == Prepare(s, i, o);
  }

  lemma GoesOnPublishing(s: State, i: nat, o: nat)
    requires Inv(s) && Foreign(s, i, o) && s.senders[i].Ready?
    ensures var s' := Apply(s, SenderEnqueue(i)); Foreign(s', i, o) && Rank(s'.senders[i]) < Rank(s.senders[i])
  {
    assert Agree(i, s.senders[i], o, s.log.home[o]);
    PublishActive(s.active, s.worker, s.log.home, o, Shared(Some(i), true));
    assert Apply(s, SenderEnqueue(i)) == Enqueue(s, i, o);
  }

  lemma GoesOnLearning(s: State, i: nat, o: nat)
    requires Sized(s) && Foreign(s, i, o) && HasCall(s.senders[i])
    requires var step := NextStep(s.senders[i], s.ops[o], i);
             step.SenderLook? || step.SenderTimeout? || step.SenderCheck?
    ensures var s' := Apply(s, NextStep(s.senders[i], s.ops[o], i));
            Foreign(s', i, o) && Rank(s'.senders[i]) < Rank(s.senders[i])
  {
    var x, step := s.senders[i], NextStep(s.senders[i], s.ops[o], i);
    assert Apply(s, step) == s.(senders := s.senders[i := Learned(x, s.ops[o], step)]);
  }

  lemma GoesOnWaking(s: State, i: nat, o: nat)
    requires Sized(s) && Foreign(s, i, o) && s.senders[i].Waiting? && s.ops[o].signal > 0
    ensures var s' := Apply(s, SenderWake(i)); Foreign(s', i, o) && Rank(s'.senders[i]) < Rank(s.senders[i])
  {
    assert Apply(s, SenderWake(i)) == Wake(s, i, o, s.senders[i].me);
  }

  lemma GoesOnTesting(s: State, i: nat, o: nat)
    requires Sized(s) && Foreign(s, i, o) && s.senders[i].Leaving?
    ensures var s' := Apply(s, SenderTest(i)); Foreign(s', i, o) && Rank(s'.senders[i]) < Rank(s.senders[i])
  {
    assert Apply(s, SenderTest(i)) == Test(s, i, s.senders[i]);
  }

  lemma GoesOn(s: State, i: nat, o: nat)
    requires Inv(s) && Foreign(s, i, o) && !s.senders[i].Dropping?
    ensures var s' := Apply(s, NextStep(s.senders[i], s.ops[o], i));
            Foreign(s', i, o) && Rank(s'.senders[i]) < Rank(s.senders[i])
  {
    var x, step := s.senders[i], NextStep(s.senders[i], s.ops[o], i);
    if Preparing(x) { GoesOnPreparing(s, i, o); }
    else if x.Ready? { GoesOnPublishing(s, i, o); }
    else if step.SenderWake? { GoesOnWaking(s, i, o); }
    else if step.SenderTest? { GoesOnTesting(s, i, o); }
    else { GoesOnLearning(s, i, o); }
  }

  lemma ComesBack(s: State, i: nat, o: nat)
    requires Inv(s) && Foreign(s, i, o) && s.senders[i].Dropping?
    ensures Misled(Apply(s, SenderDrop(i)))
  {
    var s', x, n := Apply(s, SenderDrop(i)), s.senders[i], |s.log.returned|;
    assert s' == DropBySender(s, i, x);
    assert s'.log.returned[n] == Return(x.me, x.ret, x.woken);
    assert s'.log.produced == s.log.produced;
  }

  lemma NextState(s: State, i: nat, o: nat) returns (step: Step, s': State)
    requires Inv(s) && Foreign(s, i, o)
    ensures !ByWorker(step) && !StaleDrop(s, step) && !step.SenderGet? && s' == Apply(s, step) && Inv(s')
    ensures if s.senders[i].Dropping? then Misled(s')
            else Foreign(s', i, o) && Rank(s'.senders[i]) < Rank(s.senders[i])
  {
    step := NextStep(s.senders[i], s.ops[o], i);
    s' := Apply(s, step);
    StepKeepsInv(s, step);
    if s.senders[i].Dropping? { ComesBack(s, i, o); } else { GoesOn(s, i, o); }
  }

  /** Undisturbed, it does come back. */
  lemma {:induction false} ForeignMisled(s: State, i: nat, o: nat) returns (steps: seq<Step>)
    requires Inv(s) && Foreign(s, i, o)
    ensures BySenders(s, steps) && Misled(After(s, steps))
    ensures forall j :: 0 <= j < |steps| ==> !steps[j].SenderGet?
    decreases Rank(s.senders[i])
  {
    var step, s' := NextState(s, i, o);
    steps := [];
    if !s.senders[i].Dropping? { steps := ForeignMisled(s', i, o); }
    Then(s, step, steps);
    steps := [step] + steps;
  }

  // ---- its call has not been handled

  lemma UnhandledNotProduced(s: State, o: nat)
    requires Inv(s) && LogInv(s) && OnceInv(s.senders, s.log) && !s.worker.Handled? && o < |s.ops|
    requires ForWorker(s.log.home[o])
    ensures s.log.ticket[o] !in s.log.produced
  {
    var pending, n := Unhandled(s.worker, s.active), |s.log.handled|;
    assert Hand(s.worker) + Contents(s.active) == pending;
    var m :| 0 <= m < |pending| && pending[m] == o;
    assert s.log.enqueued[n + m] == Tickets(s.log.ticket, pending)[m] == s.log.ticket[o];
    forall j | 0 <= j < n ensures s.log.handled[j] != s.log.ticket[o] {
      assert s.log.enqueued[j] == s.log.handled[j];
    }
  }

  lemma NotEnqueuedNotProduced(s: State, i: nat)
    requires Inv(s) && LogInv(s) && OnceInv(s.senders, s.log)
    requires i < |s.senders| && (Preparing(s.senders[i]) || s.senders[i].Ready?)
    ensures At(s.log.ticket, s.senders[i].op, 0) !in s.log.produced
  {
    forall t | t in s.log.handled ensures t in s.log.enqueued {
      var j :| 0 <= j < |s.log.handled| && s.log.handled[j] == t;
      assert s.log.enqueued[j] == t;
    }
  }

  /** Who the new sender is. */
  lemma PendingSender(s: State, o: nat)
    requires Inv(s) && ResultInv(s) && OnceInv(s.senders, s.log) && !s.worker.Handled? && Pending(s, o).Some?
    requires AwaitsResult(Pending(s, o).value, At(s.ops, o, NO_OP))
    ensures o < |s.ops| && Owner(s.log.home[o]).Some?
    ensures var i := Owner(s.log.home[o]).value;
            && i < |s.senders| && s.senders[i] == Pending(s, o).value && OpOf(s.senders[i]) == Some(o)
            && s.ops[o].timeout > 0 && s.log.ticket[o] !in s.log.produced
            && (HasCall(s.senders[i]) ==> s.senders[i].me == Call(s.log.ticket[o], true))
  {
    var i := Owner(s.log.home[o]).value;
    assert Agree(i, s.senders[i], o, s.log.home[o]);
    assert RefOk(s.ops[o], s.log.home[o], s.senders);
    assert SenderResultOk(s.senders[i], s.log.ticket[o], s.log.produced);
    if s.log.home[o].WithSender? { NotEnqueuedNotProduced(s, i); } else { UnhandledNotProduced(s, o); }
  }

  lemma StaleForeign(s: State, step: Step) returns (i: nat, o: nat)
    requires Inv(s) && ResultInv(s) && OnceInv(s.senders, s.log) && StaleSignal(s, step)
    ensures Foreign(Apply(s, step), i, o)
  {
    o := s.worker.op;
    PendingSender(s, o);
    i := Owner(s.log.home[o]).value;
  }

  // ---- and otherwise

  lemma {:induction false} OwnResultsStay(s: State, steps: seq<Step>)
    requires Inv(s) && ResultInv(s) && OnceInv(s.senders, s.log) && BySenders(s, steps)
    ensures !Misled(After(s, steps))
    decreases |steps|
  {
    if steps != [] {
      StepKeepsInv(s, steps[0]);
      StepKeepsResult(s, steps[0]);
      StepOnce(s, steps[0]);
      OwnResultsStay(Apply(s, steps[0]), steps[1..]);
    }
  }

  /** What the senders alone can do next makes one of them come back with what its own handler did not
      return. */
  ghost predicate CanMislead(s: State)
    requires Sized(s)
  {
    exists rest :: BySenders(s, rest) && Misled(After(s, rest))
  }

  lemma ForeignMisleads(s: State, i: nat, o: nat)
    requires Inv(s) && Foreign(s, i, o)
    ensures CanMislead(s)
  {
    var rest := ForeignMisled(s, i, o);
  }

  lemma OwnCannotMislead(s: State)
    requires Inv(s) && ResultInv(s) && OnceInv(s.senders, s.log)
    ensures !CanMislead(s)
  {
    forall rest | BySenders(s, rest) ensures !Misled(After(s, rest)) {
      OwnResultsStay(s, rest);
    }
  }

  lemma NotStaleStep(s: State, step: Step) returns (s': State)
    requires Inv(s) && ResultInv(s) && OnceInv(s.senders, s.log) && !StaleSignal(s, step) && !StaleDrop(s, step)
    ensures s' == Apply(s, step) && Inv(s') && ResultInv(s') && OnceInv(s'.senders, s'.log)
  {
    s' := Apply(s, step);
    StepKeepsInv(s, step);
    StepOnce(s, step);
    StepKeepsResult(s, step);
  }

  /** The worker's write, or the raising of the completion, is stale if and only if it makes this possible. */
  lemma StaleExactly(s: State, step: Step)
    requires Inv(s) && ResultInv(s) && OnceInv(s.senders, s.log) && (step.WorkerWrite? || step.WorkerRaise?)
    ensures Sized(Apply(s, step)) && (StaleSignal(s, step) <==> CanMislead(Apply(s, step)))
  {
    if StaleSignal(s, step) {
      var i, o := StaleForeign(s, step);
      StepKeepsInv(s, step);
      ForeignMisleads(Apply(s, step), i, o);
    } else {
      var s' := NotStaleStep(s, step);
      OwnCannotMislead(s');
    }
  }
}
