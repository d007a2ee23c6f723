/** What the values are that msg_thread.c hands back: what the operation's own function returned, or -3 or
    -4 where there is none, and 0 to a sender that does not wait. */
module MsgThreadValues {
  import opened Options
  import opened Words
  import opened OpQueues
  import opened MsgThread
  import opened MsgThreadTheorems
  import opened MsgThreadResults
  import opened MsgThreadTimely

  /** ret is what the function of operation opId returned, or the code for an operation without one. */
  predicate Reports(handlers: seq<bool>, opId: nat, value: int, ret: int) {
    && (opId < |handlers| && handlers[opId] ==> ret == value)
    && (opId < |handlers| && !handlers[opId] ==> ret == -4)
    && (opId >= |handlers| ==> ret == -3)
  }

  // ---- what goes in, in the order in which it does

  // sender i gets an op for its send
  ghost predicate GetsOp(s: State, step: Step) {
    step.SenderGet? && step.i < |s.senders| && s.senders[step.i].Idle? && Ok(s.free) && Contents(s.free) != []
  }

  /** What the senders that got an op asked for. */
  ghost function Requests(n: u32, k: nat, handlers: seq<bool>, steps: seq<Step>): seq<Request>
    requires ValidSize(n)
    decreases |steps|
  {
    if steps == [] then []
    else
      var before, last := steps[..|steps| - 1], steps[|steps| - 1];
      Requests(n, k, handlers, before) + if GetsOp(Run(n, k, handlers, before), last) then [last.request] else []
  }

  predicate Calls(s: State, step: Step) { step.WorkerHandle? && s.worker.Holds? }

  /** What the functions return that the worker calls. */
  ghost function Values(n: u32, k: nat, handlers: seq<bool>, steps: seq<Step>): seq<int>
    requires ValidSize(n)
    decreases |steps|
  {
    if steps == [] then []
    else
      var before, last := steps[..|steps| - 1], steps[|steps| - 1];
      Values(n, k, handlers, before) + if Calls(Run(n, k, handlers, before), last) then [last.value] else []
  }

  // ---- every step records what goes in

  /** The j-th ticket handled is on record with what the j-th call reported. */
  ghost predicate ValuesInv(s: State, handlers: seq<bool>, requests: seq<Request>, values: seq<int>) {
    && s.handlers == handlers && s.log.sent == requests && |values| == |s.log.handled|
    && (forall t :: t in s.log.produced ==> t in s.log.handled)
    && forall j :: 0 <= j < |values| ==>
         && s.log.handled[j] in s.log.produced && s.log.handled[j] < |requests|
         && Reports(handlers, requests[s.log.handled[j]].opId, values[j], s.log.produced[s.log.handled[j]])
  }

  lemma HandleValues(s: State, handlers: seq<bool>, requests: seq<Request>, values: seq<int>, value: int)
    requires Inv(s) && OnceInv(s.senders, s.log) && ValuesInv(s, handlers, requests, values) && s.worker.Holds?
    ensures ValuesInv(Handle(s, s.worker.op, value), handlers, requests, values + [value])
  {
    NotYetProduced(s);
    assert s.worker.op in Hand(s.worker) + Contents(s.active);
    assert s.ops[s.worker.op].request == s.log.sent[s.log.ticket[s.worker.op]];
  }

  /** Nothing is handled; `more` is asked for. */
  ghost predicate KeepsValues(s: State, s': State, more: seq<Request>) {
    && s'.handlers == s.handlers && s'.log.handled == s.log.handled && s'.log.produced == s.log.produced
    && s'.log.sent == s.log.sent + more
  }

  lemma GetKeepsValues(s: State, i: nat, request: Request, wait: Option<int>)
    requires Inv(s) && i < |s.senders| && s.senders[i].Idle?
    ensures KeepsValues(s, GetFree(s, i, request, wait), if Contents(s.free) != [] then [request] else [])
  {
    GetTakesFront(s.free);
  }

  lemma SenderKeepsValues(s: State, i: nat, step: Step)
    requires Inv(s) && i < |s.senders| && !ByWorker(step) && step.i == i
    ensures KeepsValues(s, AdvanceSender(s, i, step), if GetsOp(s, step) then [step.request] else [])
  {
    if step.SenderGet? && s.senders[i].Idle? { GetKeepsValues(s, i, step.request, step.wait); }
  }

  lemma WorkerKeepsValues(s: State, step: Step)
    requires Sized(s) && !Calls(s, step)
    ensures KeepsValues(s, AdvanceWorker(s, step), [])
  {}

  lemma ValuesKept(s: State, s': State, handlers: seq<bool>, requests: seq<Request>, values: seq<int>,
                   more: seq<Request>)
    requires ValuesInv(s, handlers, requests, values) && KeepsValues(s, s', more)
    ensures ValuesInv(s', handlers, requests + more, values)
  {}

  lemma StepValues(s: State, step: Step, handlers: seq<bool>, requests: seq<Request>, values: seq<int>)
    requires Inv(s) && OnceInv(s.senders, s.log) && ValuesInv(s, handlers, requests, values)
    ensures ValuesInv(Apply(s, step), handlers,
                      requests + if GetsOp(s, step) then [step.request] else [],
                      values + if Calls(s, step) then [step.value] else [])
  {
    assert requests + [] == requests && values + [] == values;
    if ByWorker(step) {
      if Calls(s, step) { HandleValues(s, handlers, requests, values, step.value); }
      else {
        WorkerKeepsValues(s, step);
        ValuesKept(s, Apply(s, step), handlers, requests, values, []);
      }
    } else if step.i < |s.senders| {
      SenderKeepsValues(s, step.i, step);
      ValuesKept(s, Apply(s, step), handlers, requests, values, if GetsOp(s, step) then [step.request] else []);
    }
  }

  // ---- over whole runs

  lemma {:induction false} RunValues(n: u32, k: nat, handlers: seq<bool>, steps: seq<Step>)
    requires ValidSize(n) && NoStaleDrop(n, k, handlers, steps)
    ensures ValuesInv(Run(n, k, handlers, steps), handlers, Requests(n, k, handlers, steps),
                      Values(n, k, handlers, steps))
    decreases |steps|
  {
    if steps != [] {
      var m := |steps| - 1;
      RunValues(n, k, handlers, steps[..m]);
      RunInv(n, k, handlers, steps[..m]);
      RunOnce(n, k, handlers, steps[..m]);
      StepValues(Run(n, k, handlers, steps[..m]), steps[m], handlers, Requests(n, k, handlers, steps[..m]),
                 Values(n, k, handlers, steps[..m]));
    }
  }

  /** In every run without a stale drop: the t-th ticket asks for what the t-th sender to get an op asked
      for; the j-th call is given what the j-th ticket handled asks for; and what is put on record for that
      ticket is what this call returned, if its operation has a function, and -4 or -3 otherwise. */
  lemma CallsRecorded(n: u32, k: nat, handlers: seq<bool>, steps: seq<Step>)
    requires ValidSize(n) && NoStaleDrop(n, k, handlers, steps)
    ensures var log := Run(n, k, handlers, steps).log;
            var requests, values := Requests(n, k, handlers, steps), Values(n, k, handlers, steps);
            && log.sent == requests && |log.handled| == |log.served| == |values|
            && forall j :: 0 <= j < |values| ==>
                 var t := log.handled[j];
                 && t < |requests| && log.served[j] == requests[t]
                 && t in log.produced && Reports(handlers, requests[t].opId, values[j], log.produced[t])
  {
    RunValues(n, k, handlers, steps);
    HandledInOrder(n, k, handlers, steps);
  }

  /** The send with this ticket was handled by one of the calls, and ret is what that one reported. */
  ghost predicate FromItsCall(log: Log, handlers: seq<bool>, requests: seq<Request>, values: seq<int>, t: nat,
                              ret: int) {
    t < |requests| && exists j ::
      0 <= j < |values| == |log.handled| && log.handled[j] == t && Reports(handlers, requests[t].opId, values[j], ret)
  }

  lemma OwnIsFromItsCall(s: State, handlers: seq<bool>, requests: seq<Request>, values: seq<int>, t: nat, ret: int)
    requires ValuesInv(s, handlers, requests, values) && Own(ret, t, s.log.produced)
    ensures FromItsCall(s.log, handlers, requests, values, t, ret)
  {
    var j :| 0 <= j < |s.log.handled| && s.log.handled[j] == t;
  }

  /** ... for each sender that has come back from a send that waits. */
  ghost predicate WaitersServed(log: Log, handlers: seq<bool>, requests: seq<Request>, values: seq<int>) {
    forall j :: 0 <= j < |log.returned| && log.returned[j].me.waits ==>
      FromItsCall(log, handlers, requests, values, log.returned[j].me.ticket, log.returned[j].ret)
  }

  ghost predicate AllOwn(log: Log) {
    forall j :: 0 <= j < |log.returned| && log.returned[j].me.waits ==>
      Own(log.returned[j].ret, log.returned[j].me.ticket, log.produced)
  }

  lemma AllOwnWithoutTimeouts(n: u32, k: nat, handlers: seq<bool>, steps: seq<Step>)
    requires ValidSize(n) && NoneTimesOut(steps) && (EveryWaits(steps) || NoStaleDrop(n, k, handlers, steps))
    ensures NoStaleDrop(n, k, handlers, steps) && AllOwn(Run(n, k, handlers, steps).log)
  {
    if EveryWaits(steps) { OneKindOfSend(n, k, handlers, steps); }
    OwnResultsWithoutTimeouts(n, k, handlers, steps);
  }

  lemma OwnAreServed(s: State, handlers: seq<bool>, requests: seq<Request>, values: seq<int>)
    requires ValuesInv(s, handlers, requests, values) && AllOwn(s.log)
    ensures WaitersServed(s.log, handlers, requests, values)
  {
    forall j | 0 <= j < |s.log.returned| && s.log.returned[j].me.waits
      ensures FromItsCall(s.log, handlers, requests, values, s.log.returned[j].me.ticket, s.log.returned[j].ret)
    {
      OwnIsFromItsCall(s, handlers, requests, values, s.log.returned[j].me.ticket, s.log.returned[j].ret);
    }
  }

  /** Where no send times out, each sender that waits comes back with what the call made for it returned:
      in every interleaving if all sends wait, and otherwise if no drop is stale. */
  lemma WaitersGetTheirValues(n: u32, k: nat, handlers: seq<bool>, steps: seq<Step>)
    requires ValidSize(n) && NoneTimesOut(steps) && (EveryWaits(steps) || NoStaleDrop(n, k, handlers, steps))
    ensures WaitersServed(Run(n, k, handlers, steps).log, handlers, Requests(n, k, handlers, steps),
                          Values(n, k, handlers, steps))
  {
    AllOwnWithoutTimeouts(n, k, handlers, steps);
    RunValues(n, k, handlers, steps);
    OwnAreServed(Run(n, k, handlers, steps), handlers, Requests(n, k, handlers, steps),
                 Values(n, k, handlers, steps));
  }

  // ---- senders that do not wait

  predicate Hasty(x: Sender) {
    !x.Waiting? && !x.Woken? && !x.TimedOut? && (x.Leaving? ==> x.ret == 0 && !x.woken)
  }

  ghost predicate HastyInv(s: State) {
    && NoTimeouts(s)
    && (forall i :: 0 <= i < |s.senders| ==> Hasty(s.senders[i]))
    && forall j :: 0 <= j < |s.log.returned| ==> s.log.returned[j].ret == 0 && !s.log.returned[j].woken
  }

  lemma LookHasty(s: State, i: nat)
    requires Inv(s) && HastyInv(s) && i < |s.senders| && s.senders[i].Posted?
    ensures Learned(s.senders[i], At(s.ops, s.senders[i].op, NO_OP), SenderLook(i)) ==
            Leaving(s.senders[i].op, s.senders[i].me, 0, false)
  {}

  lemma SenderHasty(s: State, i: nat, step: Step)
    requires Inv(s) && HastyInv(s) && i < |s.senders| && !ByWorker(step) && step.i == i
    requires NoTimeouts(AdvanceSender(s, i, step))
    ensures HastyInv(AdvanceSender(s, i, step))
  {
    var x, s' := s.senders[i], AdvanceSender(s, i, step);
    InvFits(s, i);
    if step.SenderLook? && x.Posted? { LookHasty(s, i); }
    assert s'.senders == s.senders[i := s'.senders[i]] && Hasty(s'.senders[i]);
    assert s'.log.returned == s.log.returned
           || (x.Leaving? && s'.log.returned == s.log.returned + [Return(x.me, x.ret, x.woken)]);
  }

  lemma WorkerHasty(s: State, step: Step)
    requires Sized(s) && HastyInv(s)
    ensures HastyInv(AdvanceWorker(s, step))
  {
    WorkerNoTimeouts(s, step);
    var s' := AdvanceWorker(s, step);
    assert s'.senders == s.senders && s'.log.returned == s.log.returned;
  }

  lemma StepHasty(s: State, step: Step)
    requires Inv(s) && HastyInv(s) && (step.SenderGet? ==> step.wait.None?)
    ensures HastyInv(Apply(s, step))
  {
    if ByWorker(step) {
      WorkerHasty(s, step);
    } else if step.i < |s.senders| {
      SenderNoTimeouts(s, step.i, step);
      SenderHasty(s, step.i, step);
    }
  }

  lemma {:induction false} HastyRun(n: u32, k: nat, handlers: seq<bool>, steps: seq<Step>)
    requires ValidSize(n) && NoneWaits(steps)
    ensures HastyInv(Run(n, k, handlers, steps))
    decreases |steps|
  {
    if steps != [] {
      var m := |steps| - 1;
      HastyRun(n, k, handlers, steps[..m]);
      NoneWaitsRun(n, k, handlers, steps[..m]);
      RunInv(n, k, handlers, steps[..m]);
      StepHasty(Run(n, k, handlers, steps[..m]), steps[m]);
    }
  }

  /** Where no send waits, every sender comes back with 0 at once. */
  lemma HastySendersGetZero(n: u32, k: nat, handlers: seq<bool>, steps: seq<Step>)
    requires ValidSize(n) && NoneWaits(steps)
    ensures var log := Run(n, k, handlers, steps).log;
            forall j :: 0 <= j < |log.returned| ==> log.returned[j].ret == 0 && !log.returned[j].woken
  {
    HastyRun(n, k, handlers, steps);
  }
}
