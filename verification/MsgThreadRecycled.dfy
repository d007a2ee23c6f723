/** Runs of msg_thread.c, for any number of ops, in which the op of a call that timed out is recycled
    between the worker's drop and its signal. One sender is enough, and it always waits. */
module MsgThreadRecycled {
  import opened Options
  import opened Words
  import opened OpQueues
  import opened MsgThread
  import opened MsgThreadTheorems
  import opened MsgThreadResults
  import opened MsgThreadStale
  import opened MsgThreadTimely
  import opened MsgThreadRuns

  // ---- the stretches of one call

  // what a call that waits looks like before the op is published
  function Fresh(s: State, x: Sender, i: nat, result: int, ref: int, free: seq<nat>, active: seq<nat>): Scene {
    Scene(x, Op(ASK, 5, result, 0, ref), WithSender(i), s.worker, free, active)
  }

  lemma TakesAndResets(c: Setup, hasty: bool, s: State, i: nat) returns (s': State)
    requires Reachable(c, hasty, s) && Ok(s.free) && Ok(s.active) && i < |s.senders| && s.senders[i].Idle?
    requires Contents(s.free) != []
    ensures Reachable(c, hasty, s')
    ensures var o, free := Contents(s.free)[0], Contents(s.free)[1..];
            Shows(s, s', i, o, Fresh(s, Reset(o), i, -9, 0, free, Contents(s.active)))
  {
    var o, free, active := Contents(s.free)[0], Contents(s.free)[1..], Contents(s.active);
    s' := Takes(c, hasty, s, i, Some(5));
    s' := Stores(c, hasty, s, s', i, o, Scene(Taken(o, 5), Op(ASK, 0, 0, 0, 0), WithSender(i), s.worker, free, active));
    s' := Stores(c, hasty, s, s', i, o, Fresh(s, Got(o), i, 0, 0, free, active));
  }

  lemma Inits(c: Setup, hasty: bool, s0: State, s: State, i: nat, o: nat, free: seq<nat>, active: seq<nat>)
    returns (s': State)
    requires Reachable(c, hasty, s) && Shows(s0, s, i, o, Fresh(s0, Reset(o), i, -9, 0, free, active))
    ensures Reachable(c, hasty, s') && Shows(s0, s', i, o, Fresh(s0, Inited(o), i, -9, 0, free, active))
  {
    s' := Stores(c, hasty, s0, s, i, o, Fresh(s0, Reset(o), i, -9, 0, free, active));
  }

  lemma Counts(c: Setup, hasty: bool, s0: State, s: State, i: nat, o: nat, free: seq<nat>, active: seq<nat>)
    returns (s': State)
    requires Reachable(c, hasty, s) && Shows(s0, s, i, o, Fresh(s0, Inited(o), i, -9, 0, free, active))
    ensures Reachable(c, hasty, s') && Shows(s0, s', i, o, Fresh(s0, Ready(o), i, -9, 2, free, active))
  {
    s' := Stores(c, hasty, s0, s, i, o, Fresh(s0, Inited(o), i, -9, 0, free, active));
    s' := Stores(c, hasty, s0, s', i, o, Fresh(s0, Counted(o), i, -9, 1, free, active));
  }

  // ... and while both sides hold a reference
  function Posting(s: State, x: Sender, i: nat, free: seq<nat>, active: seq<nat>): Scene {
    Scene(x, Op(ASK, 5, -9, 0, 2), Shared(Some(i), true), s.worker, free, active)
  }

  lemma Readies(c: Setup, hasty: bool, s: State, i: nat) returns (s': State)
    requires Reachable(c, hasty, s) && Ok(s.free) && Ok(s.active) && i < |s.senders| && s.senders[i].Idle?
    requires Contents(s.free) != []
    ensures Reachable(c, hasty, s')
    ensures var o, free := Contents(s.free)[0], Contents(s.free)[1..];
            Shows(s, s', i, o, Fresh(s, Ready(o), i, -9, 2, free, Contents(s.active)))
  {
    var o, free, active := Contents(s.free)[0], Contents(s.free)[1..], Contents(s.active);
    s' := TakesAndResets(c, hasty, s, i);
    s' := Inits(c, hasty, s, s', i, o, free, active);
    s' := Counts(c, hasty, s, s', i, o, free, active);
  }

  /** A sender calls, and begins to wait. */
  lemma Calls(c: Setup, hasty: bool, s: State, i: nat) returns (s': State, me: Call)
    requires Reachable(c, hasty, s) && Ok(s.free) && Ok(s.active) && i < |s.senders| && s.senders[i].Idle?
    requires Contents(s.free) != []
    ensures Reachable(c, hasty, s') && me.waits
    ensures var o := Contents(s.free)[0];
            Shows(s, s', i, o, Posting(s, Waiting(o, me), i, Contents(s.free)[1..], Contents(s.active) + [o]))
  {
    var o, free, active := Contents(s.free)[0], Contents(s.free)[1..], Contents(s.active);
    s' := Readies(c, hasty, s, i);
    s', me := Publishes(c, hasty, s, s', i, o, Fresh(s, Ready(o), i, -9, 2, free, active));
    s' := Learns(c, hasty, s, s', i, o, Posting(s, Posted(o, me), i, free, active + [o]), SenderLook(i));
  }

  /** It times out, and is about to drop its reference. */
  lemma GivesUp(c: Setup, hasty: bool, s0: State, s: State, i: nat, o: nat, scene: Scene) returns (s': State)
    requires Reachable(c, hasty, s) && Shows(s0, s, i, o, scene)
    requires scene.x.Waiting? && scene.x.op == o && scene.op.timeout > 0
    ensures Reachable(c, hasty, s')
    ensures Shows(s0, s', i, o, scene.(x := Dropping(o, scene.x.me, scene.op.result, false)))
  {
    var me, ret := scene.x.me, scene.op.result;
    s' := Learns(c, hasty, s0, s, i, o, scene, SenderTimeout(i));
    s' := Learns(c, hasty, s0, s', i, o, scene.(x := TimedOut(o, me)), SenderCheck(i));
    s' := Tests(c, hasty, s0, s', i, o, scene.(x := Leaving(o, me, ret, false)));
  }

  // ---- using up the free ops

  /** The first m free ops have gone to calls that timed out before the worker came to them. */
  ghost predicate UsedUp(s: State, s': State, m: nat) {
    && Ok(s.free) && Ok(s.active) && Ok(s'.free) && Ok(s'.active) && m <= |Contents(s.free)|
    && s'.senders == s.senders && s'.worker == s.worker && s'.handlers == s.handlers
    && |s'.ops| == |s'.log.home| == |s.ops| == |s.log.home|
    && Contents(s'.free) == Contents(s.free)[m..]
    && Contents(s'.active) == Contents(s.active) + Contents(s.free)[..m]
    && (forall p :: 0 <= p < |s.ops| && p in Contents(s.free)[..m] ==> s'.log.home[p] == Shared(None, true))
    && (forall p :: 0 <= p < |s.ops| && p !in Contents(s.free)[..m] ==>
          s'.ops[p] == s.ops[p] && s'.log.home[p] == s.log.home[p])
  }

  lemma Abandons(c: Setup, hasty: bool, s: State, i: nat) returns (s': State)
    requires Reachable(c, hasty, s) && Ok(s.free) && Ok(s.active) && i < |s.senders| && s.senders[i].Idle?
    requires Contents(s.free) != []
    ensures Reachable(c, hasty, s') && UsedUp(s, s', 1)
  {
    var o, free, active := Contents(s.free)[0], Contents(s.free)[1..], Contents(s.active);
    var me;
    s', me := Calls(c, hasty, s, i);
    s' := GivesUp(c, hasty, s, s', i, o, Posting(s, Waiting(o, me), i, free, active + [o]));
    s' := Drops(c, hasty, s, s', i, o, Posting(s, Dropping(o, me, -9, false), i, free, active + [o]));
    assert Contents(s.free)[..1] == [o] && s.senders[i := Idle] == s.senders;
  }

  lemma UsedUpMore(s: State, m: State, s': State, k: nat)
    requires UsedUp(s, m, 1) && UsedUp(m, s', k)
    ensures UsedUp(s, s', k + 1)
  {
    var all := Contents(s.free);
    assert Contents(m.free)[..k] == all[1..][..k];
    assert all[..k + 1] == all[..1] + all[1..][..k];
    assert all[1..][k..] == all[k + 1..];
    assert Contents(s.active) + all[..1] + all[1..][..k] == Contents(s.active) + all[..k + 1];
    forall p | 0 <= p < |s.ops|
      ensures if p in all[..k + 1] then s'.log.home[p] == Shared(None, true)
              else s'.ops[p] == s.ops[p] && s'.log.home[p] == s.log.home[p]
    {
      assert p in all[..k + 1] <==> p in all[..1] || p in all[1..][..k];
    }
  }

  /** A sender uses up the first k free ops, whatever anybody else is doing. */
  lemma {:induction false} UsesUp(c: Setup, hasty: bool, s: State, i: nat, k: nat) returns (s': State)
    requires Reachable(c, hasty, s) && Ok(s.free) && Ok(s.active) && i < |s.senders| && s.senders[i].Idle?
    requires |s.ops| == |s.log.home| && k <= |Contents(s.free)|
    ensures Reachable(c, hasty, s') && UsedUp(s, s', k)
    decreases k
  {
    if k == 0 {
      s' := s;
    } else {
      var m := Abandons(c, hasty, s, i);
      s' := UsesUp(c, hasty, m, i, k - 1);
      UsedUpMore(s, m, s', k - 1);
    }
  }

  // ---- an op comes round again

  lemma InitHolds(c: Setup)
    requires ValidSize(c.n)
    ensures var s := Init(c.n, c.k, c.handlers);
            && Ok(s.free) && Ok(s.active) && Contents(s.free) == Iota(c.n) && Contents(s.active) == []
  {
    FilledHolds(c.n, c.n);
    FilledHolds(c.n, 0);
  }

  // after the first call has been handled, as far as its sender knows in vain
  function AfterFirst(x: Sender, op: Op, home: Home, w: Worker, n: u32): Scene
    requires n > 0
  {
    Scene(x, op, home, w, Iota(n)[1..], [])
  }

  function Handling(me: Call, w: Worker, n: u32): Scene
    requires n > 0
  {
    AfterFirst(Waiting(0, me), Op(ASK, 5, -9, 0, 2), Shared(Some(0), true), w, n)
  }

  /** The worker handles a call. */
  lemma IsHandled(c: Setup) returns (s: State, me: Call, ret: int)
    requires ValidSize(c.n) && c.k > 0
    ensures Reachable(c, false, s) && me.waits && ret != -9
    ensures Shows(Init(c.n, c.k, c.handlers), s, 0, 0, Handling(me, Handled(0, ret), c.n))
  {
    var s0, rest := Init(c.n, c.k, c.handlers), Iota(c.n)[1..];
    StartReachable(c, false);
    InitHolds(c);
    s, me := Calls(c, false, s0, 0);
    s := WorkerTakes(c, false, s0, s, 0, 0, Posting(s0, Waiting(0, me), 0, rest, [] + [0]));
    s := WorkerHandles(c, false, s0, s, 0, 0, Handling(me, Holds(0), c.n), 7);
    ret := HandlerResult(c.handlers, 0, 7);
  }

  // the sender has timed out
  function GivenUp(me: Call, w: Worker, result: int, n: u32): Scene
    requires n > 0
  {
    AfterFirst(Dropping(0, me, -9, false), Op(ASK, 5, result, 0, 1), Shared(Some(0), false), w, n)
  }

  /** The sender times out, and the worker comes to where it will write its result. */
  lemma ComesTooLate(c: Setup) returns (s: State, me: Call, ret: int)
    requires ValidSize(c.n) && c.k > 0
    ensures Reachable(c, false, s) && me.waits && ret != -9
    ensures Shows(Init(c.n, c.k, c.handlers), s, 0, 0, GivenUp(me, Writing(0, ret), -9, c.n))
  {
    var s0 := Init(c.n, c.k, c.handlers);
    s, me, ret := IsHandled(c);
    s := GivesUp(c, false, s0, s, 0, 0, Handling(me, Handled(0, ret), c.n));
    s := WorkerDrops(c, false, s0, s, 0, 0, Handling(me, Handled(0, ret), c.n).(x := Dropping(0, me, -9, false)));
    s := WorkerTests(c, false, s0, s, 0, 0, GivenUp(me, Dropped(0, ret), -9, c.n));
  }

  /** The sender gives the op back. */
  lemma GivesBack(c: Setup, s: State, me: Call, w: Worker, result: int) returns (s': State)
    requires ValidSize(c.n) && Reachable(c, false, s) && me.waits
    requires Shows(Init(c.n, c.k, c.handlers), s, 0, 0, GivenUp(me, w, result, c.n))
    ensures Reachable(c, false, s')
    ensures Shows(Init(c.n, c.k, c.handlers), s', 0, 0,
                  AfterFirst(Idle, Op(ASK, 5, result, 0, 0), InFree, w, c.n).(free := Iota(c.n)[1..] + [0]))
  {
    var s0 := Init(c.n, c.k, c.handlers);
    s' := Drops(c, false, s0, s, 0, 0, GivenUp(me, w, result, c.n));
    s' := Frees(c, false, s0, s', 0, 0, AfterFirst(Freeing(0), Op(ASK, 5, result, 0, 0), WithSender(0), w, c.n));
  }

  lemma LastOf(s: State, s': State, n: nat)
    requires n > 0 && Ok(s.free) && Contents(s.free) == Iota(n)[1..] + [0] && UsedUp(s, s', n - 1)
    ensures Contents(s'.free) == [0]
  {
    assert (Iota(n)[1..] + [0])[n - 1..] == [0];
  }

  /** It uses up all others. */
  lemma ComesRound(c: Setup, s: State, me: Call, w: Worker, result: int) returns (s': State)
    requires ValidSize(c.n) && Reachable(c, false, s) && me.waits
    requires Shows(Init(c.n, c.k, c.handlers), s, 0, 0, GivenUp(me, w, result, c.n))
    ensures Reachable(c, false, s') && Ok(s'.free) && Ok(s'.active) && Contents(s'.free) == [0]
    ensures |s'.senders| > 0 && s'.senders[0].Idle? && s'.worker == w
  {
    var m := GivesBack(c, s, me, w, result);
    s' := UsesUp(c, false, m, 0, c.n - 1);
    LastOf(m, s', c.n);
  }

  /** For every size of the pool the worker can come to write into an op that its next sender has begun to
      prepare: here between the stores of the result and of the completion. */
  lemma StaleWriteReachable(c: Setup) returns (s: State)
    requires ValidSize(c.n) && c.k > 0
    ensures Reachable(c, false, s) && StaleWrite(s)
  {
    var me, ret;
    s, me, ret := ComesTooLate(c);
    var m := ComesRound(c, s, me, Writing(0, ret), -9);
    s := TakesAndResets(c, false, m, 0);
  }

  /** And, in another run, to raise the completion that its next sender has just initialised. */
  lemma StaleRaiseReachable(c: Setup) returns (s: State)
    requires ValidSize(c.n) && c.k > 0
    ensures Reachable(c, false, s) && StaleRaise(s)
  {
    var me, ret;
    var s0 := Init(c.n, c.k, c.handlers);
    s, me, ret := ComesTooLate(c);
    s := WorkerWrites(c, false, s0, s, 0, 0, GivenUp(me, Writing(0, ret), -9, c.n));
    var m := ComesRound(c, s, me, Raising(0), ret);
    s := TakesAndResets(c, false, m, 0);
    s := Inits(c, false, m, s, 0, 0, [], Contents(m.active));
  }

  // ---- what it leads to

  lemma {:induction false} RunThen(c: Setup, steps: seq<Step>, rest: seq<Step>)
    requires ValidSize(c.n)
    ensures Run(c.n, c.k, c.handlers, steps + rest) == After(Run(c.n, c.k, c.handlers, steps), rest)
    decreases |rest|
  {
    if rest == [] {
      assert steps + rest == steps;
    } else {
      assert (steps + [rest[0]])[..|steps|] == steps;
      assert steps + [rest[0]] + rest[1..] == steps + rest;
      RunThen(c, steps + [rest[0]], rest[1..]);
    }
  }

  lemma RunOf(c: Setup, s: State, step: Step) returns (steps: seq<Step>)
    requires Reachable(c, false, s) && Sized(s) && !step.SenderGet?
    ensures ValidSize(c.n) && EveryWaits(steps) && Run(c.n, c.k, c.handlers, steps) == Apply(s, step)
  {
    var before :| CleanRun(c, false, before, s);
    steps := before + [step];
    assert steps[..|before|] == before;
  }

  /** From a stale write or signal a run goes on to a sender with a foreign value. */
  lemma StaleRunMisleads(c: Setup, s: State, step: Step) returns (steps: seq<Step>)
    requires Reachable(c, false, s) && StaleSignal(s, step)
    ensures ValidSize(c.n) && EveryWaits(steps) && Misled(Run(c.n, c.k, c.handlers, steps))
  {
    ReachableSound(c, false, s);
    var before := RunOf(c, s, step);
    var i, o := StaleForeign(s, step);
    StepKeepsInv(s, step);
    var rest := ForeignMisled(Apply(s, step), i, o);
    RunThen(c, before, rest);
    steps := before + rest;
  }

  /** For every size of the pool, either leads to a sender that comes back with a foreign value. */
  lemma ForeignValueReturned(c: Setup, step: Step) returns (s: State, steps: seq<Step>)
    requires ValidSize(c.n) && c.k > 0 && (step.WorkerWrite? || step.WorkerRaise?)
    ensures Reachable(c, false, s) && StaleSignal(s, step)
    ensures EveryWaits(steps) && Misled(Run(c.n, c.k, c.handlers, steps))
  {
    if step.WorkerWrite? { s := StaleWriteReachable(c); } else { s := StaleRaiseReachable(c); }
    steps := StaleRunMisleads(c, s, step);
  }

  /** No sender comes back with a value that is not its own, in any run in which all sends wait: with or
      without timeouts. */
  ghost predicate OwnInEveryRun(c: Setup, timeouts: bool)
    requires ValidSize(c.n)
  {
    forall steps :: EveryWaits(steps) && (timeouts || NoneTimesOut(steps)) ==>
      !Misled(Run(c.n, c.k, c.handlers, steps))
  }

  /** For every size of the pool and any senders: where all sends wait, each sender comes back with its own
      handler's value in every interleaving if and only if none can time out. */
  lemma OwnResultsExactly(c: Setup, timeouts: bool)
    requires ValidSize(c.n) && c.k > 0
    ensures OwnInEveryRun(c, timeouts) <==> !timeouts
  {
    if timeouts {
      var s := StaleWriteReachable(c);
      var steps := StaleRunMisleads(c, s, WorkerWrite);
    } else {
      forall steps | EveryWaits(steps) && NoneTimesOut(steps) ensures !Misled(Run(c.n, c.k, c.handlers, steps)) {
        OwnResultsWithoutTimeouts(c.n, c.k, c.handlers, steps);
      }
    }
  }
}
