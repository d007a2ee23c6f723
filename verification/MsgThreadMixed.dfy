/** Sends of both kinds in msg_thread.c, for any number of ops: a sender that does not wait looks at its op
    again after one that waits has got it, and drops a reference of the other. */
module MsgThreadMixed {
  import opened Options
  import opened Words
  import opened OpQueues
  import opened MsgThread
  import opened MsgThreadTheorems
  import opened MsgThreadResults
  import opened MsgThreadRuns
  import opened MsgThreadRecycled

  // ---- the send that does not wait

  function Hasty(x: Sender, ref: int, home: Home, w: Worker, free: seq<nat>, active: seq<nat>): Scene {
    Scene(x, Op(ASK, 0, 0, 0, ref), home, w, free, active)
  }

  lemma TakesFirst(c: Setup) returns (s: State)
    requires ValidSize(c.n) && c.k > 0
    ensures Reachable(c, true, s)
    ensures Shows(Init(c.n, c.k, c.handlers), s, 0, 0, Hasty(Taken(0, 0), 0, WithSender(0), Waits, Iota(c.n)[1..], []))
  {
    StartReachable(c, true);
    InitHolds(c);
    s := Takes(c, true, Init(c.n, c.k, c.handlers), 0, None);
  }

  lemma Prepares(c: Setup, s0: State, s: State, free: seq<nat>) returns (s': State)
    requires Reachable(c, true, s) && Shows(s0, s, 0, 0, Hasty(Taken(0, 0), 0, WithSender(0), Waits, free, []))
    ensures Reachable(c, true, s') && Shows(s0, s', 0, 0, Hasty(Ready(0), 1, WithSender(0), Waits, free, []))
  {
    s' := Stores(c, true, s0, s, 0, 0, Hasty(Taken(0, 0), 0, WithSender(0), Waits, free, []));
    s' := Stores(c, true, s0, s', 0, 0, Hasty(Got(0), 0, WithSender(0), Waits, free, []));
    s' := Stores(c, true, s0, s', 0, 0, Hasty(Counted(0), 0, WithSender(0), Waits, free, []));
  }

  // published, and not waited for
  function Posted0(x: Sender, w: Worker, n: u32, active: seq<nat>): Scene
    requires n > 0
  {
    Hasty(x, 1, Shared(None, true), w, Iota(n)[1..], active)
  }

  lemma DoesNotWait(c: Setup) returns (s: State, me: Call)
    requires ValidSize(c.n) && c.k > 0
    ensures Reachable(c, true, s) && !me.waits
    ensures Shows(Init(c.n, c.k, c.handlers), s, 0, 0, Posted0(Leaving(0, me, 0, false), Waits, c.n, [0]))
  {
    var s0 := Init(c.n, c.k, c.handlers);
    s := TakesFirst(c);
    s := Prepares(c, s0, s, Iota(c.n)[1..]);
    s, me := Publishes(c, true, s0, s, 0, 0, Hasty(Ready(0), 1, WithSender(0), Waits, Iota(c.n)[1..], []));
    assert [] + [0] == [0];
    s := Learns(c, true, s0, s, 0, 0, Posted0(Posted(0, me), Waits, c.n, [0]), SenderLook(0));
  }

  /** The worker handles the call and gives the op back. */
  lemma IsServed(c: Setup) returns (s: State, me: Call)
    requires ValidSize(c.n) && c.k > 0
    ensures Reachable(c, true, s) && !me.waits
    ensures Shows(Init(c.n, c.k, c.handlers), s, 0, 0,
                  Hasty(Leaving(0, me, 0, false), 0, InFree, Waits, Iota(c.n)[1..] + [0], []))
  {
    var s0 := Init(c.n, c.k, c.handlers);
    s, me := DoesNotWait(c);
    var x, ret := Leaving(0, me, 0, false), HandlerResult(c.handlers, 0, 7);
    s := WorkerTakes(c, true, s0, s, 0, 0, Posted0(x, Waits, c.n, [0]));
    s := WorkerHandles(c, true, s0, s, 0, 0, Posted0(x, Holds(0), c.n, []), 7);
    s := WorkerDrops(c, true, s0, s, 0, 0, Posted0(x, Handled(0, ret), c.n, []));
    s := WorkerFrees(c, true, s0, s, 0, 0, Hasty(x, 0, WithWorker, Returning(0), Iota(c.n)[1..], []));
  }

  // ---- the sends that wait

  /** Sender 0 has not looked again, and its op is the only free one; nobody waits for the others. */
  ghost predicate OneLeft(s: State, me: Call, n: nat) {
    && Ok(s.free) && Ok(s.active) && |s.senders| > 1 && |s.ops| == |s.log.home| == n
    && s.senders[0] == Leaving(0, me, 0, false) && !me.waits && s.senders[1].Idle? && s.worker == Waits
    && n > 0 && Contents(s.free) == [0] && Contents(s.active) == Iota(n)[1..]
    && forall p :: 1 <= p < n ==> s.log.home[p] == Shared(None, true)
  }

  lemma OthersUsedUp(s: State, s': State, me: Call, n: u32)
    requires Ok(s.free) && n > 0 && Contents(s.free) == Iota(n)[1..] + [0] && UsedUp(s, s', n - 1)
    requires Contents(s.active) == [] && s.worker == Waits && |s.ops| == n && |s.senders| > 1
    requires s.senders[0] == Leaving(0, me, 0, false) && !me.waits && s.senders[1].Idle?
    ensures OneLeft(s', me, n)
  {
    var all := Contents(s.free);
    assert all[n - 1..] == [0] && all[..n - 1] == Iota(n)[1..] && [] + Iota(n)[1..] == Iota(n)[1..];
    forall p | 1 <= p < n ensures s'.log.home[p] == Shared(None, true) {
      assert Iota(n)[1..][p - 1] == p;
    }
  }

  lemma InitSenders(c: Setup, s: State, o: nat, scene: Scene)
    requires ValidSize(c.n) && c.k > 1 && Shows(Init(c.n, c.k, c.handlers), s, 0, o, scene)
    ensures |s.senders| > 1 && s.senders[0] == scene.x && s.senders[1].Idle? && |s.ops| == c.n
  {}

  lemma ReachOneLeft(c: Setup) returns (s: State, me: Call)
    requires ValidSize(c.n) && c.k > 1
    ensures Reachable(c, true, s) && OneLeft(s, me, c.n)
  {
    var m;
    m, me := IsServed(c);
    InitSenders(c, m, 0, Hasty(Leaving(0, me, 0, false), 0, InFree, Waits, Iota(c.n)[1..] + [0], []));
    s := UsesUp(c, true, m, 1, c.n - 1);
    OthersUsedUp(m, s, me, c.n);
  }

  // ---- the worker comes to the last one

  /** Sender 1 waits for op 0, which is behind ops that nobody waits for. */
  ghost predicate InLine(s: State, me: Call, you: Call, rest: seq<nat>) {
    && Ok(s.free) && Ok(s.active) && |s.senders| > 1 && |s.ops| == |s.log.home| > 0
    && s.senders[0] == Leaving(0, me, 0, false) && !me.waits && s.senders[1] == Waiting(0, you) && you.waits
    && s.worker == Waits && Contents(s.active) == rest + [0]
    && s.ops[0] == Op(ASK, 5, -9, 0, 2) && s.log.home[0] == Shared(Some(1), true) && NoDup(rest)
    && forall j :: 0 <= j < |rest| ==> 0 < rest[j] < |s.ops| && s.log.home[rest[j]] == Shared(None, true)
  }

  lemma JoinsLine(c: Setup, s: State, me: Call) returns (s': State, you: Call)
    requires Reachable(c, true, s) && OneLeft(s, me, c.n)
    ensures Reachable(c, true, s') && InLine(s', me, you, Iota(c.n)[1..])
  {
    s', you := Calls(c, true, s, 1);
  }

  lemma RefOne(c: Setup, s: State, o: nat)
    requires Reachable(c, true, s) && o < |s.ops| == |s.log.home| && s.log.home[o] == Shared(None, true)
    ensures s.ops[o].ref == 1
  {
    ReachableSound(c, true, s);
    assert RefOk(s.ops[o], s.log.home[o], s.senders);
  }

  /** The worker serves the first in line. */
  lemma ServesOne(c: Setup, s: State, o: nat, active: seq<nat>) returns (s': State)
    requires Reachable(c, true, s) && Ok(s.free) && Ok(s.active) && |s.senders| > 0 && |s.ops| == |s.log.home|
    requires s.worker == Waits && Contents(s.active) == [o] + active
    requires o < |s.ops| && s.log.home[o] == Shared(None, true)
    ensures Reachable(c, true, s')
    ensures Shows(s, s', 0, o, Scene(s.senders[0], s.ops[o].(ref := 0), InFree, Waits, Contents(s.free) + [o], active))
  {
    var scene := SceneOf(s, 0, o);
    var ret := HandlerResult(s.handlers, s.ops[o].request.opId, 7);
    RefOne(c, s, o);
    ShowsItself(s, 0, o);
    s' := WorkerTakes(c, true, s, s, 0, o, scene);
    scene := scene.(worker := Holds(o), active := active);
    s' := WorkerHandles(c, true, s, s', 0, o, scene, 7);
    s' := WorkerDrops(c, true, s, s', 0, o, scene.(worker := Handled(o, ret)));
    scene := scene.(worker := Returning(o), op := s.ops[o].(ref := 0), home := WithWorker);
    s' := WorkerFrees(c, true, s, s', 0, o, scene);
  }

  lemma {:induction false} ServesLine(c: Setup, s: State, me: Call, you: Call, rest: seq<nat>) returns (s': State)
    requires Reachable(c, true, s) && InLine(s, me, you, rest)
    ensures Reachable(c, true, s') && InLine(s', me, you, [])
    decreases |rest|
  {
    if rest == [] {
      s' := s;
    } else {
      assert rest + [0] == [rest[0]] + (rest[1..] + [0]);
      var m := ServesOne(c, s, rest[0], rest[1..] + [0]);
      NextInLine(s, m, me, you, rest);
      s' := ServesLine(c, m, me, you, rest[1..]);
    }
  }

  lemma NextInLine(s: State, m: State, me: Call, you: Call, rest: seq<nat>)
    requires InLine(s, me, you, rest) && rest != []
    requires Shows(s, m, 0, rest[0], Scene(s.senders[0], s.ops[rest[0]].(ref := 0), InFree, Waits,
                                           Contents(s.free) + [rest[0]], rest[1..] + [0]))
    ensures InLine(m, me, you, rest[1..])
  {}

  /** The worker has handled sender 1's call, and sender 0 has found its timeout. */
  ghost predicate AboutToRob(s: State, me: Call, you: Call) {
    && |s.senders| > 1 && |s.ops| == |s.log.home| > 0
    && s.senders[0] == Dropping(0, me, 0, false) && !me.waits && s.senders[1] == Waiting(0, you) && you.waits
    && s.worker.Handled? && s.worker.op == 0 && you.ticket in s.log.handled
    && s.ops[0] == Op(ASK, 5, -9, 0, 2) && s.log.home[0] == Shared(Some(1), true)
  }

  lemma TicketOfWaiter(c: Setup, s: State, you: Call)
    requires Reachable(c, true, s) && |s.senders| > 1 && s.senders[1] == Waiting(0, you) && you.waits
    ensures At(s.log.ticket, 0, 0) == you.ticket
  {
    ReachableSound(c, true, s);
    assert SenderResultOk(s.senders[1], At(s.log.ticket, 0, 0), s.log.produced);
  }

  lemma HandlesLast(c: Setup, s: State, me: Call, you: Call) returns (s': State)
    requires Reachable(c, true, s) && InLine(s, me, you, [])
    ensures Reachable(c, true, s') && you.ticket in s'.log.handled
    ensures Shows(s, s', 0, 0, SceneOf(s, 0, 0).(worker := Handled(0, HandlerResult(s.handlers, 0, 7)), active := []))
  {
    ShowsItself(s, 0, 0);
    s' := WorkerTakes(c, true, s, s, 0, 0, SceneOf(s, 0, 0));
    TicketOfWaiter(c, s', you);
    s' := WorkerHandles(c, true, s, s', 0, 0, SceneOf(s, 0, 0).(worker := Holds(0), active := []), 7);
  }

  lemma LooksAgain(c: Setup, s: State) returns (s': State)
    requires Reachable(c, true, s) && Sized(s) && |s.senders| > 0 && s.senders[0].Leaving?
    requires At(s.ops, s.senders[0].op, NO_OP).timeout > 0
    ensures Reachable(c, true, s')
    ensures var x := s.senders[0]; s' == s.(senders := s.senders[0 := Dropping(x.op, x.me, x.ret, x.woken)])
  {
    s' := GoTest(c, true, s, 0);
  }

  lemma ReachInLine(c: Setup) returns (s: State, me: Call, you: Call)
    requires ValidSize(c.n) && c.k > 1
    ensures Reachable(c, true, s) && InLine(s, me, you, [])
  {
    s, me := ReachOneLeft(c);
    s, you := JoinsLine(c, s, me);
    s := ServesLine(c, s, me, you, Iota(c.n)[1..]);
  }

  lemma ReachRobbing(c: Setup) returns (s: State, me: Call, you: Call)
    requires ValidSize(c.n) && c.k > 1
    ensures Reachable(c, true, s) && AboutToRob(s, me, you)
  {
    s, me, you := ReachInLine(c);
    s := HandlesLast(c, s, me, you);
    s := LooksAgain(c, s);
  }

  // ---- what it leads to

  lemma AboutToRobIsStale(s: State, me: Call, you: Call)
    requires AboutToRob(s, me, you)
    ensures StaleDrop(s, SenderDrop(0))
  {}

  /** For every size of the pool, a stale drop can happen as soon as two senders send in both ways. */
  lemma StaleDropReachable(c: Setup) returns (s: State)
    requires ValidSize(c.n) && c.k > 1
    ensures Reachable(c, true, s) && StaleDrop(s, SenderDrop(0))
  {
    var me, you;
    s, me, you := ReachRobbing(c);
    AboutToRobIsStale(s, me, you);
  }

  // the last steps, from where the invariant no longer helps

  lemma Robs(s: State, me: Call, you: Call) returns (s': State)
    requires AboutToRob(s, me, you) && FreeInv(s.free, s.log.home)
    ensures s' == DropBySender(s, 0, s.senders[0])
    ensures s'.worker == s.worker && s'.senders == s.senders[0 := Idle] && s'.ops == s.ops[0 := Op(ASK, 5, -9, 0, 1)]
    ensures s'.free == s.free && s'.log.home == s.log.home && s'.log.handled == s.log.handled
  {
    s' := DropBySender(s, 0, s.senders[0]);
    assert s.log.home[0 := s.log.home[0]] == s.log.home;
  }

  lemma GivesAway(s: State) returns (s': State)
    requires s.worker.Handled? && s.worker.op == 0 && |s.ops| == |s.log.home| > 0 && s.ops[0].ref == 1
    ensures s' == DropByWorker(s, 0, s.worker.ret)
    ensures s'.worker == Returning(0) && s'.senders == s.senders && s'.ops == s.ops[0 := s.ops[0].(ref := 0)]
    ensures s'.free == s.free && s'.log.home == s.log.home[0 := WithWorker] && s'.log.handled == s.log.handled
  {
    s' := DropByWorker(s, 0, s.worker.ret);
  }

  lemma GoesBack(s: State) returns (s': State)
    requires Sized(s) && Ok(s.free) && |Contents(s.free)| < |s.free.slots| && s.worker == Returning(0)
    ensures s' == PutFree(s, 0).(worker := Waits)
    ensures s'.worker == Waits && s'.senders == s.senders && s'.ops == s.ops && s'.log.handled == s.log.handled
    ensures Ok(s'.free) && 0 in Contents(s'.free)
  {
    PutAppends(s.free, 0);
    s' := PutFree(s, 0).(worker := Waits);
    assert Contents(s'.free)[|Contents(s.free)|] == 0;
  }

  /** Sender 1 waits for an op that is in the free queue, and the worker has done its part and sleeps. */
  ghost predicate Stranded(s: State) {
    && Ok(s.free) && 0 in Contents(s.free) && |s.senders| > 1 && |s.ops| > 0
    && s.senders[1].Waiting? && s.senders[1].op == 0 && s.senders[1].me.waits
    && s.senders[1].me.ticket in s.log.handled && s.worker == Waits && s.ops[0].signal == 0
  }

  lemma Strands(s: State, me: Call, you: Call) returns (s1: State, s2: State, s3: State)
    requires AboutToRob(s, me, you) && Inv(s)
    ensures Sized(s) && s1 == Apply(s, SenderDrop(0)) && Sized(s1) && s2 == Apply(s1, WorkerDrop)
    ensures Sized(s2) && s3 == Apply(s2, WorkerFree) && Stranded(s3)
  {
    FreeHasRoom(s.free, s.log.home, 0);
    s1 := Robs(s, me, you);
    StepKeepsSized(s, SenderDrop(0));
    s2 := GivesAway(s1);
    StepKeepsSized(s1, WorkerDrop);
    s3 := GoesBack(s2);
  }

  lemma Goes(c: Setup, steps: seq<Step>, s: State, step: Step, s': State) returns (more: seq<Step>)
    requires ValidSize(c.n) && Run(c.n, c.k, c.handlers, steps) == s && Sized(s) && Apply(s, step) == s'
    ensures more == steps + [step] && Run(c.n, c.k, c.handlers, more) == s'
  {
    more := steps + [step];
    assert more[..|steps|] == steps;
  }

  lemma ReachStranded(c: Setup) returns (steps: seq<Step>)
    requires ValidSize(c.n) && c.k > 1
    ensures Stranded(Run(c.n, c.k, c.handlers, steps))
  {
    var s, me, you := ReachRobbing(c);
    ReachableSound(c, true, s);
    var s1, s2, s3 := Strands(s, me, you);
    steps :| CleanRun(c, true, steps, s);
    steps := Goes(c, steps, s, SenderDrop(0), s1);
    steps := Goes(c, steps, s1, WorkerDrop, s2);
    steps := Goes(c, steps, s2, WorkerFree, s3);
  }

  /** For every size of the pool and at least two senders an op can be back in the free queue while its
      sender still waits for it. The worker has handled the call and is done with it, but has not signalled. */
  lemma FreedWhileWaitedFor(c: Setup)
    requires ValidSize(c.n) && c.k > 1
    ensures exists steps :: Stranded(Run(c.n, c.k, c.handlers, steps))
  {
    var steps := ReachStranded(c);
  }

  // ---- one sender alone

  /** A lone sender that does not wait finds no timeout: nobody else has its op. */
  ghost predicate LoneInv(s: State) {
    forall i :: 0 <= i < |s.senders| && HasCall(s.senders[i]) && !s.senders[i].me.waits ==>
      !s.senders[i].Dropping? && At(s.ops, s.senders[i].op, NO_OP).timeout == 0
  }

  lemma SenderKeepsLone(s: State, i: nat, step: Step)
    requires Sized(s) && LoneInv(s) && i == 0 && |s.senders| == 1
    ensures LoneInv(AdvanceSender(s, i, step))
  {}

  lemma WorkerKeepsLone(s: State, step: Step)
    requires Sized(s) && LoneInv(s)
    ensures LoneInv(AdvanceWorker(s, step))
  {
    var s' := AdvanceWorker(s, step);
    assert s'.senders == s.senders && |s'.ops| == |s.ops|;
    assert forall o :: 0 <= o < |s.ops| ==> s'.ops[o].timeout == s.ops[o].timeout;
  }

  lemma StepKeepsLone(s: State, step: Step)
    requires Sized(s) && LoneInv(s) && |s.senders| < 2
    ensures LoneInv(Apply(s, step)) && !StaleDrop(s, step)
  {
    if ByWorker(step) { WorkerKeepsLone(s, step); }
    else if step.i < |s.senders| { SenderKeepsLone(s, step.i, step); }
  }

  lemma {:induction false} LoneRun(c: Setup, steps: seq<Step>)
    requires ValidSize(c.n) && c.k < 2
    ensures NoStaleDrop(c.n, c.k, c.handlers, steps) && LoneInv(Run(c.n, c.k, c.handlers, steps))
    decreases |steps|
  {
    if steps != [] {
      var m := |steps| - 1;
      var s := Run(c.n, c.k, c.handlers, steps[..m]);
      LoneRun(c, steps[..m]);
      PoolStays(c.n, c.k, c.handlers, steps[..m]);
      StepKeepsLone(s, steps[m]);
    }
  }

  // ---- when ops are conserved

  /** Only sends of these kinds. */
  predicate Allowed(steps: seq<Step>, hasty: bool, waits: bool) {
    (hasty || EveryWaits(steps)) && (waits || NoneWaits(steps))
  }

  ghost predicate ConservedInEveryRun(c: Setup, hasty: bool, waits: bool)
    requires ValidSize(c.n)
  {
    forall steps, o: nat :: Allowed(steps, hasty, waits) && o < c.n ==> Placed(Run(c.n, c.k, c.handlers, steps), o)
  }

  lemma RobbingBreaks(c: Setup) returns (steps: seq<Step>, o: nat)
    requires ValidSize(c.n) && c.k > 1
    ensures o < c.n && !Placed(Run(c.n, c.k, c.handlers, steps), o)
  {
    var s := StaleDropReachable(c);
    ReachableSound(c, true, s);
    var before :| CleanRun(c, true, before, s);
    StaleDropBreaks(s, SenderDrop(0));
    steps := Goes(c, before, s, SenderDrop(0), Apply(s, SenderDrop(0)));
    o := s.senders[0].op;
  }

  /** For every size of the pool, any number of senders and either kind of send: ops are conserved in every
      interleaving if and only if sends of only one kind are made, or by only one sender. */
  lemma ConservedForOneKind(c: Setup, hasty: bool, waits: bool)
    requires ValidSize(c.n)
    ensures ConservedInEveryRun(c, hasty, waits) <==> !(hasty && waits) || c.k < 2
  {
    if hasty && waits && c.k >= 2 {
      var steps, o := RobbingBreaks(c);
      assert Allowed(steps, hasty, waits);
    } else {
      forall steps, o: nat | Allowed(steps, hasty, waits) && o < c.n
        ensures Placed(Run(c.n, c.k, c.handlers, steps), o)
      {
        if c.k < 2 { LoneRun(c, steps); } else { OneKindOfSend(c.n, c.k, c.handlers, steps); }
        OpConservation(c.n, c.k, c.handlers, steps, o);
      }
    }
  }
}
