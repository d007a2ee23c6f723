/** What the runs of msg_thread.c that go wrong are made of: the steps of one send, from any state that a
    run without a stale step has come to, for any number of ops and senders. */
module MsgThreadRuns {
  import opened Options
  import opened Words
  import opened OpQueues
  import opened MsgThread
  import opened MsgThreadTheorems
  import opened MsgThreadResults

  datatype Setup = Setup(n: u32, k: nat, handlers: seq<bool>)

  /** These steps lead to s, none of them is stale, and all sends wait unless some may be hasty. */
  ghost predicate CleanRun(c: Setup, hasty: bool, steps: seq<Step>, s: State) {
    && ValidSize(c.n) && Run(c.n, c.k, c.handlers, steps) == s
    && NoStaleDrop(c.n, c.k, c.handlers, steps) && NoStaleSignal(c.n, c.k, c.handlers, steps)
    && (hasty || EveryWaits(steps))
  }

  ghost predicate Reachable(c: Setup, hasty: bool, s: State) { exists steps :: CleanRun(c, hasty, steps, s) }

  lemma ReachableSound(c: Setup, hasty: bool, s: State)
    requires Reachable(c, hasty, s)
    ensures Sound(s) && |s.ops| == c.n && |s.senders| == c.k
  {
    var steps :| CleanRun(c, hasty, steps, s);
    RunInv(c.n, c.k, c.handlers, steps);
    RunOnce(c.n, c.k, c.handlers, steps);
    RunResults(c.n, c.k, c.handlers, steps);
    PoolStays(c.n, c.k, c.handlers, steps);
  }

  lemma StartReachable(c: Setup, hasty: bool)
    requires ValidSize(c.n)
    ensures Reachable(c, hasty, Init(c.n, c.k, c.handlers))
  {
    assert CleanRun(c, hasty, [], Init(c.n, c.k, c.handlers));
  }

  predicate MayTake(hasty: bool, step: Step) { step.SenderGet? && !hasty ==> step.wait.Some? }

  lemma Reach(c: Setup, hasty: bool, s: State, step: Step)
    requires Reachable(c, hasty, s) && Sized(s) && MayTake(hasty, step)
    requires !StaleDrop(s, step) && !StaleSignal(s, step)
    ensures Reachable(c, hasty, Apply(s, step))
  {
    var steps :| CleanRun(c, hasty, steps, s);
    var more := steps + [step];
    assert more[..|steps|] == steps;
    assert CleanRun(c, hasty, more, Apply(s, step));
  }

  lemma BySender(c: Setup, hasty: bool, s: State, step: Step) returns (s': State)
    requires Reachable(c, hasty, s) && Sized(s) && MayTake(hasty, step)
    requires !ByWorker(step) && step.i < |s.senders| && !StaleDrop(s, step)
    ensures s' == AdvanceSender(s, step.i, step) && Reachable(c, hasty, s')
  {
    Reach(c, hasty, s, step);
    s' := Apply(s, step);
  }

  lemma ByTheWorker(c: Setup, hasty: bool, s: State, step: Step) returns (s': State)
    requires Reachable(c, hasty, s) && Sized(s) && ByWorker(step) && !StaleSignal(s, step)
    ensures s' == AdvanceWorker(s, step) && Reachable(c, hasty, s')
  {
    Reach(c, hasty, s, step);
    s' := Apply(s, step);
  }

  // ---- the steps by what they compute

  lemma GoLearn(c: Setup, hasty: bool, s: State, i: nat, step: Step) returns (s': State)
    requires Reachable(c, hasty, s) && Sized(s) && i < |s.senders| && !s.senders[i].Idle?
    requires step in {SenderLook(i), SenderTimeout(i), SenderCheck(i)}
    ensures Reachable(c, hasty, s')
    ensures s' == s.(senders := s.senders[i := Learned(s.senders[i], At(s.ops, s.senders[i].op, NO_OP), step)])
  {
    s' := BySender(c, hasty, s, step);
  }

  lemma GoTest(c: Setup, hasty: bool, s: State, i: nat) returns (s': State)
    requires Reachable(c, hasty, s) && Sized(s) && i < |s.senders| && s.senders[i].Leaving?
    ensures Reachable(c, hasty, s') && s' == Test(s, i, s.senders[i])
  {
    s' := BySender(c, hasty, s, SenderTest(i));
  }

  lemma GoDrop(c: Setup, hasty: bool, s: State, i: nat) returns (s': State)
    requires Reachable(c, hasty, s) && Sized(s) && i < |s.senders| && s.senders[i].Dropping? && s.senders[i].me.waits
    ensures Reachable(c, hasty, s') && s' == DropBySender(s, i, s.senders[i])
  {
    s' := BySender(c, hasty, s, SenderDrop(i));
  }

  lemma GoFree(c: Setup, hasty: bool, s: State, i: nat) returns (s': State)
    requires Reachable(c, hasty, s) && Sized(s) && i < |s.senders| && s.senders[i].Freeing?
    ensures Reachable(c, hasty, s') && s' == PutFree(s, s.senders[i].op).(senders := s.senders[i := Idle])
  {
    s' := BySender(c, hasty, s, SenderFree(i));
  }

  lemma GoWorkerDrop(c: Setup, hasty: bool, s: State) returns (s': State)
    requires Reachable(c, hasty, s) && Sized(s) && s.worker.Handled?
    ensures Reachable(c, hasty, s') && s' == DropByWorker(s, s.worker.op, s.worker.ret)
  {
    s' := ByTheWorker(c, hasty, s, WorkerDrop);
  }

  lemma GoWorkerTest(c: Setup, hasty: bool, s: State) returns (s': State)
    requires Reachable(c, hasty, s) && Sized(s) && s.worker.Dropped?
    ensures Reachable(c, hasty, s') && s' == TestByWorker(s, s.worker.op, s.worker.ret)
  {
    s' := ByTheWorker(c, hasty, s, WorkerTest);
  }

  lemma GoWorkerWrite(c: Setup, hasty: bool, s: State) returns (s': State)
    requires Reachable(c, hasty, s) && Sized(s) && s.worker.Writing? && Pending(s, s.worker.op) == None
    ensures Reachable(c, hasty, s') && s' == Write(s, s.worker.op, s.worker.ret)
  {
    s' := ByTheWorker(c, hasty, s, WorkerWrite);
  }

  lemma GoWorkerFree(c: Setup, hasty: bool, s: State) returns (s': State)
    requires Reachable(c, hasty, s) && Sized(s) && s.worker.Returning?
    ensures Reachable(c, hasty, s') && s' == PutFree(s, s.worker.op).(worker := Waits)
  {
    s' := ByTheWorker(c, hasty, s, WorkerFree);
  }

  // ---- scenes

  /** One sender, one op and the worker; and the two queues. */
  datatype Scene = Scene(x: Sender, op: Op, home: Home, worker: Worker, free: seq<nat>, active: seq<nat>)

  /** State s is like s0 but for sender i and op o, which are in this scene. */
  ghost predicate Shows(s0: State, s: State, i: nat, o: nat, scene: Scene) {
    && i < |s0.senders| && o < |s0.ops| == |s0.log.home| && Ok(s.free) && Ok(s.active)
    && s.senders == s0.senders[i := scene.x] && s.ops == s0.ops[o := scene.op] && s.handlers == s0.handlers
    && s.log.home == s0.log.home[o := scene.home] && s.worker == scene.worker
    && |s.log.ticket| == |s0.log.ticket| && Contents(s.free) == scene.free && Contents(s.active) == scene.active
  }

  ghost function SceneOf(s: State, i: nat, o: nat): Scene
    requires Ok(s.free) && Ok(s.active) && i < |s.senders| && o < |s.ops| == |s.log.home|
  {
    Scene(s.senders[i], s.ops[o], s.log.home[o], s.worker, Contents(s.free), Contents(s.active))
  }

  lemma ShowsItself(s: State, i: nat, o: nat)
    requires Ok(s.free) && Ok(s.active) && i < |s.senders| && o < |s.ops| == |s.log.home|
    ensures Shows(s, s, i, o, SceneOf(s, i, o))
  {}

  // what the invariant is needed for

  lemma FrontIsFree(c: Setup, hasty: bool, s: State)
    requires Reachable(c, hasty, s) && Ok(s.free) && Contents(s.free) != []
    ensures Contents(s.free)[0] < |s.ops| == |s.log.home| == |s.log.ticket|
    ensures var (free, got) := Get(s.free);
            Ok(free) && got == Some(Contents(s.free)[0]) && Contents(free) == Contents(s.free)[1..]
  {
    ReachableSound(c, hasty, s);
    GetTakesFront(s.free);
    assert Contents(s.free)[0] in Contents(s.free);
  }

  lemma ActiveFits(c: Setup, hasty: bool, s: State, i: nat)
    requires Reachable(c, hasty, s) && Ok(s.active) && i < |s.senders| && s.senders[i].Ready?
    ensures var (active, code) := Put(s.active, s.senders[i].op);
            code == 0 && Ok(active) && Contents(active) == Contents(s.active) + [s.senders[i].op]
  {
    ReachableSound(c, hasty, s);
    assert Agree(i, s.senders[i], s.senders[i].op, s.log.home[s.senders[i].op]);
    PublishActive(s.active, s.worker, s.log.home, s.senders[i].op, Shared(None, true));
  }

  lemma FreeFits(c: Setup, hasty: bool, s: State, i: nat)
    requires Reachable(c, hasty, s) && Ok(s.free) && i < |s.senders| && s.senders[i].Freeing?
    ensures var (free, code) := Put(s.free, s.senders[i].op);
            code == 0 && Ok(free) && Contents(free) == Contents(s.free) + [s.senders[i].op]
  {
    ReachableSound(c, hasty, s);
    assert Agree(i, s.senders[i], s.senders[i].op, s.log.home[s.senders[i].op]);
    FreeHasRoom(s.free, s.log.home, s.senders[i].op);
    PutAppends(s.free, s.senders[i].op);
  }

  lemma FreeFitsWorker(c: Setup, hasty: bool, s: State)
    requires Reachable(c, hasty, s) && Ok(s.free) && s.worker.Returning?
    ensures var (free, code) := Put(s.free, s.worker.op);
            code == 0 && Ok(free) && Contents(free) == Contents(s.free) + [s.worker.op]
  {
    ReachableSound(c, hasty, s);
    FreeHasRoom(s.free, s.log.home, s.worker.op);
    PutAppends(s.free, s.worker.op);
  }

  const ASK := Request(0, [])

  /** A sender takes the first free op. */
  lemma Takes(c: Setup, hasty: bool, s: State, i: nat, wait: Option<int>) returns (s': State)
    requires Reachable(c, hasty, s) && Ok(s.free) && Ok(s.active) && i < |s.senders| && s.senders[i].Idle?
    requires Contents(s.free) != [] && (wait.Some? || hasty)
    ensures Reachable(c, hasty, s')
    ensures var o := Contents(s.free)[0];
            Shows(s, s', i, o, Scene(Taken(o, Timeout(wait)), Op(ASK, 0, 0, 0, 0), WithSender(i), s.worker,
                                     Contents(s.free)[1..], Contents(s.active)))
  {
    FrontIsFree(c, hasty, s);
    s' := BySender(c, hasty, s, SenderGet(i, ASK, wait));
  }

  /** It stores something in it. */
  lemma Stores(c: Setup, hasty: bool, s0: State, s: State, i: nat, o: nat, scene: Scene) returns (s': State)
    requires Reachable(c, hasty, s) && Shows(s0, s, i, o, scene) && Preparing(scene.x) && scene.x.op == o
    ensures Reachable(c, hasty, s')
    ensures var (x, op) := Prepared(scene.x, scene.op); Shows(s0, s', i, o, scene.(x := x, op := op))
  {
    s' := BySender(c, hasty, s, SenderPrepare(i));
  }

  /** It puts the op on the active queue. */
  lemma Publishes(c: Setup, hasty: bool, s0: State, s: State, i: nat, o: nat, scene: Scene)
    returns (s': State, me: Call)
    requires Reachable(c, hasty, s) && Shows(s0, s, i, o, scene) && scene.x == Ready(o)
    ensures Reachable(c, hasty, s') && me.waits == (scene.op.timeout > 0)
    ensures Shows(s0, s', i, o, scene.(x := Posted(o, me), active := scene.active + [o],
                                       home := Shared(if me.waits then Some(i) else None, true)))
  {
    ActiveFits(c, hasty, s, i);
    s' := BySender(c, hasty, s, SenderEnqueue(i));
    me := s'.senders[i].me;
  }

  /** It looks, times out, or takes the result. */
  lemma Learns(c: Setup, hasty: bool, s0: State, s: State, i: nat, o: nat, scene: Scene, step: Step)
    returns (s': State)
    requires Reachable(c, hasty, s) && Shows(s0, s, i, o, scene)
    requires HasCall(scene.x) && scene.x.op == o
    requires step in {SenderLook(i), SenderTimeout(i), SenderCheck(i)}
    ensures Reachable(c, hasty, s')
    ensures Shows(s0, s', i, o, scene.(x := Learned(scene.x, scene.op, step)))
  {
    s' := GoLearn(c, hasty, s, i, step);
  }

  lemma Tests(c: Setup, hasty: bool, s0: State, s: State, i: nat, o: nat, scene: Scene) returns (s': State)
    requires Reachable(c, hasty, s) && Shows(s0, s, i, o, scene)
    requires scene.x.Leaving? && scene.x.op == o && scene.op.timeout > 0
    ensures Reachable(c, hasty, s')
    ensures var x := scene.x; Shows(s0, s', i, o, scene.(x := Dropping(o, x.me, x.ret, x.woken)))
  {
    s' := GoTest(c, hasty, s, i);
  }

  /** It drops its reference: the last one, or the worker's is left. */
  lemma Drops(c: Setup, hasty: bool, s0: State, s: State, i: nat, o: nat, scene: Scene) returns (s': State)
    requires Reachable(c, hasty, s) && Shows(s0, s, i, o, scene)
    requires scene.x.Dropping? && scene.x.op == o && scene.x.me.waits
    ensures Reachable(c, hasty, s')
    ensures var last := scene.op.ref == 1;
            Shows(s0, s', i, o, scene.(x := if last then Freeing(o) else Idle, op := scene.op.(ref := scene.op.ref - 1),
                                       home := if last then WithSender(i) else Shared(None, true)))
  {
    s' := GoDrop(c, hasty, s, i);
  }

  /** It gives the op back. */
  lemma Frees(c: Setup, hasty: bool, s0: State, s: State, i: nat, o: nat, scene: Scene) returns (s': State)
    requires Reachable(c, hasty, s) && Shows(s0, s, i, o, scene) && scene.x == Freeing(o)
    ensures Reachable(c, hasty, s')
    ensures Shows(s0, s', i, o, scene.(x := Idle, home := InFree, free := scene.free + [o]))
  {
    FreeFits(c, hasty, s, i);
    s' := GoFree(c, hasty, s, i);
  }

  // ---- the worker

  lemma WorkerTakes(c: Setup, hasty: bool, s0: State, s: State, i: nat, o: nat, scene: Scene) returns (s': State)
    requires Reachable(c, hasty, s) && Shows(s0, s, i, o, scene)
    requires scene.worker == Waits && scene.active != [] && scene.active[0] == o
    ensures Reachable(c, hasty, s')
    ensures Shows(s0, s', i, o, scene.(worker := Holds(o), active := scene.active[1..]))
  {
    s' := ByTheWorker(c, hasty, s, WorkerGet);
    GetTakesFront(s.active);
  }

  lemma WorkerHandles(c: Setup, hasty: bool, s0: State, s: State, i: nat, o: nat, scene: Scene, value: int)
    returns (s': State)
    requires Reachable(c, hasty, s) && Shows(s0, s, i, o, scene) && scene.worker == Holds(o)
    ensures Reachable(c, hasty, s')
    ensures var ret := HandlerResult(s0.handlers, scene.op.request.opId, value);
            Shows(s0, s', i, o, scene.(worker := Handled(o, ret)))
    ensures s'.log.handled == s.log.handled + [At(s.log.ticket, o, 0)] && s'.log.ticket == s.log.ticket
  {
    s' := ByTheWorker(c, hasty, s, WorkerHandle(value));
  }

  lemma WorkerDrops(c: Setup, hasty: bool, s0: State, s: State, i: nat, o: nat, scene: Scene) returns (s': State)
    requires Reachable(c, hasty, s) && Shows(s0, s, i, o, scene)
    requires scene.worker.Handled? && scene.worker.op == o && scene.home.Shared?
    ensures Reachable(c, hasty, s')
    ensures var last := scene.op.ref == 1;
            Shows(s0, s', i, o, scene.(worker := if last then Returning(o) else Dropped(o, scene.worker.ret),
                                       op := scene.op.(ref := scene.op.ref - 1),
                                       home := if last then WithWorker else Shared(scene.home.waiter, false)))
  {
    s' := GoWorkerDrop(c, hasty, s);
  }

  lemma WorkerTests(c: Setup, hasty: bool, s0: State, s: State, i: nat, o: nat, scene: Scene) returns (s': State)
    requires Reachable(c, hasty, s) && Shows(s0, s, i, o, scene)
    requires scene.worker.Dropped? && scene.worker.op == o && scene.op.timeout > 0
    ensures Reachable(c, hasty, s')
    ensures Shows(s0, s', i, o, scene.(worker := Writing(o, scene.worker.ret)))
  {
    s' := GoWorkerTest(c, hasty, s);
  }

  lemma WorkerWrites(c: Setup, hasty: bool, s0: State, s: State, i: nat, o: nat, scene: Scene) returns (s': State)
    requires Reachable(c, hasty, s) && Shows(s0, s, i, o, scene)
    requires scene.worker.Writing? && scene.worker.op == o && scene.home.Shared? && !scene.home.worker
    ensures Reachable(c, hasty, s')
    ensures Shows(s0, s', i, o, scene.(worker := Raising(o), op := scene.op.(result := scene.worker.ret)))
  {
    s' := GoWorkerWrite(c, hasty, s);
  }

  lemma WorkerFrees(c: Setup, hasty: bool, s0: State, s: State, i: nat, o: nat, scene: Scene) returns (s': State)
    requires Reachable(c, hasty, s) && Shows(s0, s, i, o, scene) && scene.worker == Returning(o)
    ensures Reachable(c, hasty, s')
    ensures Shows(s0, s', i, o, scene.(worker := Waits, home := InFree, free := scene.free + [o]))
  {
    FreeFitsWorker(c, hasty, s);
    s' := GoWorkerFree(c, hasty, s);
  }
}
