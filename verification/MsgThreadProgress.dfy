/** What becomes of a call of msg_thread.c that waits, when its sender and the worker run on alone. */
module MsgThreadProgress {
  import opened Options
  import opened Words
  import opened OpQueues
  import opened MsgThread
  import opened MsgThreadTheorems
  import opened MsgThreadResults
  import opened MsgThreadValues

  /** These steps lead from s to s', all are of sender i or the worker, and none is stale. */
  ghost predicate Path(s: State, i: nat, steps: seq<Step>, s': State)
    requires Sized(s)
    decreases |steps|
  {
    if steps == [] then s == s'
    else
      && (ByWorker(steps[0]) || steps[0].i == i)
      && !StaleDrop(s, steps[0]) && !StaleSignal(s, steps[0])
      && (StepKeepsSized(s, steps[0]); Path(Apply(s, steps[0]), i, steps[1..], s'))
  }

  /** From s on, sender i and the worker can come to s' by themselves. */
  ghost predicate Comes(s: State, i: nat, s': State) { Sound(s) && exists steps :: Path(s, i, steps, s') }

  lemma ComesNowhere(s: State, i: nat)
    requires Sound(s)
    ensures Comes(s, i, s)
  {
    assert Path(s, i, [], s);
  }

  lemma {:induction false} PathSound(s: State, i: nat, steps: seq<Step>, s': State)
    requires Sound(s) && Path(s, i, steps, s')
    ensures Sound(s')
    decreases |steps|
  {
    if steps != [] {
      StepKeepsInv(s, steps[0]);
      StepKeepsResult(s, steps[0]);
      StepOnce(s, steps[0]);
      PathSound(Apply(s, steps[0]), i, steps[1..], s');
    }
  }

  lemma ComesSound(s: State, i: nat, s': State)
    requires Comes(s, i, s')
    ensures Sound(s')
  {
    var steps :| Path(s, i, steps, s');
    PathSound(s, i, steps, s');
  }

  lemma {:induction false} PathFurther(s: State, i: nat, steps: seq<Step>, s': State, step: Step)
    requires Sized(s) && Path(s, i, steps, s') && (ByWorker(step) || step.i == i) && Sized(s')
    requires !StaleDrop(s', step) && !StaleSignal(s', step)
    ensures Path(s, i, steps + [step], Apply(s', step))
    decreases |steps|
  {
    if steps == [] {
      assert ([] + [step])[1..] == [];
    } else {
      assert (steps + [step])[0] == steps[0] && (steps + [step])[1..] == steps[1..] + [step];
      PathFurther(Apply(s, steps[0]), i, steps[1..], s', step);
    }
  }

  lemma ComesFurther(s: State, i: nat, m: State, step: Step)
    requires Comes(s, i, m) && (ByWorker(step) || step.i == i) && Sized(m)
    requires !StaleDrop(m, step) && !StaleSignal(m, step)
    ensures Comes(s, i, Apply(m, step))
  {
    var steps :| Path(s, i, steps, m);
    PathFurther(s, i, steps, m, step);
  }

  lemma WorkerGoes(s0: State, i: nat, s: State, step: Step) returns (s': State)
    requires Comes(s0, i, s) && Sized(s) && ByWorker(step) && !step.WorkerWrite? && !step.WorkerRaise?
    ensures Comes(s0, i, s') && s' == AdvanceWorker(s, step)
  {
    ComesFurther(s0, i, s, step);
    s' := Apply(s, step);
  }

  lemma SenderGoes(s0: State, i: nat, s: State, step: Step) returns (s': State)
    requires Comes(s0, i, s) && Sized(s) && !ByWorker(step) && step.i == i && i < |s.senders| && !StaleDrop(s, step)
    ensures Comes(s0, i, s') && s' == AdvanceSender(s, i, step)
  {
    ComesFurther(s0, i, s, step);
    s' := Apply(s, step);
  }

  lemma WorkerFinishes(s0: State, i: nat, s: State) returns (s': State)
    requires Comes(s0, i, s) && Sized(s) && s.worker.Handled?
    ensures Comes(s0, i, s') && s' == Finish(s, s.worker.op, s.worker.ret)
  {
    s' := WorkerGoes(s0, i, s, WorkerFinish);
  }

  lemma WorkerGets(s0: State, i: nat, s: State) returns (s': State)
    requires Comes(s0, i, s) && Sized(s) && s.worker.Waits?
    ensures Comes(s0, i, s') && s' == TakeActive(s)
  {
    s' := WorkerGoes(s0, i, s, WorkerGet);
  }

  lemma WorkerHandles(s0: State, i: nat, s: State, value: int) returns (s': State)
    requires Comes(s0, i, s) && Sized(s) && s.worker.Holds?
    ensures Comes(s0, i, s') && s' == Handle(s, s.worker.op, value)
  {
    s' := WorkerGoes(s0, i, s, WorkerHandle(value));
  }

  lemma SenderDrops(s0: State, i: nat, s: State) returns (s': State)
    requires Comes(s0, i, s) && Sized(s) && i < |s.senders| && s.senders[i].Dropping? && s.senders[i].me.waits
    ensures Comes(s0, i, s') && s' == DropBySender(s, i, s.senders[i])
  {
    s' := SenderGoes(s0, i, s, SenderDrop(i));
  }

  lemma SenderFrees(s0: State, i: nat, s: State) returns (s': State)
    requires Comes(s0, i, s) && Sized(s) && i < |s.senders| && s.senders[i].Freeing?
    ensures Comes(s0, i, s') && s' == PutFree(s, s.senders[i].op).(senders := s.senders[i := Idle])
  {
    s' := SenderGoes(s0, i, s, SenderFree(i));
  }

  lemma SizesOk(s0: State, i: nat, s: State)
    requires Comes(s0, i, s)
    ensures Ok(s.active) && Ok(s.free) && |s.ops| == |s.log.home| == |s.log.ticket|
  {
    ComesSound(s0, i, s);
  }

  // ---- the worker serves the op at the front

  // the op waits for its signal, and then has its result and has been signalled
  predicate Signalled(op: Op, h: Home, op': Op, h': Home, ret: int) {
    h.Shared? && h.waiter.Some? ==>
      && h' == Shared(h.waiter, false) && op'.result == ret
      && op'.signal == op.signal + 1 && op'.timeout > 0 && op'.ref == 1
  }

  /** From s to s' nothing has changed for anybody but op p's sender. */
  ghost predicate OnlyOp(s: State, s': State, p: nat) {
    && s'.senders == s.senders && s'.log.returned == s.log.returned && s'.log.ticket == s.log.ticket
    && s'.handlers == s.handlers
    && p < |s.ops| == |s'.ops| == |s.log.home| == |s'.log.home|
    && (forall q :: 0 <= q < |s.ops| && q != p ==> s'.ops[q] == s.ops[q] && s'.log.home[q] == s.log.home[q])
  }

  lemma FrontIsOp(s0: State, i: nat, s: State)
    requires Comes(s0, i, s) && Ok(s.active) && Contents(s.active) != []
    ensures Contents(s.active)[0] < |s.ops| == |s.log.home| && Sized(s)
    ensures var (active, got) := Get(s.active);
            Ok(active) && got == Some(Contents(s.active)[0]) && Contents(s.active) == [got.value] + Contents(active)
  {
    ComesSound(s0, i, s);
    GetTakesFront(s.active);
    assert Contents(s.active)[0] in Hand(s.worker) + Contents(s.active);
  }

  /** The worker takes the first op in line and handles it. */
  lemma Begins(s0: State, i: nat, s: State, value: int) returns (s': State)
    requires Comes(s0, i, s) && Ok(s.active) && s.worker.Waits? && Contents(s.active) != []
    ensures Comes(s0, i, s')
    ensures var p := Contents(s.active)[0];
            && OnlyOp(s, s', p) && s'.ops == s.ops && s'.log.home == s.log.home
            && s'.worker.Handled? && s'.worker.op == p
            && Reports(s.handlers, s.ops[p].request.opId, value, s'.worker.ret)
            && Ok(s'.active) && Contents(s.active) == [p] + Contents(s'.active)
  {
    FrontIsOp(s0, i, s);
    var m := WorkerGets(s0, i, s);
    s' := WorkerHandles(s0, i, m, value);
  }

  lemma HandledOk(s0: State, i: nat, s: State)
    requires Comes(s0, i, s) && s.worker.Handled?
    ensures Sized(s) && s.worker.op < |s.ops| == |s.log.home|
    ensures var op, h := s.ops[s.worker.op], s.log.home[s.worker.op];
            ForWorker(h) && op.ref == Bit(h.waiter.Some?) + 1 && (h.waiter.Some? ==> op.timeout > 0)
  {
    ComesSound(s0, i, s);
    assert s.worker.op in Hand(s.worker) + Contents(s.active);
    assert RefOk(s.ops[s.worker.op], s.log.home[s.worker.op], s.senders);
  }

  /** It drops its reference, and signals the op or gives it back. */
  lemma Finishes(s0: State, i: nat, s: State) returns (s': State)
    requires Comes(s0, i, s) && s.worker.Handled?
    ensures Comes(s0, i, s') && OnlyOp(s, s', s.worker.op) && s'.active == s.active
    ensures s'.worker == Waits || s'.worker == Returning(s.worker.op)
    ensures var p := s.worker.op; Signalled(s.ops[p], s.log.home[p], s'.ops[p], s'.log.home[p], s.worker.ret)
    ensures var h := s.log.home[s.worker.op]; s'.worker.Returning? ==> h.Shared? && h.waiter.None?
  {
    HandledOk(s0, i, s);
    s' := WorkerFinishes(s0, i, s);
  }

  lemma ReturnFits(s0: State, i: nat, s: State)
    requires Comes(s0, i, s) && s.worker.Returning?
    ensures Sized(s) && s.worker.op < |s.ops| == |s.log.home| && Put(s.free, s.worker.op).1 == 0
  {
    ComesSound(s0, i, s);
    PutFreeFree(s.free, s.log.home, s.worker.op);
  }

  lemma Returns(s0: State, i: nat, s: State) returns (s': State)
    requires Comes(s0, i, s) && s.worker.Returning?
    ensures Comes(s0, i, s') && OnlyOp(s, s', s.worker.op) && s'.active == s.active && s'.worker == Waits
  {
    ReturnFits(s0, i, s);
    s' := WorkerGoes(s0, i, s, WorkerFree);
  }

  /** The worker serves the first op in line. */
  lemma Serves(s0: State, i: nat, s: State, value: int) returns (s': State, ret: int)
    requires Comes(s0, i, s) && Ok(s.active) && s.worker.Waits? && Contents(s.active) != []
    ensures Comes(s0, i, s') && s'.worker.Waits? && Ok(s'.active)
    ensures var p := Contents(s.active)[0];
            && OnlyOp(s, s', p) && Contents(s.active) == [p] + Contents(s'.active)
            && Reports(s.handlers, s.ops[p].request.opId, value, ret)
            && Signalled(s.ops[p], s.log.home[p], s'.ops[p], s'.log.home[p], ret)
  {
    var m := Begins(s0, i, s, value);
    ret := m.worker.ret;
    s' := Finishes(s0, i, m);
    if s'.worker.Returning? { s' := Returns(s0, i, s'); }
  }

  /** Its op is in line behind k others, and it waits. */
  ghost predicate InLine(s: State, i: nat, o: nat, me: Call, k: nat)
    requires Ok(s.active)
  {
    && k < |Contents(s.active)| && Contents(s.active)[k] == o && i < |s.senders| && me.waits
    && (s.senders[i] == Posted(o, me) || s.senders[i] == Waiting(o, me))
  }

  /** Its call has been handled and signalled. */
  ghost predicate Raised(s: State, i: nat, o: nat, me: Call) {
    && i < |s.senders| && o < |s.ops| == |s.log.home| && me.waits
    && (s.senders[i] == Posted(o, me) || s.senders[i] == Waiting(o, me))
    && s.log.home[o] == Shared(Some(i), false)
    && s.ops[o].signal > 0 && s.ops[o].timeout > 0 && s.ops[o].ref == 1
  }

  lemma HomeInLine(s0: State, i: nat, s: State, o: nat, me: Call, k: nat)
    requires Comes(s0, i, s) && Ok(s.active) && InLine(s, i, o, me, k)
    ensures o < |s.ops| == |s.log.home| && s.log.home[o] == Shared(Some(i), true)
    ensures k > 0 ==> Contents(s.active)[0] != o
  {
    ComesSound(s0, i, s);
    var all := Hand(s.worker) + Contents(s.active);
    assert all[|Hand(s.worker)| + k] == o && all[|Hand(s.worker)|] == Contents(s.active)[0];
    assert o in all;
    assert Agree(i, s.senders[i], o, s.log.home[o]);
  }

  /** The worker serves the first in line, which is another op: it moves up. */
  lemma MovesUp(s0: State, i: nat, s: State, o: nat, me: Call, k: nat, value: int) returns (s': State)
    requires Comes(s0, i, s) && Ok(s.active) && s.worker.Waits? && InLine(s, i, o, me, k) && k > 0
    ensures Comes(s0, i, s') && s'.worker.Waits? && Ok(s'.active) && InLine(s', i, o, me, k - 1)
    ensures s'.senders == s.senders && s'.log.returned == s.log.returned && s'.handlers == s.handlers
    ensures o < |s.ops| && o < |s'.ops| && s'.ops[o] == s.ops[o]
  {
    HomeInLine(s0, i, s, o, me, k);
    var ret;
    s', ret := Serves(s0, i, s, value);
    assert Contents(s'.active)[k - 1] == o;
  }

  lemma ServesIt(s0: State, i: nat, s: State, o: nat, me: Call, value: int) returns (s': State)
    requires Comes(s0, i, s) && Ok(s.active) && s.worker.Waits? && InLine(s, i, o, me, 0)
    ensures Comes(s0, i, s') && s'.worker.Waits? && Raised(s', i, o, me)
    ensures s'.senders == s.senders && s'.log.returned == s.log.returned
    ensures o < |s.ops| && Reports(s.handlers, s.ops[o].request.opId, value, s'.ops[o].result)
  {
    HomeInLine(s0, i, s, o, me, 0);
    var ret;
    s', ret := Serves(s0, i, s, value);
  }

  /** The worker serves those in line before it, and then it; the functions return these values. */
  lemma {:induction false} ServesLine(s0: State, i: nat, s: State, o: nat, me: Call, k: nat, values: seq<int>)
    returns (s': State)
    requires Comes(s0, i, s) && Ok(s.active) && s.worker.Waits? && InLine(s, i, o, me, k) && |values| == k + 1
    ensures Comes(s0, i, s') && s'.worker.Waits? && Raised(s', i, o, me)
    ensures s'.senders == s.senders && s'.log.returned == s.log.returned
    ensures o < |s.ops| && Reports(s.handlers, s.ops[o].request.opId, values[k], s'.ops[o].result)
    decreases k
  {
    if k == 0 {
      s' := ServesIt(s0, i, s, o, me, values[0]);
    } else {
      var q := MovesUp(s0, i, s, o, me, k, values[0]);
      s' := ServesLine(s0, i, q, o, me, k - 1, values[1..]);
    }
  }

  // ---- the sender goes on

  lemma LooksAndWakes(s0: State, i: nat, s: State, o: nat, me: Call) returns (s': State)
    requires Comes(s0, i, s) && Raised(s, i, o, me)
    ensures Comes(s0, i, s') && s'.senders == s.senders[i := Woken(o, me)]
    ensures s'.worker == s.worker && s'.log == s.log
    ensures |s'.ops| == |s.ops| && s'.ops[o].timeout > 0 && s'.ops[o].ref == 1
    ensures s'.ops[o].result == s.ops[o].result
  {
    s' := Looks(s0, i, s, o, me);
    SizesOk(s0, i, s');
    s' := SenderGoes(s0, i, s', SenderWake(i));
  }

  lemma Looks(s0: State, i: nat, s: State, o: nat, me: Call) returns (s': State)
    requires Comes(s0, i, s) && Raised(s, i, o, me)
    ensures Comes(s0, i, s') && s' == s.(senders := s.senders[i := Waiting(o, me)])
  {
    SizesOk(s0, i, s);
    s' := s;
    if s.senders[i].Posted? { s' := SenderGoes(s0, i, s, SenderLook(i)); }
    assert s'.senders == s.senders[i := Waiting(o, me)];
  }

  lemma Checks(s0: State, i: nat, s: State, o: nat, me: Call) returns (s': State)
    requires Comes(s0, i, s) && i < |s.senders| && s.senders[i] == Woken(o, me) && o < |s.ops|
    ensures Comes(s0, i, s') && s' == s.(senders := s.senders[i := Leaving(o, me, s.ops[o].result, true)])
  {
    SizesOk(s0, i, s);
    s' := SenderGoes(s0, i, s, SenderCheck(i));
  }

  lemma Tests(s0: State, i: nat, s: State, o: nat, me: Call, ret: int) returns (s': State)
    requires Comes(s0, i, s) && i < |s.senders| && s.senders[i] == Leaving(o, me, ret, true)
    requires o < |s.ops| && s.ops[o].timeout > 0
    ensures Comes(s0, i, s') && s' == s.(senders := s.senders[i := Dropping(o, me, ret, true)])
  {
    SizesOk(s0, i, s);
    s' := SenderGoes(s0, i, s, SenderTest(i));
  }

  lemma Drops(s0: State, i: nat, s: State, o: nat, me: Call, ret: int) returns (s': State)
    requires Comes(s0, i, s) && i < |s.senders| && s.senders[i] == Dropping(o, me, ret, true) && me.waits
    requires o < |s.ops| && s.ops[o].ref == 1
    ensures Comes(s0, i, s') && s'.senders == s.senders[i := Freeing(o)] && s'.worker == s.worker
    ensures s'.log.returned == s.log.returned + [Return(me, ret, true)]
  {
    SizesOk(s0, i, s);
    s' := SenderDrops(s0, i, s);
  }

  lemma FreeFits(s0: State, i: nat, s: State)
    requires Comes(s0, i, s) && i < |s.senders| && s.senders[i].Freeing?
    ensures Sized(s)
    ensures var (free, code) := Put(s.free, s.senders[i].op);
            code == 0 && Ok(free) && s.senders[i].op in Contents(free)
  {
    ComesSound(s0, i, s);
    var o := s.senders[i].op;
    assert Agree(i, s.senders[i], o, s.log.home[o]);
    FreeHasRoom(s.free, s.log.home, o);
    PutAppends(s.free, o);
    assert Contents(Put(s.free, o).0)[|Contents(s.free)|] == o;
  }

  lemma Frees(s0: State, i: nat, s: State, o: nat) returns (s': State)
    requires Comes(s0, i, s) && i < |s.senders| && s.senders[i] == Freeing(o)
    ensures Comes(s0, i, s') && s'.senders == s.senders[i := Idle] && s'.worker == s.worker
    ensures s'.log.returned == s.log.returned && Ok(s'.free) && InFreeQueue(s', o)
  {
    FreeFits(s0, i, s);
    s' := SenderFrees(s0, i, s);
  }

  /** Woken, it takes the result and looks again. */
  lemma TakesResult(s0: State, i: nat, s: State, o: nat, me: Call) returns (s': State, ret: int)
    requires Comes(s0, i, s) && i < |s.senders| && s.senders[i] == Woken(o, me) && me.waits
    requires o < |s.ops| && s.ops[o].timeout > 0 && s.ops[o].ref == 1
    ensures Comes(s0, i, s') && s' == s.(senders := s.senders[i := Dropping(o, me, ret, true)])
    ensures ret == s.ops[o].result
  {
    ret := s.ops[o].result;
    s' := Checks(s0, i, s, o, me);
    s' := Tests(s0, i, s', o, me, ret);
    assert s'.senders == s.senders[i := Dropping(o, me, ret, true)];
  }

  /** And it comes back. */
  lemma Leaves(s0: State, i: nat, s: State, o: nat, me: Call) returns (s': State, ret: int)
    requires Comes(s0, i, s) && i < |s.senders| && s.senders[i] == Woken(o, me) && me.waits
    requires o < |s.ops| && s.ops[o].timeout > 0 && s.ops[o].ref == 1
    ensures Comes(s0, i, s') && s'.senders == s.senders[i := Idle] && s'.worker == s.worker
    ensures Ok(s'.free) && InFreeQueue(s', o)
    ensures s'.log.returned == s.log.returned + [Return(me, ret, true)] && ret == s.ops[o].result
  {
    s', ret := TakesResult(s0, i, s, o, me);
    s' := Drops(s0, i, s', o, me, ret);
    s' := Frees(s0, i, s', o);
  }

  lemma ReturnsOwn(s0: State, i: nat, s: State, me: Call, ret: int, before: seq<Return>)
    requires Comes(s0, i, s) && me.waits && s.log.returned == before + [Return(me, ret, true)]
    ensures Own(ret, me.ticket, s.log.produced)
  {
    ComesSound(s0, i, s);
    assert ReturnOk(s.log.returned[|before|], s.log.produced);
  }

  lemma RequestInLine(s: State, i: nat, o: nat, me: Call, k: nat)
    requires Sound(s) && InLine(s, i, o, me, k)
    ensures o < |s.ops| && me.ticket < |s.log.sent| && s.ops[o].request == s.log.sent[me.ticket]
  {
    TicketOf(s, i);
    assert SenderResultOk(s.senders[i], At(s.log.ticket, o, 0), s.log.produced);
  }

  /** A call that waits is completed once its sender and the worker run on undisturbed, however many ops
      are in line before it and whatever the functions of the operations return: the sender is woken, comes
      back with the value that its own one returned, or the code if there is none, and the op is in the free
      queue. */
  lemma CallCompletes(s: State, i: nat, o: nat, me: Call, k: nat, values: seq<int>) returns (s': State, ret: int)
    requires Sound(s) && s.worker.Waits? && InLine(s, i, o, me, k) && |values| == k + 1
    ensures Comes(s, i, s') && s'.worker.Waits? && s'.senders == s.senders[i := Idle]
    ensures Ok(s'.free) && InFreeQueue(s', o)
    ensures s'.log.returned == s.log.returned + [Return(me, ret, true)] && Own(ret, me.ticket, s'.log.produced)
    ensures me.ticket < |s.log.sent| && Reports(s.handlers, s.log.sent[me.ticket].opId, values[k], ret)
  {
    ComesNowhere(s, i);
    RequestInLine(s, i, o, me, k);
    var m := ServesLine(s, i, s, o, me, k, values);
    m := LooksAndWakes(s, i, m, o, me);
    s', ret := Leaves(s, i, m, o, me);
    ReturnsOwn(s, i, s', me, ret, s.log.returned);
  }
}
