/** What becomes of the log pipeline when one party runs on alone, and how much a reader call copies. */
module LogProgress {
  import opened Words
  import opened Rings
  import opened EmiRings
  import opened LogInterleaving

  /** The same step k times. */
  ghost function Repeated(s: State, step: Step, k: nat): (s': State)
    requires Sized(s)
    ensures Sized(s')
    decreases k
  {
    if k == 0 then s
    else
      StepKeepsSize(s, step);
      Repeated(Apply(s, step), step, k - 1)
  }

  lemma OneStep(s: State, step: Step, k: nat)
    requires Inv(s) && k > 0
    ensures Inv(Apply(s, step)) && Repeated(s, step, k) == Repeated(Apply(s, step), step, k - 1)
  {
    StepKeepsInv(s, step);
  }

  lemma {:induction false} RepeatedInv(s: State, step: Step, k: nat)
    requires Inv(s)
    ensures Inv(Repeated(s, step, k))
    decreases k
  {
    if k > 0 {
      OneStep(s, step, k);
      RepeatedInv(Apply(s, step), step, k - 1);
    }
  }

  // ---- the worker alone

  /** How much the worker will still store in the run it is in, if nobody interferes. */
  function ToStore(s: State): nat
    requires Sized(s)
  {
    var max, emiMax: u32 := |s.cache.base|, |s.emi.base|;
    match s.worker
    case WIdle => 0
    case WRemain => EmiReadAmount(Sub32(max, CacheSize(s.cache)), s.emi.read, s.emi.write, emiMax)
    case WEmpty(space) => EmiReadAmount(space, s.emi.read, s.emi.write, emiMax)
    case WPrepare(space) => EmiReadAmount(space, s.emi.read, s.emi.write, emiMax)
    case WBounds(seg) => seg.remain
    case WSegment(seg) => seg.remain
    case WCache(seg) => seg.sz + seg.remain
    case WCopy(seg, part, _) => part.sz + part.remain + seg.remain
    case WDone(seg) => seg.remain
  }

  // what decreases from step to step

  function ToDrain(s: State): nat
    requires Sized(s)
  {
    match s.worker
    case WCache(seg) => seg.sz + seg.remain
    case WCopy(seg, _, _) => seg.sz + seg.remain
    case WDone(seg) => seg.sz + seg.remain
    case _ => ToStore(s)
  }

  function Stage(w: Worker): nat {
    match w
    case WIdle => 0
    case WDone(_) => 1
    case WCopy(_, _, _) => 2
    case WCache(_) => 3
    case WSegment(_) => 4
    case WBounds(_) => 5
    case WPrepare(_) => 6
    case WEmpty(_) => 7
    case WRemain => 8
  }

  function ToCopy(w: Worker): nat {
    match w
    case WCopy(_, part, k) => if k <= part.sz then 2 * (part.sz + part.remain) + 1 - k else 0
    case _ => 0
  }

  /** The worker's steps leave the reader, the firmware and what was published alone. */
  ghost predicate OnlyWorker(s: State, s': State) {
    && s'.reader == s.reader && s'.buf == s.buf && s'.asked == s.asked
    && s'.produced == s.produced && s'.delivered == s.delivered && s'.callStart == s.callStart
    && s'.cache.read == s.cache.read && |s'.cache.base| == |s.cache.base|
    && s'.emi.write == s.emi.write && s'.emi.base == s.emi.base && s'.emi.pending == s.emi.pending
  }

  ghost predicate Below(a: (nat, nat, nat), b: (nat, nat, nat)) {
    a.0 < b.0 || (a.0 == b.0 && (a.1 < b.1 || (a.1 == b.1 && a.2 < b.2)))
  }

  ghost function Effort(s: State): (nat, nat, nat)
    requires Sized(s)
  {
    (ToDrain(s), Stage(s.worker), ToCopy(s.worker))
  }

  lemma LookProgress(s: State)
    requires Inv(s) && (s.worker.WRemain? || s.worker.WEmpty? || s.worker.WPrepare? || s.worker.WBounds?)
    ensures var s' := AdvanceWorker(s);
            && Sized(s') && OnlyWorker(s, s') && Below(Effort(s'), Effort(s))
            && s'.stored + ToStore(s') == s.stored + ToStore(s)
  {
    EmiUsedIsRight(s.emi, s.produced, s.drained);
  }

  lemma CopyProgress(s: State)
    requires Inv(s) && s.worker.WCopy?
    ensures var s' := AdvanceWorker(s);
            && Sized(s') && OnlyWorker(s, s') && Below(Effort(s'), Effort(s))
            && s'.stored + ToStore(s') == s.stored + ToStore(s)
  {}

  lemma MoveProgress(s: State)
    requires Inv(s) && (s.worker.WSegment? || s.worker.WCache? || s.worker.WDone?)
    ensures var s' := AdvanceWorker(s);
            && Sized(s') && OnlyWorker(s, s') && Below(Effort(s'), Effort(s))
            && s'.stored + ToStore(s') == s.stored + ToStore(s)
  {}

  lemma WorkerProgress(s: State)
    requires Inv(s) && !s.worker.WIdle?
    ensures var s' := AdvanceWorker(s);
            && Sized(s') && OnlyWorker(s, s') && Below(Effort(s'), Effort(s))
            && s'.stored + ToStore(s') == s.stored + ToStore(s)
  {
    if s.worker.WCopy? { CopyProgress(s); }
    else if s.worker.WSegment? || s.worker.WCache? || s.worker.WDone? { MoveProgress(s); }
    else { LookProgress(s); }
  }

  lemma WorkerNext(s: State) returns (next: State)
    requires Inv(s) && !s.worker.WIdle?
    ensures Inv(next) && OnlyWorker(s, next) && Below(Effort(next), Effort(s))
    ensures next.stored + ToStore(next) == s.stored + ToStore(s)
    ensures forall k: nat :: Repeated(s, WorkerStep, k + 1) == Repeated(next, WorkerStep, k)
  {
    WorkerProgress(s);
    StepKeepsInv(s, WorkerStep);
    next := Apply(s, WorkerStep);
  }

  /** Left alone, the worker comes to the end of its run, and then has committed to the cache and out of
      the firmware's ring exactly what it was to move. */
  lemma {:induction false} WorkerFinishes(s: State) returns (k: nat)
    requires Inv(s)
    ensures var s' := Repeated(s, WorkerStep, k);
            && s'.worker.WIdle? && OnlyWorker(s, s')
            && s'.stored == s'.drained == s.stored + ToStore(s)
    decreases Effort(s).0, Effort(s).1, Effort(s).2
  {
    k := 0;
    if !s.worker.WIdle? {
      var next := WorkerNext(s);
      k := WorkerFinishes(next);
      assert Repeated(s, WorkerStep, k + 1) == Repeated(next, WorkerStep, k);
      k := k + 1;
    }
  }

  /** A whole run of the worker, alone: it moves min(EMI used, cache free) bytes. */
  lemma WorkerRuns(s: State) returns (k: nat)
    requires Inv(s) && s.worker.WIdle?
    ensures var s' := Repeated(s, WorkerStep, k);
            && s'.worker.WIdle? && OnlyWorker(s, s')
            && s'.stored == s'.drained
                 == s.stored + Min(|s.produced| - s.drained, |s.cache.base| - (s.stored - |s.delivered|))
  {
    EmiUsedIsRight(s.emi, s.produced, s.drained);
    k := 0;
    if CacheSize(s.cache) != |s.cache.base| {
      StepKeepsInv(s, WorkerStep);
      k := WorkerFinishes(Apply(s, WorkerStep));
      k := k + 1;
      OneStep(s, WorkerStep, k);
    }
  }

  // ---- the reader alone

  /** How much the call in progress will still hand out, if nobody interferes. */
  function ToRead(s: State): nat {
    match s.reader
    case RIdle => 0
    case RCall(count) => Min(count, CacheSize(s.cache))
    case RPick => CacheSize(s.cache)
    case RCheck(size) => size
    case RPrepare(size) => size
    case RWalk(size) => size
    case RCopy(seg, _) => seg.sz + seg.remain
  }

  function ReaderStage(r: Reader): nat {
    match r
    case RIdle => 0
    case RCopy(_, _) => 1
    case RWalk(_) => 2
    case RPrepare(_) => 3
    case RCheck(_) => 4
    case RPick => 5
    case RCall(_) => 6
  }

  ghost function ReaderEffort(s: State): (nat, nat, nat) {
    (ToRead(s), ReaderStage(s.reader),
     match s.reader case RCopy(seg, k) => if k <= seg.sz then seg.sz - k else 0 case _ => 0)
  }

  /** The reader's steps leave the worker, the firmware and what was published alone. */
  ghost predicate OnlyReader(s: State, s': State) {
    s' == s.(reader := s'.reader, buf := s'.buf, delivered := s'.delivered, cache := s.cache.(read := s'.cache.read))
  }

  lemma ReaderProgress(s: State)
    requires Inv(s) && !s.reader.RIdle?
    ensures var s' := AdvanceReader(s);
            && OnlyReader(s, s') && Below(ReaderEffort(s'), ReaderEffort(s))
            && |s'.delivered| + ToRead(s') == |s.delivered| + ToRead(s)
            && (s'.reader.RIdle? ==> |s'.buf| == |s'.delivered| - s.callStart)
  {}

  lemma ReaderNext(s: State) returns (next: State)
    requires Inv(s) && !s.reader.RIdle?
    ensures Inv(next) && OnlyReader(s, next) && Below(ReaderEffort(next), ReaderEffort(s))
    ensures |next.delivered| + ToRead(next) == |s.delivered| + ToRead(s)
    ensures next.reader.RIdle? ==> |next.buf| == |next.delivered| - s.callStart
    ensures forall k: nat :: Repeated(s, ReaderStep, k + 1) == Repeated(next, ReaderStep, k)
  {
    ReaderProgress(s);
    StepKeepsInv(s, ReaderStep);
    next := Apply(s, ReaderStep);
  }

  /** The call in progress in s has ended in s'. */
  ghost predicate CallEnds(s: State, s': State) {
    && s'.reader.RIdle? && OnlyReader(s, s')
    && |s'.delivered| == |s.delivered| + ToRead(s)
    && |s'.buf| == |s'.delivered| - s.callStart
  }

  lemma CallEndsLater(s: State, m: State, s': State)
    requires OnlyReader(s, m) && CallEnds(m, s') && |m.delivered| + ToRead(m) == |s.delivered| + ToRead(s)
    ensures CallEnds(s, s')
  {}

  /** Left alone, the reader comes to the end of its call; the bytes handed out are those of the call. */
  lemma {:induction false} ReaderFinishes(s: State) returns (k: nat)
    requires Inv(s) && !s.reader.RIdle?
    ensures CallEnds(s, Repeated(s, ReaderStep, k))
    decreases ReaderEffort(s).0, ReaderEffort(s).1, ReaderEffort(s).2
  {
    var next := ReaderNext(s);
    k := 0;
    if !next.reader.RIdle? {
      k := ReaderFinishes(next);
      CallEndsLater(s, next, Repeated(next, ReaderStep, k));
    }
    assert Repeated(s, ReaderStep, k + 1) == Repeated(next, ReaderStep, k);
    k := k + 1;
  }

  // ---- the same in terms of what the rings hold

  lemma Holds(s: State)
    requires Inv(s)
    ensures CacheContents(s) == s.produced[|s.delivered|..s.stored]
    ensures EmiContents(s) == s.produced[s.drained..]
    ensures s.delivered == s.produced[..|s.delivered|]
  {
    EmiIsProduced(s.emi, s.produced, s.drained);
  }

  lemma Slices(p: seq<byte>, d: nat, n: nat, m: nat)
    requires d <= n && n + m <= |p|
    ensures p[d..n + m] == p[d..n] + p[n..][..m] && p[n + m..] == p[n..][m..]
  {}

  /** A whole run of the worker, alone, has the effect of LogPipeline.ConnlogBuffer.RingEmiToCache. */
  lemma WorkerMoves(s: State) returns (k: nat)
    requires Inv(s) && s.worker.WIdle?
    ensures var s' := Repeated(s, WorkerStep, k);
            var moved := Min(|EmiContents(s)|, |s.cache.base| - |CacheContents(s)|);
            && s'.worker.WIdle? && OnlyWorker(s, s')
            && CacheContents(s') == CacheContents(s) + EmiContents(s)[..moved]
            && EmiContents(s') == EmiContents(s)[moved..]
  {
    k := WorkerRuns(s);
    RepeatedInv(s, WorkerStep, k);
    RingsMoved(s, Repeated(s, WorkerStep, k));
  }

  lemma RingsMoved(s: State, s': State)
    requires Inv(s) && Inv(s') && OnlyWorker(s, s') && s.stored == s.drained && s'.stored == s'.drained
    requires s'.stored == s.stored + Min(|s.produced| - s.drained, |s.cache.base| - (s.stored - |s.delivered|))
    ensures var moved := Min(|EmiContents(s)|, |s.cache.base| - |CacheContents(s)|);
            && CacheContents(s') == CacheContents(s) + EmiContents(s)[..moved]
            && EmiContents(s') == EmiContents(s)[moved..]
  {
    Holds(s);
    Holds(s');
    Slices(s.produced, |s.delivered|, s.stored, s'.stored - s.stored);
  }

  lemma Prefixes(p: seq<byte>, d: nat, n: nat, k: nat)
    requires d <= n <= |p| && d + k <= n
    ensures p[..d + k] == p[..d] + p[d..n][..k] && p[d + k..n] == p[d..n][k..]
  {}

  /** A whole call of the reader, alone, has the effect of LogPipeline.ConnlogBuffer.ConnsysLogRead. */
  lemma ReaderHandsOut(s: State, count: nat) returns (k: nat)
    requires Inv(s) && s.reader.RIdle?
    ensures Inv(Apply(s, ReaderCall(count)))
    ensures var s' := Repeated(Apply(s, ReaderCall(count)), ReaderStep, k);
            var n := Min(count, |CacheContents(s)|);
            && s'.reader.RIdle?
            && s'.delivered == s.delivered + CacheContents(s)[..n]
            && CacheContents(s') == CacheContents(s)[n..]
  {
    var s0 := Apply(s, ReaderCall(count));
    StepKeepsInv(s, ReaderCall(count));
    k := ReaderFinishes(s0);
    RepeatedInv(s0, ReaderStep, k);
    HandedOut(s, Repeated(s0, ReaderStep, k), Min(count, CacheSize(s.cache)));
  }

  lemma HandedOut(s: State, s': State, n: nat)
    requires Inv(s) && Inv(s') && s'.produced == s.produced && s'.stored == s.stored && n <= CacheSize(s.cache)
    requires |s'.delivered| == |s.delivered| + n
    ensures |CacheContents(s)| == CacheSize(s.cache)
    ensures s'.delivered == s.delivered + CacheContents(s)[..n] && CacheContents(s') == CacheContents(s)[n..]
  {
    Holds(s);
    Holds(s');
    Prefixes(s.produced, |s.delivered|, s.stored, n);
  }

  // ---- how much a call copies

  /** A call never copies more than the cache can hold. */
  lemma CopiesFit(s: State)
    requires Inv(s)
    ensures |s.buf| <= |s.cache.base|
  {}

  /** A caller whose buffer is as large as the cache is never overrun, whatever interleaves. */
  lemma LargeBuffersHold(cache: seq<byte>, emi: seq<byte>, steps: seq<Step>)
    requires Sized(Init(cache, emi))
    ensures var s := Run(cache, emi, steps); s.asked >= |cache| ==> |s.buf| <= s.asked
  {
    CopiesFit(Run(cache, emi, steps));
  }

  lemma LastStep(cache: seq<byte>, emi: seq<byte>, steps: seq<Step>, step: Step)
    requires Sized(Init(cache, emi))
    ensures Run(cache, emi, steps + [step]) == Apply(Run(cache, emi, steps), step)
  {
    assert (steps + [step])[..|steps|] == steps;
  }

  // ---- a run that overruns a smaller buffer

  /** All reader calls pass buffers of this size. */
  ghost predicate CallsFor(steps: seq<Step>, count: nat) {
    forall j :: 0 <= j < |steps| && steps[j].ReaderCall? ==> steps[j].count == count
  }

  ghost predicate Reachable(cache: seq<byte>, emi: seq<byte>, count: nat, s: State)
    requires Sized(Init(cache, emi))
  {
    exists steps :: Leads(cache, emi, count, steps, s)
  }

  ghost predicate Leads(cache: seq<byte>, emi: seq<byte>, count: nat, steps: seq<Step>, s: State)
    requires Sized(Init(cache, emi))
  {
    CallsFor(steps, count) && Run(cache, emi, steps) == s
  }

  lemma ReachableInv(cache: seq<byte>, emi: seq<byte>, count: nat, s: State)
    requires Sized(Init(cache, emi)) && Reachable(cache, emi, count, s)
    ensures Inv(s)
  {}

  lemma ReachStep(cache: seq<byte>, emi: seq<byte>, count: nat, s: State, step: Step)
    requires Sized(Init(cache, emi)) && Sized(s) && Reachable(cache, emi, count, s)
    requires step.ReaderCall? ==> step.count == count
    ensures Reachable(cache, emi, count, Apply(s, step))
  {
    var steps :| Leads(cache, emi, count, steps, s);
    LastStep(cache, emi, steps, step);
    assert Leads(cache, emi, count, steps + [step], Apply(s, step));
  }

  lemma ReachNext(cache: seq<byte>, emi: seq<byte>, count: nat, s: State, step: Step, k: nat) returns (next: State)
    requires Sized(Init(cache, emi)) && Sized(s) && Reachable(cache, emi, count, s) && !step.ReaderCall? && k > 0
    ensures Sized(next) && Reachable(cache, emi, count, next)
    ensures Repeated(s, step, k) == Repeated(next, step, k - 1)
  {
    ReachableInv(cache, emi, count, s);
    ReachStep(cache, emi, count, s, step);
    OneStep(s, step, k);
    next := Apply(s, step);
  }

  lemma {:induction false} ReachRepeated(cache: seq<byte>, emi: seq<byte>, count: nat, s: State, step: Step, k: nat)
    requires Sized(Init(cache, emi)) && Sized(s) && Reachable(cache, emi, count, s) && !step.ReaderCall?
    ensures Reachable(cache, emi, count, Repeated(s, step, k))
    decreases k
  {
    if k > 0 {
      var next := ReachNext(cache, emi, count, s, step, k);
      ReachRepeated(cache, emi, count, next, step, k - 1);
    }
  }

  /** The firmware's ring is empty, the worker waits, and the reader has found the cache to hold no more
      than it was asked for; meanwhile n bytes have come into the cache. */
  ghost predicate Picking(s: State, n: nat) {
    && Inv(s) && s.worker.WIdle? && s.reader.RPick?
    && s.emi.pending == [] && |s.produced| == s.stored == n && s.delivered == []
  }

  lemma OneMorePublished(cache: seq<byte>, emi: seq<byte>, count: nat, s: State, n: nat) returns (s': State)
    requires Sized(Init(cache, emi)) && Reachable(cache, emi, count, s) && Picking(s, n) && |s.emi.base| >= 2
    ensures Reachable(cache, emi, count, s') && Inv(s')
    ensures s' == s.(emi := s'.emi, produced := s'.produced)
    ensures |s'.emi.base| == |s.emi.base| && s'.emi.pending == [] && |s'.produced| == n + 1
  {
    var m := Apply(s, FirmwareStore(0));
    ReachStep(cache, emi, count, s, FirmwareStore(0));
    StepKeepsInv(s, FirmwareStore(0));
    SlotDistinct(s.emi.read, s.emi.read + 1, |s.emi.base|);
    assert m.emi.pending == [0];
    s' := Apply(m, FirmwarePublish);
    ReachStep(cache, emi, count, m, FirmwarePublish);
    StepKeepsInv(m, FirmwarePublish);
  }

  /** The firmware publishes one more byte and the worker moves it. */
  lemma OneMoreByte(cache: seq<byte>, emi: seq<byte>, count: nat, s: State, n: nat) returns (s': State)
    requires Sized(Init(cache, emi)) && Reachable(cache, emi, count, s) && Picking(s, n)
    requires |s.emi.base| >= 2 && n < |s.cache.base|
    ensures Reachable(cache, emi, count, s') && Picking(s', n + 1)
    ensures |s'.emi.base| == |s.emi.base| && |s'.cache.base| == |s.cache.base|
  {
    var m := OneMorePublished(cache, emi, count, s, n);
    var k := WorkerRuns(m);
    ReachRepeated(cache, emi, count, m, WorkerStep, k);
    RepeatedInv(m, WorkerStep, k);
    s' := Repeated(m, WorkerStep, k);
  }

  lemma {:induction false} FillTo(cache: seq<byte>, emi: seq<byte>, count: nat, n: nat) returns (s: State)
    requires Sized(Init(cache, emi)) && |emi| >= 2 && n <= |cache|
    ensures Reachable(cache, emi, count, s) && Picking(s, n)
    ensures |s.emi.base| == |emi| && |s.cache.base| == |cache|
    decreases n
  {
    if n == 0 {
      var s0 := Init(cache, emi);
      assert Leads(cache, emi, count, [], s0);
      InitInv(cache, emi);
      ReachStep(cache, emi, count, s0, ReaderCall(count));
      var s1 := Apply(s0, ReaderCall(count));
      StepKeepsInv(s0, ReaderCall(count));
      ReachStep(cache, emi, count, s1, ReaderStep);
      s := Apply(s1, ReaderStep);
      StepKeepsInv(s1, ReaderStep);
    } else {
      s := FillTo(cache, emi, count, n - 1);
      s := OneMoreByte(cache, emi, count, s, n - 1);
    }
  }

  /** RING_SIZE is read twice: for every count below the size of the cache there is a run in which the
      worker commits in between, and the call copies more than count bytes. */
  lemma SmallBuffersOverrun(cache: seq<byte>, emi: seq<byte>, count: nat)
    requires Sized(Init(cache, emi)) && |emi| >= 2 && count < |cache|
    ensures exists steps :: CallsFor(steps, count) && |Run(cache, emi, steps).buf| > count
  {
    var s := FillTo(cache, emi, count, count + 1);
    var k := ReaderFinishes(s);
    ReachRepeated(cache, emi, count, s, ReaderStep, k);
    var s' := Repeated(s, ReaderStep, k);
    var steps :| Leads(cache, emi, count, steps, s');
  }

  /** A reader call stays within the caller's buffer in every interleaving if and only if the buffer is
      at least as large as the cache. */
  lemma ReadBound(cache: seq<byte>, emi: seq<byte>, count: nat)
    requires Sized(Init(cache, emi)) && |emi| >= 2
    ensures (forall steps :: CallsFor(steps, count) ==> |Run(cache, emi, steps).buf| <= count) <==> count >= |cache|
  {
    if count >= |cache| {
      forall steps | CallsFor(steps, count) ensures |Run(cache, emi, steps).buf| <= count {
        CopiesFit(Run(cache, emi, steps));
      }
    } else {
      SmallBuffersOverrun(cache, emi, count);
    }
  }
}
