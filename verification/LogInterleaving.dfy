/** The log pipeline as a state machine: firmware, worker and reader interleave at every shared
    access, and memory copies move one byte a step. There is no lock between worker and reader. */
module LogInterleaving {
  import opened Words
  import opened Rings
  import opened EmiRings

  // ---- the two rings and what is done to them

  datatype CacheRing = CacheRing(base: seq<byte>, read: u32, write: u32)

  /** pending: stored by the firmware behind a write index it has not moved yet */
  datatype FirmwareRing = FirmwareRing(base: seq<byte>, read: u32, write: u32, pending: seq<byte>)

  /** The firmware obeys RING_EMI_FULL: the last free slot stays empty. */
  function Store(f: FirmwareRing, b: byte): FirmwareRing
    requires |f.base| > 0
  {
    var m, n := |f.base|, |f.pending|;
    if n + 1 >= m || Slot(f.write + n + 1, m) == f.read then f
    else f.(base := f.base[Slot(f.write + n, m) := b], pending := f.pending + [b])
  }

  ghost function Publish(f: FirmwareRing): FirmwareRing
    requires ValidSize(|f.base|)
  {
    f.(write := Slot(f.write + |f.pending|, |f.base|), pending := [])
  }

  // _ring_emi_read_commit
  ghost function DrainCommit(f: FirmwareRing, sz: u32): FirmwareRing
    requires ValidSize(|f.base|)
  {
    f.(read := Slot(f.read + sz, |f.base|))
  }

  function CacheSize(c: CacheRing): u32 { Sub32(c.write, c.read) }

  // ---- control

  /** Where the worker stands in connlog_ring_emi_to_cache, with its local variables. */
  datatype Worker =
    | WIdle
    | WRemain                                     // found the cache not full
    | WEmpty(space: u32)                          // read RING_WRITE_REMAIN_SIZE
    | WPrepare(space: u32)                        // found the firmware's ring not empty
    | WBounds(seg: Segment)                       // prepared the firmware segment
    | WSegment(seg: Segment)                      // about to cut the next firmware stretch
    | WCache(seg: Segment)                        // about to prepare the cache for it
    | WCopy(seg: Segment, part: Segment, k: nat)  // k bytes of the cache stretch `part` stored
    | WDone(seg: Segment)                         // about to commit the firmware stretch

  /** Where the reader stands in connsys_log_read. */
  datatype Reader =
    | RIdle
    | RCall(count: nat)
    | RPick                           // found count >= RING_SIZE; RING_SIZE is read once more
    | RCheck(size: u32)
    | RPrepare(size: u32)
    | RWalk(size: u32)
    | RCopy(seg: Segment, k: nat)     // k bytes of the stretch copied out

  datatype State = State(
    cache: CacheRing,
    emi: FirmwareRing,
    worker: Worker,
    reader: Reader,
    buf: seq<byte>,          // what the current or last reader call has copied out
    // history
    asked: nat,              // the size of the caller's buffer: count of that call
    produced: seq<byte>,     // bytes the firmware has published
    delivered: seq<byte>,    // bytes whose read has been committed
    callStart: nat,          // |delivered| when the reader call began
    stored: nat,             // bytes ever committed to the cache
    drained: nat)            // bytes ever committed out of the firmware's ring

  datatype Step =
    | FirmwareStore(b: byte)
    | FirmwarePublish
    | WorkerStep
    | ReaderCall(count: nat)
    | ReaderStep
    | ReaderFault            // copy_to_user fails: leave without a commit

  ghost predicate Sized(s: State) { ValidSize(|s.cache.base|) && ValidSize(|s.emi.base|) }

  function Init(cache: seq<byte>, emi: seq<byte>): State {
    State(CacheRing(cache, 0, 0), FirmwareRing(emi, 0, 0, []), WIdle, RIdle, [], 0, [], [], 0, 0, 0)
  }

  function AfterCut(seg: Segment): Worker { if seg.sz == 0 then WIdle else WCache(seg) }

  function AfterPart(seg: Segment, part: Segment): Worker {
    if part.sz == 0 then WDone(seg) else WCopy(seg, part, 0)
  }

  ghost function AdvanceWorker(s: State): State
    requires Sized(s)
  {
    var c, f := s.cache, s.emi;
    var max, emiMax: u32 := |c.base|, |f.base|;
    match s.worker
    case WIdle => if CacheSize(c) == max then s else s.(worker := WRemain)
    case WRemain => s.(worker := WEmpty(Sub32(max, CacheSize(c))))
    case WEmpty(space) => s.(worker := if f.read == f.write then WIdle else WPrepare(space))
    case WPrepare(space) =>
      var amount := EmiReadAmount(space, f.read, f.write, emiMax);
      s.(worker := if amount == 0 then WIdle else WBounds(Cleared(amount)))
    case WBounds(seg) =>
      s.(worker := if f.read > emiMax || f.write > emiMax then WIdle else WSegment(seg))
    case WSegment(seg) =>
      if f.read >= emiMax then s   // Inv shows it is not
      else s.(worker := AfterCut(EmiNextSegment(f.read, seg, emiMax)))
    case WCache(seg) =>
      var amount := WriteAmount(seg.sz, c.read, c.write, max);
      s.(worker := AfterPart(seg, NextSegment(c.write, amount, Cleared(amount), max)))
    case WCopy(seg, part, k) =>
      if k < part.sz then
        var from, to := seg.ringPt + part.dataPos + k, part.ringPt + k;
        if from < emiMax && to < max then
          s.(cache := c.(base := c.base[to := f.base[from]]), worker := WCopy(seg, part, k + 1))
        else s   // a stray access; Inv shows there is none
      else
        var write := Add32(c.write, part.sz);
        s.(cache := c.(write := write), stored := s.stored + part.sz,
           worker := AfterPart(seg, NextSegment(write, part.remain, part, max)))
    case WDone(seg) =>
      s.(emi := DrainCommit(f, seg.sz), drained := s.drained + seg.sz, worker := WSegment(seg))
  }

  function AfterWalk(seg: Segment): Reader { if seg.sz == 0 then RIdle else RCopy(seg, 0) }

  ghost function AdvanceReader(s: State): State
    requires Sized(s)
  {
    var c := s.cache;
    var max: u32 := |c.base|;
    match s.reader
    case RIdle => s
    case RCall(count) => s.(reader := if count < CacheSize(c) then RCheck(count) else RPick)
    case RPick => s.(reader := RCheck(CacheSize(c)))
    case RCheck(size) => s.(reader := if c.read == c.write then RIdle else RPrepare(size))
    case RPrepare(size) =>
      s.(reader := if ReadAmount(size, c.read, c.write) == 0 then RIdle else RWalk(size))
    case RWalk(size) =>
      var amount := ReadAmount(size, c.read, c.write);
      s.(reader := AfterWalk(NextSegment(c.read, amount, Cleared(amount), max)))
    case RCopy(seg, k) =>
      if k < seg.sz then
        if seg.ringPt + k < max then
          s.(buf := s.buf + [c.base[seg.ringPt + k]], reader := RCopy(seg, k + 1))
        else s   // a stray access; Inv shows there is none
      else
        var read := Add32(c.read, seg.sz);
        var copied := if seg.sz <= |s.buf| then s.buf[|s.buf| - seg.sz..] else [];
        s.(cache := c.(read := read), delivered := s.delivered + copied,
           reader := AfterWalk(NextSegment(read, seg.remain, seg, max)))
  }

  ghost function Apply(s: State, step: Step): State
    requires Sized(s)
  {
    match step
    case FirmwareStore(b) => s.(emi := Store(s.emi, b))
    case FirmwarePublish => s.(emi := Publish(s.emi), produced := s.produced + s.emi.pending)
    case WorkerStep => AdvanceWorker(s)
    case ReaderCall(count) =>
      if s.reader.RIdle? then s.(reader := RCall(count), buf := [], asked := count, callStart := |s.delivered|) else s
    case ReaderStep => AdvanceReader(s)
    case ReaderFault => if s.reader.RCopy? then s.(reader := RIdle) else s
  }

  // ---- the invariant, part by part

  /** The cache holds the bytes of `p` from the d-th to the one before the n-th. */
  ghost predicate CacheOk(c: CacheRing, p: seq<byte>, d: nat, n: nat) {
    && ValidSize(|c.base|)
    && d <= n <= |p|
    && CacheSize(c) == n - d <= |c.base|
    && Window(c.base, c.read, n - d) == p[d..n]
  }

  /** The firmware's ring holds the bytes of `p` from the e-th on, and behind them the pending ones. */
  ghost predicate EmiOk(f: FirmwareRing, p: seq<byte>, e: nat) {
    && ValidSize(|f.base|)
    && e <= |p| && |p| - e + |f.pending| < |f.base|
    && f.read < |f.base|
    && f.write == Slot(f.read + (|p| - e), |f.base|)
    && Window(f.base, f.read, |p| - e + |f.pending|) == p[e..] + f.pending
  }

  ghost predicate DeliveredOk(p: seq<byte>, delivered: seq<byte>, callStart: nat) {
    callStart <= |delivered| <= |p| && delivered == p[..|delivered|]
  }

  /** A stretch of the firmware's ring that is there to be read; it and what remains to be cut have
      room in the cache, apart from the bytes of it already stored. */
  ghost predicate Stretch(seg: Segment, c: CacheRing, f: FirmwareRing, p: seq<byte>, d: nat, n: nat, e: nat) {
    && seg.ringPt == f.read && seg.ringPt + seg.sz <= |f.base| && seg.sz > 0
    && e + seg.sz + seg.remain <= |p|
    && e + seg.sz + seg.remain <= d + |c.base|
    && e <= n
  }

  ghost predicate WorkerOk(w: Worker, c: CacheRing, f: FirmwareRing, p: seq<byte>, d: nat, n: nat, e: nat)
    requires CacheOk(c, p, d, n) && EmiOk(f, p, e)
  {
    match w
    case WIdle => n == e
    case WRemain => n == e
    case WEmpty(space) => n == e && n + space <= d + |c.base|
    case WPrepare(space) => n == e && n + space <= d + |c.base|
    case WBounds(seg) => n == e && n + seg.remain <= d + |c.base| && e + seg.remain <= |p|
    case WSegment(seg) => n == e && n + seg.remain <= d + |c.base| && e + seg.remain <= |p|
    case WCache(seg) => n == e && Stretch(seg, c, f, p, d, n, e)
    case WCopy(seg, part, k) =>
      && Stretch(seg, c, f, p, d, n, e)
      && n + part.sz + part.remain == e + seg.sz
      && part.ringPt == Slot(c.write, |c.base|) && part.ringPt + part.sz <= |c.base|
      && k <= part.sz && part.sz > 0
      && part.dataPos == n - e
      && c.base[part.ringPt..part.ringPt + k] == p[n..n + k]
    case WDone(seg) => Stretch(seg, c, f, p, d, n, e) && n == e + seg.sz
  }

  ghost predicate ReaderOk(r: Reader, buf: seq<byte>, read: u32, max: nat, p: seq<byte>, callStart: nat, d: nat, n: nat)
    requires max > 0
  {
    match r
    case RIdle => |buf| <= max
    case RCall(count) => buf == [] && callStart == d
    case RPick => buf == [] && callStart == d
    case RCheck(size) => buf == [] && callStart == d && d + size <= n
    case RPrepare(size) => buf == [] && callStart == d && d + size <= n
    case RWalk(size) => buf == [] && callStart == d && d + size <= n
    case RCopy(seg, k) =>
      && callStart <= d && d + seg.sz + seg.remain <= n <= |p|
      && d - callStart + seg.sz + seg.remain <= max   // a call copies no more than the cache holds
      && seg.ringPt == Slot(read, max) && seg.ringPt + seg.sz <= max
      && k <= seg.sz && seg.sz > 0
      && buf == p[callStart..d + k]
  }

  ghost predicate Inv(s: State) {
    var d := |s.delivered|;
    && CacheOk(s.cache, s.produced, d, s.stored)
    && EmiOk(s.emi, s.produced, s.drained)
    && DeliveredOk(s.produced, s.delivered, s.callStart)
    && WorkerOk(s.worker, s.cache, s.emi, s.produced, d, s.stored, s.drained)
    && ReaderOk(s.reader, s.buf, s.cache.read, |s.cache.base|, s.produced, s.callStart, d, s.stored)
  }

  lemma InitInv(cache: seq<byte>, emi: seq<byte>)
    requires Sized(Init(cache, emi))
    ensures Inv(Init(cache, emi))
  {}

  // ---- sequences

  lemma OneMore(p: seq<byte>, i: nat, j: nat)
    requires i <= j < |p|
    ensures p[i..j] + [p[j]] == p[i..j + 1]
  {}

  lemma SliceOfPrefix(p: seq<byte>, q: seq<byte>, i: nat, j: nat)
    requires i <= j <= |p|
    ensures (p + q)[i..j] == p[i..j]
  {}

  lemma ThreeParts(p: seq<byte>, d: nat, n: nat)
    requires d <= n <= |p|
    ensures p[..d] + p[d..n] + p[n..] == p
  {}

  // ---- firmware

  lemma StoreRoom(f: FirmwareRing, p: seq<byte>, e: nat)
    requires EmiOk(f, p, e) && |f.pending| + 1 < |f.base|
    requires Slot(f.write + |f.pending| + 1, |f.base|) != f.read
    ensures |p| - e + |f.pending| + 1 < |f.base|
    ensures Slot(f.write + |f.pending|, |f.base|) == Slot(f.read + (|p| - e + |f.pending|), |f.base|)
  {
    var n, m, used := |f.pending|, |f.base|, |p| - e;
    SlotIdempotent(f.read + used, n, m);
    if used + n + 1 == m {
      SlotIdempotent(f.read + used, n + 1, m);
      SlotAdvance(f.read, m, m);
    }
  }

  lemma PushedByte(base: seq<byte>, read: nat, k: nat, b: byte)
    requires k < |base|
    ensures Window(base[Slot(read + k, |base|) := b], read, k + 1) == Window(base, read, k) + [b]
  {
    var pt := Slot(read + k, |base|);
    var base' := base[pt := b];
    assert base' == base[..pt] + [b] + base[pt + 1..];
    WindowWrite(base, base', read, k, [b]);
  }

  lemma StoreOk(f: FirmwareRing, b: byte, p: seq<byte>, e: nat)
    requires EmiOk(f, p, e)
    ensures EmiOk(Store(f, b), p, e)
  {
    var n, m := |f.pending|, |f.base|;
    if n + 1 < m && Slot(f.write + n + 1, m) != f.read {
      StoreRoom(f, p, e);
      PushedByte(f.base, f.read, |p| - e + n, b);
      assert p[e..] + f.pending + [b] == p[e..] + (f.pending + [b]);
    }
  }

  lemma PublishOk(f: FirmwareRing, p: seq<byte>, e: nat)
    requires EmiOk(f, p, e)
    ensures EmiOk(Publish(f), p + f.pending, e)
  {
    SlotIdempotent(f.read + (|p| - e), |f.pending|, |f.base|);
    assert p[e..] + f.pending == (p + f.pending)[e..] + [];
  }

  lemma StoreKeepsInv(s: State, b: byte)
    requires Inv(s)
    ensures Inv(Apply(s, FirmwareStore(b)))
  {
    StoreOk(s.emi, b, s.produced, s.drained);
  }

  // publishing more does not disturb what the others rely on
  lemma MorePublished(w: Worker, r: Reader, buf: seq<byte>, c: CacheRing, f: FirmwareRing,
                      p: seq<byte>, q: seq<byte>, callStart: nat, d: nat, n: nat, e: nat)
    requires CacheOk(c, p, d, n) && EmiOk(f, p, e) && callStart <= d
    requires WorkerOk(w, c, f, p, d, n, e) && ReaderOk(r, buf, c.read, |c.base|, p, callStart, d, n)
    requires EmiOk(Publish(f), p + q, e)
    ensures CacheOk(c, p + q, d, n)
    ensures WorkerOk(w, c, Publish(f), p + q, d, n, e)
    ensures ReaderOk(r, buf, c.read, |c.base|, p + q, callStart, d, n)
  {
    SliceOfPrefix(p, q, d, n);
    if w.WCopy? { SliceOfPrefix(p, q, n, n + w.k); }
    if r.RCopy? { SliceOfPrefix(p, q, callStart, d + r.k); }
  }

  lemma PublishKeepsInv(s: State)
    requires Inv(s)
    ensures Inv(Apply(s, FirmwarePublish))
  {
    var p, q, d := s.produced, s.emi.pending, |s.delivered|;
    PublishOk(s.emi, p, s.drained);
    MorePublished(s.worker, s.reader, s.buf, s.cache, s.emi, p, q, s.callStart, d, s.stored, s.drained);
    SliceOfPrefix(p, q, 0, d);
  }

  // ---- reader

  /** The next byte to copy out is the next byte the firmware published. */
  lemma ReadsNext(seg: Segment, k: nat, c: CacheRing, p: seq<byte>, d: nat, n: nat)
    requires CacheOk(c, p, d, n) && k < seg.sz && d + seg.sz <= n
    requires seg.ringPt == Slot(c.read, |c.base|) && seg.ringPt + seg.sz <= |c.base|
    ensures c.base[seg.ringPt + k] == p[d + k]
  {
    WindowContiguous(c.base, c.read, seg.sz, n - d);
    assert p[d..n][..seg.sz][k] == c.base[seg.ringPt..seg.ringPt + seg.sz][k];
  }

  lemma ReadCommitOk(c: CacheRing, sz: u32, p: seq<byte>, d: nat, n: nat)
    requires CacheOk(c, p, d, n) && d + sz <= n
    ensures CacheOk(c.(read := Add32(c.read, sz)), p, d + sz, n)
  {
    ReadDrops(c.base, c.read, c.write, sz);
    assert p[d..n][sz..] == p[d + sz..n];
  }

  lemma ReadsOne(seg: Segment, k: nat, buf: seq<byte>, c: CacheRing, p: seq<byte>, callStart: nat, d: nat, n: nat)
    requires CacheOk(c, p, d, n) && k < seg.sz
    requires ReaderOk(RCopy(seg, k), buf, c.read, |c.base|, p, callStart, d, n)
    ensures ReaderOk(RCopy(seg, k + 1), buf + [c.base[seg.ringPt + k]], c.read, |c.base|, p, callStart, d, n)
  {
    ReadsNext(seg, k, c, p, d, n);
    OneMore(p, callStart, d + k);
  }

  lemma ReadState(s: State)
    requires Sized(s) && s.reader.RCopy? && s.reader.k < s.reader.seg.sz
    requires s.reader.seg.ringPt + s.reader.k < |s.cache.base|
    ensures var seg, k := s.reader.seg, s.reader.k;
            AdvanceReader(s) == s.(buf := s.buf + [s.cache.base[seg.ringPt + k]], reader := RCopy(seg, k + 1))
  {}

  lemma ReadsKeepInv(s: State)
    requires Inv(s) && s.reader.RCopy? && s.reader.k < s.reader.seg.sz
    ensures Inv(AdvanceReader(s))
  {
    ReadsOne(s.reader.seg, s.reader.k, s.buf, s.cache, s.produced, s.callStart, |s.delivered|, s.stored);
    ReadState(s);
  }

  /** The bytes of the segment that was copied are handed over. */
  lemma HandsOver(p: seq<byte>, callStart: nat, d: nat, k: nat, buf: seq<byte>, delivered: seq<byte>)
    requires callStart <= d && d + k <= |p| && buf == p[callStart..d + k] && delivered == p[..d]
    ensures delivered + buf[|buf| - k..] == p[..d + k]
  {
    assert p[callStart..d + k][d - callStart..] == p[d..d + k];
  }

  lemma NextRead(seg: Segment, buf: seq<byte>, read: u32, max: u32, p: seq<byte>, callStart: nat, d: nat, n: nat)
    requires ValidSize(max) && ReaderOk(RCopy(seg, seg.sz), buf, read, max, p, callStart, d, n)
    ensures var read' := Add32(read, seg.sz);
            ReaderOk(AfterWalk(NextSegment(read', seg.remain, seg, max)), buf, read', max, p, callStart, d + seg.sz, n)
  {}

  // a read commit only gives the worker more room
  lemma MoreRoom(w: Worker, c: CacheRing, read: u32, f: FirmwareRing, p: seq<byte>, d: nat, d': nat, n: nat, e: nat)
    requires CacheOk(c, p, d, n) && EmiOk(f, p, e) && WorkerOk(w, c, f, p, d, n, e)
    requires d <= d' && CacheOk(c.(read := read), p, d', n)
    ensures WorkerOk(w, c.(read := read), f, p, d', n, e)
  {}

  ghost function ReadCommitted(s: State): State
    requires Sized(s) && s.reader.RCopy? && s.reader.seg.sz <= |s.buf|
  {
    var seg, read := s.reader.seg, Add32(s.cache.read, s.reader.seg.sz);
    s.(cache := s.cache.(read := read), delivered := s.delivered + s.buf[|s.buf| - seg.sz..],
       reader := AfterWalk(NextSegment(read, seg.remain, seg, |s.cache.base|)))
  }

  lemma ReadCommitReader(s: State)
    requires Inv(s) && s.reader.RCopy? && s.reader.k == s.reader.seg.sz
    ensures |s.buf| >= s.reader.seg.sz
    ensures var s' := ReadCommitted(s);
            && |s'.delivered| == |s.delivered| + s.reader.seg.sz
            && DeliveredOk(s.produced, s'.delivered, s.callStart)
            && ReaderOk(s'.reader, s.buf, s'.cache.read, |s.cache.base|, s.produced, s.callStart,
                        |s'.delivered|, s.stored)
  {
    HandsOver(s.produced, s.callStart, |s.delivered|, s.reader.seg.sz, s.buf, s.delivered);
    NextRead(s.reader.seg, s.buf, s.cache.read, |s.cache.base|, s.produced, s.callStart, |s.delivered|, s.stored);
  }

  lemma ReadCommitWorker(s: State)
    requires Inv(s) && s.reader.RCopy? && s.reader.k == s.reader.seg.sz
    ensures var c, d := s.cache.(read := Add32(s.cache.read, s.reader.seg.sz)), |s.delivered| + s.reader.seg.sz;
            && CacheOk(c, s.produced, d, s.stored)
            && WorkerOk(s.worker, c, s.emi, s.produced, d, s.stored, s.drained)
  {
    var sz, d, p := s.reader.seg.sz, |s.delivered|, s.produced;
    ReadCommitOk(s.cache, sz, p, d, s.stored);
    MoreRoom(s.worker, s.cache, Add32(s.cache.read, sz), s.emi, p, d, d + sz, s.stored, s.drained);
  }

  lemma ReadCommitInv(s: State)
    requires Inv(s) && s.reader.RCopy? && s.reader.k == s.reader.seg.sz
    ensures |s.buf| >= s.reader.seg.sz && Inv(ReadCommitted(s))
  {
    ReadCommitReader(s);
    ReadCommitWorker(s);
  }

  lemma ReadCommitKeepsInv(s: State)
    requires Inv(s) && s.reader.RCopy? && s.reader.k == s.reader.seg.sz
    ensures Inv(AdvanceReader(s))
  {
    ReadCommitInv(s);
    assert AdvanceReader(s) == ReadCommitted(s);
  }

  lemma ReaderKeepsInv(s: State)
    requires Inv(s)
    ensures Inv(AdvanceReader(s))
  {
    match s.reader
    case RCopy(seg, k) => if k < seg.sz { ReadsKeepInv(s); } else { ReadCommitKeepsInv(s); }
    case _ =>
  }

  // ---- worker

  lemma EmiUsedIsRight(f: FirmwareRing, p: seq<byte>, e: nat)
    requires EmiOk(f, p, e)
    ensures EmiUsed(f.read, f.write, |f.base|) == |p| - e
  {
    SlotAdvance(f.read, |p| - e, |f.base|);
  }

  // no index from the read counter to the write counter denotes this slot
  ghost predicate NotReadable(c: CacheRing, slot: nat)
    requires |c.base| > 0
  {
    forall i :: c.read <= i < c.read + CacheSize(c) ==> Slot(i, |c.base|) != slot
  }

  /** The slots behind the write counter are none a reader may look at, as far as there is room. */
  lemma NoOverwrite(part: Segment, k: nat, c: CacheRing, p: seq<byte>, d: nat, n: nat)
    requires CacheOk(c, p, d, n) && k < part.sz && n + part.sz <= d + |c.base|
    requires part.ringPt == Slot(c.write, |c.base|) && part.ringPt + part.sz <= |c.base|
    ensures NotReadable(c, part.ringPt + k)
  {
    var end, m := c.read + (n - d), |c.base|;
    assert Slot(end, m) == part.ringPt by { AddKeepsSlot(c.read, n - d, m); }
    SlotAdvance(end, k, m);
    forall i | c.read <= i < end
      ensures Slot(i, m) != part.ringPt + k
    {
      SlotDistinct(i, end + k, m);
    }
  }

  /** The byte to be stored next is the next byte in the firmware's order. */
  lemma CopiesNext(seg: Segment, j: nat, f: FirmwareRing, p: seq<byte>, e: nat)
    requires EmiOk(f, p, e) && j < seg.sz && e + seg.sz <= |p|
    requires seg.ringPt == f.read && seg.ringPt + seg.sz <= |f.base|
    ensures f.base[seg.ringPt + j] == p[e + j]
  {
    var n := |p| - e + |f.pending|;
    WindowContiguous(f.base, f.read, seg.sz, n);
    assert Window(f.base, f.read, n)[..seg.sz][j] == f.base[seg.ringPt..seg.ringPt + seg.sz][j];
  }

  lemma CopyOk(part: Segment, k: nat, b: byte, c: CacheRing, p: seq<byte>, d: nat, n: nat)
    requires CacheOk(c, p, d, n) && k < part.sz && n + part.sz <= d + |c.base|
    requires part.ringPt == Slot(c.write, |c.base|) && part.ringPt + part.sz <= |c.base|
    ensures CacheOk(c.(base := c.base[part.ringPt + k := b]), p, d, n)
  {
    NoOverwrite(part, k, c, p, d, n);
    WindowSame(c.base, c.base[part.ringPt + k := b], c.read, n - d);
  }

  lemma CopiedSoFar(c: seq<byte>, pt: nat, k: nat, p: seq<byte>, n: nat)
    requires pt + k < |c| && n + k < |p| && c[pt..pt + k] == p[n..n + k]
    ensures c[pt + k := p[n + k]][pt..pt + k + 1] == p[n..n + k + 1]
  {
    assert c[pt + k := p[n + k]][pt..pt + k + 1] == c[pt..pt + k] + [p[n + k]];
  }

  lemma CopyAdvances(seg: Segment, part: Segment, k: nat, c: CacheRing, c': CacheRing, f: FirmwareRing,
                     p: seq<byte>, d: nat, n: nat, e: nat)
    requires CacheOk(c, p, d, n) && EmiOk(f, p, e)
    requires WorkerOk(WCopy(seg, part, k), c, f, p, d, n, e) && k < part.sz
    requires c' == c.(base := c.base[part.ringPt + k := f.base[seg.ringPt + part.dataPos + k]])
    ensures |c'.base| == |c.base| && CacheOk(c', p, d, n)
    ensures WorkerOk(WCopy(seg, part, k + 1), c', f, p, d, n, e)
  {
    CopiesNext(seg, part.dataPos + k, f, p, e);
    CopyOk(part, k, p[n + k], c, p, d, n);
    CopiedSoFar(c.base, part.ringPt, k, p, n);
  }

  lemma CopyStep(s: State, from: nat, to: nat)
    requires Sized(s) && s.worker.WCopy? && s.worker.k < s.worker.part.sz
    requires from == s.worker.seg.ringPt + s.worker.part.dataPos + s.worker.k < |s.emi.base|
    requires to == s.worker.part.ringPt + s.worker.k < |s.cache.base|
    ensures AdvanceWorker(s) == s.(cache := s.cache.(base := s.cache.base[to := s.emi.base[from]]),
                                   worker := WCopy(s.worker.seg, s.worker.part, s.worker.k + 1))
  {}

  lemma CopyKeepsInv(s: State)
    requires Inv(s) && s.worker.WCopy? && s.worker.k < s.worker.part.sz
    ensures Inv(AdvanceWorker(s))
  {
    var seg, part, k := s.worker.seg, s.worker.part, s.worker.k;
    CopyStep(s, seg.ringPt + part.dataPos + k, part.ringPt + k);
    CopyAdvances(seg, part, k, s.cache, AdvanceWorker(s).cache, s.emi, s.produced, |s.delivered|, s.stored, s.drained);
  }

  lemma StoreCommitOk(part: Segment, c: CacheRing, p: seq<byte>, d: nat, n: nat)
    requires CacheOk(c, p, d, n) && n + part.sz <= |p| && n + part.sz <= d + |c.base|
    requires part.ringPt == Slot(c.write, |c.base|) && part.ringPt + part.sz <= |c.base|
    requires c.base[part.ringPt..part.ringPt + part.sz] == p[n..n + part.sz]
    ensures CacheOk(c.(write := Add32(c.write, part.sz)), p, d, n + part.sz)
  {
    assert Slot(c.read + (n - d), |c.base|) == part.ringPt by { AddKeepsSlot(c.read, n - d, |c.base|); }
    WindowExtend(c.base, c.read, n - d, part.sz);
    assert p[d..n] + p[n..n + part.sz] == p[d..n + part.sz];
  }

  lemma StoreCommitWorker(seg: Segment, part: Segment, c: CacheRing, f: FirmwareRing,
                          p: seq<byte>, d: nat, n: nat, e: nat)
    requires CacheOk(c, p, d, n) && EmiOk(f, p, e)
    requires WorkerOk(WCopy(seg, part, part.sz), c, f, p, d, n, e)
    ensures var c' := c.(write := Add32(c.write, part.sz));
            && CacheOk(c', p, d, n + part.sz)
            && WorkerOk(AfterPart(seg, NextSegment(c'.write, part.remain, part, |c.base|)), c', f, p, d, n + part.sz, e)
  {
    StoreCommitOk(part, c, p, d, n);
  }

  ghost function StoreCommitted(s: State): State
    requires Sized(s) && s.worker.WCopy?
  {
    var seg, part, write := s.worker.seg, s.worker.part, Add32(s.cache.write, s.worker.part.sz);
    s.(cache := s.cache.(write := write), stored := s.stored + part.sz,
       worker := AfterPart(seg, NextSegment(write, part.remain, part, |s.cache.base|)))
  }

  lemma StoreCommitInv(s: State)
    requires Inv(s) && s.worker.WCopy? && s.worker.k == s.worker.part.sz
    ensures Inv(StoreCommitted(s))
  {
    StoreCommitWorker(s.worker.seg, s.worker.part, s.cache, s.emi, s.produced, |s.delivered|, s.stored, s.drained);
  }

  lemma StoreCommitKeepsInv(s: State)
    requires Inv(s) && s.worker.WCopy? && s.worker.k == s.worker.part.sz
    ensures Inv(AdvanceWorker(s))
  {
    StoreCommitInv(s);
    assert AdvanceWorker(s) == StoreCommitted(s);
  }

  lemma DrainCommitOk(f: FirmwareRing, sz: u32, p: seq<byte>, e: nat)
    requires EmiOk(f, p, e) && e + sz <= |p|
    ensures EmiOk(DrainCommit(f, sz), p, e + sz)
  {
    var n, m := |p| - e, |f.base|;
    WindowDrop(f.base, f.read, sz, n + |f.pending|);
    WindowSlot(f.base, f.read + sz, Slot(f.read + sz, m), n + |f.pending| - sz);
    SlotIdempotent(f.read + sz, n - sz, m);
    assert (p[e..] + f.pending)[sz..] == p[e + sz..] + f.pending;
  }

  lemma DrainCommitKeepsInv(s: State)
    requires Inv(s) && s.worker.WDone?
    ensures Inv(AdvanceWorker(s))
  {
    DrainCommitOk(s.emi, s.worker.seg.sz, s.produced, s.drained);
  }

  lemma LookKeepsInv(s: State)
    requires Inv(s) && (s.worker.WIdle? || s.worker.WRemain? || s.worker.WEmpty? || s.worker.WPrepare?)
    ensures Inv(AdvanceWorker(s))
  {
    EmiUsedIsRight(s.emi, s.produced, s.drained);
  }

  lemma CutKeepsInv(s: State)
    requires Inv(s) && (s.worker.WBounds? || s.worker.WSegment? || s.worker.WCache?)
    ensures Inv(AdvanceWorker(s))
  {}

  lemma WorkerKeepsInv(s: State)
    requires Inv(s)
    ensures Inv(AdvanceWorker(s))
  {
    if s.worker.WCopy? {
      if s.worker.k < s.worker.part.sz { CopyKeepsInv(s); } else { StoreCommitKeepsInv(s); }
    } else if s.worker.WDone? {
      DrainCommitKeepsInv(s);
    } else if s.worker.WBounds? || s.worker.WSegment? || s.worker.WCache? {
      CutKeepsInv(s);
    } else {
      LookKeepsInv(s);
    }
  }

  lemma StepKeepsInv(s: State, step: Step)
    requires Inv(s)
    ensures Inv(Apply(s, step))
  {
    match step
    case FirmwareStore(b) => StoreKeepsInv(s, b);
    case FirmwarePublish => PublishKeepsInv(s);
    case WorkerStep => WorkerKeepsInv(s);
    case ReaderStep => ReaderKeepsInv(s);
    case _ =>
  }

  lemma StepKeepsSize(s: State, step: Step)
    requires Sized(s)
    ensures var s' := Apply(s, step); |s'.cache.base| == |s.cache.base| && |s'.emi.base| == |s.emi.base|
  {}

  // ---- over whole runs

  /** The state after any interleaving of steps, from two empty rings. */
  ghost function Run(cache: seq<byte>, emi: seq<byte>, steps: seq<Step>): (s: State)
    requires Sized(Init(cache, emi))
    ensures Inv(s) && |s.cache.base| == |cache|
    decreases |steps|
  {
    if steps == [] then InitInv(cache, emi); Init(cache, emi)
    else
      var s := Run(cache, emi, steps[..|steps| - 1]);
      StepKeepsInv(s, steps[|steps| - 1]);
      StepKeepsSize(s, steps[|steps| - 1]);
      Apply(s, steps[|steps| - 1])
  }

  // what the two rings' index words say they hold
  ghost function CacheContents(s: State): seq<byte>
    requires Sized(s)
  {
    Window(s.cache.base, s.cache.read, CacheSize(s.cache))
  }

  ghost function EmiContents(s: State): seq<byte>
    requires Sized(s)
  {
    Window(s.emi.base, s.emi.read, EmiUsed(s.emi.read, s.emi.write, |s.emi.base|))
  }

  /** Bytes already readable in the cache whose firmware stretch is not yet committed. */
  function InFlight(w: Worker): nat {
    match w
    case WCopy(seg, part, k) => part.dataPos
    case WDone(seg) => seg.sz
    case _ => 0
  }

  lemma EmiIsProduced(f: FirmwareRing, p: seq<byte>, e: nat)
    requires EmiOk(f, p, e)
    ensures Window(f.base, f.read, EmiUsed(f.read, f.write, |f.base|)) == p[e..]
  {
    EmiUsedIsRight(f, p, e);
    var n := |p| - e;
    assert Window(f.base, f.read, n) == Window(f.base, f.read, n + |f.pending|)[..n];
    assert (p[e..] + f.pending)[..n] == p[e..];
  }

  /** Nothing lost, duplicated or reordered: what was delivered, then the cache, then the rest of the
      firmware's ring, is what the firmware has published. */
  ghost predicate Conserved(s: State)
    requires Sized(s)
  {
    && InFlight(s.worker) <= |EmiContents(s)|
    && s.delivered + CacheContents(s) + EmiContents(s)[InFlight(s.worker)..] == s.produced
  }

  lemma InvConserves(s: State)
    requires Inv(s)
    ensures Conserved(s)
  {
    var p, d, n, e := s.produced, |s.delivered|, s.stored, s.drained;
    EmiIsProduced(s.emi, p, e);
    assert n - e == InFlight(s.worker);
    assert p[e..][n - e..] == p[n..];
    ThreeParts(p, d, n);
  }

  /** ... in every state of every interleaving. */
  lemma Conservation(cache: seq<byte>, emi: seq<byte>, steps: seq<Step>)
    requires Sized(Init(cache, emi))
    ensures Conserved(Run(cache, emi, steps))
  {
    InvConserves(Run(cache, emi, steps));
  }

  /** Whatever the reader commits meanwhile, the byte the worker stores next lands outside the
      readable part of the cache, and it comes from inside the firmware's ring. */
  lemma WriterNeverOverwrites(s: State)
    requires Inv(s) && s.worker.WCopy? && s.worker.k < s.worker.part.sz
    ensures s.worker.part.ringPt + s.worker.k < |s.cache.base|
    ensures s.worker.seg.ringPt + s.worker.part.dataPos + s.worker.k < |s.emi.base|
    ensures NotReadable(s.cache, s.worker.part.ringPt + s.worker.k)
  {
    NoOverwrite(s.worker.part, s.worker.k, s.cache, s.produced, |s.delivered|, s.stored);
  }

  /** Whatever the worker commits meanwhile, the byte a reader copies out next is the next byte the
      firmware published. */
  lemma ReaderNeverRunsAhead(s: State)
    requires Inv(s) && s.reader.RCopy? && s.reader.k < s.reader.seg.sz
    ensures s.reader.seg.ringPt + s.reader.k < |s.cache.base|
    ensures |s.delivered| + s.reader.k < |s.produced|
    ensures s.cache.base[s.reader.seg.ringPt + s.reader.k] == s.produced[|s.delivered| + s.reader.k]
  {
    ReadsNext(s.reader.seg, s.reader.k, s.cache, s.produced, |s.delivered|, s.stored);
  }

  ghost predicate WriterSafe(s: State)
    requires Sized(s)
  {
    s.worker.WCopy? && s.worker.k < s.worker.part.sz ==>
      && s.worker.part.ringPt + s.worker.k < |s.cache.base|
      && s.worker.seg.ringPt + s.worker.part.dataPos + s.worker.k < |s.emi.base|
      && NotReadable(s.cache, s.worker.part.ringPt + s.worker.k)
  }

  ghost predicate ReaderSafe(s: State) {
    s.reader.RCopy? ==>
      && s.callStart <= |s.delivered| && |s.delivered| + s.reader.k <= |s.produced|
      && s.buf == s.produced[s.callStart..|s.delivered| + s.reader.k]
      && (s.reader.k < s.reader.seg.sz ==>
            && s.reader.seg.ringPt + s.reader.k < |s.cache.base|
            && |s.delivered| + s.reader.k < |s.produced|
            && s.cache.base[s.reader.seg.ringPt + s.reader.k] == s.produced[|s.delivered| + s.reader.k])
  }

  lemma InvIsSafe(s: State)
    requires Inv(s)
    ensures WriterSafe(s) && ReaderSafe(s)
  {
    if s.worker.WCopy? && s.worker.k < s.worker.part.sz { WriterNeverOverwrites(s); }
    if s.reader.RCopy? && s.reader.k < s.reader.seg.sz { ReaderNeverRunsAhead(s); }
  }

  /** Both hold, and a reader call has copied out exactly the published bytes that follow those
      delivered before it, in every state of every interleaving. */
  lemma StaleSnapshotsAreSafe(cache: seq<byte>, emi: seq<byte>, steps: seq<Step>)
    requires Sized(Init(cache, emi))
    ensures var s := Run(cache, emi, steps); WriterSafe(s) && ReaderSafe(s)
  {
    InvIsSafe(Run(cache, emi, steps));
  }
}
