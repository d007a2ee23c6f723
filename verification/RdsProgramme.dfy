/** The programme service name of fm_rds_parser.c (rds_g0_ps_cmp, rds_retrieve_g0_ps): eight characters
    that arrive as four two-character segments and are shown once they have been confirmed. */
module RdsProgramme {
  import opened Options
  import opened Words

  datatype Segment = Segment(hi: byte, lo: byte)

  const ZERO := Segment(0, 0)

  type Segments = s: seq<Segment> | |s| == 4 witness [ZERO, ZERO, ZERO, ZERO]

  /** Bits 0 to 3 of Addr_Cnt; no others are ever set. */
  type Bits = b: seq<bool> | |b| == 4 witness [false, false, false, false]

  const BLANK: Segments := [ZERO, ZERO, ZERO, ZERO]
  const NONE: Bits := [false, false, false, false]
  const ALL: Bits := [true, true, true, true]

  /** PS[0] to PS[3], Addr_Cnt and the static Pre_PS_Num, which nothing resets. */
  datatype Ps = Ps(latest: Segments, once: Segments, twice: Segments, shown: Segments, bits: Bits, pre: int)

  function Zeroed(s: Segments, from: int, to: int): Segments {
    seq(4, k requires 0 <= k < 4 => if from <= k < to then ZERO else s[k])
  }

  function Unset(b: Bits, from: int, to: int): Bits {
    seq(4, k requires 0 <= k < 4 => b[k] && !(from <= k < to))
  }

  /** The addresses that rds_g0_ps_cmp takes to have been missed before this one. */
  function Missed(pre: int, a: nat): (int, int) {
    if a - pre > 1 then (pre + 1, a) else if a - pre < 1 then (0, a) else (a, a)
  }

  function Differs(p: Ps, a: nat): Ps
    requires a < 4
  {
    var (from, to) := Missed(p.pre, a);
    var bits := Unset(p.bits, from, to);
    p.(once := Zeroed(p.once, from, to)[a := p.latest[a]],
       twice := Zeroed(p.twice, from, to),
       bits := if p.once[a] != ZERO then Unset(bits, a, 4) else bits)
  }

  /** rds_g0_ps_cmp */
  function Cmp(p: Ps, a: nat): Ps
    requires a < 4
  {
    var q := if p.latest[a] == p.once[a] then p.(twice := p.twice[a := p.once[a]], bits := p.bits[a := true])
             else Differs(p, a);
    q.(pre := a)
  }

  /** RDS_PS_DECISION and RDS_PS_GETLEN; true when RDS_EVENT_PROGRAMNAME is set. */
  function Decide(p: Ps): (Ps, bool) {
    if p.bits != ALL then (p, false)
    else if p.shown == p.twice then (p.(latest := BLANK, once := BLANK, twice := BLANK, bits := NONE), false)
    else if p.twice == BLANK then (p.(bits := NONE), false)
    else (p.(shown := p.twice), true)
  }

  /** rds_retrieve_g0_ps for a group whose block D is good. */
  function Receive(p: Ps, a: nat, s: Segment): (Ps, bool)
    requires a < 4
  {
    Decide(Cmp(p.(latest := p.latest[a := s]), a))
  }

  // ---- what was received

  datatype Reception = Reception(addr: nat, segment: Segment)

  /** The last reception at an address. */
  function LastAt(hist: seq<Reception>, a: nat): Option<Segment> {
    if hist == [] then None
    else if hist[|hist| - 1].addr == a then Some(hist[|hist| - 1].segment)
    else LastAt(hist[..|hist| - 1], a)
  }

  /** The last two receptions at the address both brought s. */
  predicate JustRepeated(hist: seq<Reception>, a: nat, s: Segment) {
    hist != [] &&
    var before := hist[..|hist| - 1];
    if hist[|hist| - 1].addr == a then hist[|hist| - 1].segment == s && LastAt(before, a) == Some(s)
    else JustRepeated(before, a, s)
  }

  /** At some time two receptions in a row at the address both brought s. */
  ghost predicate EverRepeated(hist: seq<Reception>, a: nat, s: Segment) {
    exists k :: 0 <= k <= |hist| && JustRepeated(hist[..k], a, s)
  }

  ghost predicate AddrInv(hist: seq<Reception>, a: nat, once: Segment, twice: Segment, shown: Segment, bit: bool) {
    && (once != ZERO ==> LastAt(hist, a) == Some(once))
    && (twice != ZERO ==> EverRepeated(hist, a, twice))
    && (bit && twice != ZERO ==> once == twice && JustRepeated(hist, a, twice))
    && (shown != ZERO ==> EverRepeated(hist, a, shown))
  }

  ghost predicate Inv(p: Ps, hist: seq<Reception>) {
    && -1 <= p.pre <= 3
    && forall a :: 0 <= a < 4 ==> AddrInv(hist, a, p.once[a], p.twice[a], p.shown[a], p.bits[a])
  }

  lemma RepeatedLater(hist: seq<Reception>, more: Reception, a: nat, s: Segment)
    requires EverRepeated(hist, a, s)
    ensures EverRepeated(hist + [more], a, s)
  {
    var k :| 0 <= k <= |hist| && JustRepeated(hist[..k], a, s);
    assert (hist + [more])[..k] == hist[..k];
  }

  lemma RepeatedNow(hist: seq<Reception>, a: nat, s: Segment)
    requires JustRepeated(hist, a, s)
    ensures EverRepeated(hist, a, s)
  {
    assert hist[..|hist|] == hist;
  }

  /** A reception elsewhere changes nothing for address a, apart from what is cleared. */
  lemma ElsewhereInv(hist: seq<Reception>, r: Reception, a: nat,
                     once: Segment, twice: Segment, shown: Segment, bit: bool)
    requires AddrInv(hist, a, once, twice, shown, bit) && r.addr != a
    ensures AddrInv(hist + [r], a, once, twice, shown, bit)
    ensures AddrInv(hist + [r], a, once, twice, shown, false)
    ensures AddrInv(hist + [r], a, ZERO, ZERO, shown, false)
  {
    assert (hist + [r])[..|hist|] == hist;
    if twice != ZERO { RepeatedLater(hist, r, a, twice); }
    if shown != ZERO { RepeatedLater(hist, r, a, shown); }
  }

  lemma HereInv(hist: seq<Reception>, r: Reception, once: Segment, twice: Segment, shown: Segment, bit: bool)
    requires AddrInv(hist, r.addr, once, twice, shown, bit)
    ensures r.segment == once ==> AddrInv(hist + [r], r.addr, once, once, shown, true)
    ensures r.segment != once ==> AddrInv(hist + [r], r.addr, r.segment, twice, shown, once == ZERO && bit)
  {
    assert (hist + [r])[..|hist|] == hist;
    if twice != ZERO { RepeatedLater(hist, r, r.addr, twice); }
    if shown != ZERO { RepeatedLater(hist, r, r.addr, shown); }
    if r.segment == once && once != ZERO { RepeatedNow(hist + [r], r.addr, once); }
  }

  lemma CmpInv(p: Ps, hist: seq<Reception>, a: nat, s: Segment)
    requires Inv(p, hist) && a < 4
    ensures Inv(Cmp(p.(latest := p.latest[a := s]), a), hist + [Reception(a, s)])
  {
    var q, r := Cmp(p.(latest := p.latest[a := s]), a), Reception(a, s);
    forall k | 0 <= k < 4
      ensures AddrInv(hist + [r], k, q.once[k], q.twice[k], q.shown[k], q.bits[k])
    {
      assert AddrInv(hist, k, p.once[k], p.twice[k], p.shown[k], p.bits[k]);
      if k == a {
        HereInv(hist, r, p.once[a], p.twice[a], p.shown[a], p.bits[a]);
      } else {
        ElsewhereInv(hist, r, k, p.once[k], p.twice[k], p.shown[k], p.bits[k]);
      }
    }
  }

  lemma DecideInv(p: Ps, hist: seq<Reception>)
    requires Inv(p, hist)
    ensures Inv(Decide(p).0, hist)
  {
    var q := Decide(p).0;
    forall k | 0 <= k < 4
      ensures AddrInv(hist, k, q.once[k], q.twice[k], q.shown[k], q.bits[k])
    {
      assert AddrInv(hist, k, p.once[k], p.twice[k], p.shown[k], p.bits[k]);
    }
  }

  lemma EventConfirmed(p: Ps, hist: seq<Reception>, a: nat, s: Segment)
    requires Inv(p, hist) && a < 4
    ensures var (q, event) := Receive(p, a, s);
            var hist' := hist + [Reception(a, s)];
            && Inv(q, hist')
            && (event ==> q.bits == ALL && q.shown != p.shown && q.shown != BLANK && q.shown == q.twice)
            && (!event ==> q.shown == p.shown)
  {
    CmpInv(p, hist, a, s);
    DecideInv(Cmp(p.(latest := p.latest[a := s]), a), hist + [Reception(a, s)]);
  }

  // ---- over whole runs

  /** A good group, or the memset of all RDS data when tuning or switching RDS on. */
  datatype Step = Group(addr: nat, segment: Segment) | Reset

  ghost predicate ValidRun(steps: seq<Step>) {
    forall k :: 0 <= k < |steps| ==> steps[k].Group? ==> steps[k].addr < 4
  }

  /** State, receptions since the last reset, and whether the last step raised the event. */
  ghost function Run(pre: int, steps: seq<Step>): (Ps, seq<Reception>, bool)
    requires ValidRun(steps)
    decreases |steps|
  {
    if steps == [] then (Ps(BLANK, BLANK, BLANK, BLANK, NONE, pre), [], false)
    else
      var (p, hist, _) := Run(pre, steps[..|steps| - 1]);
      match steps[|steps| - 1]
      case Reset => (Ps(BLANK, BLANK, BLANK, BLANK, NONE, p.pre), [], false)
      case Group(a, s) =>
        var (q, event) := Receive(p, a, s);
        (q, hist + [Reception(a, s)], event)
  }

  lemma {:induction false} RunInv(pre: int, steps: seq<Step>)
    requires -1 <= pre <= 3 && ValidRun(steps)
    ensures var (p, hist, _) := Run(pre, steps); Inv(p, hist)
    decreases |steps|
  {
    if steps != [] {
      RunInv(pre, steps[..|steps| - 1]);
      var (p, hist, _) := Run(pre, steps[..|steps| - 1]);
      match steps[|steps| - 1]
      case Reset =>
      case Group(a, s) => EventConfirmed(p, hist, a, s);
    }
  }

  /** On every run, each non-zero segment shown was received at its address, with exactly that value,
      in two receptions in a row (since the last reset). */
  lemma ShownWasRepeated(pre: int, steps: seq<Step>, a: nat)
    requires -1 <= pre <= 3 && ValidRun(steps) && a < 4
    ensures var (p, hist, _) := Run(pre, steps);
            p.shown[a] != ZERO ==> EverRepeated(hist, a, p.shown[a])
  {
    RunInv(pre, steps);
    var (p, hist, _) := Run(pre, steps);
    assert AddrInv(hist, a, p.once[a], p.twice[a], p.shown[a], p.bits[a]);
  }

  /** When the event is raised, all four bits are set and the name shown has changed; each of its
      non-zero segments is what the last two receptions at its address brought. Without the event the
      name shown does not change, except that a reset blanks it. */
  lemma EventMeansConfirmed(pre: int, steps: seq<Step>)
    requires -1 <= pre <= 3 && ValidRun(steps) && steps != []
    ensures var (p, hist, event) := Run(pre, steps);
            var shown := Run(pre, steps[..|steps| - 1]).0.shown;
            && (event ==> p.bits == ALL && p.shown != shown && p.shown != BLANK &&
                          forall a :: 0 <= a < 4 && p.shown[a] != ZERO ==> JustRepeated(hist, a, p.shown[a]))
            && (!event ==> p.shown == if steps[|steps| - 1].Reset? then BLANK else shown)
  {
    var (p, hist, event) := Run(pre, steps);
    var (before, past, _) := Run(pre, steps[..|steps| - 1]);
    RunInv(pre, steps[..|steps| - 1]);
    match steps[|steps| - 1]
    case Reset =>
    case Group(a, s) =>
      EventConfirmed(before, past, a, s);
      forall k | event && 0 <= k < 4 && p.shown[k] != ZERO ensures JustRepeated(hist, k, p.shown[k]) {
        assert AddrInv(hist, k, p.once[k], p.twice[k], p.shown[k], p.bits[k]);
      }
  }

  // ---- the code

  // the i-th two characters of an eight-character buffer
  function SegmentsOf(b: seq<byte>): Segments
    requires |b| == 8
  {
    seq(4, k requires 0 <= k < 4 => Segment(b[2 * k], b[2 * k + 1]))
  }

  function Stored(b: seq<byte>, a: nat, s: Segment): (r: seq<byte>)
    requires |b| == 8 && a < 4
    ensures |r| == 8
  {
    b[..2 * a] + [s.hi, s.lo] + b[2 * a + 2..]
  }

  lemma StoreSegment(b: seq<byte>, a: nat, s: Segment)
    requires |b| == 8 && a < 4
    ensures SegmentsOf(Stored(b, a, s)) == SegmentsOf(b)[a := s]
  {}

  lemma SameSegments(b: seq<byte>, c: seq<byte>)
    requires |b| == |c| == 8 && SegmentsOf(b) == SegmentsOf(c)
    ensures b == c
  {
    forall k | 0 <= k < 8 ensures b[k] == c[k] {
      assert SegmentsOf(b)[k / 2] == SegmentsOf(c)[k / 2];
    }
  }

  lemma BlankSegments(b: seq<byte>)
    requires |b| == 8
    ensures SegmentsOf(b) == BLANK <==> forall k :: 0 <= k < 8 ==> b[k] == 0
  {
    if SegmentsOf(b) == BLANK { SameSegments(b, seq(8, _ => 0)); }
  }

  /** struct rds_ps_t with the static variable of rds_g0_ps_cmp. */
  class Programme {
    const latest: array<byte>   // PS[0]
    const once: array<byte>     // PS[1]
    const twice: array<byte>    // PS[2]
    const shown: array<byte>    // PS[3]
    var addrCnt: Bits
    var prePsNum: int

    ghost predicate Valid()
      reads this
    {
      && latest.Length == once.Length == twice.Length == shown.Length == 8
      && latest != once && latest != twice && latest != shown && once != twice && once != shown && twice != shown
      && -1 <= prePsNum <= 3
    }

    ghost function View(): Ps
      requires Valid()
      reads this, latest, once, twice, shown
    {
      Ps(SegmentsOf(latest[..]), SegmentsOf(once[..]), SegmentsOf(twice[..]), SegmentsOf(shown[..]), addrCnt, prePsNum)
    }

    constructor ()
      ensures Valid() && View() == Ps(BLANK, BLANK, BLANK, BLANK, NONE, -1)
      ensures fresh({latest, once, twice, shown})
    {
      latest, once := new byte[8](_ => 0), new byte[8](_ => 0);
      twice, shown := new byte[8](_ => 0), new byte[8](_ => 0);
      addrCnt, prePsNum := NONE, -1;
    }

    static method Put(buf: array<byte>, a: nat, hi: byte, lo: byte)
      requires buf.Length == 8 && a < 4
      modifies buf
      ensures SegmentsOf(buf[..]) == SegmentsOf(old(buf[..]))[a := Segment(hi, lo)]
    {
      ghost var b := buf[..];
      buf[2 * a], buf[2 * a + 1] := hi, lo;
      assert buf[..] == Stored(b, a, Segment(hi, lo));
      StoreSegment(b, a, Segment(hi, lo));
    }

    /** The two loops of rds_g0_ps_cmp that drop the addresses missed. */
    method Drop(from: int, to: int)
      requires Valid() && 0 <= from <= to <= 4
      modifies this`addrCnt, once, twice
      ensures addrCnt == Unset(old(addrCnt), from, to)
      ensures SegmentsOf(once[..]) == Zeroed(old(SegmentsOf(once[..])), from, to)
      ensures SegmentsOf(twice[..]) == Zeroed(old(SegmentsOf(twice[..])), from, to)
    {
      ghost var o, t, b := SegmentsOf(once[..]), SegmentsOf(twice[..]), addrCnt;
      for indx := from to to
        invariant addrCnt == Unset(b, from, indx)
        invariant SegmentsOf(once[..]) == Zeroed(o, from, indx) && SegmentsOf(twice[..]) == Zeroed(t, from, indx)
      {
        addrCnt := addrCnt[indx := false];
        Put(once, indx, 0, 0);
        Put(twice, indx, 0, 0);
        ZeroedMore(o, from, indx);
        ZeroedMore(t, from, indx);
      }
    }

    method ClearBitsFrom(a: nat)
      requires a < 4
      modifies this`addrCnt
      ensures addrCnt == Unset(old(addrCnt), a, 4)
    {
      ghost var b := addrCnt;
      for indx := a to 4
        invariant addrCnt == Unset(b, a, indx)
      {
        addrCnt := addrCnt[indx := false];
      }
    }

    /** rds_g0_ps_cmp for a segment that differs from the one before. */
    method PsDiffers(a: nat)
      requires Valid() && a < 4
      modifies this`addrCnt, once, twice
      ensures Valid() && View() == Differs(old(View()), a)
    {
      ghost var p := View();
      if a - prePsNum > 1 {
        Drop(prePsNum + 1, a);
      } else if a - prePsNum < 1 {
        Drop(0, a);
      } else {
        NothingZeroed(p, a);
      }
      assert SegmentsOf(once[..])[a] == p.once[a] == Segment(once[2 * a], once[2 * a + 1]);
      if once[2 * a] != 0 || once[2 * a + 1] != 0 { ClearBitsFrom(a); }
      Put(once, a, latest[2 * a], latest[2 * a + 1]);
      assert SegmentsOf(latest[..])[a] == Segment(latest[2 * a], latest[2 * a + 1]);
    }

    /** rds_g0_ps_cmp, without RDS_CBC_DEPENDENCY */
    method PsCmp(a: nat)
      requires Valid() && a < 4
      modifies this`addrCnt, this`prePsNum, once, twice
      ensures Valid() && View() == Cmp(old(View()), a)
    {
      var hi, lo := once[2 * a], once[2 * a + 1];
      assert View().once[a] == Segment(hi, lo);
      if latest[2 * a] == hi && latest[2 * a + 1] == lo {
        Put(twice, a, hi, lo);
        addrCnt := addrCnt[a := true];
      } else {
        PsDiffers(a);
      }
      prePsNum := a;
    }

    /** How many characters of two buffers agree: num in RDS_PS_GETLEN. */
    static method Agreeing(a: array<byte>, b: array<byte>) returns (num: nat)
      requires a.Length == b.Length == 8
      ensures num == 8 <==> a[..] == b[..]
    {
      num := 0;
      for i := 0 to 8
        invariant num <= i
        invariant num == i <==> a[..i] == b[..i]
      {
        if a[i] == b[i] { num := num + 1; }
      }
    }

    static method Zeros(a: array<byte>) returns (num: nat)
      requires a.Length == 8
      ensures num == 8 <==> forall k :: 0 <= k < 8 ==> a[..][k] == 0
    {
      num := 0;
      for i := 0 to 8
        invariant num <= i
        invariant num == i <==> forall k :: 0 <= k < i ==> a[..][k] == 0
      {
        if a[i] == 0 { num := num + 1; } else { assert a[..][i] != 0; }
      }
    }

    static method Fill(a: array<byte>, v: byte)
      modifies a
      ensures forall k :: 0 <= k < a.Length ==> a[k] == v
    {
      for i := 0 to a.Length
        invariant forall k :: 0 <= k < i ==> a[k] == v
      {
        a[i] := v;
      }
    }

    method ClearBuffers()
      requires Valid()
      modifies latest, once, twice
      ensures SegmentsOf(latest[..]) == SegmentsOf(once[..]) == SegmentsOf(twice[..]) == BLANK
    {
      Fill(latest, 0);
      Fill(once, 0);
      Fill(twice, 0);
    }

    method ShowTwice()
      requires Valid()
      modifies shown
      ensures shown[..] == twice[..]
    {
      for i := 0 to 8
        invariant shown[..i] == twice[..i]
      {
        shown[i] := twice[i];
      }
    }

    /** RDS_PS_DECISION and RDS_PS_GETLEN */
    method Decision() returns (event: bool)
      requires Valid()
      modifies this`addrCnt, latest, once, twice, shown
      ensures Valid() && (View(), event) == Decide(old(View()))
    {
      event := false;
      if addrCnt != ALL { return; }
      var num := Agreeing(shown, twice);
      if SegmentsOf(shown[..]) == SegmentsOf(twice[..]) { SameSegments(shown[..], twice[..]); }
      if num != 8 {
        num := Zeros(twice);
        BlankSegments(twice[..]);
        if num != 8 {
          ShowTwice();
          event := true;
        } else {
          addrCnt := NONE;
        }
      } else {
        addrCnt := NONE;
        ClearBuffers();
      }
    }

    /** rds_retrieve_g0_ps. Its state machine is back in RDS_PS_START whenever it returns. */
    method RetrievePs(crc: nat, blkB: nat, blkD: nat) returns (event: bool)
      requires Valid() && blkD < 0x1_0000
      modifies this`addrCnt, this`prePsNum, latest, once, twice, shown
      ensures Valid()
      ensures (View(), event) == if crc % 2 == 1 then Receive(old(View()), blkB % 4, Segment(blkD / 256, blkD % 256))
                                 else (old(View()), false)
    {
      if crc % 2 != 1 { return false; }   // FM_RDS_GDBK_IND_D
      var a := blkB % 4;
      Put(latest, a, blkD / 256, blkD % 256);
      PsCmp(a);
      event := Decision();
    }
  }

  lemma ZeroedMore(s: Segments, from: int, k: int)
    requires 0 <= from <= k < 4
    ensures Zeroed(s, from, k)[k := ZERO] == Zeroed(s, from, k + 1)
  {}

  lemma NothingZeroed(p: Ps, a: nat)
    ensures Zeroed(p.once, a, a) == p.once && Zeroed(p.twice, a, a) == p.twice && Unset(p.bits, a, a) == p.bits
  {}
}
