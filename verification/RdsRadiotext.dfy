/** Radiotext of fm_rds_parser.c (rds_g2_txtAB_get, rds_g2_rt_get, rds_g2_rt_cmp, rds_bm_*,
    rds_g2_rt_check_end, rds_retrieve_g2, without RDS_CBC_DEPENDENCY): up to 64 characters that arrive
    in 16 segments, of four characters in type A groups and of two in type B groups. */
module RdsRadiotext {
  import opened Options
  import opened Words

  function Repeat<T>(x: T, n: nat): (r: seq<T>)
    ensures |r| == n && forall i :: 0 <= i < n ==> r[i] == x
  {
    seq(n, _ => x)
  }

  type Width = w: int | w == 2 || w == 4 witness 4

  /** n segments of this width. */
  function Times(w: Width, n: nat): nat { if w == 2 then 2 * n else 4 * n }

  const SIZE := 64

  type Text = t: seq<byte> | |t| == SIZE witness Repeat(0, SIZE)

  /** Addr_Cnt, and bm of the static bitmap while a group is being handled. */
  type Bits = b: seq<bool> | |b| == 16 witness Repeat(false, 16)

  const NONE: Bits := Repeat(false, 16)
  const ALL: Bits := Repeat(true, 16)

  const SPACE: byte := 0x20
  const END: byte := 0x0D

  const SPACES: Text := Repeat(SPACE, SIZE)

  const RDS_RT_MULTI_REV_TH := 80

  /** A segment of a text, and the text with another one in its place. */
  function Seg(t: Text, w: Width, a: nat): (s: seq<byte>)
    requires a < 16
    ensures |s| == w
  {
    t[Times(w, a)..Times(w, a) + w]
  }

  function PutSeg(t: Text, w: Width, a: nat, s: seq<byte>): Text
    requires a < 16 && |s| == w
  {
    t[..Times(w, a)] + s + t[Times(w, a) + w..]
  }

  lemma SegOfPut(t: Text, w: Width, a: nat, s: seq<byte>, b: nat)
    requires a < 16 && b < 16 && |s| == w
    ensures Seg(PutSeg(t, w, a, s), w, b) == if a == b then s else Seg(t, w, b)
  {}

  /** A group of type 2. good: the blocks its type carries text in passed their check. */
  datatype Group = Group(addr: nat, ab: bool, good: bool, data: seq<byte>)

  predicate ValidGroup(w: Width, g: Group) { g.addr < 16 && |g.data| == w }

  /** TextData[0] to [3], TextLength, Addr_Cnt, Text_AB, and the statics rt_bm.cnt and once_dirty. */
  datatype Rt = Rt(latest: Text, once: Text, twice: Text, display: Text, length: nat,
                   bits: Bits, cnt: nat, ab: bool, dirty: bool)

  function Blanked(s: Rt): Rt {
    Rt(SPACES, SPACES, SPACES, s.display, s.length, NONE, 0, s.ab, s.dirty)
  }

  /** rds_g2_txtAB_get: the flag has changed when two groups in a row say so. */
  predicate Changes(s: Rt, ab: bool) { s.ab != ab && s.dirty }

  function CheckAB(s: Rt, ab: bool): Rt {
    if Changes(s, ab) then Blanked(s).(ab := ab, dirty := false) else s.(dirty := s.ab != ab)
  }

  /** rds_g2_rt_get, rds_g2_rt_cmp, and rds_bm_set. */
  function Compare(s: Rt, w: Width, g: Group): Rt
    requires ValidGroup(w, g)
  {
    if !g.good then s
    else
      var a := g.addr;
      var stored := s.(latest := PutSeg(s.latest, w, a, g.data), once := PutSeg(s.once, w, a, g.data),
                       twice := PutSeg(s.twice, w, a, g.data));
      if Seg(s.twice, w, a) != g.data then stored.(bits := s.bits[a := false])
      else stored.(bits := s.bits[a := true],
                   cnt := if s.bits[a] then s.cnt + 1 else if s.cnt > 0 then s.cnt - 1 else 0)
  }

  /** The highest bit set, or -1. */
  function Highest(b: Bits, i: int): (r: int)
    requires -1 <= i < 16
    ensures -1 <= r <= i
  {
    if i < 0 || b[i] then i else Highest(b, i - 1)
  }

  predicate AllSet(b: Bits, i: int)
    requires i < 16
  {
    i < 0 || (b[i] && AllSet(b, i - 1))
  }

  /** rds_bm_get_pos with FM_RDS_USE_SOLUTION_B */
  function GetPos(b: Bits): (r: int)
    ensures -1 <= r < 16
  {
    var i := Highest(b, 15);
    if AllSet(b, i) then i else -1
  }

  function Unset(b: Bits, from: int, to: int): Bits {
    seq(16, k requires 0 <= k < 16 => b[k] && !(from <= k < to))
  }

  /** RDS_RT_DECISION: the bits it leaves, and the length if a text is complete. */
  function Decide(s: Rt, w: Width, a: nat): (Bits, Option<nat>)
    requires a < 16
  {
    var end := END in Seg(s.twice, w, a);
    if end || s.bits == ALL || s.cnt > RDS_RT_MULTI_REV_TH then
      var pos := GetPos(s.bits);
      var bits := if pos > a then s.bits[a + 1 := false] else s.bits;
      (if end then Unset(bits, a + 1, 15) else bits, if pos == a then Some(Times(w, pos + 1)) else None)
    else (s.bits, None)
  }

  predicate AllSpaces(t: seq<byte>) { forall k :: 0 <= k < |t| ==> t[k] == SPACE }

  /** RDS_RT_GETLEN; true when RDS_EVENT_LAST_RADIOTEXT is set. */
  function Show(s: Rt, len: nat): (Rt, bool)
    requires len <= SIZE
  {
    if AllSpaces(s.twice[..len]) then (s, false)
    else if s.display == s.twice then (Blanked(s), false)
    else (Blanked(s).(display := s.twice, length := len), true)
  }

  /** The rest of rds_retrieve_g2 once group a has been compared. */
  function Finish(c: Rt, w: Width, a: nat): (Rt, bool)
    requires a < 16
  {
    var (bits, len) := Decide(c, w, a);
    match len
    case None => (c.(bits := bits), false)
    case Some(n) => Show(c.(bits := bits), n)
  }

  /** rds_retrieve_g2 */
  function Receive(s: Rt, w: Width, g: Group): (Rt, bool)
    requires ValidGroup(w, g)
  {
    Finish(Compare(CheckAB(s, g.ab), w, g), w, g.addr)
  }

  // ---- what was received

  datatype Reception = Reception(addr: nat, data: seq<byte>)

  /** Good groups since the buffers were last cleared, and what clearing left in them. */
  datatype Heard = Heard(hist: seq<Reception>, base: Text)

  /** What an address holds: the last reception there, or what clearing left. */
  function Content(hist: seq<Reception>, base: Text, w: Width, a: nat): seq<byte>
    requires a < 16
  {
    if hist == [] then Seg(base, w, a)
    else if hist[|hist| - 1].addr == a then hist[|hist| - 1].data
    else Content(hist[..|hist| - 1], base, w, a)
  }

  /** The last reception at the address brought what the address already held. */
  predicate Matched(hist: seq<Reception>, base: Text, w: Width, a: nat)
    requires a < 16
  {
    hist != [] &&
    var before := hist[..|hist| - 1];
    if hist[|hist| - 1].addr == a then hist[|hist| - 1].data == Content(before, base, w, a)
    else Matched(before, base, w, a)
  }

  ghost predicate Inv(s: Rt, w: Width, h: Heard) {
    forall a :: 0 <= a < 16 ==>
      && Seg(s.twice, w, a) == Content(h.hist, h.base, w, a)
      && (s.bits[a] ==> Matched(h.hist, h.base, w, a))
  }

  function AfterAB(s: Rt, h: Heard, g: Group): Heard { if Changes(s, g.ab) then Heard([], SPACES) else h }

  /** What has been received when the decision about group g is made. */
  function AfterGroup(s: Rt, h: Heard, g: Group): Heard {
    var h1 := AfterAB(s, h, g);
    if g.good then h1.(hist := h1.hist + [Reception(g.addr, g.data)]) else h1
  }

  lemma BlankedInv(s: Rt, w: Width)
    ensures Inv(Blanked(s), w, Heard([], SPACES))
  {}

  lemma CompareInv(s: Rt, w: Width, h: Heard, g: Group)
    requires Inv(s, w, h) && ValidGroup(w, g)
    ensures Inv(Compare(s, w, g), w, if g.good then h.(hist := h.hist + [Reception(g.addr, g.data)]) else h)
  {
    if g.good {
      var c, hist := Compare(s, w, g), h.hist + [Reception(g.addr, g.data)];
      assert hist[..|hist| - 1] == h.hist;
      forall a | 0 <= a < 16
        ensures Seg(c.twice, w, a) == Content(hist, h.base, w, a)
        ensures c.bits[a] ==> Matched(hist, h.base, w, a)
      {
        SegOfPut(s.twice, w, g.addr, g.data, a);
        assert Seg(s.twice, w, a) == Content(h.hist, h.base, w, a);
      }
    }
  }

  // ---- the bitmap

  lemma {:induction false} AllSetMeans(b: Bits, i: int)
    requires i < 16
    ensures AllSet(b, i) <==> forall k :: 0 <= k <= i ==> b[k]
    decreases i + 1
  {
    if i >= 0 { AllSetMeans(b, i - 1); }
  }

  lemma {:induction false} HighestMeans(b: Bits, i: int)
    requires -1 <= i < 16
    ensures var r := Highest(b, i); (r >= 0 ==> b[r]) && forall k :: r < k <= i ==> !b[k]
    decreases i + 1
  {
    if i >= 0 && !b[i] { HighestMeans(b, i - 1); }
  }

  /** rds_bm_get_pos finds exactly the gap-free prefixes: the bits up to pos are set and no others. */
  lemma GetPosMeans(b: Bits, pos: nat)
    requires pos < 16
    ensures GetPos(b) == pos <==> forall k :: 0 <= k < 16 ==> (b[k] <==> k <= pos)
  {
    HighestMeans(b, 15);
    AllSetMeans(b, Highest(b, 15));
    if forall k :: 0 <= k < 16 ==> (b[k] <==> k <= pos) {
      assert b[pos];
      assert Highest(b, 15) == pos;
    }
  }

  // ---- every group keeps the invariant

  /** A complete text that is not blank: the buffers are cleared. */
  predicate Clears(c: Rt, w: Width, a: nat)
    requires a < 16
  {
    match Decide(c, w, a).1
    case None => false
    case Some(n) => !AllSpaces(c.twice[..n])
  }

  function NextHeard(s: Rt, w: Width, h: Heard, g: Group): Heard
    requires ValidGroup(w, g)
  {
    if Clears(Compare(CheckAB(s, g.ab), w, g), w, g.addr) then Heard([], SPACES) else AfterGroup(s, h, g)
  }

  lemma AfterGroupInv(s: Rt, w: Width, h: Heard, g: Group)
    requires Inv(s, w, h) && ValidGroup(w, g)
    ensures Inv(Compare(CheckAB(s, g.ab), w, g), w, AfterGroup(s, h, g))
  {
    BlankedInv(s, w);
    CompareInv(CheckAB(s, g.ab), w, AfterAB(s, h, g), g);
  }

  lemma FewerBitsInv(s: Rt, w: Width, h: Heard, bits: Bits)
    requires Inv(s, w, h) && forall k :: 0 <= k < 16 && bits[k] ==> s.bits[k]
    ensures Inv(s.(bits := bits), w, h)
  {}

  lemma FinishInv(c: Rt, w: Width, h: Heard, a: nat)
    requires Inv(c, w, h) && a < 16
    ensures Inv(Finish(c, w, a).0, w, if Clears(c, w, a) then Heard([], SPACES) else h)
  {
    var bits := Decide(c, w, a).0;
    FewerBitsInv(c, w, h, bits);
    BlankedInv(c.(bits := bits), w);
    if Clears(c, w, a) { assert Inv(Finish(c, w, a).0, w, Heard([], SPACES)); }
  }

  lemma ReceiveInv(s: Rt, w: Width, h: Heard, g: Group)
    requires Inv(s, w, h) && ValidGroup(w, g)
    ensures Inv(Receive(s, w, g).0, w, NextHeard(s, w, h, g))
  {
    AfterGroupInv(s, w, h, g);
    FinishInv(Compare(CheckAB(s, g.ab), w, g), w, AfterGroup(s, h, g), g.addr);
  }

  /** All addresses up to a are confirmed, and this is what they hold. */
  ghost predicate Confirmed(t: Text, w: Width, h: Heard, a: nat) {
    a < 16 && forall k :: 0 <= k <= a ==>
      Matched(h.hist, h.base, w, k) && Seg(t, w, k) == Content(h.hist, h.base, w, k)
  }

  lemma BitsConfirm(c: Rt, w: Width, h: Heard, a: nat)
    requires Inv(c, w, h) && GetPos(c.bits) == a
    ensures Confirmed(c.twice, w, h, a)
  {
    GetPosMeans(c.bits, a);
  }

  lemma FinishShows(c: Rt, w: Width, a: nat)
    requires a < 16
    ensures var (s', event) := Finish(c, w, a);
            if event then
              && GetPos(c.bits) == a && s'.length == Times(w, a + 1) && s'.display == c.twice != c.display
              && !AllSpaces(s'.display[..s'.length])
            else s'.display == c.display && s'.length == c.length
  {}

  lemma FinishConfirmed(c: Rt, w: Width, h: Heard, a: nat)
    requires Inv(c, w, h) && a < 16
    ensures var (s', event) := Finish(c, w, a);
            if event then
              && s'.length == Times(w, a + 1) && s'.display == c.twice != c.display
              && !AllSpaces(s'.display[..s'.length]) && Confirmed(s'.display, w, h, a)
            else s'.display == c.display && s'.length == c.length
  {
    FinishShows(c, w, a);
    if Finish(c, w, a).1 { BitsConfirm(c, w, h, a); }
  }

  lemma EventConfirmed(s: Rt, w: Width, h: Heard, g: Group)
    requires Inv(s, w, h) && ValidGroup(w, g)
    ensures var (s', event) := Receive(s, w, g);
            if event then
              && s'.length == Times(w, g.addr + 1)
              && s'.display != s.display && !AllSpaces(s'.display[..s'.length])
              && Confirmed(s'.display, w, AfterGroup(s, h, g), g.addr)
            else s'.display == s.display && s'.length == s.length
  {
    var c := Compare(CheckAB(s, g.ab), w, g);
    assert c.display == s.display && c.length == s.length;
    AfterGroupInv(s, w, h, g);
    FinishConfirmed(c, w, AfterGroup(s, h, g), g.addr);
  }

  // ---- over whole runs

  /** A group, or the RDS data set anew: when tuning, or when RDS is switched on. */
  datatype Step = Hear(group: Group) | Reset(fill: byte)

  ghost predicate ValidRun(w: Width, steps: seq<Step>) {
    forall k :: 0 <= k < |steps| && steps[k].Hear? ==> ValidGroup(w, steps[k].group)
  }

  function AfterReset(s: Rt, fill: byte): Rt {
    var t := Repeat(fill, SIZE);
    Rt(t, t, t, t, 0, NONE, s.cnt, false, s.dirty)
  }

  ghost function Run(w: Width, start: Rt, steps: seq<Step>): (Rt, Heard)
    requires ValidRun(w, steps)
    decreases |steps|
  {
    if steps == [] then (start, Heard([], start.twice))
    else
      var (s, h) := Run(w, start, steps[..|steps| - 1]);
      match steps[|steps| - 1]
      case Hear(g) => (Receive(s, w, g).0, NextHeard(s, w, h, g))
      case Reset(fill) => (AfterReset(s, fill), Heard([], Repeat(fill, SIZE)))
  }

  lemma {:induction false} RunInv(w: Width, start: Rt, steps: seq<Step>)
    requires ValidRun(w, steps) && start.bits == NONE
    ensures var (s, h) := Run(w, start, steps); Inv(s, w, h)
    decreases |steps|
  {
    if steps != [] {
      RunInv(w, start, steps[..|steps| - 1]);
      var (s, h) := Run(w, start, steps[..|steps| - 1]);
      match steps[|steps| - 1]
      case Hear(g) => ReceiveInv(s, w, h, g);
      case Reset(fill) =>
    }
  }

  /** On every run of one group type, when a group makes the parser raise the event with length L: the
      text shown has changed and is not blank, L is the width times the segments up to the group's own
      address, and each of those was confirmed: the last reception there brought what the address held,
      and it is what is shown. Without the event, text and length stay. */
  lemma TextMeansConfirmed(w: Width, start: Rt, steps: seq<Step>, g: Group)
    requires ValidRun(w, steps) && start.bits == NONE && ValidGroup(w, g)
    ensures var (s, h) := Run(w, start, steps);
            var (s', event) := Receive(s, w, g);
            if event then
              && s'.length == Times(w, g.addr + 1)
              && s'.display != s.display && !AllSpaces(s'.display[..s'.length])
              && Confirmed(s'.display, w, AfterGroup(s, h, g), g.addr)
            else s'.display == s.display && s'.length == s.length
  {
    RunInv(w, start, steps);
    var (s, h) := Run(w, start, steps);
    EventConfirmed(s, w, h, g);
  }

  // ---- the end mark, and the bit that clearing misses

  /** A segment with the end mark that repeats what its address holds, with all before it confirmed. */
  ghost predicate EndRepeats(s: Rt, w: Width, g: Group) {
    && ValidGroup(w, g) && g.good && END in g.data && g.ab == s.ab
    && Seg(s.twice, w, g.addr) == g.data
    && s.display != s.twice
    && forall k :: 0 <= k < g.addr ==> s.bits[k]
  }

  lemma EndNotSpaces(t: Text, w: Width, a: nat)
    requires a < 16 && END in Seg(t, w, a)
    ensures !AllSpaces(t[..Times(w, a + 1)])
  {
    var i :| 0 <= i < w && Seg(t, w, a)[i] == END;
    assert t[..Times(w, a + 1)][Times(w, a) + i] == END;
  }

  lemma SamePut(t: Text, w: Width, a: nat)
    requires a < 16
    ensures PutSeg(t, w, a, Seg(t, w, a)) == t
  {}

  /** Such a group leaves the text as it is and sets its bit. */
  lemma EndCompared(s: Rt, w: Width, g: Group)
    requires EndRepeats(s, w, g)
    ensures var c := Compare(CheckAB(s, g.ab), w, g);
            && c.twice == s.twice && c.display == s.display && c.ab == s.ab
            && c.bits == s.bits[g.addr := true]
  {
    SamePut(s.twice, w, g.addr);
  }

  ghost predicate NoneAbove(b: Bits, a: nat) { forall k :: a < k < 16 ==> !b[k] }

  lemma NoneAboveSame(b: Bits, a: nat)
    requires a < 16
    ensures NoneAbove(b[a := true], a) <==> NoneAbove(b, a)
  {
    var c: Bits := b[a := true];
    forall k | a < k < 16 ensures c[k] == b[k] {}
  }

  // the end mark with gap-free bits up to a: shown if there are no others, which otherwise are cleared
  lemma EndFinished(c: Rt, w: Width, a: nat)
    requires a < 16 && END in Seg(c.twice, w, a) && c.display != c.twice
    requires forall k :: 0 <= k <= a ==> c.bits[k]
    ensures var (s', event) := Finish(c, w, a);
            if NoneAbove(c.bits, a) then event
            else
              && !event && s'.twice == c.twice && s'.display == c.display && s'.ab == c.ab
              && (forall k :: 0 <= k <= a ==> s'.bits[k])
              && (forall k :: a < k < 15 ==> !s'.bits[k])
              && (a < 15 ==> (s'.bits[15] <==> c.bits[15] && a < 14))
  {
    GetPosMeans(c.bits, a);
    if NoneAbove(c.bits, a) {
      EndNotSpaces(c.twice, w, a);
    } else if a == 14 {
      GetPosMeans(c.bits, 15);
    }
  }

  /** What such a group does: the text is shown if no bit above is set; otherwise the bits above are
      cleared, up to 14. */
  lemma EndStep(s: Rt, w: Width, g: Group)
    requires EndRepeats(s, w, g)
    ensures var (s', event) := Receive(s, w, g);
            var a := g.addr;
            if NoneAbove(s.bits, a) then event
            else
              && !event && EndRepeats(s', w, g) && s'.bits[a]
              && (forall k :: a < k < 15 ==> !s'.bits[k])
              && (a < 15 ==> (s'.bits[15] <==> s.bits[15] && a < 14))
  {
    var a, c := g.addr, Compare(CheckAB(s, g.ab), w, g);
    EndCompared(s, w, g);
    EndFinished(c, w, a);
    NoneAboveSame(s.bits, a);
  }

  /** The same group n times in a row: does one of them raise the event? */
  ghost predicate Raises(s: Rt, w: Width, g: Group, n: nat)
    requires ValidGroup(w, g)
    decreases n
  {
    n > 0 && (Receive(s, w, g).1 || Raises(Receive(s, w, g).0, w, g, n - 1))
  }

  lemma {:induction false} StuckForever(s: Rt, w: Width, g: Group, n: nat)
    requires EndRepeats(s, w, g) && g.addr < 14 && s.bits[15]
    ensures !Raises(s, w, g, n)
    decreases n
  {
    if n > 0 {
      EndStep(s, w, g);
      StuckForever(Receive(s, w, g).0, w, g, n - 1);
    }
  }

  /** A confirmed text with its end mark is shown after at most two receptions of its last segment, or
      never however often that comes: never exactly if bit 15 is left over from a longer text. The loop
      at the end mark clears the bits up to 14 only, and a gap below bit 15 makes rds_bm_get_pos fail. */
  lemma EndMarkShowsUnlessBit15(s: Rt, w: Width, g: Group, n: nat)
    requires EndRepeats(s, w, g) && n >= 2
    ensures Raises(s, w, g, n) <==> g.addr >= 14 || !s.bits[15]
  {
    if g.addr < 14 && s.bits[15] {
      StuckForever(s, w, g, n);
    } else {
      EndStep(s, w, g);
      var s' := Receive(s, w, g).0;
      if !Receive(s, w, g).1 {
        EndStep(s', w, g);
        assert Raises(s', w, g, n - 1);
      }
    }
  }

  const AAAA: seq<byte> := [0x41, 0x41, 0x41, 0x41]
  const BC_END: seq<byte> := [0x42, 0x43, END, SPACE]

  /** The first segments of a text of 16 segments are missed, and a short text follows: from a reset on,
      segment 15 comes twice and then segment 0 with an end mark. */
  function ShortAfterLong(s: Rt): Rt {
    var long := Group(15, false, true, AAAA);
    Receive(Receive(Receive(AfterReset(s, 0), 4, long).0, 4, long).0, 4, Group(0, false, true, BC_END)).0
  }

  lemma NoEndInGap(c: Rt)
    requires Seg(c.twice, 4, 15) == AAAA && !c.bits[0]
    ensures Finish(c, 4, 15) == (c, false)
  {
    assert !AllSet(c.bits, 15) by {
      if AllSet(c.bits, 15) { AllSetMeans(c.bits, 15); }
    }
    GetPosMeans(c.bits, 15);
    assert c.bits != ALL;
  }

  lemma LongTwice(s: Rt)
    ensures var g := Group(15, false, true, AAAA);
            var r := Receive(Receive(AfterReset(s, 0), 4, g).0, 4, g).0;
            && r.twice == PutSeg(Repeat(0, SIZE), 4, 15, AAAA) && r.display == Repeat(0, SIZE)
            && !r.ab && r.bits == NONE[15 := true]
  {
    var g := Group(15, false, true, AAAA);
    var s0 := AfterReset(s, 0);
    var c1 := Compare(CheckAB(s0, false), 4, g);
    SegOfPut(s0.twice, 4, 15, AAAA, 15);
    assert Seg(s0.twice, 4, 15)[0] == 0;
    NoEndInGap(c1);
    assert c1.bits == NONE;
    var c2 := Compare(CheckAB(c1, false), 4, g);
    SamePut(c1.twice, 4, 15);
    NoEndInGap(c2);
  }

  lemma EndInGap(c: Rt)
    requires END in Seg(c.twice, 4, 0) && !c.bits[0]
    ensures Finish(c, 4, 0) == (c.(bits := Unset(c.bits, 1, 15)), false)
  {
    var pos := GetPos(c.bits);
    if pos >= 0 { GetPosMeans(c.bits, pos); }
  }

  lemma ShortOnce(s: Rt, g: Group)
    requires g == Group(0, false, true, BC_END) && !s.ab && s.bits == NONE[15 := true]
    requires s.display == Repeat(0, SIZE) && Seg(s.twice, 4, 0) != BC_END
    ensures var r := Receive(s, 4, g).0; EndRepeats(r, 4, g) && r.bits[15]
  {
    var c := Compare(CheckAB(s, false), 4, g);
    SegOfPut(s.twice, 4, 0, BC_END, 0);
    assert BC_END[2] == END;
    assert c.bits == NONE[15 := true];
    EndInGap(c);
    assert c.twice[0] == Seg(c.twice, 4, 0)[0] == 0x42;
  }

  /** Such a bit 15 does occur: the short text is confirmed, repeated, and never shown. */
  lemma ShortTextStuck(s: Rt, n: nat)
    ensures var r, g := ShortAfterLong(s), Group(0, false, true, BC_END);
            EndRepeats(r, 4, g) && r.bits[15] && !Raises(r, 4, g, n)
  {
    var long, g := Group(15, false, true, AAAA), Group(0, false, true, BC_END);
    var s2 := Receive(Receive(AfterReset(s, 0), 4, long).0, 4, long).0;
    LongTwice(s);
    assert Seg(s2.twice, 4, 0)[0] == 0;
    ShortOnce(s2, g);
    StuckForever(ShortAfterLong(s), 4, g, n);
  }

  // ---- texts without an end mark

  /** A segment without end mark that repeats what its address holds, with exactly the bits up to it set. */
  ghost predicate LastRepeats(s: Rt, w: Width, g: Group) {
    && ValidGroup(w, g) && g.good && END !in g.data && g.ab == s.ab
    && Seg(s.twice, w, g.addr) == g.data
    && s.display != s.twice && !AllSpaces(s.twice[..Times(w, g.addr + 1)])
    && forall k :: 0 <= k < 16 ==> (s.bits[k] <==> k <= g.addr)
  }

  lemma LastFinished(c: Rt, w: Width, a: nat)
    requires a < 16 && END !in Seg(c.twice, w, a) && c.display != c.twice && !AllSpaces(c.twice[..Times(w, a + 1)])
    requires forall k :: 0 <= k < 16 ==> (c.bits[k] <==> k <= a)
    ensures var (s', event) := Finish(c, w, a);
            && (event <==> a == 15 || c.cnt > RDS_RT_MULTI_REV_TH)
            && (!event ==> s' == c)
  {
    GetPosMeans(c.bits, a);
    assert c.bits == ALL <==> a == 15 by {
      if a < 15 { assert !c.bits[15] && ALL[15]; }
    }
  }

  lemma LastStep(s: Rt, w: Width, g: Group)
    requires LastRepeats(s, w, g)
    ensures var (s', event) := Receive(s, w, g);
            && (event <==> g.addr == 15 || s.cnt + 1 > RDS_RT_MULTI_REV_TH)
            && (!event ==> LastRepeats(s', w, g) && s'.cnt == s.cnt + 1)
  {
    var c := Compare(CheckAB(s, g.ab), w, g);
    SamePut(s.twice, w, g.addr);
    assert c.twice == s.twice && c.display == s.display && c.ab == s.ab && c.cnt == s.cnt + 1;
    assert c.bits == s.bits;
    LastFinished(c, w, g.addr);
  }

  /** A gap-free text without end mark is shown when its last segment has been repeated until more than
      80 repetitions have been counted in all, and not before; a text of 16 segments at once. */
  lemma {:induction false} RepeatsShow(s: Rt, w: Width, g: Group, n: nat)
    requires LastRepeats(s, w, g)
    ensures Raises(s, w, g, n) <==> n > 0 && (g.addr == 15 || s.cnt + n > RDS_RT_MULTI_REV_TH)
    decreases n
  {
    if n > 0 {
      LastStep(s, w, g);
      var (s', event) := Receive(s, w, g);
      if !event { RepeatsShow(s', w, g, n - 1); }
    }
  }
}
