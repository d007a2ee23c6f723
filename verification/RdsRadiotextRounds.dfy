/** Rounds of a radiotext: its segments, one after the other, in good groups, and what fm_rds_parser.c has
    shown after them. */
module RdsRadiotextRounds {
  import opened Options
  import opened Words
  import opened RdsRadiotext

  /** The group that brings segment k of text t. */
  function One(s: Rt, w: Width, t: Text, ab: bool, k: nat): (Rt, bool)
    requires k < 16
  {
    Receive(s, w, Group(k, ab, true, Seg(t, w, k)))
  }

  /** Text t on top of another one: the first n characters. */
  function Over(base: Text, t: Text, n: nat): Text
    requires n <= 64
  {
    t[..n] + base[n..]
  }

  /** A text of m segments that the parser can tell to be complete: the end mark is in its last segment and
      in no other, or it has 16; and it is not blank. */
  predicate Complete(w: Width, t: Text, m: nat) {
    && 0 < m <= 16 && (m == 16 || 0x0D in Seg(t, w, m - 1))
    && (forall j :: 0 <= j < m - 1 ==> 0x0D !in Seg(t, w, j))
    && !AllSpaces(t[..Times(w, m)])
  }

  /** The first m segments are those of the text. */
  ghost predicate Holds(s: Rt, w: Width, t: Text, m: nat) {
    m <= 16 && forall j :: 0 <= j < m ==> Seg(s.twice, w, j) == Seg(t, w, j)
  }

  /** Behind them is what base holds, and only segments of the text count as confirmed. */
  ghost predicate Known(s: Rt, base: Text, w: Width, t: Text, m: nat, ab: bool) {
    && m <= 16 && s.ab == ab && s.twice[Times(w, m)..] == base[Times(w, m)..]
    && forall j :: 0 <= j < 16 && s.bits[j] ==> j < m && Seg(s.twice, w, j) == Seg(t, w, j)
  }

  // the segments from `from` on, up to k, have come in since s0, and nothing has been shown
  ghost predicate Arrived(s0: Rt, s: Rt, w: Width, t: Text, from: nat, k: nat) {
    && k <= 16 && s.display == s0.display && s.length == s0.length && s.cnt <= s0.cnt + k
    && (forall j :: from <= j < k ==> Seg(s.twice, w, j) == Seg(t, w, j))
    && (forall j :: k <= j < 16 ==> Seg(s.twice, w, j) == Seg(s0.twice, w, j))
  }

  // what the bits say if all of the text was held before, or if none of them was set
  ghost predicate BitsOk(s0: Rt, s: Rt, w: Width, t: Text, m: nat, from: nat, k: nat) {
    && (from == 0 && Holds(s0, w, t, m) ==> Holds(s, w, t, m) && forall j :: 0 <= j < k <= 16 ==> s.bits[j])
    && (s0.bits == NONE ==> forall j :: 0 <= j < 16 && s.bits[j] ==>
          from <= j && Seg(s0.twice, w, j) == Seg(t, w, j))
  }

  ghost predicate InRound(s0: Rt, s: Rt, base: Text, w: Width, t: Text, m: nat, ab: bool, from: nat, k: nat) {
    Known(s, base, w, t, m, ab) && Arrived(s0, s, w, t, from, k) && BitsOk(s0, s, w, t, m, from, k)
  }

  /** The text has just been shown, if it was not shown before, and the buffers are blank. */
  ghost predicate Done(s0: Rt, r: Rt, event: bool, p: Text, ab: bool, len: nat) {
    && r.display == p && r.latest == r.once == r.twice == SPACES && r.bits == NONE && r.cnt == 0 && r.ab == ab
    && (event <==> s0.display != p) && r.length == (if event then len else s0.length)
  }

  // ---- one group

  // the group that brings segment k, compared
  function Taken(s: Rt, w: Width, t: Text, ab: bool, k: nat): Rt
    requires k < 16
  {
    Compare(CheckAB(s, ab), w, Group(k, ab, true, Seg(t, w, k)))
  }

  lemma TakenIs(s: Rt, w: Width, t: Text, ab: bool, k: nat)
    requires k < 16 && s.ab == ab
    ensures var c := Taken(s, w, t, ab, k);
            && c.twice == PutSeg(s.twice, w, k, Seg(t, w, k)) && c.display == s.display && c.length == s.length
            && c.bits == s.bits[k := Seg(s.twice, w, k) == Seg(t, w, k)] && c.ab == ab && c.cnt <= s.cnt + 1
  {}

  lemma OneFinishes(s: Rt, w: Width, t: Text, ab: bool, k: nat)
    requires k < 16
    ensures One(s, w, t, ab, k) == Finish(Taken(s, w, t, ab, k), w, k)
  {}

  lemma Compared(s: Rt, w: Width, t: Text, ab: bool, k: nat) returns (c: Rt)
    requires k < 16 && s.ab == ab
    ensures One(s, w, t, ab, k) == Finish(c, w, k)
    ensures c.twice == PutSeg(s.twice, w, k, Seg(t, w, k)) && c.display == s.display && c.length == s.length
    ensures c.bits == s.bits[k := Seg(s.twice, w, k) == Seg(t, w, k)] && c.ab == ab && c.cnt <= s.cnt + 1
  {
    c := Taken(s, w, t, ab, k);
    TakenIs(s, w, t, ab, k);
    OneFinishes(s, w, t, ab, k);
  }

  lemma ComparedInRound(s0: Rt, s: Rt, c: Rt, base: Text, w: Width, t: Text, m: nat, ab: bool, from: nat, k: nat)
    requires InRound(s0, s, base, w, t, m, ab, from, k) && from <= k < m <= 16
    requires c.twice == PutSeg(s.twice, w, k, Seg(t, w, k)) && c.display == s.display && c.length == s.length
    requires c.bits == s.bits[k := Seg(s.twice, w, k) == Seg(t, w, k)] && c.ab == ab && c.cnt <= s.cnt + 1
    ensures InRound(s0, c, base, w, t, m, ab, from, k + 1)
  {
    forall j | 0 <= j < 16
      ensures Seg(c.twice, w, j) == if j == k then Seg(t, w, k) else Seg(s.twice, w, j)
    {
      SegOfPut(s.twice, w, k, Seg(t, w, k), j);
    }
    assert c.twice[Times(w, m)..] == s.twice[Times(w, m)..];
  }

  lemma FewerBits(s0: Rt, c: Rt, bits: Bits, base: Text, w: Width, t: Text, m: nat, ab: bool, from: nat, k: nat)
    requires InRound(s0, c, base, w, t, m, ab, from, k)
    requires forall j :: 0 <= j < 16 && bits[j] ==> c.bits[j]
    requires from == 0 && Holds(s0, w, t, m) ==> forall j :: 0 <= j < k ==> bits[j]
    ensures InRound(s0, c.(bits := bits), base, w, t, m, ab, from, k)
  {}

  /** Before the last segment nothing is shown. */
  lemma FinishEarly(c: Rt, w: Width, k: nat)
    requires k < 15 && 0x0D !in Seg(c.twice, w, k) && c.cnt <= 80
    ensures var bits := Decide(c, w, k).0;
            && Finish(c, w, k) == (c.(bits := bits), false)
            && (forall j :: 0 <= j < 16 && bits[j] ==> c.bits[j])
            && (forall j :: 0 <= j <= k ==> bits[j] == c.bits[j])
  {
    if c.bits == ALL { GetPosMeans(c.bits, 15); }
  }

  /** The last segment completes the text, if all of it is confirmed. */
  lemma FinishLast(c: Rt, w: Width, t: Text, m: nat)
    requires Complete(w, t, m) && Seg(c.twice, w, m - 1) == Seg(t, w, m - 1)
    requires forall j :: 0 <= j < 16 ==> (c.bits[j] <==> j < m)
    ensures Finish(c, w, m - 1) == Show(c.(bits := Decide(c, w, m - 1).0), Times(w, m))
  {
    GetPosMeans(c.bits, m - 1);
    if m == 16 { assert c.bits == ALL; }
  }

  /** Otherwise it is not shown. */
  lemma FinishIncomplete(c: Rt, w: Width, m: nat)
    requires 0 < m <= 16 && exists j :: 0 <= j < m && !c.bits[j]
    ensures var bits := Decide(c, w, m - 1).0;
            && Finish(c, w, m - 1) == (c.(bits := bits), false)
            && forall j :: 0 <= j < 16 && bits[j] ==> c.bits[j]
  {
    GetPosMeans(c.bits, m - 1);
  }

  lemma OverIs(twice: Text, base: Text, w: Width, t: Text, m: nat)
    requires m <= 16 && twice[Times(w, m)..] == base[Times(w, m)..]
    requires forall j :: 0 <= j < m ==> Seg(twice, w, j) == Seg(t, w, j)
    ensures twice == Over(base, t, Times(w, m))
  {
    var p := Over(base, t, Times(w, m));
    forall i | 0 <= i < 64 ensures twice[i] == p[i] {
      if i < Times(w, m) {
        var j := i / w;
        assert Seg(twice, w, j)[i - Times(w, j)] == Seg(t, w, j)[i - Times(w, j)];
      } else {
        assert twice[Times(w, m)..][i - Times(w, m)] == base[Times(w, m)..][i - Times(w, m)];
      }
    }
  }

  lemma ShowDone(s0: Rt, c: Rt, base: Text, w: Width, t: Text, m: nat)
    requires Complete(w, t, m) && c.twice == Over(base, t, Times(w, m))
    requires c.display == s0.display && c.length == s0.length
    ensures var (r, event) := Show(c, Times(w, m)); Done(s0, r, event, c.twice, c.ab, Times(w, m))
  {
    assert c.twice[..Times(w, m)] == t[..Times(w, m)];
  }

  // ---- a round

  lemma EarlyStep(s0: Rt, s: Rt, base: Text, w: Width, t: Text, m: nat, ab: bool, from: nat, k: nat)
    returns (r: Rt)
    requires Complete(w, t, m) && InRound(s0, s, base, w, t, m, ab, from, k) && from <= k < m - 1
    requires s0.cnt + m <= 81
    ensures (r, false) == One(s, w, t, ab, k) && InRound(s0, r, base, w, t, m, ab, from, k + 1)
  {
    var c := Compared(s, w, t, ab, k);
    ComparedInRound(s0, s, c, base, w, t, m, ab, from, k);
    SegOfPut(s.twice, w, k, Seg(t, w, k), k);
    FinishEarly(c, w, k);
    r := c.(bits := Decide(c, w, k).0);
    FewerBits(s0, c, r.bits, base, w, t, m, ab, from, k + 1);
  }

  // all segments are confirmed once the last one has been compared
  ghost predicate AllConfirmed(s: Rt, w: Width, t: Text, m: nat) {
    0 < m <= 16 && Seg(s.twice, w, m - 1) == Seg(t, w, m - 1) && forall j :: 0 <= j < m - 1 ==> s.bits[j]
  }

  lemma LastCompared(s0: Rt, s: Rt, base: Text, w: Width, t: Text, m: nat, ab: bool, from: nat) returns (c: Rt)
    requires Complete(w, t, m) && InRound(s0, s, base, w, t, m, ab, from, m - 1) && from < m
    ensures One(s, w, t, ab, m - 1) == Finish(c, w, m - 1)
    ensures InRound(s0, c, base, w, t, m, ab, from, m)
    ensures AllConfirmed(s, w, t, m) <==> forall j :: 0 <= j < m ==> c.bits[j]
  {
    c := Compared(s, w, t, ab, m - 1);
    ComparedInRound(s0, s, c, base, w, t, m, ab, from, m - 1);
    LastBits(s, c, w, t, m);
  }

  // the last segment of the text has been compared
  lemma LastShows(s0: Rt, c: Rt, base: Text, w: Width, t: Text, m: nat, ab: bool, from: nat)
    requires Complete(w, t, m) && InRound(s0, c, base, w, t, m, ab, from, m) && from < m && s0.cnt + m <= 80
    requires forall j :: 0 <= j < m ==> c.bits[j]
    ensures var (r, event) := Finish(c, w, m - 1); Done(s0, r, event, Over(base, t, Times(w, m)), ab, Times(w, m))
  {
    FinishLast(c, w, t, m);
    OverIs(c.twice, base, w, t, m);
    ShowDone(s0, c.(bits := Decide(c, w, m - 1).0), base, w, t, m);
  }

  lemma LastWaits(s0: Rt, c: Rt, base: Text, w: Width, t: Text, m: nat, ab: bool, from: nat)
    requires Complete(w, t, m) && InRound(s0, c, base, w, t, m, ab, from, m) && from < m && s0.cnt + m <= 80
    requires !forall j :: 0 <= j < m ==> c.bits[j]
    ensures var (r, event) := Finish(c, w, m - 1); !event && InRound(s0, r, base, w, t, m, ab, from, m)
  {
    FinishIncomplete(c, w, m);
    FewerBits(s0, c, Decide(c, w, m - 1).0, base, w, t, m, ab, from, m);
  }

  lemma LastGroup(s0: Rt, s: Rt, base: Text, w: Width, t: Text, m: nat, ab: bool, from: nat)
    requires Complete(w, t, m) && InRound(s0, s, base, w, t, m, ab, from, m - 1) && from < m
    requires s0.cnt + m <= 80
    ensures var (r, event) := One(s, w, t, ab, m - 1);
            if AllConfirmed(s, w, t, m) then Done(s0, r, event, Over(base, t, Times(w, m)), ab, Times(w, m))
            else !event && InRound(s0, r, base, w, t, m, ab, from, m)
  {
    var c := LastCompared(s0, s, base, w, t, m, ab, from);
    if AllConfirmed(s, w, t, m) { LastShows(s0, c, base, w, t, m, ab, from); }
    else { LastWaits(s0, c, base, w, t, m, ab, from); }
  }

  lemma LastBits(s: Rt, c: Rt, w: Width, t: Text, m: nat)
    requires 0 < m <= 16 && c.bits == s.bits[m - 1 := Seg(s.twice, w, m - 1) == Seg(t, w, m - 1)]
    ensures AllConfirmed(s, w, t, m) <==> forall j :: 0 <= j < m ==> c.bits[j]
  {
    if forall j :: 0 <= j < m ==> c.bits[j] {
      forall j | 0 <= j < m - 1 ensures s.bits[j] { assert c.bits[j]; }
      assert c.bits[m - 1];
    }
  }

  lemma ConfirmedWasHeld(s0: Rt, s: Rt, base: Text, w: Width, t: Text, m: nat, ab: bool, from: nat)
    requires from < m && InRound(s0, s, base, w, t, m, ab, from, m - 1)
    requires s0.bits == NONE && AllConfirmed(s, w, t, m)
    ensures from == 0 && Holds(s0, w, t, m)
  {
    assert m > 1 ==> s.bits[0];
  }

  lemma HeldIsConfirmed(s0: Rt, s: Rt, base: Text, w: Width, t: Text, m: nat, ab: bool)
    requires 0 < m && InRound(s0, s, base, w, t, m, ab, 0, m - 1) && Holds(s0, w, t, m)
    ensures AllConfirmed(s, w, t, m)
  {}

  lemma BlankHoldsSpaces(w: Width, t: Text, m: nat)
    requires m <= 16 && forall j :: 0 <= j < m ==> Seg(SPACES, w, j) == Seg(t, w, j)
    ensures AllSpaces(t[..Times(w, m)])
  {
    OverIs(SPACES, SPACES, w, t, m);
    assert t[..Times(w, m)] == Over(SPACES, t, Times(w, m))[..Times(w, m)];
  }

  lemma BlankDoesNotHold(s: Rt, w: Width, t: Text, m: nat)
    requires Complete(w, t, m) && s.twice == SPACES
    ensures !Holds(s, w, t, m)
  {
    if Holds(s, w, t, m) { BlankHoldsSpaces(w, t, m); }
  }

  // ---- a round, state by state

  /** ss[i + 1] is the state after segment i, and es[i] whether it raised the event. */
  ghost predicate Took(ss: seq<Rt>, es: seq<bool>, w: Width, t: Text, ab: bool, i: nat) {
    i < |es| <= 16 && |ss| == |es| + 1 && (ss[i + 1], es[i]) == One(ss[i], w, t, ab, i)
  }

  ghost predicate Round(ss: seq<Rt>, es: seq<bool>, w: Width, t: Text, m: nat, ab: bool) {
    |es| == m <= 16 && |ss| == m + 1 && forall i :: 0 <= i < m ==> Took(ss, es, w, t, ab, i)
  }

  lemma EarlyAt(ss: seq<Rt>, es: seq<bool>, s0: Rt, base: Text, w: Width, t: Text, m: nat, ab: bool, from: nat,
                k: nat)
    requires Complete(w, t, m) && Round(ss, es, w, t, m, ab) && from <= k < m - 1 && s0.cnt + m <= 81
    requires InRound(s0, ss[k], base, w, t, m, ab, from, k)
    ensures !es[k] && InRound(s0, ss[k + 1], base, w, t, m, ab, from, k + 1)
  {
    assert Took(ss, es, w, t, ab, k);
    var r := EarlyStep(s0, ss[k], base, w, t, m, ab, from, k);
  }

  lemma {:induction false} EarlySteps(ss: seq<Rt>, es: seq<bool>, s0: Rt, base: Text, w: Width, t: Text, m: nat,
                                      ab: bool, from: nat, j: nat, k: nat)
    requires Complete(w, t, m) && Round(ss, es, w, t, m, ab) && from <= j <= k < m && s0.cnt + m <= 81
    requires InRound(s0, ss[j], base, w, t, m, ab, from, j)
    ensures InRound(s0, ss[k], base, w, t, m, ab, from, k) && forall i :: j <= i < k ==> !es[i]
    decreases k
  {
    if j < k {
      EarlySteps(ss, es, s0, base, w, t, m, ab, from, j, k - 1);
      EarlyAt(ss, es, s0, base, w, t, m, ab, from, k - 1);
    }
  }

  lemma LastAt(ss: seq<Rt>, es: seq<bool>, s0: Rt, base: Text, w: Width, t: Text, m: nat, ab: bool, from: nat)
    requires Complete(w, t, m) && Round(ss, es, w, t, m, ab) && from < m && s0.cnt + m <= 80
    requires InRound(s0, ss[m - 1], base, w, t, m, ab, from, m - 1)
    ensures if AllConfirmed(ss[m - 1], w, t, m) then
              Done(s0, ss[m], es[m - 1], Over(base, t, Times(w, m)), ab, Times(w, m))
            else !es[m - 1] && InRound(s0, ss[m], base, w, t, m, ab, from, m)
  {
    assert Took(ss, es, w, t, ab, m - 1);
    LastGroup(s0, ss[m - 1], base, w, t, m, ab, from);
  }

  lemma NoneYet(s0: Rt, base: Text, w: Width, t: Text, m: nat, ab: bool, from: nat)
    requires from <= 16 && Known(s0, base, w, t, m, ab)
    ensures InRound(s0, s0, base, w, t, m, ab, from, from)
  {
    assert Arrived(s0, s0, w, t, from, from);
  }

  lemma LastTells(es: seq<bool>, m: nat)
    requires |es| == m > 0 && forall i :: 0 <= i < m - 1 ==> !es[i]
    ensures true in es <==> es[m - 1]
  {}

  /** What a round comes to: the text is shown, or it has arrived. It is shown if it was held before, and it
      is not if nothing was confirmed before. */
  lemma RoundOver(ss: seq<Rt>, es: seq<bool>, base: Text, w: Width, t: Text, m: nat, ab: bool)
    returns (shown: bool)
    requires Complete(w, t, m) && Round(ss, es, w, t, m, ab)
    requires Known(ss[0], base, w, t, m, ab) && ss[0].cnt + m <= 80
    ensures if shown then Done(ss[0], ss[m], true in es, Over(base, t, Times(w, m)), ab, Times(w, m))
            else true !in es && InRound(ss[0], ss[m], base, w, t, m, ab, 0, m)
    ensures Holds(ss[0], w, t, m) ==> shown
    ensures ss[0].bits == NONE && shown ==> Holds(ss[0], w, t, m)
  {
    NoneYet(ss[0], base, w, t, m, ab, 0);
    EarlySteps(ss, es, ss[0], base, w, t, m, ab, 0, 0, m - 1);
    shown := AllConfirmed(ss[m - 1], w, t, m);
    if ss[0].bits == NONE && shown { ConfirmedWasHeld(ss[0], ss[m - 1], base, w, t, m, ab, 0); }
    if Holds(ss[0], w, t, m) { HeldIsConfirmed(ss[0], ss[m - 1], base, w, t, m, ab); }
    LastAt(ss, es, ss[0], base, w, t, m, ab, 0);
    LastTells(es, m);
  }

  /** A round that begins with blank buffers shows nothing. */
  lemma QuietRound(ss: seq<Rt>, es: seq<bool>, w: Width, t: Text, m: nat, ab: bool)
    requires Complete(w, t, m) && Round(ss, es, w, t, m, ab)
    requires ss[0].twice == SPACES && ss[0].bits == NONE && ss[0].cnt == 0 && ss[0].ab == ab
    ensures true !in es && ss[m].display == ss[0].display && ss[m].length == ss[0].length && ss[m].ab == ab
  {
    BlankDoesNotHold(ss[0], w, t, m);
    var shown := RoundOver(ss, es, SPACES, w, t, m, ab);
  }

  /** From s to r the text comes twice, and is shown. e1 and e2 say whether its first and its second round
      raised the event. */
  ghost predicate Shown(s: Rt, base: Text, w: Width, t: Text, m: nat, e1: bool, r: Rt, e2: bool) {
    && m <= 16 && Reads(r.display, t, Times(w, m), base) && r.ab == s.ab
    && (e1 || e2 <==> r.display != s.display)
    && r.length == (if r.display != s.display then Times(w, m) else s.length)
    && (s.bits == NONE && !Holds(s, w, t, m) ==> !e1 && r.twice == SPACES && r.bits == NONE && r.cnt == 0)
  }

  /** The first n characters are those of t, and the others those of base. */
  ghost predicate Reads(display: Text, t: Text, n: nat, base: Text) {
    forall i :: 0 <= i < 64 ==> display[i] == if i < n then t[i] else base[i]
  }

  lemma ReadsIsOver(display: Text, t: Text, n: nat, base: Text)
    requires n <= 64
    ensures Reads(display, t, n, base) <==> display == Over(base, t, n)
  {
    var over := Over(base, t, n);
    forall i | 0 <= i < 64 ensures over[i] == if i < n then t[i] else base[i] {}
  }

  lemma TwoRounds(ss1: seq<Rt>, es1: seq<bool>, ss2: seq<Rt>, es2: seq<bool>, base: Text, w: Width, t: Text, m: nat,
                  ab: bool)
    requires Complete(w, t, m) && Round(ss1, es1, w, t, m, ab) && Round(ss2, es2, w, t, m, ab) && ss2[0] == ss1[m]
    requires Known(ss1[0], base, w, t, m, ab) && ss1[0].cnt + 2 * m <= 80
    ensures Shown(ss1[0], base, w, t, m, true in es1, ss2[m], true in es2)
  {
    var shown := RoundOver(ss1, es1, base, w, t, m, ab);
    if shown {
      QuietRound(ss2, es2, w, t, m, ab);
    } else {
      assert Holds(ss1[m], w, t, m);
      var shown2 := RoundOver(ss2, es2, base, w, t, m, ab);
    }
    ReadsIsOver(ss2[m].display, t, Times(w, m), base);
  }

  // ---- the A/B flag

  // blank buffers and the new flag
  function Anew(s: Rt, ab: bool): Rt { Blanked(s).(ab := ab, dirty := false) }

  lemma FlagChanges(s: Rt, w: Width, t: Text, ab: bool, k: nat)
    requires k < 16 && s.ab != ab && s.dirty
    ensures One(s, w, t, ab, k) == One(Anew(s, ab), w, t, ab, k)
  {
    assert CheckAB(s, ab) == CheckAB(Anew(s, ab), ab);
  }

  lemma FinishKeepsFlag(c: Rt, w: Width, k: nat)
    requires k < 16
    ensures var r := Finish(c, w, k).0; r.ab == c.ab && r.dirty == c.dirty
  {}

  lemma FlagNoticed(s: Rt, w: Width, t: Text, ab: bool, k: nat)
    requires k < 16 && s.ab != ab && !s.dirty
    ensures var r := One(s, w, t, ab, k).0; r.ab == s.ab && r.dirty
  {
    OneFinishes(s, w, t, ab, k);
    FinishKeepsFlag(Taken(s, w, t, ab, k), w, k);
  }

  lemma NotConfirmed(s0: Rt, s: Rt, w: Width, t: Text, m: nat, ab: bool, from: nat)
    requires Complete(w, t, m) && s0.twice == SPACES && s0.bits == NONE
    requires from < m && InRound(s0, s, SPACES, w, t, m, ab, from, m - 1)
    ensures !AllConfirmed(s, w, t, m)
  {
    BlankDoesNotHold(s0, w, t, m);
    if AllConfirmed(s, w, t, m) { ConfirmedWasHeld(s0, s, SPACES, w, t, m, ab, from); }
  }

  /** The group that brings the new flag for the second time in a row, at `from`, starts anew. */
  lemma StartsAnew(ss: seq<Rt>, es: seq<bool>, s0: Rt, w: Width, t: Text, m: nat, ab: bool, from: nat)
    requires Complete(w, t, m) && Round(ss, es, w, t, m, ab) && from < m
    requires ss[from].ab != ab && ss[from].dirty && s0 == Anew(ss[from], ab)
    ensures (ss[from + 1], es[from]) == One(s0, w, t, ab, from)
    ensures InRound(s0, s0, SPACES, w, t, m, ab, from, from)
  {
    assert Took(ss, es, w, t, ab, from);
    FlagChanges(ss[from], w, t, ab, from);
    NoneYet(s0, SPACES, w, t, m, ab, from);
  }

  lemma AnewStep(ss: seq<Rt>, es: seq<bool>, s0: Rt, w: Width, t: Text, m: nat, ab: bool, from: nat)
    requires Complete(w, t, m) && Round(ss, es, w, t, m, ab) && from < m - 1
    requires ss[from].ab != ab && ss[from].dirty && s0 == Anew(ss[from], ab)
    ensures InRound(s0, ss[from + 1], SPACES, w, t, m, ab, from, from + 1)
  {
    StartsAnew(ss, es, s0, w, t, m, ab, from);
    var r := EarlyStep(s0, s0, SPACES, w, t, m, ab, from, from);
  }

  lemma EndsAnew(ss: seq<Rt>, es: seq<bool>, s0: Rt, w: Width, t: Text, m: nat, ab: bool, from: nat)
    requires Complete(w, t, m) && Round(ss, es, w, t, m, ab) && from < m - 1
    requires s0.twice == SPACES && s0.bits == NONE && s0.cnt == 0
    requires InRound(s0, ss[from + 1], SPACES, w, t, m, ab, from, from + 1)
    ensures InRound(s0, ss[m], SPACES, w, t, m, ab, from, m)
  {
    EarlySteps(ss, es, s0, SPACES, w, t, m, ab, from, from + 1, m - 1);
    NotConfirmed(s0, ss[m - 1], w, t, m, ab, from);
    LastAt(ss, es, s0, SPACES, w, t, m, ab, from);
  }

  lemma AnewAtEnd(ss: seq<Rt>, es: seq<bool>, s0: Rt, w: Width, t: Text, m: nat, ab: bool, from: nat)
    requires Complete(w, t, m) && Round(ss, es, w, t, m, ab) && from == m - 1
    requires ss[from].ab != ab && ss[from].dirty && s0 == Anew(ss[from], ab)
    ensures InRound(s0, ss[m], SPACES, w, t, m, ab, from, m)
  {
    StartsAnew(ss, es, s0, w, t, m, ab, from);
    NotConfirmed(s0, s0, w, t, m, ab, from);
    LastGroup(s0, s0, SPACES, w, t, m, ab, from);
  }

  lemma FlagRound(ss: seq<Rt>, es: seq<bool>, w: Width, t: Text, m: nat, ab: bool, from: nat)
    requires Complete(w, t, m) && Round(ss, es, w, t, m, ab) && from < m
    requires ss[from].ab != ab && ss[from].dirty
    ensures Known(ss[m], SPACES, w, t, m, ab) && ss[m].cnt <= m && (from == 0 ==> Holds(ss[m], w, t, m))
  {
    var s0 := Anew(ss[from], ab);
    if from < m - 1 {
      AnewStep(ss, es, s0, w, t, m, ab, from);
      EndsAnew(ss, es, s0, w, t, m, ab, from);
    } else {
      AnewAtEnd(ss, es, s0, w, t, m, ab, from);
    }
  }

  /** The first round with a new flag clears the buffers, at its first or its second group. */
  lemma FirstRound(ss: seq<Rt>, es: seq<bool>, w: Width, t: Text, m: nat, ab: bool)
    requires Complete(w, t, m) && Round(ss, es, w, t, m, ab) && ss[0].ab != ab && (ss[0].dirty || m > 1)
    ensures Known(ss[m], SPACES, w, t, m, ab) && ss[m].cnt <= m && (ss[0].dirty ==> Holds(ss[m], w, t, m))
  {
    if ss[0].dirty {
      FlagRound(ss, es, w, t, m, ab, 0);
    } else {
      assert Took(ss, es, w, t, ab, 0);
      FlagNoticed(ss[0], w, t, ab, 0);
      FlagRound(ss, es, w, t, m, ab, 1);
    }
  }

  /** A single segment takes one round more. */
  lemma OnlySegment(ss: seq<Rt>, es: seq<bool>, w: Width, t: Text, ab: bool)
    requires Round(ss, es, w, t, 1, ab) && ss[0].ab != ab && !ss[0].dirty
    ensures ss[1].ab != ab && ss[1].dirty
  {
    assert Took(ss, es, w, t, ab, 0);
    FlagNoticed(ss[0], w, t, ab, 0);
  }

  /** With a new flag, the text is shown after three rounds. */
  lemma ThreeRounds(ss1: seq<Rt>, es1: seq<bool>, ss2: seq<Rt>, es2: seq<bool>, ss3: seq<Rt>, es3: seq<bool>,
                    w: Width, t: Text, m: nat, ab: bool)
    requires Complete(w, t, m) && Round(ss1, es1, w, t, m, ab) && ss1[0].ab != ab
    requires Round(ss2, es2, w, t, m, ab) && ss2[0] == ss1[m]
    requires Round(ss3, es3, w, t, m, ab) && ss3[0] == ss2[m]
    ensures ss3[m].ab == ab && Reads(ss3[m].display, t, Times(w, m), SPACES)
  {
    if ss1[0].dirty || m > 1 {
      FirstRound(ss1, es1, w, t, m, ab);
      TwoRounds(ss2, es2, ss3, es3, SPACES, w, t, m, ab);
    } else {
      OnlySegment(ss1, es1, w, t, ab);
      FirstRound(ss2, es2, w, t, m, ab);
      var shown := RoundOver(ss3, es3, SPACES, w, t, m, ab);
      ReadsIsOver(ss3[m].display, t, Times(w, m), SPACES);
    }
  }
}
