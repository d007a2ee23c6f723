/** Radiotexts of fewer than 16 segments without an end mark. The parser of fm_rds_parser.c shows them once
    more than 80 repetitions have been counted: but then every group that is not the last clears the bit
    after its own, and the next one, setting it again, takes the count back to 80. */
module RdsRadiotextUnmarked {
  import opened Options
  import opened Words
  import opened RdsRadiotext
  import opened RdsRadiotextRounds
  import opened RdsRadiotextSent

  predicate Unmarked(w: Width, t: Text, m: nat) {
    0 < m < 16 && (forall j :: 0 <= j < m ==> 0x0D !in Seg(t, w, j)) && !AllSpaces(t[..Times(w, m)])
  }

  /** All of the text is confirmed, and nothing else; but when 81 repetitions have been counted, segment k,
      which comes next, is not. */
  ghost predicate Repeating(s: Rt, w: Width, t: Text, m: nat, ab: bool, k: nat) {
    && m < 16 && s.ab == ab && Holds(s, w, t, m) && s.display != s.twice
    && s.cnt <= (if k < m then 81 else 80)
    && forall j :: 0 <= j < 16 ==> (s.bits[j] <==> j < m && !(j == k && s.cnt == 81))
  }

  lemma Matches(s: Rt, w: Width, t: Text, m: nat, ab: bool, k: nat)
    requires k < m && Repeating(s, w, t, m, ab, k)
    ensures var c := Taken(s, w, t, ab, k);
            && c.ab == ab && c.twice == s.twice && c.display == s.display
            && c.cnt == (if s.cnt == 81 then 80 else s.cnt + 1)
            && forall j :: 0 <= j < 16 ==> (c.bits[j] <==> j < m)
  {
    SamePut(s.twice, w, k);
  }

  // the bits are exactly those of the text
  lemma FinishRepeat(c: Rt, w: Width, t: Text, m: nat, k: nat)
    requires Unmarked(w, t, m) && k < m && Holds(c, w, t, m) && c.display != c.twice && c.cnt <= 81
    requires forall j :: 0 <= j < 16 ==> (c.bits[j] <==> j < m)
    ensures var (r, event) := Finish(c, w, k);
            && (event <==> c.cnt == 81 && k == m - 1)
            && (!event ==> r == c.(bits := if c.cnt == 81 then c.bits[k + 1 := false] else c.bits))
  {
    GetPosMeans(c.bits, m - 1);
    assert !c.bits[15] && ALL[15];
    if k == m - 1 && c.cnt == 81 { HoldsNotSpaces(c, w, t, m); }
  }

  lemma HoldsNotSpaces(c: Rt, w: Width, t: Text, m: nat)
    requires Unmarked(w, t, m) && Holds(c, w, t, m)
    ensures !AllSpaces(c.twice[..Times(w, m)])
  {
    OverIs(c.twice, c.twice, w, t, m);
    assert c.twice[..Times(w, m)] == t[..Times(w, m)];
  }

  /** One more group of the text: the count goes up to 81 and back to 80 in turn. */
  lemma RepeatStep(s: Rt, w: Width, t: Text, m: nat, ab: bool, k: nat) returns (r: Rt, event: bool)
    requires Unmarked(w, t, m) && k < m && Repeating(s, w, t, m, ab, k)
    ensures (r, event) == One(s, w, t, ab, k)
    ensures event <==> s.cnt == 80 && k == m - 1
    ensures !event ==> Repeating(r, w, t, m, ab, k + 1) && r.cnt == Next(s.cnt)
  {
    var c := Taken(s, w, t, ab, k);
    Matches(s, w, t, m, ab, k);
    OneFinishes(s, w, t, ab, k);
    FinishRepeat(c, w, t, m, k);
    var x := Finish(c, w, k);
    r, event := x.0, x.1;
  }

  function Next(cnt: nat): nat { if cnt == 81 then 80 else cnt + 1 }

  function CountAfter(cnt: nat, k: nat): nat { if k == 0 then cnt else Next(CountAfter(cnt, k - 1)) }

  lemma {:induction false} CountAfterIs(cnt: nat, k: nat)
    requires cnt <= 80
    ensures CountAfter(cnt, k) == if cnt + k <= 80 then cnt + k else 80 + (cnt + k) % 2
  {
    if k > 0 { CountAfterIs(cnt, k - 1); }
  }

  lemma RepeatAt(ss: seq<Rt>, es: seq<bool>, w: Width, t: Text, m: nat, ab: bool, k: nat)
    requires Unmarked(w, t, m) && Round(ss, es, w, t, m, ab) && k < m && Repeating(ss[k], w, t, m, ab, k)
    ensures es[k] <==> ss[k].cnt == 80 && k == m - 1
    ensures !es[k] ==> Repeating(ss[k + 1], w, t, m, ab, k + 1) && ss[k + 1].cnt == Next(ss[k].cnt)
  {
    assert Took(ss, es, w, t, ab, k);
    var r, event := RepeatStep(ss[k], w, t, m, ab, k);
  }

  lemma {:induction false} RepeatSteps(ss: seq<Rt>, es: seq<bool>, w: Width, t: Text, m: nat, ab: bool, k: nat)
    requires Unmarked(w, t, m) && Round(ss, es, w, t, m, ab) && k < m
    requires Repeating(ss[0], w, t, m, ab, 0) && ss[0].cnt <= 80
    ensures Repeating(ss[k], w, t, m, ab, k) && ss[k].cnt == CountAfter(ss[0].cnt, k)
    ensures forall i :: 0 <= i < k ==> !es[i]
    decreases k
  {
    if k > 0 {
      RepeatSteps(ss, es, w, t, m, ab, k - 1);
      RepeatAt(ss, es, w, t, m, ab, k - 1);
    }
  }

  /** What a whole round comes to: it shows the text if the count passes 80 and is then odd; otherwise the
      text goes on to be repeated, with a count of at most 80. */
  ghost predicate RoundOk(s: Rt, w: Width, t: Text, m: nat, ab: bool, r: Rt, event: bool) {
    && (event <==> s.cnt + m > 80 && (s.cnt + m) % 2 == 1)
    && (!event ==> Repeating(r, w, t, m, ab, 0) && r.cnt == if s.cnt + m <= 80 then s.cnt + m else 80)
  }

  lemma LastCount(cnt: nat, m: nat, last: nat)
    requires cnt <= 80 && m > 0 && last == CountAfter(cnt, m - 1)
    ensures last == 80 <==> cnt + m > 80 && (cnt + m) % 2 == 1
    ensures last != 80 ==> Next(last) == if cnt + m <= 80 then cnt + m else 80
  {
    CountAfterIs(cnt, m - 1);
  }

  // after a round the first segment comes next
  lemma RoundEnds(r: Rt, w: Width, t: Text, m: nat, ab: bool)
    requires Repeating(r, w, t, m, ab, m)
    ensures Repeating(r, w, t, m, ab, 0) && r.cnt <= 80
  {}

  lemma RepeatRound(ss: seq<Rt>, es: seq<bool>, w: Width, t: Text, m: nat, ab: bool)
    requires Unmarked(w, t, m) && Round(ss, es, w, t, m, ab)
    requires Repeating(ss[0], w, t, m, ab, 0) && ss[0].cnt <= 80
    ensures RoundOk(ss[0], w, t, m, ab, ss[m], true in es)
  {
    RepeatSteps(ss, es, w, t, m, ab, m - 1);
    RepeatAt(ss, es, w, t, m, ab, m - 1);
    LastCount(ss[0].cnt, m, ss[m - 1].cnt);
    LastTells(es, m);
    if !es[m - 1] { RoundEnds(ss[m], w, t, m, ab); }
  }

  // ---- any number of rounds

  /** Round i is the whole text in order, in good groups, and leads from rs[i] to rs[i + 1]; bs[i] says
      whether it raised the event. */
  ghost predicate Came(rs: seq<Rt>, bs: seq<bool>, w: Width, rounds: seq<seq<Blocks>>, t: Text, m: nat, ab: bool,
                       i: nat) {
    && i < |rounds| == |bs| && |rs| == |rounds| + 1
    && Sends(w, rounds[i], t, m, ab)
    && rs[i + 1] == Received(rs[i], w, rounds[i]) && bs[i] == Announced(rs[i], w, rounds[i])
  }

  ghost predicate Rounds(rs: seq<Rt>, bs: seq<bool>, w: Width, rounds: seq<seq<Blocks>>, t: Text, m: nat, ab: bool) {
    && |bs| == |rounds| && |rs| == |rounds| + 1
    && forall i :: 0 <= i < |rounds| ==> Came(rs, bs, w, rounds, t, m, ab, i)
  }

  /** The states and events within round i. */
  lemma RoundAt(rs: seq<Rt>, bs: seq<bool>, w: Width, rounds: seq<seq<Blocks>>, t: Text, m: nat, ab: bool, i: nat)
    returns (ss: seq<Rt>, es: seq<bool>)
    requires Rounds(rs, bs, w, rounds, t, m, ab) && i < |rounds|
    ensures Round(ss, es, w, t, m, ab) && ss[0] == rs[i] && ss[m] == rs[i + 1] && (true in es <==> bs[i])
  {
    assert Came(rs, bs, w, rounds, t, m, ab, i);
    ss, es := RoundOf(rs[i], w, rounds[i], t, m, ab);
  }

  lemma RepeatsAt(rs: seq<Rt>, bs: seq<bool>, w: Width, rounds: seq<seq<Blocks>>, t: Text, m: nat, ab: bool, i: nat)
    requires Unmarked(w, t, m) && Rounds(rs, bs, w, rounds, t, m, ab) && i < |rounds|
    requires Repeating(rs[i], w, t, m, ab, 0) && rs[i].cnt <= 80
    ensures RoundOk(rs[i], w, t, m, ab, rs[i + 1], bs[i])
  {
    var ss, es := RoundAt(rs, bs, w, rounds, t, m, ab, i);
    RepeatRound(ss, es, w, t, m, ab);
  }

  lemma EvenStaysEven(s: Rt, w: Width, t: Text, m: nat, ab: bool, r: Rt, event: bool)
    requires RoundOk(s, w, t, m, ab, r, event) && m % 2 == 0 && s.cnt % 2 == 0
    ensures !event && Repeating(r, w, t, m, ab, 0) && r.cnt <= 80 && r.cnt % 2 == 0
  {}

  lemma {:induction false} NeverShown(rs: seq<Rt>, bs: seq<bool>, w: Width, rounds: seq<seq<Blocks>>, t: Text,
                                      m: nat, ab: bool, from: nat, i: nat)
    requires Unmarked(w, t, m) && Rounds(rs, bs, w, rounds, t, m, ab) && from <= i <= |rounds| && m % 2 == 0
    requires Repeating(rs[from], w, t, m, ab, 0) && rs[from].cnt <= 80 && rs[from].cnt % 2 == 0
    ensures Repeating(rs[i], w, t, m, ab, 0) && rs[i].cnt <= 80 && rs[i].cnt % 2 == 0
    ensures forall j :: from <= j < i ==> !bs[j]
    decreases i
  {
    if from < i {
      NeverShown(rs, bs, w, rounds, t, m, ab, from, i - 1);
      RepeatsAt(rs, bs, w, rounds, t, m, ab, i - 1);
      EvenStaysEven(rs[i - 1], w, t, m, ab, rs[i], bs[i - 1]);
    }
  }

  // n rounds suffice
  predicate Enough(cnt: nat, m: nat, n: nat) {
    cnt <= 80 && (m % 2 == 1 || cnt % 2 == 1) && n + cnt >= if cnt == 80 then 81 else 82
  }

  lemma EnoughLeft(s: Rt, w: Width, t: Text, m: nat, ab: bool, r: Rt, n: nat)
    requires 0 < m && RoundOk(s, w, t, m, ab, r, false) && Enough(s.cnt, m, n)
    ensures n > 1 && Repeating(r, w, t, m, ab, 0) && Enough(r.cnt, m, n - 1)
  {}

  lemma {:induction false} ShownAtLast(rs: seq<Rt>, bs: seq<bool>, w: Width, rounds: seq<seq<Blocks>>, t: Text,
                                       m: nat, ab: bool, from: nat) returns (j: nat)
    requires Unmarked(w, t, m) && Rounds(rs, bs, w, rounds, t, m, ab) && from < |rounds|
    requires Repeating(rs[from], w, t, m, ab, 0) && Enough(rs[from].cnt, m, |rounds| - from)
    ensures from <= j < |bs| && bs[j]
    decreases |rounds| - from
  {
    RepeatsAt(rs, bs, w, rounds, t, m, ab, from);
    j := from;
    if !bs[from] {
      EnoughLeft(rs[from], w, t, m, ab, rs[from + 1], |rounds| - from);
      j := ShownAtLast(rs, bs, w, rounds, t, m, ab, from + 1);
    }
  }

  // some round from there on raises the event
  predicate TrueFrom(bs: seq<bool>, from: nat) { exists j :: from <= j < |bs| && bs[j] }

  /** A text without an end mark, repeated in order, is shown exactly if the number of its segments or the
      count before is odd. With both even it is never shown, however often it comes. */
  lemma RepeatedTextShownExactly(rs: seq<Rt>, bs: seq<bool>, w: Width, rounds: seq<seq<Blocks>>, t: Text, m: nat,
                                 ab: bool, from: nat)
    requires Unmarked(w, t, m) && Rounds(rs, bs, w, rounds, t, m, ab) && from + 82 <= |rounds|
    requires Repeating(rs[from], w, t, m, ab, 0) && rs[from].cnt <= 80
    ensures TrueFrom(bs, from) <==> m % 2 == 1 || rs[from].cnt % 2 == 1
  {
    if m % 2 == 1 || rs[from].cnt % 2 == 1 {
      var j := ShownAtLast(rs, bs, w, rounds, t, m, ab, from);
    } else {
      NeverShown(rs, bs, w, rounds, t, m, ab, from, |rounds|);
    }
  }

  // ---- from the start

  ghost predicate Unlike(s: Rt, w: Width, t: Text, m: nat) {
    m < 16 && forall j :: 0 <= j < m ==> Seg(s.twice, w, j) != Seg(t, w, j)
  }

  /** Nothing is confirmed or counted, the buffers hold no segment of the text, and it is not what is shown. */
  ghost predicate Fresh(s: Rt, w: Width, t: Text, m: nat) {
    && m < 16 && s.bits == NONE && s.cnt == 0 && Unlike(s, w, t, m)
    && exists j :: 0 <= j < m && Seg(s.display, w, j) != Seg(t, w, j)
  }

  // the first k segments have come in once
  ghost predicate OnceIn(s0: Rt, s: Rt, w: Width, t: Text, m: nat, k: nat) {
    && m < 16 && s.ab == s0.ab && s.display == s0.display && s.bits == NONE && s.cnt == 0
    && forall j :: 0 <= j < m ==> Seg(s.twice, w, j) == if j < k then Seg(t, w, j) else Seg(s0.twice, w, j)
  }

  // the first k segments have come in twice
  ghost predicate TwiceIn(s0: Rt, s: Rt, w: Width, t: Text, m: nat, k: nat) {
    && m < 16 && s.ab == s0.ab && s.display == s0.display && s.cnt == 0 && Holds(s, w, t, m)
    && forall j :: 0 <= j < 16 ==> (s.bits[j] <==> j < k)
  }

  lemma NothingToDecide(c: Rt, w: Width, k: nat)
    requires k < 15 && 0x0D !in Seg(c.twice, w, k) && c.cnt == 0 && !c.bits[15]
    ensures Finish(c, w, k) == (c, false)
  {
    assert c.bits != ALL;
  }

  lemma OnceStep(s0: Rt, s: Rt, w: Width, t: Text, m: nat, k: nat) returns (r: Rt)
    requires Unmarked(w, t, m) && Unlike(s0, w, t, m) && OnceIn(s0, s, w, t, m, k) && k < m
    ensures (r, false) == One(s, w, t, s0.ab, k) && OnceIn(s0, r, w, t, m, k + 1)
  {
    r := Compare(CheckAB(s, s0.ab), w, Group(k, s0.ab, true, Seg(t, w, k)));
    forall j | 0 <= j < 16
      ensures Seg(r.twice, w, j) == if j == k then Seg(t, w, k) else Seg(s.twice, w, j)
    {
      SegOfPut(s.twice, w, k, Seg(t, w, k), j);
    }
    assert NONE[k := false] == NONE;
    NothingToDecide(r, w, k);
  }

  lemma TwiceStep(s0: Rt, s: Rt, w: Width, t: Text, m: nat, k: nat) returns (r: Rt)
    requires Unmarked(w, t, m) && TwiceIn(s0, s, w, t, m, k) && k < m
    ensures (r, false) == One(s, w, t, s0.ab, k) && TwiceIn(s0, r, w, t, m, k + 1)
  {
    r := Compare(CheckAB(s, s0.ab), w, Group(k, s0.ab, true, Seg(t, w, k)));
    SamePut(s.twice, w, k);
    NothingToDecide(r, w, k);
  }

  lemma OnceAt(s0: Rt, ss: seq<Rt>, es: seq<bool>, w: Width, t: Text, m: nat, k: nat)
    requires Unmarked(w, t, m) && Unlike(s0, w, t, m) && Round(ss, es, w, t, m, s0.ab) && k < m
    requires OnceIn(s0, ss[k], w, t, m, k)
    ensures !es[k] && OnceIn(s0, ss[k + 1], w, t, m, k + 1)
  {
    assert Took(ss, es, w, t, s0.ab, k);
    var r := OnceStep(s0, ss[k], w, t, m, k);
  }

  lemma NoneIn(s0: Rt, w: Width, t: Text, m: nat)
    requires Fresh(s0, w, t, m)
    ensures OnceIn(s0, s0, w, t, m, 0)
  {}

  lemma {:induction false} OnceRound(s0: Rt, ss: seq<Rt>, es: seq<bool>, w: Width, t: Text, m: nat, k: nat)
    requires Unmarked(w, t, m) && Round(ss, es, w, t, m, s0.ab) && OnceIn(s0, ss[0], w, t, m, 0) && k <= m
    requires Unlike(s0, w, t, m)
    ensures OnceIn(s0, ss[k], w, t, m, k) && forall i :: 0 <= i < k ==> !es[i]
    decreases k
  {
    if k > 0 {
      OnceRound(s0, ss, es, w, t, m, k - 1);
      OnceAt(s0, ss, es, w, t, m, k - 1);
    }
  }

  lemma TwiceAt(s0: Rt, ss: seq<Rt>, es: seq<bool>, w: Width, t: Text, m: nat, k: nat)
    requires Unmarked(w, t, m) && Round(ss, es, w, t, m, s0.ab) && k < m && TwiceIn(s0, ss[k], w, t, m, k)
    ensures !es[k] && TwiceIn(s0, ss[k + 1], w, t, m, k + 1)
  {
    assert Took(ss, es, w, t, s0.ab, k);
    var r := TwiceStep(s0, ss[k], w, t, m, k);
  }

  lemma {:induction false} TwiceRound(s0: Rt, ss: seq<Rt>, es: seq<bool>, w: Width, t: Text, m: nat, k: nat)
    requires Unmarked(w, t, m) && Round(ss, es, w, t, m, s0.ab) && TwiceIn(s0, ss[0], w, t, m, 0) && k <= m
    ensures TwiceIn(s0, ss[k], w, t, m, k) && forall i :: 0 <= i < k ==> !es[i]
    decreases k
  {
    if k > 0 {
      TwiceRound(s0, ss, es, w, t, m, k - 1);
      TwiceAt(s0, ss, es, w, t, m, k - 1);
    }
  }

  lemma OnceIsNext(s0: Rt, s: Rt, w: Width, t: Text, m: nat)
    requires OnceIn(s0, s, w, t, m, m)
    ensures TwiceIn(s0, s, w, t, m, 0)
  {}

  lemma TwiceInRepeats(s0: Rt, s: Rt, w: Width, t: Text, m: nat)
    requires Fresh(s0, w, t, m) && TwiceIn(s0, s, w, t, m, m)
    ensures Repeating(s, w, t, m, s0.ab, 0)
  {
    var j :| 0 <= j < m && Seg(s0.display, w, j) != Seg(t, w, j);
    assert Seg(s.twice, w, j) == Seg(t, w, j);
  }

  lemma NoEvent(es: seq<bool>)
    requires forall i :: 0 <= i < |es| ==> !es[i]
    ensures true !in es
  {}

  lemma FirstTime(rs: seq<Rt>, bs: seq<bool>, w: Width, rounds: seq<seq<Blocks>>, t: Text, m: nat)
    requires rounds != [] && |rs| > 0 && Unmarked(w, t, m) && Rounds(rs, bs, w, rounds, t, m, rs[0].ab)
    requires Fresh(rs[0], w, t, m)
    ensures !bs[0] && TwiceIn(rs[0], rs[1], w, t, m, 0)
  {
    var ss, es := RoundAt(rs, bs, w, rounds, t, m, rs[0].ab, 0);
    NoneIn(rs[0], w, t, m);
    OnceRound(rs[0], ss, es, w, t, m, m);
    OnceIsNext(rs[0], ss[m], w, t, m);
    NoEvent(es);
  }

  /** After two rounds the text goes on to be repeated, with nothing counted. */
  lemma SecondTime(rs: seq<Rt>, bs: seq<bool>, w: Width, rounds: seq<seq<Blocks>>, t: Text, m: nat)
    requires |rounds| > 1 && |rs| > 0 && Unmarked(w, t, m) && Rounds(rs, bs, w, rounds, t, m, rs[0].ab)
    requires Fresh(rs[0], w, t, m) && TwiceIn(rs[0], rs[1], w, t, m, 0)
    ensures !bs[1] && Repeating(rs[2], w, t, m, rs[0].ab, 0) && rs[2].cnt == 0
  {
    var ss, es := RoundAt(rs, bs, w, rounds, t, m, rs[0].ab, 1);
    TwiceRound(rs[0], ss, es, w, t, m, m);
    TwiceInRepeats(rs[0], ss[m], w, t, m);
    NoEvent(es);
  }

  /** Right after the buffers have been cleared, a text of m < 16 segments without an end mark, sent in order
      again and again, is shown exactly if m is odd. */
  lemma UnmarkedTextShownExactly(rs: seq<Rt>, bs: seq<bool>, w: Width, rounds: seq<seq<Blocks>>, t: Text, m: nat)
    requires |rounds| >= 84 && |rs| > 0 && Unmarked(w, t, m) && Rounds(rs, bs, w, rounds, t, m, rs[0].ab)
    requires Fresh(rs[0], w, t, m)
    ensures true in bs <==> m % 2 == 1
  {
    FirstTime(rs, bs, w, rounds, t, m);
    SecondTime(rs, bs, w, rounds, t, m);
    RepeatedTextShownExactly(rs, bs, w, rounds, t, m, rs[0].ab, 2);
    TrueSkips(bs);
  }

  lemma TrueSkips(bs: seq<bool>)
    requires |bs| >= 2 && !bs[0] && !bs[1]
    ensures true in bs <==> TrueFrom(bs, 2)
  {}
}
