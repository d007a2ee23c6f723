/** From the blocks of the groups that a station sends to the radiotext that fm_rds_parser.c shows. */
module RdsRadiotextSent {
  import opened Options
  import opened Words
  import opened RdsRadiotext
  import opened RdsRadiotextCode
  import opened RdsRadiotextRounds

  // ---- what a station sends

  /** Blocks B, C and D of a group of type 2, and the flags of those that passed their check. */
  datatype Blocks = Blocks(crc: nat, b: nat, c: u16, d: u16)

  type u16 = x: int | 0 <= x < 65536

  // two characters in a block
  function Pair(t: Text, i: nat): int
    requires i < 63
  {
    var hi: int, lo: int := t[i], t[i + 1];
    256 * hi + lo
  }

  /** A good group that carries segment k of text t, two characters to a block, first the high byte: four
      in blocks C and D, or two in block D. The address is in the low bits of block B, and the A/B flag next
      to it. Nothing else in the blocks matters. */
  predicate Carries(w: Width, x: Blocks, t: Text, k: nat, ab: bool)
    requires k < 16
  {
    && x.b % 16 == k && x.b / 16 % 2 == (if ab then 1 else 0)
    && if w == 4 then x.crc % 4 == 3 && x.c == Pair(t, 4 * k) && x.d == Pair(t, 4 * k + 2)
       else x.crc % 2 == 1 && x.d == Pair(t, 2 * k)
  }

  /** What rds_retrieve_g2 makes of a group. */
  function Retrieved(s: Rt, w: Width, x: Blocks): (Rt, bool) {
    Receive(s, w, GroupOf(w, x.crc, x.b, x.c, x.d))
  }

  lemma PairBytes(t: Text, i: nat)
    requires i < 63
    ensures Pair(t, i) / 256 == t[i] && Pair(t, i) % 256 == t[i + 1]
  {}

  lemma CarriedData(w: Width, x: Blocks, t: Text, k: nat, ab: bool)
    requires k < 16 && Carries(w, x, t, k, ab)
    ensures GroupOf(w, x.crc, x.b, x.c, x.d).data == Seg(t, w, k)
  {
    if w == 4 {
      PairBytes(t, 4 * k);
      PairBytes(t, 4 * k + 2);
      assert Seg(t, 4, k) == [t[4 * k], t[4 * k + 1]] + [t[4 * k + 2], t[4 * k + 3]];
    } else {
      PairBytes(t, 2 * k);
      assert Seg(t, 2, k) == [t[2 * k], t[2 * k + 1]];
    }
  }

  lemma CarriedGroup(w: Width, x: Blocks, t: Text, k: nat, ab: bool)
    requires k < 16 && Carries(w, x, t, k, ab)
    ensures GroupOf(w, x.crc, x.b, x.c, x.d) == Group(k, ab, true, Seg(t, w, k))
  {
    CarriedData(w, x, t, k, ab);
  }

  lemma CarriedOne(s: Rt, w: Width, x: Blocks, t: Text, k: nat, ab: bool)
    requires k < 16 && Carries(w, x, t, k, ab)
    ensures Retrieved(s, w, x) == One(s, w, t, ab, k)
  {
    CarriedGroup(w, x, t, k, ab);
  }

  predicate ChecksFail(w: Width, x: Blocks) { if w == 4 then x.crc % 4 != 3 else x.crc % 2 != 1 }

  /** A group with a bad block leaves the characters received alone, except that it may complete a text or
      be the second in a row with the other A/B flag: the buffers are blank then. */
  lemma BadGroupStoresNothing(s: Rt, w: Width, x: Blocks)
    requires ChecksFail(w, x)
    ensures var r := Retrieved(s, w, x).0;
            || (r.latest == s.latest && r.once == s.once && r.twice == s.twice)
            || r.latest == r.once == r.twice == SPACES
  {}

  // ---- what a station sends is what is shown

  function Received(s: Rt, w: Width, xs: seq<Blocks>): Rt
    decreases |xs|
  {
    if xs == [] then s else Retrieved(Received(s, w, xs[..|xs| - 1]), w, xs[|xs| - 1]).0
  }

  /** RDS_EVENT_LAST_RADIOTEXT is set by one of the groups. */
  predicate Announced(s: Rt, w: Width, xs: seq<Blocks>)
    decreases |xs|
  {
    xs != [] &&
    var before, last := xs[..|xs| - 1], xs[|xs| - 1];
    Announced(s, w, before) || Retrieved(Received(s, w, before), w, last).1
  }

  /** The first m segments of a text, in order, in good groups. */
  ghost predicate Sends(w: Width, xs: seq<Blocks>, t: Text, m: nat, ab: bool) {
    |xs| == m <= 16 && forall k :: 0 <= k < m ==> Carries(w, xs[k], t, k, ab)
  }

  lemma RoundLonger(ss: seq<Rt>, es: seq<bool>, w: Width, t: Text, m: nat, ab: bool, last: (Rt, bool))
    returns (ss': seq<Rt>, es': seq<bool>)
    requires 0 < m <= 16 && Round(ss, es, w, t, m - 1, ab) && last == One(ss[m - 1], w, t, ab, m - 1)
    ensures ss' == ss + [last.0] && es' == es + [last.1] && Round(ss', es', w, t, m, ab)
  {
    ss', es' := ss + [last.0], es + [last.1];
    forall i | 0 <= i < m ensures Took(ss', es', w, t, ab, i) {
      if i < m - 1 { assert Took(ss, es, w, t, ab, i); }
    }
  }

  lemma ReceivedLast(s: Rt, w: Width, xs: seq<Blocks>, q: Rt, last: (Rt, bool))
    requires xs != [] && q == Received(s, w, xs[..|xs| - 1]) && last == Retrieved(q, w, xs[|xs| - 1])
    ensures Received(s, w, xs) == last.0
    ensures Announced(s, w, xs) <==> Announced(s, w, xs[..|xs| - 1]) || last.1
  {}

  // with the last of the groups
  lemma RoundNext(s: Rt, w: Width, xs: seq<Blocks>, t: Text, m: nat, ab: bool, ss: seq<Rt>, es: seq<bool>)
    returns (last: (Rt, bool))
    requires 0 < m && Sends(w, xs, t, m, ab) && |ss| == m && ss[m - 1] == Received(s, w, xs[..m - 1])
    ensures last == One(ss[m - 1], w, t, ab, m - 1) && Received(s, w, xs) == last.0
    ensures Announced(s, w, xs) <==> Announced(s, w, xs[..m - 1]) || last.1
  {
    last := One(ss[m - 1], w, t, ab, m - 1);
    CarriedOne(ss[m - 1], w, xs[m - 1], t, m - 1, ab);
    ReceivedLast(s, w, xs, ss[m - 1], last);
  }

  lemma {:induction false} RoundOf(s: Rt, w: Width, xs: seq<Blocks>, t: Text, m: nat, ab: bool)
    returns (ss: seq<Rt>, es: seq<bool>)
    requires Sends(w, xs, t, m, ab)
    ensures Round(ss, es, w, t, m, ab) && ss[0] == s && ss[m] == Received(s, w, xs)
    ensures true in es <==> Announced(s, w, xs)
    decreases m
  {
    ss, es := [s], [];
    if m > 0 {
      ss, es := RoundOf(s, w, xs[..m - 1], t, m - 1, ab);
      var last := RoundNext(s, w, xs, t, m, ab, ss, es);
      ss, es := RoundLonger(ss, es, w, t, m, ab, last);
    }
  }

  /** A text that is complete, sent twice in order in good groups, is shown after that, whatever the buffers
      hold, as long as nothing counts as confirmed yet. It is announced once, with its length, if it was not
      shown before; and the buffers are blank then, unless they held the text before it came. */
  lemma TextIsShown(s: Rt, w: Width, t: Text, m: nat, first: seq<Blocks>, second: seq<Blocks>)
    requires Complete(w, t, m) && Sends(w, first, t, m, s.ab) && Sends(w, second, t, m, s.ab)
    requires s.bits == NONE && s.cnt + 2 * m <= 80
    ensures var r := Received(s, w, first);
            Shown(s, s.twice, w, t, m, Announced(s, w, first), Received(r, w, second), Announced(r, w, second))
  {
    var ss1, es1 := RoundOf(s, w, first, t, m, s.ab);
    var ss2, es2 := RoundOf(ss1[m], w, second, t, m, s.ab);
    TwoRounds(ss1, es1, ss2, es2, s.twice, w, t, m, s.ab);
  }

  datatype Sending = Sending(t: Text, m: nat, first: seq<Blocks>, second: seq<Blocks>)

  ghost predicate Proper(x: Sending, w: Width, ab: bool) {
    Complete(w, x.t, x.m) && Sends(w, x.first, x.t, x.m, ab) && Sends(w, x.second, x.t, x.m, ab)
  }

  function AfterTexts(s: Rt, w: Width, xs: seq<Sending>): Rt
    decreases |xs|
  {
    if xs == [] then s
    else
      var x := xs[|xs| - 1];
      Received(Received(AfterTexts(s, w, xs[..|xs| - 1]), w, x.first), w, x.second)
  }

  /** Any number of texts with the same flag, each sent twice, are shown one after the other. */
  lemma {:induction false} TextsAreShownInTurn(s: Rt, w: Width, ab: bool, xs: seq<Sending>)
    requires (forall j :: 0 <= j < |xs| ==> Proper(xs[j], w, ab)) && s.ab == ab
    requires s.twice == SPACES && s.bits == NONE && s.cnt == 0
    ensures var r := AfterTexts(s, w, xs);
            && r.ab == ab && r.twice == SPACES && r.bits == NONE && r.cnt == 0
            && (xs != [] ==> var x := xs[|xs| - 1]; Reads(r.display, x.t, Times(w, x.m), SPACES))
    decreases |xs|
  {
    if xs != [] {
      var x, before := xs[|xs| - 1], xs[..|xs| - 1];
      TextsAreShownInTurn(s, w, ab, before);
      BlankDoesNotHold(AfterTexts(s, w, before), w, x.t, x.m);
      TextIsShown(AfterTexts(s, w, before), w, x.t, x.m, x.first, x.second);
    }
  }

  /** A complete text with the other A/B flag, sent three times in order in good groups, is shown after that,
      with spaces behind it, whatever was received before. */
  lemma NewTextIsShown(s: Rt, w: Width, t: Text, m: nat, first: seq<Blocks>, second: seq<Blocks>, third: seq<Blocks>)
    requires Complete(w, t, m)
    requires Sends(w, first, t, m, !s.ab) && Sends(w, second, t, m, !s.ab) && Sends(w, third, t, m, !s.ab)
    ensures var r := Received(Received(Received(s, w, first), w, second), w, third);
            && (forall i :: 0 <= i < 64 ==> r.display[i] == if i < Times(w, m) then t[i] else 0x20)
            && r.ab != s.ab
  {
    var ss1, es1 := RoundOf(s, w, first, t, m, !s.ab);
    var ss2, es2 := RoundOf(ss1[m], w, second, t, m, !s.ab);
    var ss3, es3 := RoundOf(ss2[m], w, third, t, m, !s.ab);
    ThreeRounds(ss1, es1, ss2, es2, ss3, es3, w, t, m, !s.ab);
  }
}
