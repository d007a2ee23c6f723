/** A programme service name that keeps coming in is shown, whatever was received before. */
module RdsConvergence {
  import opened Words
  import opened RdsProgramme

  /** The last `rest` segments of a name, in order. */
  function Last(p: Ps, name: Segments, rest: nat): Ps
    requires rest <= 4
    decreases rest
  {
    if rest == 0 then p else Last(Receive(p, 4 - rest, name[4 - rest]).0, name, rest - 1)
  }

  function Round(p: Ps, name: Segments): Ps { Last(p, name, |name|) }

  /** ps[i] is the state after i rounds. */
  ghost predicate Rounds(ps: seq<Ps>, name: Segments) {
    forall i :: 0 < i < |ps| ==> ps[i] == Round(ps[i - 1], name)
  }

  ghost predicate Proper(name: Segments) { forall a :: 0 <= a < 4 ==> name[a] != ZERO }

  // the last group had the address before k
  predicate InOrder(p: Ps, k: nat) { -1 <= p.pre <= 3 && (k == 0 || p.pre == k - 1) }

  /** The part of the name before k has been received once. */
  ghost predicate Collected(p: Ps, name: Segments, k: nat) {
    InOrder(p, k) && forall j :: 0 <= j < 4 && j < k ==> p.once[j] == name[j]
  }

  /** The buffers were cleared after address m of this round. */
  ghost predicate Restarted(p: Ps, name: Segments, m: nat, k: nat) {
    && InOrder(p, k) && m < k && m < 4 && p.bits == NONE && p.twice == BLANK
    && forall j :: 0 <= j < 4 ==> p.once[j] == if m < j < k then name[j] else ZERO
  }

  /** ... and this is the round after that. */
  ghost predicate Resumed(p: Ps, name: Segments, m: nat, k: nat) {
    && InOrder(p, k) && m < 4
    && forall j :: 0 <= j < 4 ==>
         && p.once[j] == (if j < k || j > m then name[j] else ZERO)
         && (p.bits[j] <==> m < j < k)
         && (p.bits[j] ==> p.twice[j] == name[j])
  }

  /** The whole name has been received once, the part before k twice. */
  ghost predicate Repeating(p: Ps, name: Segments, k: nat) {
    InOrder(p, k) && p.once == name && forall j :: 0 <= j < 4 && j < k ==> p.bits[j] && p.twice[j] == name[j]
  }

  /** Only segments of this name count as confirmed. */
  ghost predicate Clean(p: Ps, name: Segments) {
    forall j :: 0 <= j < 4 && p.bits[j] ==> p.twice[j] == name[j]
  }

  ghost predicate Settled(p: Ps, name: Segments) { -1 <= p.pre <= 3 && p.shown == name && Clean(p, name) }

  lemma CollectStep(p: Ps, name: Segments, k: nat)
    requires Collected(p, name, k) && k < 4
    ensures var q := Receive(p, k, name[k]).0; Collected(q, name, k + 1) || Restarted(q, name, k, k + 1)
  {}

  lemma RestartStep(p: Ps, name: Segments, m: nat, k: nat)
    requires Proper(name) && Restarted(p, name, m, k) && k < 4
    ensures Restarted(Receive(p, k, name[k]).0, name, m, k + 1)
  {
    var q := Cmp(p.(latest := p.latest[k := name[k]]), k);
    assert p.once[k] == ZERO;
    assert q.bits == NONE && q.twice == BLANK;
  }

  lemma ResumeStep(p: Ps, name: Segments, m: nat, k: nat)
    requires Proper(name) && Resumed(p, name, m, k) && k < 4
    ensures Resumed(Receive(p, k, name[k]).0, name, m, k + 1)
  {
    var q := Cmp(p.(latest := p.latest[k := name[k]]), k);
    assert !q.bits[0];
  }

  lemma RepeatStep(p: Ps, name: Segments, k: nat)
    requires Proper(name) && Repeating(p, name, k) && k < 4
    ensures var q := Receive(p, k, name[k]).0;
            || (Repeating(q, name, k + 1) && (k == 3 ==> Settled(q, name)))
            || Restarted(q, name, k, k + 1)
  {
    var q := Cmp(p.(latest := p.latest[k := name[k]]), k);
    assert q.twice[k] == name[k] && q.twice != BLANK;
    if k == 3 { assert q.twice == name; }
  }

  lemma CleanStep(p: Ps, name: Segments, k: nat)
    requires Proper(name) && Repeating(p, name, k) && Clean(p, name) && k < 4
    ensures var q := Receive(p, k, name[k]).0; Settled(q, name) || (Repeating(q, name, k + 1) && Clean(q, name))
  {
    var q := Cmp(p.(latest := p.latest[k := name[k]]), k);
    assert q.twice[k] == name[k] && q.twice != BLANK;
    if q.bits == ALL {
      forall j | 0 <= j < 4 ensures q.twice[j] == name[j] { assert q.bits[j]; }
      assert q.twice == name;
    }
  }

  lemma SettledStep(p: Ps, name: Segments, k: nat)
    requires Settled(p, name) && k < 4
    ensures Settled(Receive(p, k, name[k]).0, name)
  {
    var q := Cmp(p.(latest := p.latest[k := name[k]]), k);
    assert Clean(q, name);
    if q.bits == ALL {
      forall j | 0 <= j < 4 ensures q.twice[j] == name[j] { assert q.bits[j]; }
      assert q.twice == name;
    }
  }

  // ---- rounds

  lemma {:induction false} RestartRound(p: Ps, name: Segments, m: nat, rest: nat)
    requires Proper(name) && rest <= 4 && Restarted(p, name, m, 4 - rest)
    ensures Restarted(Last(p, name, rest), name, m, 4)
    decreases rest
  {
    if rest > 0 {
      RestartStep(p, name, m, 4 - rest);
      RestartRound(Receive(p, 4 - rest, name[4 - rest]).0, name, m, rest - 1);
    }
  }

  lemma {:induction false} CollectRound(p: Ps, name: Segments, rest: nat)
    requires Proper(name) && rest <= 4 && Collected(p, name, 4 - rest)
    ensures var q := Last(p, name, rest); Repeating(q, name, 0) || exists m :: Restarted(q, name, m, 4)
    decreases rest
  {
    if rest == 0 {
      assert p.once == name;
    } else {
      var k := 4 - rest;
      var q := Receive(p, k, name[k]).0;
      CollectStep(p, name, k);
      if Restarted(q, name, k, k + 1) { RestartRound(q, name, k, rest - 1); }
      else { CollectRound(q, name, rest - 1); }
    }
  }

  lemma {:induction false} ResumeRound(p: Ps, name: Segments, m: nat, rest: nat)
    requires Proper(name) && rest <= 4 && Resumed(p, name, m, 4 - rest)
    ensures var q := Last(p, name, rest); Repeating(q, name, 0) && Clean(q, name)
    decreases rest
  {
    if rest == 0 {
      assert p.once == name;
    } else {
      ResumeStep(p, name, m, 4 - rest);
      ResumeRound(Receive(p, 4 - rest, name[4 - rest]).0, name, m, rest - 1);
    }
  }

  lemma {:induction false} RepeatRound(p: Ps, name: Segments, rest: nat)
    requires Proper(name) && 0 < rest <= 4 && Repeating(p, name, 4 - rest)
    ensures var q := Last(p, name, rest); Settled(q, name) || exists m :: Restarted(q, name, m, 4)
    decreases rest
  {
    var k := 4 - rest;
    var q := Receive(p, k, name[k]).0;
    RepeatStep(p, name, k);
    if Restarted(q, name, k, k + 1) { RestartRound(q, name, k, rest - 1); }
    else if rest > 1 { RepeatRound(q, name, rest - 1); }
    else { assert Last(q, name, rest - 1) == q; }
  }

  lemma {:induction false} CleanRound(p: Ps, name: Segments, rest: nat)
    requires Proper(name) && rest <= 4 && Repeating(p, name, 4 - rest) && Clean(p, name)
    requires rest == 0 ==> Settled(p, name)
    ensures Settled(Last(p, name, rest), name)
    decreases rest
  {
    if rest > 0 {
      var q := Receive(p, 4 - rest, name[4 - rest]).0;
      CleanStep(p, name, 4 - rest);
      if Settled(q, name) { SettledRound(q, name, rest - 1); }
      else { CleanRound(q, name, rest - 1); }
    }
  }

  lemma {:induction false} SettledRound(p: Ps, name: Segments, rest: nat)
    requires Settled(p, name) && rest <= 4
    ensures Settled(Last(p, name, rest), name)
    decreases rest
  {
    if rest > 0 {
      SettledStep(p, name, 4 - rest);
      SettledRound(Receive(p, 4 - rest, name[4 - rest]).0, name, rest - 1);
    }
  }

  /** Two rounds after the buffers were cleared the name is settled. */
  lemma RestartedSettles(p: Ps, name: Segments, m: nat)
    requires Proper(name) && Restarted(p, name, m, 4)
    ensures Settled(Round(Round(p, name), name), name)
  {
    assert Resumed(p, name, m, 0);
    ResumeRound(p, name, m, |name|);
    CleanRound(Round(p, name), name, |name|);
  }

  /** Four rounds settle the name. */
  lemma FourRoundsSettle(p: Ps, p1: Ps, p2: Ps, p3: Ps, p4: Ps, name: Segments)
    requires Proper(name) && -1 <= p.pre <= 3
    requires p1 == Round(p, name) && p2 == Round(p1, name) && p3 == Round(p2, name) && p4 == Round(p3, name)
    ensures Settled(p4, name)
  {
    assert Collected(p, name, 0);
    CollectRound(p, name, |name|);
    if Repeating(p1, name, 0) {
      RepeatRound(p1, name, |name|);
      if Settled(p2, name) {
        SettledRound(p2, name, |name|);
        SettledRound(p3, name, |name|);
      } else {
        var m :| Restarted(p2, name, m, 4);
        RestartedSettles(p2, name, m);
      }
    } else {
      var m :| Restarted(p1, name, m, 4);
      RestartedSettles(p1, name, m);
      SettledRound(p3, name, |name|);
    }
  }

  /** Whatever state the parser is in: once a name, none of its segments zero, has come in four times
      without a bad block D, it is shown, and stays so for as long as it keeps coming in. */
  lemma {:induction false} NameGetsShown(ps: seq<Ps>, name: Segments, n: nat)
    requires Proper(name) && Rounds(ps, name) && 4 <= n < |ps| && -1 <= ps[0].pre <= 3
    ensures ps[n].shown == name
    ensures Settled(ps[n], name)
    decreases n
  {
    if n == 4 {
      FourRoundsSettle(ps[0], ps[1], ps[2], ps[3], ps[4], name);
    } else {
      NameGetsShown(ps, name, n - 1);
      SettledRound(ps[n - 1], name, |name|);
    }
  }
}
