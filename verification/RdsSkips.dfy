/** What one segment of the programme service name of fm_rds_parser.c changes, address by address, and that
    no name is shown with a segment that has been skipped since it came in. */
module RdsSkips {
  import opened Options
  import opened Words
  import opened RdsProgramme

  /** Segment s at address a is not the one held there, and k is an address that should have come between
      the last group and this one: after the last address, or, if that was not lower than a, from 0 on. */
  predicate Skips(p: Ps, a: nat, s: Segment, k: nat)
    requires a < 4
  {
    p.once[a] != s && k < a && (p.pre < k || p.pre >= a)
  }

  // it is neither the one held there nor the first
  predicate Replaces(p: Ps, a: nat, s: Segment)
    requires a < 4
  {
    p.once[a] != s && p.once[a] != Segment(0, 0)
  }

  /** What is held at an address. */
  datatype Held = Held(once: Segment, twice: Segment, bit: bool)

  function HeldAt(p: Ps, k: nat): Held
    requires k < 4
  {
    Held(p.once[k], p.twice[k], p.bits[k])
  }

  /** A segment s at address a, before it is decided whether to show anything: what is held at a, at the
      addresses skipped, and at the others. */
  lemma TakenMeans(p: Ps, a: nat, s: Segment, k: nat)
    requires a < 4 && k < 4
    ensures var q := Cmp(p.(latest := p.latest[a := s]), a);
            && q.pre == a && q.latest[a] == s && (k != a ==> q.latest[k] == p.latest[k]) && q.shown == p.shown
            && HeldAt(q, a) == (if p.once[a] == s then Held(s, s, true)
                                else Held(s, p.twice[a], p.bits[a] && p.once[a] == Segment(0, 0)))
            && (k != a && Skips(p, a, s, k) ==> HeldAt(q, k) == Held(Segment(0, 0), Segment(0, 0), false))
            && (k != a && !Skips(p, a, s, k) ==>
                  HeldAt(q, k) == Held(p.once[k], p.twice[k], p.bits[k] && !(Replaces(p, a, s) && k > a)))
  {}

  /** When the event is raised, and what becomes of the buffers when it is not: nothing is confirmed in all
      four addresses, or the name shown is confirmed again, or a blank one is. */
  lemma DecisionMeans(p: Ps)
    ensures var (q, event) := Decide(p);
            var all := forall k :: 0 <= k < 4 ==> p.bits[k];
            var blank := forall k :: 0 <= k < 4 ==> p.twice[k] == Segment(0, 0);
            && (event <==> all && p.shown != p.twice && !blank)
            && q.shown == (if event then p.twice else p.shown) && q.pre == p.pre
            && (forall k :: 0 <= k < 4 ==>
                  && (all && !event ==> !q.bits[k])
                  && (all && p.shown == p.twice ==>
                        HeldAt(q, k) == Held(Segment(0, 0), Segment(0, 0), false) && q.latest[k] == Segment(0, 0))
                  && (!all || p.shown != p.twice ==>
                        q.latest[k] == p.latest[k] && q.once[k] == p.once[k] && q.twice[k] == p.twice[k])
                  && (!all || event ==> q.bits[k] == p.bits[k]))
  {
    if forall k :: 0 <= k < 4 ==> p.bits[k] { assert p.bits == ALL; }
    if forall k :: 0 <= k < 4 ==> p.twice[k] == Segment(0, 0) { assert p.twice == BLANK; }
  }

  /** The last n receptions at address k brought s, and since the first of them neither has the address been
      skipped nor RDS been reset. */
  ghost predicate Unskipped(pre: int, steps: seq<Step>, k: nat, s: Segment, n: nat)
    requires ValidRun(steps)
    decreases |steps|
  {
    n == 0 ||
    (steps != [] &&
     var before, last := steps[..|steps| - 1], steps[|steps| - 1];
     last.Group? &&
     if last.addr == k then last.segment == s && Unskipped(pre, before, k, s, n - 1)
     else !Skips(Run(pre, before).0, last.addr, last.segment, k) && Unskipped(pre, before, k, s, n))
  }

  ghost predicate HeldOk(pre: int, steps: seq<Step>, k: nat, h: Held)
    requires ValidRun(steps)
  {
    && (h.once != ZERO ==> Unskipped(pre, steps, k, h.once, 1))
    && (h.bit && h.twice != ZERO ==> h.once == h.twice && Unskipped(pre, steps, k, h.twice, 2))
  }

  lemma TakeOk(pre: int, before: seq<Step>, p: Ps, a: nat, s: Segment, k: nat)
    requires ValidRun(before) && a < 4 && k < 4 && p == Run(pre, before).0 && HeldOk(pre, before, k, HeldAt(p, k))
    ensures HeldOk(pre, before + [Group(a, s)], k, HeldAt(Cmp(p.(latest := p.latest[a := s]), a), k))
  {
    TakenMeans(p, a, s, k);
    assert (before + [Group(a, s)])[..|before|] == before;
  }

  lemma {:induction false} RunHeldOk(pre: int, steps: seq<Step>, k: nat)
    requires ValidRun(steps) && k < 4
    ensures HeldOk(pre, steps, k, HeldAt(Run(pre, steps).0, k))
    decreases |steps|
  {
    if steps != [] {
      var before, last := steps[..|steps| - 1], steps[|steps| - 1];
      var p := Run(pre, before).0;
      RunHeldOk(pre, before, k);
      if last.Group? {
        TakeOk(pre, before, p, last.addr, last.segment, k);
        assert before + [last] == steps;
        DecisionMeans(Cmp(p.(latest := p.latest[last.addr := last.segment]), last.addr));
      }
    }
  }

  /** Whenever the event is raised, each non-zero segment shown is what the last two receptions at its
      address brought, and the address has not been skipped since the first of them. */
  lemma ShownWereNotSkipped(pre: int, steps: seq<Step>, k: nat)
    requires ValidRun(steps) && k < 4
    ensures var (p, _, event) := Run(pre, steps);
            event && p.shown[k] != Segment(0, 0) ==> Unskipped(pre, steps, k, p.shown[k], 2)
  {
    RunHeldOk(pre, steps, k);
    if steps != [] && steps[|steps| - 1].Group? {
      var p, last := Run(pre, steps[..|steps| - 1]).0, steps[|steps| - 1];
      DecisionMeans(Cmp(p.(latest := p.latest[last.addr := last.segment]), last.addr));
    }
  }
}
