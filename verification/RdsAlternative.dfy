/** The list of alternative frequencies of fm_rds_parser.c: the part of rds_retrieve_g0_af that collects
    more than one frequency, sorts them and waits until the list has come in twice. */
module RdsAlternative {
  import opened Words

  const AF_SIZE := 25

  /** Two frequencies that arrived in one group: entries 2i-1 and 2i of the buffer, for i from 1. */
  datatype Pair = Pair(h: int, l: int)

  predicate Leq(p: Pair, q: Pair) { p.h < q.h || (p.h == q.h && p.l <= q.l) }

  function Pairs(s: seq<int>, n: nat): (r: seq<Pair>)
    requires 2 * n < |s|
    ensures |r| == n
  {
    seq(n, i requires 0 <= i < n => Pair(s[2 * i + 1], s[2 * i + 2]))
  }

  predicate Sorted(ps: seq<Pair>) { forall i, j :: 0 <= i < j < |ps| ==> Leq(ps[i], ps[j]) }

  function Swapped(ps: seq<Pair>, i: nat, j: nat): (r: seq<Pair>)
    requires i < |ps| && j < |ps|
    ensures |r| == |ps|
  {
    ps[i := ps[j]][j := ps[i]]
  }

  lemma SwapPermutes(ps: seq<Pair>, i: nat, j: nat)
    requires i < |ps| && j < |ps|
    ensures multiset(Swapped(ps, i, j)) == multiset(ps)
  {}

  /** Positions before i are final; no later pair is below them. */
  ghost predicate SortedUpTo(ps: seq<Pair>, i: nat) {
    i <= |ps| && forall j, k :: 0 <= j < i && j < k < |ps| ==> Leq(ps[j], ps[k])
  }

  /** The pair at i is no greater than those behind it, up to j. */
  ghost predicate LeastUpTo(ps: seq<Pair>, i: nat, j: nat) {
    i < j <= |ps| && forall k :: i < k < j ==> Leq(ps[i], ps[k])
  }

  /** One comparison of the exchange sort. */
  function Exchanged(ps: seq<Pair>, i: nat, j: nat): (r: seq<Pair>)
    requires i < |ps| && j < |ps|
    ensures |r| == |ps|
  {
    if Leq(ps[i], ps[j]) then ps else Swapped(ps, i, j)
  }

  lemma ExchangeStep(ps: seq<Pair>, i: nat, j: nat)
    requires SortedUpTo(ps, i) && LeastUpTo(ps, i, j) && j < |ps|
    ensures var r := Exchanged(ps, i, j);
            SortedUpTo(r, i) && LeastUpTo(r, i, j + 1) && multiset(r) == multiset(ps)
  {
    SwapPermutes(ps, i, j);
  }

  function Put(s: seq<int>, i: nat, p: Pair): (r: seq<int>)
    requires 2 * i + 2 < |s|
    ensures |r| == |s|
  {
    s[2 * i + 1 := p.h][2 * i + 2 := p.l]
  }

  lemma PutPairs(s: seq<int>, n: nat, i: nat, p: Pair)
    requires 2 * n < |s| && i < n
    ensures Pairs(Put(s, i, p), n) == Pairs(s, n)[i := p]
    ensures Put(s, i, p)[0] == s[0] && Put(s, i, p)[2 * n + 1..] == s[2 * n + 1..]
  {
    var r := Put(s, i, p);
    forall k | 0 <= k < n ensures Pairs(r, n)[k] == Pairs(s, n)[i := p][k] {
      assert 2 * k + 1 != 2 * i + 2 && 2 * k + 2 != 2 * i + 1;
    }
  }

  method PutAt(a: array<int>, ghost n: nat, i: nat, h: int, l: int)
    requires 2 * n < a.Length && i < n
    modifies a
    ensures Pairs(a[..], n) == Pairs(old(a[..]), n)[i := Pair(h, l)]
    ensures a[0] == old(a[0]) && a[2 * n + 1..] == old(a[2 * n + 1..])
  {
    ghost var s := a[..];
    PutPairs(s, n, i, Pair(h, l));
    a[2 * i + 1], a[2 * i + 2] := h, l;
    assert a[..] == Put(s, i, Pair(h, l));
    assert a[2 * n + 1..] == a[..][2 * n + 1..];
  }

  /** The code's comparison of entries i and j, and the exchange. */
  method Exchange(a: array<int>, n: nat, i: nat, j: nat)
    requires 2 * n < a.Length && i < j < n
    modifies a
    ensures Pairs(a[..], n) == Exchanged(Pairs(old(a[..]), n), i, j)
    ensures a[0] == old(a[0]) && a[2 * n + 1..] == old(a[2 * n + 1..])
  {
    ghost var ps := Pairs(a[..], n);
    var tempH, tempL := a[2 * i + 1], a[2 * i + 2];
    assert ps[i] == Pair(tempH, tempL) && ps[j] == Pair(a[2 * j + 1], a[2 * j + 2]);
    if tempH > a[2 * j + 1] || (tempH == a[2 * j + 1] && tempL > a[2 * j + 2]) {
      PutAt(a, n, i, a[2 * j + 1], a[2 * j + 2]);
      PutAt(a, n, j, tempH, tempL);
    }
  }

  /** The two nested loops that arrange the frequencies, for any number of pairs: the pairs end up in
      lexicographic order, and are the pairs there were. */
  method Arrange(a: array<int>, n: nat)
    requires 2 * n < a.Length
    modifies a
    ensures Sorted(Pairs(a[..], n)) && multiset(Pairs(a[..], n)) == multiset(Pairs(old(a[..]), n))
    ensures a[0] == old(a[0]) && a[2 * n + 1..] == old(a[2 * n + 1..])
  {
    ghost var all := multiset(Pairs(a[..], n));
    var indx := 0;
    while indx + 1 < n
      invariant indx <= n && (n == 0 || indx < n)
      invariant SortedUpTo(Pairs(a[..], n), indx) && multiset(Pairs(a[..], n)) == all
      invariant a[0] == old(a[0]) && a[2 * n + 1..] == old(a[2 * n + 1..])
    {
      var indx2 := indx + 1;
      while indx2 < n
        invariant indx < indx2 <= n
        invariant SortedUpTo(Pairs(a[..], n), indx) && LeastUpTo(Pairs(a[..], n), indx, indx2)
        invariant multiset(Pairs(a[..], n)) == all
        invariant a[0] == old(a[0]) && a[2 * n + 1..] == old(a[2 * n + 1..])
      {
        ExchangeStep(Pairs(a[..], n), indx, indx2);
        Exchange(a, n, indx, indx2);
        indx2 := indx2 + 1;
      }
      indx := indx + 1;
    }
  }

  // ---- collecting

  function Freq(code: nat): int { (code + 875) * 10 }

  function Count(afNum: nat): nat { if afNum > AF_SIZE then AF_SIZE else afNum }

  /** Where a new pair goes: the first slot that is free or already holds it; n if there is none. */
  function SlotFor(s: seq<int>, n: nat, h: nat, l: nat, i: nat): (r: nat)
    requires 2 * n < |s| && i <= n
    ensures i <= r <= n
    decreases n - i
  {
    if i == n then n
    else if h == s[2 * i + 1] / 10 - 875 && l == s[2 * i + 2] / 10 - 875 then i
    else if s[2 * i + 1] == 0 then i
    else SlotFor(s, n, h, l, i + 1)
  }

  /** The buffer after the pair has been put into a free slot, unless it is there already. */
  function Collected(s: seq<int>, n: nat, h: nat, l: nat): (r: seq<int>)
    requires 2 * n < |s|
    ensures |r| == |s|
  {
    var i := SlotFor(s, n, h, l, 0);
    if i < n && s[2 * i + 1] == 0 then s[2 * i + 1 := Freq(h)][2 * i + 2 := Freq(l)] else s
  }

  // slot i holds the frequencies of these codes, in tenths of a hundred kHz
  predicate HeldAt(s: seq<int>, i: nat, h: nat, l: nat)
    requires 2 * i + 2 < |s|
  {
    s[2 * i + 1] / 10 == h + 875 && s[2 * i + 2] / 10 == l + 875
  }

  predicate FreeAt(s: seq<int>, i: nat)
    requires 2 * i + 2 < |s|
  {
    s[2 * i + 1] == 0
  }

  // no slot before i is free or holds them
  predicate TakenBefore(s: seq<int>, i: nat, h: nat, l: nat)
    requires 2 * i < |s|
  {
    forall j :: 0 <= j < i ==> !FreeAt(s, j) && !HeldAt(s, j, h, l)
  }

  lemma {:induction false} SlotForMeans(s: seq<int>, n: nat, h: nat, l: nat, i: nat, k: nat)
    requires 2 * n < |s| && k <= i <= n && forall j :: k <= j < i ==> !FreeAt(s, j) && !HeldAt(s, j, h, l)
    requires i < n ==> FreeAt(s, i) || HeldAt(s, i, h, l)
    ensures SlotFor(s, n, h, l, k) == i
    decreases i - k
  {
    if k < i {
      assert !FreeAt(s, k) && !HeldAt(s, k, h, l);
      SlotForMeans(s, n, h, l, i, k + 1);
    }
  }

  /** What becomes of a pair of codes: nothing, if a slot before the first free one holds it; otherwise
      its frequencies, 87.5 MHz and 0.1 MHz more for each code, go to the first free slot, if there is one. */
  lemma CollectedMeans(s: seq<int>, n: nat, h: nat, l: nat, i: nat)
    requires 2 * n < |s| && i <= n && TakenBefore(s, i, h, l) && (i < n ==> FreeAt(s, i) || HeldAt(s, i, h, l))
    ensures Collected(s, n, h, l)
              == if i < n && FreeAt(s, i) then s[2 * i + 1 := 8750 + 10 * h][2 * i + 2 := 8750 + 10 * l] else s
  {
    SlotForMeans(s, n, h, l, i, 0);
  }

  datatype Codes = Codes(h: nat, l: nat)

  /** The buffer after all these pairs of codes. */
  function CollectedAll(s: seq<int>, n: nat, codes: seq<Codes>): (r: seq<int>)
    requires 2 * n < |s|
    ensures |r| == |s|
    decreases |codes|
  {
    if codes == [] then s
    else
      var last := codes[|codes| - 1];
      Collected(CollectedAll(s, n, codes[..|codes| - 1]), n, last.h, last.l)
  }

  /** The first slots hold the frequencies of these codes, in order, and the others are free. */
  ghost predicate Lists(s: seq<int>, n: nat, codes: seq<Codes>) {
    && 2 * n < |s| && |codes| <= n
    && (forall i :: 0 <= i < |codes| ==>
          s[2 * i + 1] == 8750 + 10 * codes[i].h && s[2 * i + 2] == 8750 + 10 * codes[i].l)
    && forall i :: |codes| <= i < n ==> FreeAt(s, i)
  }

  lemma OthersTaken(s: seq<int>, n: nat, codes: seq<Codes>, c: Codes, i: nat)
    requires Lists(s, n, codes) && i <= |codes| && forall j :: 0 <= j < i ==> codes[j] != c
    ensures TakenBefore(s, i, c.h, c.l)
  {
    forall j | 0 <= j < i ensures !FreeAt(s, j) && !HeldAt(s, j, c.h, c.l) {
      assert codes[j] != c;
    }
  }

  lemma ListedStays(s: seq<int>, n: nat, codes: seq<Codes>, c: Codes)
    requires Lists(s, n, codes) && c in codes
    ensures Collected(s, n, c.h, c.l) == s
  {
    var i := FirstIndex(codes, c);
    OthersTaken(s, n, codes, c, i);
    assert HeldAt(s, i, c.h, c.l);
    CollectedMeans(s, n, c.h, c.l, i);
  }

  lemma NewIsListed(s: seq<int>, n: nat, codes: seq<Codes>, c: Codes)
    requires Lists(s, n, codes) && c !in codes && |codes| < n
    ensures Lists(Collected(s, n, c.h, c.l), n, codes + [c])
  {
    var i := |codes|;
    OthersTaken(s, n, codes, c, i);
    CollectedMeans(s, n, c.h, c.l, i);
    var r := s[2 * i + 1 := 8750 + 10 * c.h][2 * i + 2 := 8750 + 10 * c.l];
    forall j | i + 1 <= j < n ensures FreeAt(r, j) { assert FreeAt(s, j); }
  }

  /** A pair that is on the list stays there once; a new one is added at the end. */
  lemma ListedOnce(s: seq<int>, n: nat, codes: seq<Codes>, c: Codes)
    requires Lists(s, n, codes) && (c in codes || |codes| < n)
    ensures Lists(Collected(s, n, c.h, c.l), n, if c in codes then codes else codes + [c])
  {
    if c in codes { ListedStays(s, n, codes, c); } else { NewIsListed(s, n, codes, c); }
  }

  lemma {:induction false} FirstIndex(codes: seq<Codes>, c: Codes) returns (i: nat)
    requires c in codes
    ensures i < |codes| && codes[i] == c && forall j :: 0 <= j < i ==> codes[j] != c
    decreases |codes|
  {
    var most := codes[..|codes| - 1];
    if c in most {
      i := FirstIndex(most, c);
    } else {
      i := |codes| - 1;
      forall j | 0 <= j < i ensures codes[j] != c { assert most[j] in most; }
    }
  }

  /** The codes without those that have come before. */
  function Distinct(codes: seq<Codes>): (d: seq<Codes>)
    ensures forall c :: c in d <==> c in codes
    ensures forall i, j :: 0 <= i < j < |d| ==> d[i] != d[j]
    decreases |codes|
  {
    if codes == [] then []
    else
      var most, last := codes[..|codes| - 1], codes[|codes| - 1];
      assert codes == most + [last];
      if last in Distinct(most) then Distinct(most) else Distinct(most) + [last]
  }

  lemma DistinctFewer(codes: seq<Codes>)
    requires codes != []
    ensures |Distinct(codes[..|codes| - 1])| <= |Distinct(codes)|
  {}

  /** Whatever pairs come in, and however often: from free slots on, the buffer lists the frequencies of the
      different ones, in the order in which they first came, as long as there is room for them. */
  lemma {:induction false} EachIsListedOnce(s: seq<int>, n: nat, codes: seq<Codes>)
    requires Lists(s, n, []) && |Distinct(codes)| <= n
    ensures Lists(CollectedAll(s, n, codes), n, Distinct(codes))
    decreases |codes|
  {
    if codes != [] {
      var most, last := codes[..|codes| - 1], codes[|codes| - 1];
      DistinctFewer(codes);
      EachIsListedOnce(s, n, most);
      ListedOnce(CollectedAll(s, n, most), n, Distinct(most), last);
    }
  }

  /** struct rds_af_t; entry i of buffer 0 and 1 is AF[0][i] and AF[1][i]. */
  class AlternativeFrequencies {
    const af0: array<int>
    const af1: array<int>
    var afNum: nat
    var addrCnt: nat
    var isAfNumGet: bool

    ghost predicate Valid()
      reads this
    {
      af0.Length == af1.Length == AF_SIZE && af0 != af1
    }

    constructor ()
      ensures Valid() && afNum == 0 && addrCnt == 0 && !isAfNumGet && fresh(af0) && fresh(af1)
      ensures (forall i :: 0 <= i < AF_SIZE ==> af0[i] == 0 == af1[i])
    {
      af0, af1 := new int[AF_SIZE](_ => 0), new int[AF_SIZE](_ => 0);
      afNum, addrCnt, isAfNumGet := 0, 0, false;
    }

    /** Lines 1126 to 1149. */
    method Collect(h: nat, l: nat, n: nat)
      requires Valid() && 2 * n < AF_SIZE
      modifies af0
      ensures af0[..] == Collected(old(af0[..]), n, h, l)
    {
      ghost var s := af0[..];
      var i := 0;
      while i < n
        invariant i <= n && af0[..] == s
        invariant SlotFor(s, n, h, l, 0) == SlotFor(s, n, h, l, i)
      {
        if h == af0[2 * i + 1] / 10 - 875 && l == af0[2 * i + 2] / 10 - 875 {
          SameIsNotZero(s, n, h, l, i);
          return;
        }
        if af0[2 * i + 1] == 0 {
          af0[2 * i + 1], af0[2 * i + 2] := Freq(h), Freq(l);
          return;
        }
        i := i + 1;
      }
    }

    /** Lines 1191 to 1202: how many of the first n entries were already in buffer 1, and not zero. */
    method CompareBuffers(n: nat) returns (same: nat)
      requires Valid() && n <= AF_SIZE
      modifies af1
      ensures same == n <==> old(af1[..n]) == af0[..n] && 0 !in af0[..n]
      ensures af1[..n] == af0[..n] && af1[n..] == old(af1[n..])
    {
      same := 0;
      ghost var t := af1[..];
      for i := 0 to n
        modifies af1
        invariant same <= i && (same == i <==> t[..i] == af0[..i] && 0 !in af0[..i])
        invariant af1[..i] == af0[..i] && af1[i..] == t[i..]
      {
        assert af0[..i + 1] == af0[..i] + [af0[i]] && t[..i + 1] == t[..i] + [t[i]];
        OneMore(t[..i], af0[..i], t[i], af0[i]);
        assert af1[i] == af1[i..][0] && t[i..][0] == t[i];
        ghost var now := af1[..];
        assert now[..i] == af1[..i] && now[i..] == t[i..];
        if af1[i] == af0[i] {
          if af1[i] != 0 { same := same + 1; }
        } else {
          af1[i] := af0[i];
          assert af1[..] == now[i := af0[i]];
        }
        assert af1[..i + 1] == af1[..i] + [af1[i]] && af1[i + 1..] == t[i + 1..];
      }
    }

    /** Sorting and comparing, for a list whose last entry has come in. */
    method Confirm(num: nat) returns (event: bool)
      requires Valid() && 0 < num <= AF_SIZE
      modifies this`addrCnt, af0, af1
      ensures var n, collected := num / 2, old(af0[..]);
              && Sorted(Pairs(af0[..], n)) && multiset(Pairs(af0[..], n)) == multiset(Pairs(collected, n))
              && af0[0] == collected[0] && af0[2 * n + 1..] == collected[2 * n + 1..]
              && af1[..num] == af0[..num] && af1[num..] == old(af1[num..])
              && (event <==> old(af1[..num]) == af0[..num] && 0 !in af0[..num])
              && addrCnt == if event then 0xFF else 0x0F
    {
      event := false;
      Arrange(af0, num / 2);
      var same := CompareBuffers(num);
      if same == num {
        // the loop that follows in the source looks for a zero to take this back
        assert 0 !in af1[..num];
        addrCnt, event := 0xFF, true;
      } else {
        addrCnt := 0x0F;
      }
    }

    /** The multi-entry path of rds_retrieve_g0_af, for a pair of codes h and l. The event is raised
        exactly when the first num entries, none of them zero, are in both buffers, that is, were
        there, sorted, when the path was last taken; then the pairs are sorted and are the ones collected. */
    method Multiple(h: nat, l: nat) returns (event: bool)
      requires Valid()
      modifies this`addrCnt, af0, af1
      ensures var num := if afNum > 25 then 25 else afNum;
              var n := num / 2;
              var collected := Collected(old(af0[..]), n, h, l);
              if !isAfNumGet || old(addrCnt) == 0xFF then
                !event && af0[..] == old(af0[..]) && af1[..] == old(af1[..]) && addrCnt == old(addrCnt)
              else if num == 0 || collected[num - 1] == 0 then
                !event && af0[..] == collected && af1[..] == old(af1[..]) && addrCnt == old(addrCnt)
              else
                && Sorted(Pairs(af0[..], n)) && multiset(Pairs(af0[..], n)) == multiset(Pairs(collected, n))
                && af0[0] == collected[0] && af0[2 * n + 1..] == collected[2 * n + 1..]
                && af1[..num] == af0[..num] && af1[num..] == old(af1[num..])
                && (event <==> old(af1[..num]) == af0[..num] && 0 !in af0[..num])
                && addrCnt == if event then 0xFF else 0x0F
    {
      event := false;
      if !isAfNumGet || addrCnt == 0xFF { return; }
      var num := Count(afNum);
      Collect(h, l, num / 2);
      if num <= 0 || af0[num - 1] == 0 { return; }
      event := Confirm(num);
    }
  }

  lemma SameIsNotZero(s: seq<int>, n: nat, h: nat, l: nat, i: nat)
    requires 2 * n < |s| && i < n && h == s[2 * i + 1] / 10 - 875
    ensures s[2 * i + 1] != 0
  {}

  lemma OneMore(a: seq<int>, b: seq<int>, x: int, y: int)
    requires |a| == |b|
    ensures a + [x] == b + [y] <==> a == b && x == y
    ensures 0 !in b + [y] <==> 0 !in b && y != 0
  {
    if a + [x] == b + [y] {
      assert a == (a + [x])[..|a|] && b == (b + [y])[..|b|];
      assert x == (a + [x])[|a|] && y == (b + [y])[|b|];
    }
  }
}
