/** 32-bit unsigned arithmetic and the power-of-two masks the ring buffers rely on. */
module Words {

  const TWO32: int := 0x1_0000_0000

  type u32 = x: int | 0 <= x < TWO32

  type byte = x: int | 0 <= x < 256

  // `unsigned int` addition and subtraction wrap around
  function Add32(a: u32, b: u32): u32 { if a + b < TWO32 then a + b else a + b - TWO32 }

  function Sub32(a: u32, b: u32): u32 { if a >= b then a - b else a - b + TWO32 }

  /** Two bytes, least significant first. */
  function Le16(lo: byte, hi: byte): nat { lo + 256 * hi }

  function Min(a: int, b: int): int { if a <= b then a else b }

  /** Bitwise `&` of two non-negative integers. */
  function BitAnd(a: nat, b: nat): (r: nat)
    ensures r <= a && r <= b
  {
    if a == 0 || b == 0 then 0
    else (if a % 2 == 1 && b % 2 == 1 then 1 else 0) + 2 * BitAnd(a / 2, b / 2)
  }

  /** The test that ring_init and ring_emi_init apply to max_size. */
  predicate PassesMaskTest(m: nat) { m != 0 && BitAnd(m, m - 1) == 0 }

  function Pow2(k: nat): (r: nat)
    ensures r > 0
  {
    if k == 0 then 1 else 2 * Pow2(k - 1)
  }

  ghost predicate PowerOfTwo(m: nat) { exists k: nat :: Pow2(k) == m }

  // max_size is a power of two that leaves a full ring distinguishable in 32 bits
  ghost predicate ValidSize(maxSize: nat) { 0 < maxSize <= 0x8000_0000 && PowerOfTwo(maxSize) }

  /** i modulo m, by repeated subtraction: the slot a free-running index denotes. */
  function Slot(i: nat, m: nat): (r: nat)
    requires m > 0
    ensures r < m
    ensures i < m ==> r == i
    decreases i
  {
    if i < m then i else Slot(i - m, m)
  }

  lemma {:induction false} AndSelf(a: nat)
    ensures BitAnd(a, a) == a
  {
    if a != 0 { AndSelf(a / 2); }
  }

  lemma {:induction false} PowersPass(k: nat)
    ensures BitAnd(Pow2(k), Pow2(k) - 1) == 0
  {
    if k > 0 {
      PowersPass(k - 1);
      assert Pow2(k) / 2 == Pow2(k - 1) && (Pow2(k) - 1) / 2 == Pow2(k - 1) - 1;
    }
  }

  lemma {:induction false} PassersArePowers(m: nat) returns (k: nat)
    requires PassesMaskTest(m)
    ensures Pow2(k) == m
  {
    if m == 1 {
      k := 0;
    } else if m % 2 == 1 {
      assert (m - 1) / 2 == m / 2;
      AndSelf(m / 2);
      assert false;
    } else {
      assert (m - 1) / 2 == m / 2 - 1;
      k := PassersArePowers(m / 2);
      k := k + 1;
    }
  }

  /** The source's test on max_size accepts exactly the powers of two. */
  lemma MaskTestMeansPowerOfTwo(m: nat)
    ensures PassesMaskTest(m) <==> PowerOfTwo(m)
  {
    if PassesMaskTest(m) { var k := PassersArePowers(m); }
    if PowerOfTwo(m) {
      var k: nat :| Pow2(k) == m;
      PowersPass(k);
    }
  }

  lemma {:induction false} SlotHalves(i: nat, k: nat)
    requires k > 0
    ensures Slot(i, 2 * k) == i % 2 + 2 * Slot(i / 2, k)
    decreases i
  {
    if i >= 2 * k {
      SlotHalves(i - 2 * k, k);
      assert (i - 2 * k) / 2 == i / 2 - k && (i - 2 * k) % 2 == i % 2;
    }
  }

  lemma {:induction false} MaskPow2(i: nat, k: nat)
    ensures BitAnd(i, Pow2(k) - 1) == Slot(i, Pow2(k))
    decreases k
  {
    if k == 0 {
      assert Slot(i, 1) == 0;
    } else {
      var h := Pow2(k - 1);
      MaskPow2(i / 2, k - 1);
      SlotHalves(i, h);
      assert (Pow2(k) - 1) / 2 == h - 1 && (Pow2(k) - 1) % 2 == 1;
    }
  }

  /** Masking with max_size - 1 picks the slot when max_size is a power of two. */
  lemma MaskIsSlot(i: nat, m: nat)
    requires PowerOfTwo(m)
    ensures m > 0 && BitAnd(i, m - 1) == Slot(i, m)
  {
    var k: nat :| Pow2(k) == m;
    MaskPow2(i, k);
  }

  /** ... and only then: for any other size some index is sent to another slot. */
  lemma MaskNeedsPowerOfTwo(m: nat)
    requires m > 0
    ensures PowerOfTwo(m) <==> forall i: nat :: BitAnd(i, m - 1) == Slot(i, m)
  {
    if PowerOfTwo(m) {
      forall i: nat ensures BitAnd(i, m - 1) == Slot(i, m) { MaskIsSlot(i, m); }
    } else {
      MaskTestMeansPowerOfTwo(m);
      assert Slot(m, m) == 0;
      assert BitAnd(m, m - 1) != Slot(m, m);
    }
  }

  lemma Laps(k: nat, m: nat)
    requires k > 0
    ensures 0 <= (k - 1) * m && k * m == (k - 1) * m + m
  {}

  lemma SlotLap(i: nat, m: nat)
    requires m > 0
    ensures Slot(i + m, m) == Slot(i, m)
  {}

  lemma {:induction false} SlotShift(i: nat, k: nat, m: nat)
    requires m > 0
    ensures Slot(i + k * m, m) == Slot(i, m)
    decreases k
  {
    if k > 0 {
      SlotShift(i, k - 1, m);
      Laps(k, m);
      SlotLap(i + (k - 1) * m, m);
    }
  }

  /** Advancing by at most one lap. */
  lemma {:induction false} SlotAdvance(i: nat, k: nat, m: nat)
    requires m > 0 && k <= m
    ensures Slot(i + k, m) == if Slot(i, m) + k < m then Slot(i, m) + k else Slot(i, m) + k - m
    decreases i
  {
    if i >= m {
      SlotAdvance(i - m, k, m);
      assert Slot(i + k, m) == Slot(i - m + k, m);
    }
  }

  /** Indices less than a lap apart never share a slot. */
  lemma SlotDistinct(i: nat, j: nat, m: nat)
    requires m > 0 && i < j < i + m
    ensures Slot(i, m) != Slot(j, m)
  {
    SlotAdvance(i, j - i, m);
  }

  lemma {:induction false} SlotIdempotent(i: nat, k: nat, m: nat)
    requires m > 0
    ensures Slot(Slot(i, m) + k, m) == Slot(i + k, m)
    decreases i
  {
    if i >= m {
      SlotIdempotent(i - m, k, m);
      assert Slot(i + k, m) == Slot(i - m + k, m);
    }
  }

  lemma {:induction false} Pow2Adds(a: nat, b: nat)
    ensures Pow2(a + b) == Pow2(a) * Pow2(b)
  {
    if a > 0 {
      Pow2Adds(a - 1, b);
      assert Pow2(a + b) == 2 * Pow2(a - 1 + b);
    }
  }

  lemma {:induction false} Pow2Grows(a: nat, b: nat)
    requires a < b
    ensures Pow2(a) < Pow2(b)
  {
    if a + 1 < b { Pow2Grows(a, b - 1); }
  }

  lemma Two32IsPow2()
    ensures Pow2(32) == TWO32
  {
    assert Pow2(8) == 256;
    Pow2Adds(8, 8);
    Pow2Adds(16, 16);
  }

  /** A power of two that fits into 32 bits is at most 2^31. */
  lemma LargestSize(m: u32)
    requires PowerOfTwo(m)
    ensures 0 < m <= 0x8000_0000
  {
    var k: nat :| Pow2(k) == m;
    Two32IsPow2();
    assert Pow2(32) == 2 * Pow2(31);
    if k > 32 { Pow2Grows(32, k); }
    if k < 31 { Pow2Grows(k, 31); }
  }

  lemma SizeDivides(m: u32) returns (q: nat)
    requires PowerOfTwo(m)
    ensures q * m == TWO32
  {
    var k: nat :| Pow2(k) == m;
    Two32IsPow2();
    if k > 32 { Pow2Grows(32, k); }
    Pow2Adds(32 - k, k);
    q := Pow2(32 - k);
  }

  /** Counters may wrap: adding in 32 bits leads to the same slot as adding without a bound. */
  lemma AddKeepsSlot(a: u32, b: u32, m: u32)
    requires PowerOfTwo(m)
    ensures m > 0 && Slot(Add32(a, b), m) == Slot(a + b, m)
  {
    if a + b >= TWO32 {
      var q := SizeDivides(m);
      SlotShift(a + b - TWO32, q, m);
    }
  }
}
