/**
  Non-negative binary32 arithmetic (IEEE 754-2019, sections 3.4 and 4.3.1) over the
  reals: what a bit pattern is worth, and which pattern a real rounds to.
 */
module Binary32 {
  import opened Machine

  const FRACTION: nat := 0x80_0000
  const SIGN: u32 := 0x8000_0000
  const INFINITY: u32 := 0x7F80_0000
  const ONE: u32 := 0x3F80_0000

  /**
    The value of a pattern with a clear sign bit. Patterns ascend evenly through one
    binade, and each binade is the previous one doubled. Infinity counts as 2^128,
    where it would sit. The divisor of the subnormals is 2^126.
   */
  function Magnitude(b: u32): real
    requires b <= INFINITY
    decreases BinadesFromOne(b)
  {
    if b < FRACTION then b as real / 8388608.0 / 85070591730234615865843651857942052864.0
    else if b < ONE then Magnitude(b + FRACTION) / 2.0
    else if b < ONE + FRACTION then 1.0 + (b - ONE) as real / 8388608.0
    else 2.0 * Magnitude(b - FRACTION)
  }

  function BinadesFromOne(b: u32): nat {
    if b < ONE then (ONE - b + FRACTION - 1) / FRACTION else (b - ONE) / FRACTION
  }

  predicate IsFinite(bits: u32) {
    bits % SIGN < INFINITY
  }

  function Value(bits: u32): real
    requires IsFinite(bits)
  {
    if bits < SIGN then Magnitude(bits) else -Magnitude(bits - SIGN)
  }

  /** What the sink rejects: not finite, below 0.0 or above 1.0. */
  predicate OutsideUnitInterval(bits: u32) {
    !IsFinite(bits) || Value(bits) < 0.0 || Value(bits) > 1.0
  }

  /** The distance to the next pattern. */
  function Ulp(b: u32): (u: real)
    requires b < INFINITY
  {
    Magnitude(b + 1) - Magnitude(b)
  }

  /** From a pattern worth at most q, the last finite one that is. */
  function FloorPattern(q: real, from: u32): (b: u32)
    requires from < INFINITY && Magnitude(from) <= q
    ensures from <= b < INFINITY && Magnitude(b) <= q
    ensures b + 1 == INFINITY || q < Magnitude(b + 1)
    decreases q >= 0.0, INFINITY - from
  {
    if from + 1 == INFINITY || q < Magnitude(from + 1) then from else FloorPattern(q, from + 1)
  }

  /** Round to nearest, ties to even, overflowing to infinity. */
  function Round(q: real): (b: u32)
    requires q >= 0.0
    ensures b <= INFINITY
  {
    var low := FloorPattern(q, 0);
    Nearer(low, q - Magnitude(low), Magnitude(low + 1) - q)
  }

  /** Of low and its successor, the one at the smaller distance; on a tie, the even one. */
  function Nearer(low: u32, below: real, above: real): u32
    requires low < INFINITY
  {
    if below < above || (below == above && low % 2 == 0) then low else low + 1
  }

  function FromNat(n: nat): u32 {
    Round(n as real)
  }

  function Quotient(a: u32, b: u32): (q: u32)
    requires a <= INFINITY && 0 < b < INFINITY
    ensures q <= INFINITY
  {
    if a == INFINITY then INFINITY else Round(Ratio(a, b))
  }

  /** The exact quotient of two finite patterns. */
  function Ratio(a: u32, b: u32): (q: real)
    requires a <= INFINITY && 0 < b < INFINITY
    ensures q >= 0.0
  {
    Increasing(0, b);
    NonNegative(a);
    RatioNonNegative(Magnitude(a), Magnitude(b));
    Magnitude(a) / Magnitude(b)
  }

  lemma RatioNonNegative(x: real, d: real)
    requires x >= 0.0 && d > 0.0
    ensures x / d >= 0.0
  {
    assert x / d * d == x;
    NonNegativeFactor(x / d, d);
  }

  // ---- patterns are ordered like their values ----

  lemma SmallestNormal()
    ensures Magnitude(FRACTION) == 1.0 / 85070591730234615865843651857942052864.0
  {
    ValueOfFields(1, 0);
    PowerOne();
  }

  lemma {:induction false} UlpPositive(b: u32)
    requires b < INFINITY
    ensures Ulp(b) > 0.0
    decreases BinadesFromOne(b)
  {
    if b + 1 == FRACTION {
      SmallestNormal();
    } else if b + 1 == ONE {
      assert Magnitude(b) == Magnitude(b + FRACTION) / 2.0;
    } else if b + 1 == ONE + FRACTION {
      assert Magnitude(b + 1) == 2.0 * Magnitude(ONE);
    } else if FRACTION <= b < ONE {
      UlpPositive(b + FRACTION);
    } else if b >= ONE + FRACTION {
      UlpPositive(b - FRACTION);
    }
  }

  lemma {:induction false} Increasing(a: u32, b: u32)
    requires a < b <= INFINITY
    ensures Magnitude(a) < Magnitude(b)
    decreases b - a
  {
    UlpPositive(a);
    if a + 1 < b {
      Increasing(a + 1, b);
    }
  }

  lemma Ordered(a: u32, b: u32)
    requires a <= INFINITY && b <= INFINITY
    ensures a <= b <==> Magnitude(a) <= Magnitude(b)
  {
    if a < b {
      Increasing(a, b);
    } else if b < a {
      Increasing(b, a);
    }
  }

  lemma NonNegative(a: u32)
    requires a <= INFINITY
    ensures Magnitude(a) >= 0.0
  {
    Ordered(0, a);
  }

  /** 2 to the power e - 127. */
  function Power(e: nat): real
    decreases if e < 127 then 127 - e else e - 127
  {
    if e == 127 then 1.0 else if e > 127 then 2.0 * Power(e - 1) else Power(e + 1) / 2.0
  }

  /** The interchange format's own reading: exponent field e, trailing significand f. */
  lemma {:induction false} ValueOfFields(e: nat, f: nat)
    requires e < 255 && f < FRACTION
    ensures Magnitude(e * FRACTION + f) ==
            if e == 0 then f as real / 8388608.0 * Power(1)
            else (1.0 + f as real / 8388608.0) * Power(e)
    decreases if e < 127 then 127 - e else e - 127
  {
    if e == 0 {
      PowerOne();
    } else if e < 127 {
      ValueOfFields(e + 1, f);
    } else if e > 127 {
      ValueOfFields(e - 1, f);
    }
  }

  lemma TenDoublings(e: nat)
    ensures Power(e + 10) == 1024.0 * Power(e)
  {
    assert Power(e + 2) == 2.0 * Power(e + 1) == 4.0 * Power(e);
    assert Power(e + 4) == 2.0 * Power(e + 3) == 4.0 * Power(e + 2);
    assert Power(e + 6) == 2.0 * Power(e + 5) == 4.0 * Power(e + 4);
    assert Power(e + 8) == 2.0 * Power(e + 7) == 4.0 * Power(e + 6);
    assert Power(e + 10) == 2.0 * Power(e + 9) == 4.0 * Power(e + 8);
  }

  lemma SmallPowers()
    ensures Power(134) == 128.0 && Power(150) == 8388608.0 && Power(151) == 16777216.0
    ensures Power(159) == 4294967296.0
  {
    TenDoublings(127);
    TenDoublings(137);
    TenDoublings(147);
    assert Power(128) == 2.0 && Power(130) == 2.0 * Power(129) == 8.0;
    assert Power(132) == 2.0 * Power(131) == 32.0 && Power(134) == 2.0 * Power(133) == 128.0;
    assert Power(149) == 2.0 * Power(148) && Power(151) == 2.0 * Power(150) == 4.0 * Power(149);
    assert Power(159) == 2.0 * Power(158) == 4.0 * Power(157);
  }

  lemma PowerOne()
    ensures Power(1) == 1.0 / 85070591730234615865843651857942052864.0
  {
    TenDoublings(117);
    TenDoublings(107);
    TenDoublings(97);
    TenDoublings(87);
    TenDoublings(77);
    TenDoublings(67);
    TenDoublings(57);
    TenDoublings(47);
    TenDoublings(37);
    TenDoublings(27);
    TenDoublings(17);
    TenDoublings(7);
    assert Power(7) == 2.0 * Power(6) == 4.0 * Power(5);
    assert Power(5) == 2.0 * Power(4) == 4.0 * Power(3);
    assert Power(3) == 2.0 * Power(2) == 4.0 * Power(1);
  }

  /** The sink's range test, read off the pattern; -0.0 passes. */
  lemma UnitIntervalPatterns(bits: u32)
    ensures !OutsideUnitInterval(bits) <==> bits <= ONE || bits == SIGN
  {
    if bits < INFINITY {
      Ordered(bits, ONE);
      NonNegative(bits);
    } else if SIGN <= bits < SIGN + INFINITY {
      Ordered(bits - SIGN, 0);
    }
  }

  // ---- rounding ----

  lemma FitsBelow(q: real, a: u32, b: u32)
    requires a <= INFINITY && b <= INFINITY && Magnitude(a) <= q < Magnitude(b)
    ensures a < b
  {
    Ordered(b, a);
  }

  lemma SameFloor(q: real, a: u32, b: u32)
    requires a < INFINITY && b < INFINITY
    requires Magnitude(a) <= q && Magnitude(b) <= q
    requires a + 1 == INFINITY || q < Magnitude(a + 1)
    requires b + 1 == INFINITY || q < Magnitude(b + 1)
    ensures a == b
  {
    if a + 1 < INFINITY {
      FitsBelow(q, b, a + 1);
    }
    if b + 1 < INFINITY {
      FitsBelow(q, a, b + 1);
    }
  }

  /** What rounding does between two neighbouring patterns. */
  lemma RoundBetween(q: real, low: u32)
    requires low < INFINITY && 0.0 <= q && Magnitude(low) <= q < Magnitude(low + 1)
    ensures Round(q) == Nearer(low, q - Magnitude(low), Magnitude(low + 1) - q)
  {
    SameFloor(q, FloorPattern(q, 0), low);
  }

  /** Rounding never crosses a representable value. */
  lemma RoundAtLeast(q: real, a: u32)
    requires a <= INFINITY && Magnitude(a) <= q && q >= 0.0
    ensures a <= Round(q)
  {
    var low := FloorPattern(q, 0);
    UlpPositive(low);
    if low + 1 < INFINITY {
      FitsBelow(q, a, low + 1);
    }
  }

  lemma RoundAtMost(q: real, a: u32)
    requires a <= INFINITY && 0.0 <= q <= Magnitude(a)
    ensures Round(q) <= a
  {
    var low := FloorPattern(q, 0);
    UlpPositive(low);
    if a <= low {
      Ordered(low, a);
    }
  }

  lemma RoundExact(a: u32)
    requires a <= INFINITY
    ensures Magnitude(a) >= 0.0 && Round(Magnitude(a)) == a
  {
    NonNegative(a);
    RoundAtLeast(Magnitude(a), a);
    RoundAtMost(Magnitude(a), a);
  }

  lemma FloorMonotone(p: real, q: real)
    requires 0.0 <= p <= q
    ensures FloorPattern(p, 0) <= FloorPattern(q, 0)
  {
    var a, b := FloorPattern(p, 0), FloorPattern(q, 0);
    if b + 1 < INFINITY {
      FitsBelow(q, a, b + 1);
    }
  }

  /** Rounding keeps order. */
  lemma RoundMonotone(p: real, q: real)
    requires 0.0 <= p <= q
    ensures Round(p) <= Round(q)
  {
    FloorMonotone(p, q);
  }

  lemma QuotientMonotone(a: u32, b: u32, d: u32)
    requires a <= b <= INFINITY && 0 < d < INFINITY
    ensures Quotient(a, d) <= Quotient(b, d)
  {
    Increasing(0, d);
    NonNegative(a);
    Ordered(a, b);
    if b < INFINITY {
      DividedMonotone(Magnitude(a), Magnitude(b), Magnitude(d));
      RoundMonotone(Magnitude(a) / Magnitude(d), Magnitude(b) / Magnitude(d));
    }
  }

  lemma DividedMonotone(a: real, b: real, d: real)
    requires 0.0 <= a <= b && d > 0.0
    ensures 0.0 <= a / d <= b / d
  {
    assert (b / d - a / d) * d == b - a;
    NonNegativeFactor(b / d - a / d, d);
    NonNegativeFactor(a / d, d);
  }

  lemma NonNegativeFactor(x: real, d: real)
    requires d > 0.0 && x * d >= 0.0
    ensures x >= 0.0
  {
  }

  lemma PastMiddle(low: u32, below: real, above: real)
    requires low < INFINITY && below >= above && (below == above ==> low % 2 == 1)
    ensures Nearer(low, below, above) == low + 1
  {
  }

  /** Beyond the midpoint, rounding moves up; at it, up from an odd pattern. */
  lemma RoundUp(q: real, a: u32)
    requires a < INFINITY && q >= Magnitude(a) && q - Magnitude(a) >= Magnitude(a + 1) - q
    requires q - Magnitude(a) == Magnitude(a + 1) - q ==> a % 2 == 1
    ensures q >= 0.0 && Round(q) > a
  {
    NonNegative(a);
    if q < Magnitude(a + 1) {
      RoundBetween(q, a);
      PastMiddle(a, q - Magnitude(a), Magnitude(a + 1) - q);
    } else {
      RoundAtLeast(q, a + 1);
    }
  }

  /** No pattern up to infinity is nearer than the one rounding picks. */
  lemma RoundIsNearest(q: real, other: u32)
    requires q >= 0.0 && other <= INFINITY
    requires other == INFINITY ==> q <= Magnitude(INFINITY)
    ensures Distance(q, Magnitude(Round(q))) <= Distance(q, Magnitude(other))
  {
    var low := FloorPattern(q, 0);
    UlpPositive(low);
    Ordered(other, low);
    Ordered(low + 1, other);
  }

  function Distance(x: real, y: real): real {
    if x <= y then y - x else x - y
  }

  /**
    What rounding is for: a finite pattern no other finite one is nearer than, and of two
    equally near ones the even one.
   */
  ghost predicate Nearest(b: u32, q: real) {
    b < INFINITY && forall other: u32 :: other < INFINITY ==> AsNear(b, q, other)
  }

  predicate AsNear(b: u32, q: real, other: u32)
    requires b < INFINITY && other < INFINITY
  {
    && Distance(q, Magnitude(b)) <= Distance(q, Magnitude(other))
    && (Distance(q, Magnitude(b)) == Distance(q, Magnitude(other)) ==> b == other || b % 2 == 0)
  }

  /** A pattern as near as the one rounding picks is one of the two around q. */
  lemma TieIsNeighbour(q: real, other: u32)
    requires q >= 0.0 && other < INFINITY && other != Round(q) < INFINITY
    requires Distance(q, Magnitude(Round(q))) == Distance(q, Magnitude(other))
    ensures other + 1 == Round(q) || Round(q) + 1 == other
    ensures Round(q) % 2 == 0
  {
    var low := FloorPattern(q, 0);
    UlpPositive(low);
    Ordered(other, low);
    Ordered(low, other);
    Ordered(low + 1, other);
    Ordered(other, low + 1);
  }

  /** Below the largest finite value, rounding is to the nearest pattern, ties to even. */
  lemma RoundNearest(q: real, bound: u32)
    requires bound < INFINITY && 0.0 <= q <= Magnitude(bound)
    ensures Nearest(Round(q), q)
  {
    RoundAtMost(q, bound);
    forall other: u32 | other < INFINITY
      ensures AsNear(Round(q), q, other)
    {
      RoundIsNearest(q, other);
      if other != Round(q) && Distance(q, Magnitude(Round(q))) == Distance(q, Magnitude(other)) {
        TieIsNeighbour(q, other);
      }
    }
  }

  /** And there is only one such pattern. */
  lemma NearestIsRound(b: u32, q: real, bound: u32)
    requires bound < INFINITY && 0.0 <= q <= Magnitude(bound) && Nearest(b, q)
    ensures b == Round(q)
  {
    RoundAtMost(q, bound);
    RoundNearest(q, bound);
    var a := Round(q);
    assert AsNear(b, q, a) && AsNear(a, q, b);
    if a != b {
      TieIsNeighbour(q, b);
    }
  }

  // ---- small integers are exact ----

  lemma {:induction false} ExactPattern(v: nat) returns (b: u32)
    requires 0 < v <= 2 * FRACTION
    ensures b < INFINITY && Magnitude(b) == v as real
    decreases 2 * FRACTION - v
  {
    if v == 2 * FRACTION {
      b := 151 * FRACTION;
      ValueOfFields(151, 0);
      SmallPowers();
    } else if v >= FRACTION {
      b := 150 * FRACTION + (v - FRACTION);
      TwentyThreeDoublings(v - FRACTION);
    } else {
      var twice := ExactPattern(2 * v);
      Ordered(ONE + FRACTION, twice);
      b := twice - FRACTION;
    }
  }

  lemma TwentyThreeDoublings(f: nat)
    requires f < FRACTION
    ensures Magnitude(150 * FRACTION + f) == (FRACTION + f) as real
  {
    ValueOfFields(150, f);
    SmallPowers();
  }

  /** Every integer up to 2^24 converts exactly. */
  lemma ExactNat(v: nat)
    requires v <= 2 * FRACTION
    ensures FromNat(v) < INFINITY && Magnitude(FromNat(v)) == v as real
  {
    var b: u32 := 0;
    if v > 0 {
      b := ExactPattern(v);
    }
    RoundExact(b);
  }
}
