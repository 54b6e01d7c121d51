/**
  The arithmetic yuyv_to_sparse does on one block of pixels, in binary32: how far it
  can be read as exact arithmetic, and where that reading ends.
 */
module BlockMeans {
  import opened Machine
  import opened Binary32

  /** The largest block whose pixel sum always fits the 24-bit significand. */
  const EXACT_BLOCK: nat := 65793

  /** The pattern of 255.0f. */
  const WHITE: u32 := 0x437F_0000

  /** (float)sum / (float)n. */
  function Mean(sum: nat, n: u32): (v: u32)
    requires n > 0
    ensures v <= INFINITY
  {
    CountIsFinite(n);
    Quotient(FromNat(sum), FromNat(n))
  }

  /** value > thr, as the float comparison decides it. */
  predicate Passes(sum: nat, n: u32, threshold: byte)
    requires n > 0
  {
    Magnitude(Mean(sum, n)) > Magnitude(FromNat(threshold))
  }

  /** value / 255.0f. */
  function Signal(sum: nat, n: u32): u32
    requires n > 0
  {
    Quotient(Mean(sum, n), WHITE)
  }

  lemma CountIsFinite(n: u32)
    requires n > 0
    ensures 0 < FromNat(n) < INFINITY
  {
    RoundAtLeast(n as real, ONE);
    PowerOf32();
    RoundAtMost(n as real, 159 * FRACTION);
  }

  lemma PowerOf32()
    ensures Magnitude(159 * FRACTION) == 4294967296.0
  {
    ValueOfFields(159, 0);
    SmallPowers();
  }

  /** For an exact block, the mean is sum/n rounded once. */
  lemma MeanOfExact(sum: nat, n: u32)
    requires 0 < n <= EXACT_BLOCK && sum <= 255 * n
    ensures Mean(sum, n) == Round(sum as real / n as real)
  {
    ExactNat(sum);
    ExactNat(n);
    CountIsFinite(n);
  }

  lemma {:induction false} UlpAtMost(b: u32, binades: nat, bound: real)
    requires ONE <= b < ONE + binades * FRACTION && binades <= 8
    requires bound == Power(126 + binades) / 8388608.0
    ensures Ulp(b) <= bound
  {
    if b >= ONE + FRACTION {
      UlpAtMost(b - FRACTION, binades - 1, bound / 2.0);
    } else {
      PowerAtLeastOne(126 + binades);
      FirstBinade(b);
    }
  }

  lemma FirstBinade(b: u32)
    requires ONE <= b < ONE + FRACTION
    ensures Ulp(b) == 1.0 / 8388608.0
  {
    if b + 1 == ONE + FRACTION {
      assert Magnitude(b + 1) == 2.0 * Magnitude(ONE) == 2.0;
    }
  }

  lemma {:induction false} PowerAtLeastOne(e: nat)
    requires e >= 127
    ensures Power(e) >= 1.0
  {
    if e > 127 {
      PowerAtLeastOne(e - 1);
    }
  }

  /** Neighbours of a luminance are at most 2^-16 apart. */
  lemma ThresholdUlp(threshold: byte)
    ensures FromNat(threshold) < INFINITY
    ensures Ulp(FromNat(threshold)) <= 1.0 / 65536.0
  {
    var t := FromNat(threshold);
    ExactNat(threshold);
    if threshold == 0 {
      Ordered(t, 0);
    } else {
      Ordered(ONE, t);
      PowerOf8();
      Ordered(135 * FRACTION, t);
      UlpAtMost(t, 8, 1.0 / 65536.0);
    }
  }

  lemma PowerOf8()
    ensures Magnitude(135 * FRACTION) == 256.0
    ensures Power(134) == 128.0
  {
    ValueOfFields(135, 0);
    SmallPowers();
  }

  lemma RoundedAtMost(q: real, threshold: byte)
    requires 0.0 <= q <= threshold as real
    ensures Round(q) <= FromNat(threshold)
  {
    ExactNat(threshold);
    RoundAtMost(q, FromNat(threshold));
  }

  lemma RoundedAbove(q: real, threshold: byte)
    requires q > threshold as real + 1.0 / 131072.0
    ensures Round(q) > FromNat(threshold)
  {
    ExactNat(threshold);
    ThresholdUlp(threshold);
    RoundUp(q, FromNat(threshold));
  }

  /** The float test on an exact block is the exact test on its rational mean. */
  lemma ThresholdIsExact(sum: nat, n: u32, threshold: byte)
    requires 0 < n <= 65793 && sum <= 255 * n
    ensures Passes(sum, n, threshold) <==> sum > threshold * n
  {
    MeanOfExact(sum, n);
    Ordered(Mean(sum, n), FromNat(threshold));
    if sum <= threshold * n {
      RatioAtMost(sum, n, threshold);
      RoundedAtMost(sum as real / n as real, threshold);
    } else {
      RatioAbove(sum, n, threshold);
      RoundedAbove(sum as real / n as real, threshold);
    }
  }

  lemma MulOrder(a: real, b: real, n: real)
    requires n > 0.0 && a <= b
    ensures a * n <= b * n
  {
    assert (b - a) * n >= 0.0;
  }

  lemma RatioAtMost(sum: nat, n: nat, m: nat)
    requires n > 0 && sum <= m * n
    ensures 0.0 <= sum as real / n as real <= m as real
  {
    var q := sum as real / n as real;
    assert q * n as real == sum as real;
    assert (m * n) as real == m as real * n as real;
    if q > m as real {
      MulOrder(m as real, q, n as real);
    }
  }

  /** A mean above an integer is above it by 1/n. */
  lemma RatioAbove(sum: nat, n: nat, m: nat)
    requires 0 < n <= EXACT_BLOCK && sum > m * n
    ensures sum as real / n as real > m as real + 1.0 / 131072.0
  {
    var q, r := sum as real / n as real, m as real + 1.0 / 131072.0;
    assert q * n as real == sum as real;
    assert r * n as real == m as real * n as real + n as real / 131072.0;
    assert m as real * n as real == (m * n) as real;
    assert (m * n + 1) as real <= sum as real;
    if q <= r {
      MulOrder(q, r, n as real);
      assert n as real / 131072.0 < 1.0;
      assert (m * n + 1) as real == (m * n) as real + 1.0;
    }
  }

  lemma WhiteIs255()
    ensures Magnitude(WHITE) == 255.0 && Magnitude(WHITE + 1) == 255.0 + 1.0 / 65536.0
  {
    ValueOfFields(134, 127 * U16);
    ValueOfFields(134, 127 * U16 + 1);
    SmallPowers();
  }

  lemma MeanAtMostWhite(sum: nat, n: u32)
    requires 0 < n <= EXACT_BLOCK && sum <= 255 * n
    ensures 0.0 <= Magnitude(Mean(sum, n)) <= 255.0
  {
    var v := Mean(sum, n);
    WhiteIs255();
    MeanOfExact(sum, n);
    RatioAtMost(sum, n, 255);
    RoundAtMost(sum as real / n as real, WHITE);
    Ordered(v, WHITE);
    NonNegative(v);
  }

  /** An exact block's signal lands in [0, 1]. */
  lemma SignalInRange(sum: nat, n: u32)
    requires 0 < n <= 65793 && sum <= 255 * n
    ensures !OutsideUnitInterval(Signal(sum, n))
  {
    MeanAtMostWhite(sum, n);
    SignalOfMean(Mean(sum, n));
    UnitIntervalPatterns(Signal(sum, n));
  }

  lemma SignalOfMean(v: u32)
    requires v <= INFINITY && 0.0 <= Magnitude(v) <= 255.0
    ensures Quotient(v, WHITE) <= ONE
  {
    WhiteIs255();
    Ordered(WHITE + 1, v);
    RoundAtMost(Magnitude(v) / 255.0, ONE);
  }

  /**
    The bound is nearly sharp: four pixels later, a saturated block rounds its pixel
    sum up, and the emitted signal exceeds 1.0.
   */
  lemma LargeBlockEscapes(n: u32)
    requires n == 65797
    ensures OutsideUnitInterval(Signal(255 * n, n))
  {
    var v := Mean(255 * n, n);
    SaturatedMean(255 * n, n);
    WhiteIs255();
    Ordered(WHITE + 1, v);
    PastWhiteEscapes(v);
    UnitIntervalPatterns(Signal(255 * n, n));
  }

  lemma PastWhiteEscapes(v: u32)
    requires WHITE < v <= INFINITY
    ensures ONE < Quotient(v, WHITE) <= INFINITY
  {
    WhiteIs255();
    FirstBinade(ONE);
    Ordered(WHITE + 1, v);
    if v < INFINITY {
      RoundUp(Magnitude(v) / 255.0, ONE);
    }
  }

  lemma MeanMonotone(sum: nat, more: nat, n: u32)
    requires n > 0 && sum <= more
    ensures Mean(sum, n) <= Mean(more, n)
  {
    CountIsFinite(n);
    RoundMonotone(sum as real, more as real);
    QuotientMonotone(FromNat(sum), FromNat(more), FromNat(n));
  }

  /** No pixels of a block of this size can push its signal out of [0, 1]. */
  ghost predicate SignalsStayInside(n: u32)
    requires n > 0
  {
    forall sum: nat :: sum <= 255 * n ==> !OutsideUnitInterval(Signal(sum, n))
  }

  /**
    Exactly which block sizes are safe, whatever the pixels: those whose all-white block
    still has a mean of at most 255, one float division to find out.
   */
  lemma SafeIffWhiteIsWhite(n: u32)
    requires n > 0
    ensures SignalsStayInside(n) <==> Mean(255 * n, n) <= WHITE
  {
    if Mean(255 * n, n) <= WHITE {
      forall sum: nat | sum <= 255 * n
        ensures !OutsideUnitInterval(Signal(sum, n))
      {
        MeanMonotone(sum, 255 * n, n);
        WhiteIs255();
        Ordered(Mean(sum, n), WHITE);
        NonNegative(Mean(sum, n));
        SignalOfMean(Mean(sum, n));
        UnitIntervalPatterns(Signal(sum, n));
      }
    } else {
      PastWhiteEscapes(Mean(255 * n, n));
      UnitIntervalPatterns(Signal(255 * n, n));
    }
  }

  lemma SaturatedMean(sum: nat, n: u32)
    requires sum == 16778235 && n == 65797
    ensures var v := Mean(sum, n); v == INFINITY || Magnitude(v) >= 255.0 + 1.0 / 65536.0
  {
    CountIsFinite(n);
    ExactNat(n);
    SaturatedSumRoundsUp(sum);
    if FromNat(sum) < INFINITY {
      SaturatedRatio(Magnitude(FromNat(sum)), n);
      RoundsPastWhite(Magnitude(FromNat(sum)) / n as real);
    }
  }

  lemma SaturatedRatio(sum: real, n: nat)
    requires sum >= 16778236.0 && n == 65797
    ensures sum / n as real > 255.0 + 1.0 / 131072.0
  {
  }

  lemma RoundsPastWhite(q: real)
    requires q > 255.0 + 1.0 / 131072.0
    ensures Magnitude(Round(q)) >= 255.0 + 1.0 / 65536.0
  {
    WhiteIs255();
    RoundUp(q, WHITE);
    Ordered(WHITE + 1, Round(q));
  }

  /** The saturated sum needs 25 bits and ties to the even neighbour above. */
  lemma SaturatedSumRoundsUp(sum: nat)
    requires sum == 16778235
    ensures FromNat(sum) == INFINITY || Magnitude(FromNat(sum)) >= 16778236.0
  {
    var below := 151 * FRACTION + 509;
    ValueOfFields(151, 509);
    ValueOfFields(151, 510);
    SmallPowers();
    RoundUp(sum as real, below);
    Ordered(below + 1, FromNat(sum));
  }

  // ---- what the floats are ----

  /** The float steps for one block, each to the nearest pattern: sum, count, mean, signal. */
  ghost predicate Rounded(sum: nat, n: u32, s: u32, c: u32, mean: u32, signal: u32) {
    && Nearest(s, sum as real) && Nearest(c, n as real) && Magnitude(c) > 0.0
    && Nearest(mean, Magnitude(s) / Magnitude(c))
    && Nearest(signal, Magnitude(mean) / 255.0)
  }

  /** What no step exceeds: 2^40. */
  const CEILING: u32 := 167 * FRACTION

  lemma CeilingIs()
    ensures Magnitude(CEILING) == 1099511627776.0
  {
    ValueOfFields(167, 0);
    SmallPowers();
    assert Power(167) == 2.0 * Power(166) == 4.0 * Power(165);
    assert Power(165) == 2.0 * Power(164) == 4.0 * Power(163);
    assert Power(163) == 2.0 * Power(162) == 4.0 * Power(161);
    assert Power(161) == 2.0 * Power(160) == 4.0 * Power(159);
  }

  lemma Shrinks(x: real, d: real)
    requires x >= 0.0 && d >= 1.0
    ensures 0.0 <= x / d <= x
  {
    var q := x / d;
    assert q * d == x;
    NonNegativeFactor(q, d);
    if q > 0.0 {
      MulOrder(1.0, d, q);
    }
  }

  lemma CountBounded(sum: nat)
    requires sum <= 255 * 0xFFFF_FFFF
    ensures 0.0 <= sum as real <= Magnitude(CEILING)
    ensures FromNat(sum) <= CEILING && 0.0 <= Magnitude(FromNat(sum)) <= Magnitude(CEILING)
  {
    CeilingIs();
    RoundAtMost(sum as real, CEILING);
    Ordered(FromNat(sum), CEILING);
    NonNegative(FromNat(sum));
  }

  lemma CountAtLeastOne(n: u32)
    requires n > 0
    ensures Magnitude(FromNat(n)) >= 1.0
  {
    RoundAtLeast(n as real, ONE);
    Ordered(ONE, FromNat(n));
  }

  /** The steps stay far from overflow. */
  lemma MeanStep(sum: nat, n: u32)
    requires n > 0 && sum <= 255 * n
    ensures Magnitude(FromNat(n)) >= 1.0
    ensures 0.0 <= Magnitude(FromNat(sum)) / Magnitude(FromNat(n)) <= Magnitude(CEILING)
    ensures Mean(sum, n) == Round(Magnitude(FromNat(sum)) / Magnitude(FromNat(n)))
  {
    CountBounded(sum);
    CountIsFinite(n);
    CountAtLeastOne(n);
    Shrinks(Magnitude(FromNat(sum)), Magnitude(FromNat(n)));
  }

  lemma RoundBounded(q: real)
    requires 0.0 <= q <= Magnitude(CEILING)
    ensures Round(q) <= CEILING && 0.0 <= Magnitude(Round(q)) <= Magnitude(CEILING)
  {
    RoundAtMost(q, CEILING);
    Ordered(Round(q), CEILING);
    NonNegative(Round(q));
  }

  lemma MeanBounded(sum: nat, n: u32)
    requires n > 0 && sum <= 255 * n
    ensures Mean(sum, n) <= CEILING && 0.0 <= Magnitude(Mean(sum, n)) <= Magnitude(CEILING)
  {
    MeanStep(sum, n);
    RoundBounded(Magnitude(FromNat(sum)) / Magnitude(FromNat(n)));
  }

  lemma Over255(x: real, w: real)
    requires w == 255.0 && x >= 0.0
    ensures x / w == x / 255.0 >= 0.0
  {
    var q := x / w;
    assert q * w == x;
  }

  lemma RatioToWhite(v: u32)
    requires v < INFINITY
    ensures Magnitude(v) / 255.0 >= 0.0 && Ratio(v, WHITE) == Magnitude(v) / 255.0
  {
    WhiteIs255();
    NonNegative(v);
    Over255(Magnitude(v), Magnitude(WHITE));
  }

  lemma OverWhite(v: u32, q: real)
    requires v < INFINITY && q == Magnitude(v) / 255.0
    ensures q >= 0.0 && Quotient(v, WHITE) == Round(q)
  {
    RatioToWhite(v);
    SameRounded(Ratio(v, WHITE), q);
  }

  lemma SameRounded(p: real, q: real)
    requires p == q >= 0.0
    ensures Round(p) == Round(q)
  {
  }

  lemma OverWhiteBounded(v: u32)
    requires v <= CEILING
    ensures 0.0 <= Magnitude(v) / 255.0 <= Magnitude(CEILING)
  {
    NonNegative(v);
    Ordered(v, CEILING);
    Shrinks(Magnitude(v), 255.0);
  }

  lemma SignalStep(sum: nat, n: u32)
    requires n > 0 && sum <= 255 * n
    ensures 0.0 <= Magnitude(Mean(sum, n)) / 255.0 <= Magnitude(CEILING)
    ensures Signal(sum, n) == Round(Magnitude(Mean(sum, n)) / 255.0)
  {
    MeanBounded(sum, n);
    OverWhiteBounded(Mean(sum, n));
    OverWhite(Mean(sum, n), Magnitude(Mean(sum, n)) / 255.0);
  }

  lemma CountNearest(n: nat)
    requires n <= 255 * 0xFFFF_FFFF
    ensures Nearest(FromNat(n), n as real)
  {
    CountBounded(n);
    RoundNearest(n as real, CEILING);
  }

  lemma MeanNearest(sum: nat, n: u32)
    requires n > 0 && sum <= 255 * n
    ensures Magnitude(FromNat(n)) > 0.0
    ensures Nearest(Mean(sum, n), Magnitude(FromNat(sum)) / Magnitude(FromNat(n)))
  {
    MeanStep(sum, n);
    RoundNearest(Magnitude(FromNat(sum)) / Magnitude(FromNat(n)), CEILING);
  }

  lemma SignalNearest(sum: nat, n: u32)
    requires n > 0 && sum <= 255 * n
    ensures Nearest(Signal(sum, n), Magnitude(Mean(sum, n)) / 255.0)
  {
    SignalStep(sum, n);
    RoundNearest(Magnitude(Mean(sum, n)) / 255.0, CEILING);
  }

  lemma StepsAreNearest(sum: nat, n: u32)
    requires n > 0 && sum <= 255 * n
    ensures Rounded(sum, n, FromNat(sum), FromNat(n), Mean(sum, n), Signal(sum, n))
  {
    CountNearest(sum);
    CountNearest(n);
    MeanNearest(sum, n);
    SignalNearest(sum, n);
  }

  lemma CountIsNearest(n: nat, b: u32)
    requires n <= 255 * 0xFFFF_FFFF && Nearest(b, n as real)
    ensures b == FromNat(n)
  {
    CountBounded(n);
    NearestIsRound(b, n as real, CEILING);
  }

  lemma MeanIsNearest(sum: nat, n: u32, mean: u32)
    requires n > 0 && sum <= 255 * n && Magnitude(FromNat(n)) > 0.0
    requires Nearest(mean, Magnitude(FromNat(sum)) / Magnitude(FromNat(n)))
    ensures mean == Mean(sum, n)
  {
    MeanStep(sum, n);
    NearestIsRound(mean, Magnitude(FromNat(sum)) / Magnitude(FromNat(n)), CEILING);
  }

  lemma SignalIsNearest(sum: nat, n: u32, signal: u32)
    requires n > 0 && sum <= 255 * n && Nearest(signal, Magnitude(Mean(sum, n)) / 255.0)
    ensures signal == Signal(sum, n)
  {
    SignalStep(sum, n);
    NearestIsRound(signal, Magnitude(Mean(sum, n)) / 255.0, CEILING);
  }

  lemma StepsAreUnique(sum: nat, n: u32, s: u32, c: u32, mean: u32, signal: u32)
    requires n > 0 && sum <= 255 * n && Rounded(sum, n, s, c, mean, signal)
    ensures mean == Mean(sum, n) && signal == Signal(sum, n)
  {
    CountIsNearest(sum, s);
    CountIsNearest(n, c);
    MeanIsNearest(sum, n, mean);
    SignalIsNearest(sum, n, signal);
  }

  /** A block is shown with this signal: its rounded mean exceeds the threshold. */
  ghost predicate Shown(sum: nat, n: u32, threshold: byte, signal: u32) {
    exists s, c, mean :: Rounded(sum, n, s, c, mean, signal) && Magnitude(mean) > threshold as real
  }

  /** Exactly which blocks pass and with which signal: each float step is the nearest one. */
  lemma PassesIffShown(sum: nat, n: u32, threshold: byte, signal: u32)
    requires n > 0 && sum <= 255 * n
    ensures Passes(sum, n, threshold) && signal == Signal(sum, n) <==> Shown(sum, n, threshold, signal)
  {
    ExactNat(threshold);
    StepsAreNearest(sum, n);
    if Shown(sum, n, threshold, signal) {
      var s, c, mean :| Rounded(sum, n, s, c, mean, signal) && Magnitude(mean) > threshold as real;
      StepsAreUnique(sum, n, s, c, mean, signal);
    }
  }

  // ---- how far from exact ----

  lemma {:induction false} SmallUlp(b: u32)
    requires b < ONE
    ensures Ulp(b) <= 1.0 / 8388608.0
    decreases BinadesFromOne(b)
  {
    if b < FRACTION {
      SmallestNormal();
    } else if b + FRACTION < ONE {
      SmallUlp(b + FRACTION);
    } else {
      FirstBinade(b + FRACTION);
    }
  }

  lemma UlpUpToWhite(b: u32)
    requires b <= WHITE
    ensures Ulp(b) <= 1.0 / 65536.0
    ensures b <= ONE ==> Ulp(b) <= 1.0 / 8388608.0
  {
    if b < ONE {
      SmallUlp(b);
    } else {
      PowerOf8();
      UlpAtMost(b, 8, 1.0 / 65536.0);
      if b == ONE {
        FirstBinade(b);
      }
    }
  }

  /** Rounding moves by at most half the distance to the next pattern. */
  lemma HalfUlp(q: real, top: u32)
    requires q >= 0.0 && top < INFINITY && q <= Magnitude(top)
    ensures FloorPattern(q, 0) <= top
    ensures Distance(q, Magnitude(Round(q))) <= Ulp(FloorPattern(q, 0)) / 2.0
  {
    var low := FloorPattern(q, 0);
    Ordered(low, top);
    if low == top {
      UlpPositive(low);
    }
    if low + 1 == INFINITY {
      assert low == top;
    }
  }

  lemma MeanWithin(sum: nat, n: u32)
    requires 0 < n <= EXACT_BLOCK && sum <= 255 * n
    ensures Distance(sum as real / n as real, Magnitude(Mean(sum, n))) <= 1.0 / 131072.0
  {
    MeanOfExact(sum, n);
    RatioAtMost(sum, n, 255);
    WhiteIs255();
    HalfUlp(sum as real / n as real, WHITE);
    UlpUpToWhite(FloorPattern(sum as real / n as real, 0));
  }

  lemma SignalOfMeanWithin(v: u32)
    requires v <= INFINITY && 0.0 <= Magnitude(v) <= 255.0
    ensures Distance(Magnitude(v) / 255.0, Magnitude(Quotient(v, WHITE))) <= 1.0 / 16777216.0
  {
    WhiteIs255();
    Ordered(WHITE + 1, v);
    HalfUlp(Magnitude(v) / 255.0, ONE);
    UlpUpToWhite(FloorPattern(Magnitude(v) / 255.0, 0));
  }

  /** An exact block's signal is its mean luminance over 255, to within 2^-23. */
  lemma SignalWithin(sum: nat, n: u32)
    requires 0 < n <= 65793 && sum <= 255 * n
    ensures -1.0 / 8388608.0 <= Magnitude(Signal(sum, n)) - sum as real / n as real / 255.0 <= 1.0 / 8388608.0
  {
    MeanAtMostWhite(sum, n);
    MeanWithin(sum, n);
    SignalOfMeanWithin(Mean(sum, n));
  }
}
