/**
  The synthetic camera of mock_camera.c on values: deadline pacing, the walking band,
  the sequence counter.
 */
module MockModel {
  import opened Machine
  import opened Frames
  import opened Binary32

  datatype MockConfig = MockConfig(rows: u32, cols: u32, sites: u32)
  {
    /** The grid, which the driver refuses unless it fits 32 bits. */
    function Total(): nat {
      rows * cols
    }

    ghost predicate Valid() {
      0 < Total() < U32
    }
  }

  /** Deadlines and the clock are unbounded nanoseconds. */
  datatype MockState = MockState(period: nat, next: int, sequence: u64)

  const NANOSECONDS := 1000000000.0

  /** The period of a rate, cut to whole nanoseconds; a rate beyond one per nanosecond has none. */
  function PeriodOf(fps: real): (period: nat)
    requires fps > 0.0
    ensures period as real <= 1000000000.0 / fps < period as real + 1.0
    ensures period == 0 <==> fps > 1000000000.0
  {
    PeriodPositive(fps);
    (NANOSECONDS / fps).Floor
  }

  lemma PeriodPositive(fps: real)
    requires fps > 0.0
    ensures (NANOSECONDS / fps).Floor >= 1 <==> fps <= NANOSECONDS
    ensures (NANOSECONDS / fps).Floor >= 0
  {
    var q := NANOSECONDS / fps;
    assert q * fps == NANOSECONDS;
    if q >= 1.0 {
      assert (q - 1.0) * fps >= 0.0;
    } else {
      assert (1.0 - q) * fps > 0.0;
    }
  }

  /** mock_init: the first deadline is one period away. */
  function Started(period: nat, now: int): MockState {
    MockState(period, now + period, 0)
  }

  // ---- pacing ----

  /** Advance by one period, or resync from the wake if that is already past. */
  function NextDeadline(deadline: int, wake: int, period: nat): int {
    if deadline + period <= wake then wake + period else deadline + period
  }

  // ---- the band ----

  /** base + i in 32 bits, then the remainder. */
  function WrappedSite(base: u32, i: nat, total: nat): u32
    requires 0 < total < U32
  {
    (base + i) % U32 % total
  }

  /** As many sites as asked for, as there are, and as fit. */
  function BandWidth(cfg: MockConfig, capacity: u32): (n: nat)
    ensures n <= cfg.sites && n <= cfg.Total() && n <= capacity
    ensures n == cfg.sites || n == cfg.Total() || n == capacity
  {
    var n: nat := if cfg.sites > cfg.Total() then cfg.Total() else cfg.sites;
    if n > capacity then capacity else n
  }

  /** The value of a site: its index modulo 256, as a fraction of 255, rounded to binary32. */
  function SiteSignal(site: u32): u32 {
    Round((site % 256) as real / 255.0)
  }

  function BandSupport(cfg: MockConfig, sequence: u64, n: nat): (s: seq<u32>)
    requires cfg.Valid()
    ensures |s| == n
    ensures forall i :: 0 <= i < n ==> s[i] == WrappedSite(sequence % cfg.Total(), i, cfg.Total())
  {
    seq(n, i requires 0 <= i < n => WrappedSite(sequence % cfg.Total(), i, cfg.Total()))
  }

  function BandSignal(support: seq<u32>): (s: seq<u32>)
    ensures |s| == |support|
    ensures forall i :: 0 <= i < |s| ==> s[i] == SiteSignal(support[i])
  {
    seq(|support|, i requires 0 <= i < |support| => SiteSignal(support[i]))
  }

  // ---- one acquire ----

  /** The frame stamped at `wake`. */
  function Acquired(cfg: MockConfig, st: MockState, cameraId: u32, capacity: u32, wake: i64): FrameValue
    requires cfg.Valid()
  {
    var support := BandSupport(cfg, st.sequence, BandWidth(cfg, capacity));
    FrameValue(cameraId, wake, st.sequence, support, BandSignal(support))
  }

  function AfterAcquire(st: MockState, wake: int): MockState {
    MockState(st.period, NextDeadline(st.next, wake, st.period), (st.sequence + 1) % U64)
  }

  // ---- every frame is healthy ----

  lemma SignalInRange(site: u32)
    ensures !OutsideUnitInterval(SiteSignal(site))
  {
    var q := (site % 256) as real / 255.0;
    RoundAtMost(q, ONE);
    UnitIntervalPatterns(SiteSignal(site));
  }

  /** Signals ramp up with the site, from 0.0 at one multiple of 256 to 1.0 just before the next. */
  lemma SignalsRamp(s: u32, t: u32)
    ensures s % 256 <= t % 256 ==> SiteSignal(s) <= SiteSignal(t)
    ensures s % 256 == 0 ==> SiteSignal(s) == 0
    ensures s % 256 == 255 ==> SiteSignal(s) == ONE
  {
    if s % 256 <= t % 256 {
      RoundMonotone((s % 256) as real / 255.0, (t % 256) as real / 255.0);
    }
    RampEnds(s);
  }

  lemma RampEnds(site: u32)
    ensures site % 256 == 0 ==> SiteSignal(site) == 0
    ensures site % 256 == 255 ==> SiteSignal(site) == ONE
  {
    RoundExact(0);
    RoundExact(ONE);
  }

  /** Whatever the sequence and the capacity: indices on the grid, values in [0, 1]. */
  lemma FramesHealthy(cfg: MockConfig, st: MockState, cameraId: u32, capacity: u32, wake: i64)
    requires cfg.Valid()
    ensures var f := Acquired(cfg, st, cameraId, capacity, wake);
            && f.WellFormed() && |f.support| <= capacity
            && (forall i :: 0 <= i < |f.support| ==> f.support[i] < cfg.Total())
            && forall i :: 0 <= i < |f.signal| ==> !OutsideUnitInterval(f.signal[i])
  {
    var f := Acquired(cfg, st, cameraId, capacity, wake);
    forall i | 0 <= i < |f.signal|
      ensures !OutsideUnitInterval(f.signal[i])
    {
      SignalInRange(f.support[i]);
    }
  }

  // ---- pacing over whole runs ----

  /** The camera's state after k acquires woken at these times. */
  function StateAfter(start: int, period: nat, wakes: seq<i64>, k: nat): (st: MockState)
    requires k <= |wakes|
    ensures st.period == period
    decreases wakes, k
  {
    if k == 0 then Started(period, start) else AfterAcquire(StateAfter(start, period, wakes, k - 1), wakes[k - 1])
  }

  /** The frame the next acquire then fills. */
  function FrameNumber(cfg: MockConfig, cameraId: u32, capacity: u32, start: int, period: nat, wakes: seq<i64>, k: nat)
    : FrameValue
    requires cfg.Valid() && k < |wakes|
  {
    Acquired(cfg, StateAfter(start, period, wakes, k), cameraId, capacity, wakes[k])
  }

  /** No wake of the first k comes before its deadline. */
  ghost predicate Paced(start: int, period: nat, wakes: seq<i64>, k: nat)
    requires k <= |wakes|
    decreases wakes, k
  {
    if k == 0 then period > 0
    else Paced(start, period, wakes, k - 1) && wakes[k - 1] >= StateAfter(start, period, wakes, k - 1).next
  }

  lemma {:induction false} PacedEarlier(start: int, period: nat, wakes: seq<i64>, i: nat, k: nat)
    requires i <= k <= |wakes| && Paced(start, period, wakes, k)
    ensures Paced(start, period, wakes, i)
    decreases k
  {
    if i < k {
      PacedEarlier(start, period, wakes, i, k - 1);
    }
  }

  lemma {:induction false} PacedPeriod(start: int, period: nat, wakes: seq<i64>, k: nat)
    requires k <= |wakes| && Paced(start, period, wakes, k)
    ensures period > 0
    decreases k
  {
    if k > 0 {
      PacedPeriod(start, period, wakes, k - 1);
    }
  }

  /**
    After each acquire the next deadline lies within one period, and a period after the last:
    exactly one period unless the wake came that late, and then one period after the wake.
   */
  lemma DeadlineStep(start: int, period: nat, wakes: seq<i64>, k: nat)
    requires k < |wakes| && Paced(start, period, wakes, k + 1)
    ensures var before, after := StateAfter(start, period, wakes, k), StateAfter(start, period, wakes, k + 1);
            && wakes[k] < after.next <= wakes[k] + period
            && after.next >= before.next + period
            && (wakes[k] < before.next + period ==> after.next == before.next + period)
            && (wakes[k] >= before.next + period ==> after.next == wakes[k] + period)
  {
    PacedPeriod(start, period, wakes, k + 1);
  }

  lemma OneMore(n: nat, period: nat)
    ensures (n + 1) * period == n * period + period
  {
  }

  lemma {:induction false} DeadlinesApart(start: int, period: nat, wakes: seq<i64>, i: nat, n: nat)
    requires i + n <= |wakes| && Paced(start, period, wakes, i + n)
    ensures StateAfter(start, period, wakes, i + n).next >= StateAfter(start, period, wakes, i).next + n * period
    decreases n
  {
    if n > 0 {
      DeadlinesApart(start, period, wakes, i, n - 1);
      DeadlineStep(start, period, wakes, i + n - 1);
      OneMore(n - 1, period);
    }
  }

  /** Frames i < j are stamped more than j - i - 1 periods apart: a stall never bursts a backlog. */
  lemma StampsSpread(
      cfg: MockConfig, cameraId: u32, capacity: u32, start: int, period: nat, wakes: seq<i64>, i: nat, j: nat)
    requires cfg.Valid() && i < j < |wakes| && Paced(start, period, wakes, j + 1)
    ensures var a := FrameNumber(cfg, cameraId, capacity, start, period, wakes, i);
            var b := FrameNumber(cfg, cameraId, capacity, start, period, wakes, j);
            b.tNs - a.tNs > (j - i - 1) * period && a.tNs < b.tNs
  {
    var n: nat := j - i - 1;
    PacedEarlier(start, period, wakes, i + 1, j);
    DeadlineStep(start, period, wakes, i);
    DeadlinesApart(start, period, wakes, i + 1, n);
    NonNegative(n, period);
  }

  lemma NonNegative(n: nat, period: nat)
    ensures n * period >= 0
  {
  }

  /** Frames are numbered by the acquires before them, modulo 2^64. */
  lemma {:induction false} FramesNumbered(start: int, period: nat, wakes: seq<i64>, k: nat)
    requires k <= |wakes|
    ensures StateAfter(start, period, wakes, k).sequence == k % U64
    decreases k
  {
    if k > 0 {
      FramesNumbered(start, period, wakes, k - 1);
    }
  }

  /**
    What the k-th frame is: stamped by its wake and numbered by the acquires before it; it has
    the least of the sites asked for, the grid's cells and the room there is, its i-th site is
    i cells after cell k of the grid, in 32 bits, and each value is the float nearest to the
    site's index modulo 256 over 255.
   */
  lemma FrameIs(
      cfg: MockConfig, cameraId: u32, capacity: u32, start: int, period: nat, wakes: seq<i64>, k: nat)
    requires cfg.Valid() && k < |wakes|
    ensures cfg.rows * cfg.cols > 0
    ensures var f := FrameNumber(cfg, cameraId, capacity, start, period, wakes, k);
            var total, n := cfg.rows * cfg.cols, |f.support|;
            && f.cameraId == cameraId && f.tNs == wakes[k] && f.sequence == k % 0x1_0000_0000_0000_0000
            && n <= cfg.sites && n <= total && n <= capacity && (n == cfg.sites || n == total || n == capacity)
            && |f.signal| == n
            && forall i :: 0 <= i < n ==>
                 && f.support[i] == (k % 0x1_0000_0000_0000_0000 % total + i) % 0x1_0000_0000 % total
                 && Nearest(f.signal[i], (f.support[i] % 256) as real / 255.0)
  {
    var f := FrameNumber(cfg, cameraId, capacity, start, period, wakes, k);
    FramesNumbered(start, period, wakes, k);
    forall i | 0 <= i < |f.support|
      ensures Nearest(f.signal[i], (f.support[i] % 256) as real / 255.0)
    {
      SiteSignalNearest(f.support[i]);
    }
  }

  lemma SiteSignalNearest(site: u32)
    ensures Nearest(SiteSignal(site), (site % 256) as real / 255.0)
  {
    RoundExact(ONE);
    RoundNearest((site % 256) as real / 255.0, ONE);
  }

  /** Some wake among the first k came a whole period late or later. */
  ghost predicate Stalled(start: int, period: nat, wakes: seq<i64>, k: nat)
    requires k <= |wakes|
    decreases wakes, k
  {
    k > 0 && (Stalled(start, period, wakes, k - 1)
              || wakes[k - 1] >= StateAfter(start, period, wakes, k - 1).next + period)
  }

  /** Without a stall deadlines never drift: after k acquires the next is start + (k+1) periods. */
  lemma {:induction false} NoDrift(start: int, period: nat, wakes: seq<i64>, k: nat)
    requires k <= |wakes| && Paced(start, period, wakes, k) && !Stalled(start, period, wakes, k)
    ensures StateAfter(start, period, wakes, k).next == start + (k + 1) * period
    decreases k
  {
    if k > 0 {
      NoDrift(start, period, wakes, k - 1);
      OneMore(k, period);
    } else {
      OneMore(0, period);
    }
  }
}
