/** Where the mock camera's walking band goes: a cyclic interval, covering the grid evenly. */
module Band {
  import opened Machine
  import opened Frames
  import opened MockModel

  // ---- when 32-bit addition does not disturb the band ----

  /** The cell i steps after base, around the grid. */
  function CyclicSite(base: nat, i: nat, total: nat): nat
    requires total > 0
  {
    (base + i) % total
  }

  /** Multiples of a positive total are no closer together than the total. */
  lemma MultiplesApart(total: int, d: int)
    requires total >= 0
    ensures d >= 1 ==> total * d >= total
    ensures d <= -1 ==> total * d <= -total
  {
    if d >= 1 {
      assert total * (d - 1) >= 0;
    } else if d <= -1 {
      assert total * (-1 - d) >= 0;
    }
  }

  lemma ModOnce(a: nat, total: nat)
    requires total > 0 && total <= a < 2 * total
    ensures a % total == a - total
  {
    var d := a / total - 1;
    assert a == total * (a / total) + a % total;
    assert total * (a / total) == total * d + total;
    MultiplesApart(total, d);
  }

  lemma ModSmall(a: nat, total: nat)
    requires a < total
    ensures a % total == a
  {
  }

  lemma NoWrap(base: u32, i: nat, total: nat)
    requires 0 < total < U32 && base + i < U32
    ensures WrappedSite(base, i, total) == CyclicSite(base, i, total)
  {
    ModSmall(base + i, U32);
  }

  /** The first step past 2^32 lands on cell 0 instead of cell 2^32 - total. */
  lemma WrapMisses(base: u32, n: nat, total: nat)
    requires base < total < U32 && n <= total && base + n > U32
    ensures WrappedSite(base, U32 - base, total) == 0
    ensures CyclicSite(base, U32 - base, total) == U32 - total > 0
  {
    ModOnce(U32, total);
    ModSmall(0, total);
  }

  /**
    The band is the cyclic interval the design describes exactly when base + i stays
    inside 32 bits; a caller can check that from the geometry.
   */
  lemma BandIsCyclicIff(base: u32, n: nat, total: nat)
    requires base < total < U32 && n <= total
    ensures (forall i :: 0 <= i < n ==> WrappedSite(base, i, total) == CyclicSite(base, i, total))
            <==> base + n <= U32
  {
    if base + n > U32 {
      WrapMisses(base, n, total);
    } else {
      forall i | 0 <= i < n
        ensures WrappedSite(base, i, total) == CyclicSite(base, i, total)
      {
        NoWrap(base, i, total);
      }
    }
  }

  // ---- how far a cell is ahead of the band's start ----

  /** Steps from the start of frame k's band to cell c. */
  function Offset(c: nat, k: nat, total: nat): (d: nat)
    requires c < total
    ensures d < total
  {
    var base := k % total;
    if base <= c then c - base else c + total - base
  }

  lemma ModStep(k: nat, total: nat)
    requires total > 0
    ensures (k + 1) % total == if k % total + 1 == total then 0 else k % total + 1
  {
    var q, r := k / total, k % total;
    assert k == total * q + r;
    if r + 1 == total {
      assert k + 1 == total * (q + 1);
      MultipleMod(q + 1, total);
    } else {
      RemainderIs(q, r + 1, total);
    }
  }

  lemma MultipleMod(q: nat, total: nat)
    requires total > 0
    ensures (total * q) % total == 0
  {
    RemainderIs(q, 0, total);
  }

  lemma RemainderIs(q: nat, r: nat, total: nat)
    requires r < total
    ensures (total * q + r) % total == r
  {
    var a := total * q + r;
    assert a == total * (a / total) + a % total;
    var d := a / total - q;
    assert total * d == r - a % total;
    MultiplesApart(total, d);
  }

  lemma OffsetStep(c: nat, k: nat, total: nat)
    requires c < total
    ensures Offset(c, k + 1, total) == if Offset(c, k, total) == 0 then total - 1 else Offset(c, k, total) - 1
  {
    ModStep(k, total);
  }

  lemma {:induction false} OffsetAfter(c: nat, s: nat, k: nat, total: nat)
    requires c < total && k < total
    ensures var d := Offset(c, s, total);
            Offset(c, s + k, total) == if k <= d then d - k else d + total - k
    decreases k
  {
    if k > 0 {
      OffsetAfter(c, s, k - 1, total);
      OffsetStep(c, s + k - 1, total);
    }
  }

  /** The i-th cell of frame k's band is c exactly when i is c's offset. */
  lemma SiteIsCell(c: nat, k: nat, i: nat, total: nat)
    requires c < total && i < total
    ensures CyclicSite(k % total, i, total) == c <==> i == Offset(c, k, total)
  {
    var base := k % total;
    if base + i < total {
      ModSmall(base + i, total);
    } else {
      ModOnce(base + i, total);
    }
  }

  // ---- coverage ----

  /** How often cell c is among the first n cells of frame k's band. */
  function TimesInBand(c: nat, k: nat, n: nat, total: nat): nat
    requires total > 0
    decreases total, n
  {
    if n == 0 then 0
    else TimesInBand(c, k, n - 1, total) + (if CyclicSite(k % total, n - 1, total) == c then 1 else 0)
  }

  lemma {:induction false} OnceIfNear(c: nat, k: nat, n: nat, total: nat)
    requires c < total && n <= total
    ensures TimesInBand(c, k, n, total) == if Offset(c, k, total) < n then 1 else 0
    decreases n
  {
    if n > 0 {
      OnceIfNear(c, k, n - 1, total);
      SiteIsCell(c, k, n - 1, total);
    }
  }

  /** How often cell c is reported by frames s, s + 1, ..., s + len - 1. */
  function TimesReported(c: nat, s: nat, len: nat, n: nat, total: nat): nat
    requires total > 0
    decreases total, len
  {
    if len == 0 then 0 else TimesReported(c, s, len - 1, n, total) + TimesInBand(c, s + len - 1, n, total)
  }

  function Min(a: int, b: int): int {
    if a <= b then a else b
  }

  function Positive(a: int): int {
    if a >= 0 then a else 0
  }

  /** Of the offsets d, d - 1, ..., around to length len, how many are below n. */
  function CountBelow(d: nat, len: nat, n: nat, total: nat): int {
    if len <= d + 1 then Positive(Min(n, d + 1) - (d + 1 - len))
    else Min(n, d + 1) + Positive(n - (d + 1 + total - len))
  }

  lemma {:induction false} ReportsCounted(c: nat, s: nat, len: nat, n: nat, total: nat)
    requires c < total && n <= total && len <= total
    ensures TimesReported(c, s, len, n, total) == CountBelow(Offset(c, s, total), len, n, total)
    decreases len
  {
    if len > 0 {
      ReportsCounted(c, s, len - 1, n, total);
      OnceIfNear(c, s + len - 1, n, total);
      OffsetAfter(c, s, len - 1, total);
    }
  }

  /** Over any `total` consecutive frames every cell is reported exactly n times. */
  lemma CoverageEven(c: nat, s: nat, n: nat, total: nat)
    requires c < total && n <= total
    ensures TimesReported(c, s, total, n, total) == n
  {
    ReportsCounted(c, s, total, n, total);
  }

  lemma CyclicDistinct(base: nat, i: nat, j: nat, total: nat)
    requires base < total && i < j < total
    ensures CyclicSite(base, i, total) != CyclicSite(base, j, total)
  {
    var c := CyclicSite(base, i, total);
    ModSmall(base, total);
    SiteIsCell(c, base, i, total);
    SiteIsCell(c, base, j, total);
  }

  /** Past 2^32 two steps land on cell 0: the one that completes the grid and the one that wraps. */
  lemma CellZeroTwice(base: u32, n: nat, total: nat)
    requires base < total < U32 && n <= total && base + n > U32
    ensures 0 < total - base < U32 - base < n
    ensures WrappedSite(base, total - base, total) == 0 == WrappedSite(base, U32 - base, total)
  {
    ModSmall(total, U32);
    MultipleMod(1, total);
    WrapMisses(base, n, total);
  }

  /** The sites of one frame are distinct cells exactly when the band stays inside 32 bits. */
  lemma BandDistinct(base: u32, n: nat, total: nat)
    requires base < total < U32 && n <= total
    ensures (forall i, j :: 0 <= i < j < n ==> WrappedSite(base, i, total) != WrappedSite(base, j, total))
            <==> base + n <= U32
  {
    if base + n <= U32 {
      forall i, j | 0 <= i < j < n
        ensures WrappedSite(base, i, total) != WrappedSite(base, j, total)
      {
        NoWrap(base, i, total);
        NoWrap(base, j, total);
        CyclicDistinct(base, i, j, total);
      }
    } else {
      CellZeroTwice(base, n, total);
    }
  }

  // ---- back to the frames themselves ----

  lemma {:induction false} OccurrencesInFrame(cfg: MockConfig, sequence: u64, n: nat, c: u32)
    requires cfg.Valid() && n <= cfg.Total() && sequence % cfg.Total() + n <= U32
    ensures multiset(BandSupport(cfg, sequence, n))[c] == TimesInBand(c, sequence, n, cfg.Total())
    decreases n
  {
    if n > 0 {
      OccurrencesInFrame(cfg, sequence, n - 1, c);
      BandIsCyclicIff(sequence % cfg.Total(), n, cfg.Total());
      var band := BandSupport(cfg, sequence, n);
      assert band == BandSupport(cfg, sequence, n - 1) + [band[n - 1]];
    }
  }

  /** How often cell c occurs in the supports of `len` consecutive frames. */
  function Occurrences(cfg: MockConfig, s: u64, len: nat, n: nat, c: u32): nat
    requires cfg.Valid() && s + len <= U64
    decreases n, len
  {
    if len == 0 then 0
    else Occurrences(cfg, s, len - 1, n, c) + multiset(BandSupport(cfg, s + len - 1, n))[c]
  }

  lemma {:induction false} OccurrencesAreReports(cfg: MockConfig, s: u64, len: nat, n: nat, c: u32)
    requires cfg.Valid() && s + len <= U64 && n <= cfg.Total() && cfg.Total() + n <= U32 + 1
    ensures Occurrences(cfg, s, len, n, c) == TimesReported(c, s, len, n, cfg.Total())
    decreases len
  {
    if len > 0 {
      OccurrencesAreReports(cfg, s, len - 1, n, c);
      OccurrencesInFrame(cfg, s + len - 1, n, c);
    }
  }

  lemma SitesCoverEvenly(cfg: MockConfig, s: u64, n: nat, c: u32)
    requires cfg.Valid() && s + cfg.Total() <= U64 && c < cfg.Total()
    requires n <= cfg.Total() && cfg.Total() + n <= U32 + 1
    ensures Occurrences(cfg, s, cfg.Total(), n, c) == n
  {
    OccurrencesAreReports(cfg, s, cfg.Total(), n, c);
    CoverageEven(c, s, n, cfg.Total());
  }

  // ---- and unevenly once the band leaves 32 bits ----

  lemma TwiceThere(band: seq<u32>, i: nat, j: nat)
    requires i < j < |band| && band[i] == band[j]
    ensures multiset(band)[band[i]] >= 2
  {
    var x, front, back := band[i], band[..j], band[j + 1..];
    assert front[i] == x;
    assert band == front + [band[j]] + back;
  }

  /** A frame never shows cell 0 less often than the cyclic band would, and more often past 2^32. */
  lemma CellZeroInFrame(cfg: MockConfig, sequence: u64, n: nat)
    requires cfg.Valid() && n <= cfg.Total()
    ensures var shown := multiset(BandSupport(cfg, sequence, n))[0];
            var due := TimesInBand(0, sequence, n, cfg.Total());
            shown >= due && (sequence % cfg.Total() + n > U32 ==> shown > due)
  {
    var base, total := sequence % cfg.Total(), cfg.Total();
    if base + n <= U32 {
      OccurrencesInFrame(cfg, sequence, n, 0);
    } else {
      CellZeroTwice(base, n, total);
      TwiceThere(BandSupport(cfg, sequence, n), total - base, U32 - base);
      OnceIfNear(0, sequence, n, total);
    }
  }

  lemma {:induction false} CellZeroNeverUnder(cfg: MockConfig, s: u64, len: nat, n: nat)
    requires cfg.Valid() && s + len <= U64 && n <= cfg.Total()
    ensures Occurrences(cfg, s, len, n, 0) >= TimesReported(0, s, len, n, cfg.Total())
    decreases len
  {
    if len > 0 {
      CellZeroNeverUnder(cfg, s, len - 1, n);
      CellZeroInFrame(cfg, s + len - 1, n);
    }
  }

  lemma {:induction false} CellZeroOver(cfg: MockConfig, s: u64, len: nat, n: nat, k: nat)
    requires cfg.Valid() && s + len <= U64 && n <= cfg.Total()
    requires k < len && (s + k) % cfg.Total() + n > U32
    ensures Occurrences(cfg, s, len, n, 0) > TimesReported(0, s, len, n, cfg.Total())
    decreases len
  {
    CellZeroInFrame(cfg, s + len - 1, n);
    if k == len - 1 {
      CellZeroNeverUnder(cfg, s, len - 1, n);
    } else {
      CellZeroOver(cfg, s, len - 1, n, k);
    }
  }

  lemma ModSum(s: nat, k: nat, total: nat)
    requires total > 0
    ensures (s % total + k) % total == (s + k) % total
  {
    var x := s % total + k;
    assert s == total * (s / total) + s % total;
    assert x == total * (x / total) + x % total;
    assert s + k == total * (s / total + x / total) + x % total;
    RemainderIs(s / total + x / total, x % total, total);
  }

  /** A full round of frames starts a band at the last cell. */
  lemma RoundReachesLast(s: nat, total: nat) returns (k: nat)
    requires total > 0
    ensures k < total && (s + k) % total == total - 1
  {
    k := Offset(total - 1, s, total);
    SiteIsCell(total - 1, s, k, total);
    assert CyclicSite(s % total, k, total) == (s % total + k) % total;
    ModSum(s, k, total);
  }

  ghost predicate OccursEach(cfg: MockConfig, s: u64, total: nat, n: nat)
    requires cfg.Valid() && s + total <= U64
  {
    forall c: u32 :: c < total ==> Occurrences(cfg, s, total, n, c) == n
  }

  lemma SitesCoverIff(cfg: MockConfig, s: u64, total: nat, n: nat)
    requires cfg.Valid() && total == cfg.Total() && s + total <= U64 && n <= total
    ensures OccursEach(cfg, s, total, n) <==> total + n <= U32 + 1
  {
    if total + n <= U32 + 1 {
      forall c: u32 | c < total
        ensures Occurrences(cfg, s, total, n, c) == n
      {
        SitesCoverEvenly(cfg, s, n, c);
      }
    } else {
      var k := RoundReachesLast(s, total);
      CellZeroOver(cfg, s, total, n, k);
      CoverageEven(0, s, n, total);
    }
  }

  // ---- what the frames show ----

  /** How often cell c occurs in these frames. */
  function Shown(frames: seq<FrameValue>, c: u32): nat {
    if frames == [] then 0
    else Shown(frames[..|frames| - 1], c) + multiset(frames[|frames| - 1].support)[c]
  }

  ghost predicate Bands(cfg: MockConfig, frames: seq<FrameValue>, sequence: u64, n: nat)
    requires cfg.Valid() && sequence + |frames| <= U64
  {
    forall k :: 0 <= k < |frames| ==> frames[k].support == BandSupport(cfg, sequence + k, n)
  }

  lemma {:induction false} ShownAreOccurrences(
      cfg: MockConfig, frames: seq<FrameValue>, sequence: u64, n: nat, c: u32)
    requires cfg.Valid() && sequence + |frames| <= U64 && Bands(cfg, frames, sequence, n)
    ensures frames != [] ==> Shown(frames, c) == Occurrences(cfg, sequence, |frames|, n, c)
    decreases |frames|
  {
    if |frames| > 1 {
      ShownAreOccurrences(cfg, frames[..|frames| - 1], sequence, n, c);
    } else if frames != [] {
      assert frames[..0] == [] && Shown(frames[..0], c) == 0;
      assert Occurrences(cfg, sequence, 0, n, c) == 0;
    }
  }

  /** Frames s, s + 1, ... of a synthetic camera, as many as its grid has cells, the sequence not wrapping. */
  ghost predicate IsRound(
      cfg: MockConfig, cameraId: u32, capacity: u32, start: int, period: nat, wakes: seq<i64>, s: nat,
      frames: seq<FrameValue>)
  {
    && cfg.Valid() && |frames| == cfg.rows * cfg.cols && s + |frames| <= |wakes|
    && s % 0x1_0000_0000_0000_0000 + |frames| <= 0x1_0000_0000_0000_0000
    && forall k :: 0 <= k < |frames| ==>
         frames[k] == FrameNumber(cfg, cameraId, capacity, start, period, wakes, s + k)
  }

  lemma NumberedOn(s: nat, k: nat)
    requires s % U64 + k < U64
    ensures (s + k) % U64 == s % U64 + k
  {
  }

  lemma FrameShows(
      cfg: MockConfig, cameraId: u32, capacity: u32, start: int, period: nat, wakes: seq<i64>, k: nat, sequence: u64)
    requires cfg.Valid() && k < |wakes| && k % U64 == sequence
    ensures FrameNumber(cfg, cameraId, capacity, start, period, wakes, k).support
            == BandSupport(cfg, sequence, BandWidth(cfg, capacity))
  {
    FramesNumbered(start, period, wakes, k);
  }

  lemma RoundBands(
      cfg: MockConfig, cameraId: u32, capacity: u32, start: int, period: nat, wakes: seq<i64>, s: nat,
      frames: seq<FrameValue>)
    requires IsRound(cfg, cameraId, capacity, start, period, wakes, s, frames)
    ensures Bands(cfg, frames, s % U64, BandWidth(cfg, capacity))
    ensures frames != [] && |frames[0].support| == BandWidth(cfg, capacity) <= |frames| == cfg.Total()
  {
    forall k | 0 <= k < |frames|
      ensures frames[k].support == BandSupport(cfg, s % U64 + k, BandWidth(cfg, capacity))
    {
      NumberedOn(s, k);
      FrameShows(cfg, cameraId, capacity, start, period, wakes, s + k, s % U64 + k);
    }
  }

  /**
    The walking band visits the grid evenly: any `rows * cols` consecutive frames, the sequence
    not wrapping among them, show every cell once for each site a frame has.
   */
  lemma GridCoveredEvenly(
      cfg: MockConfig, cameraId: u32, capacity: u32, start: int, period: nat, wakes: seq<i64>, s: nat,
      frames: seq<FrameValue>, c: u32)
    requires IsRound(cfg, cameraId, capacity, start, period, wakes, s, frames)
    requires c < |frames| && |frames| + |frames[0].support| <= 0x1_0000_0001
    ensures Shown(frames, c) == |frames[0].support|
  {
    RoundBands(cfg, cameraId, capacity, start, period, wakes, s, frames);
    ShownAreOccurrences(cfg, frames, s % U64, |frames[0].support|, c);
    SitesCoverEvenly(cfg, s % U64, |frames[0].support|, c);
  }

  ghost predicate ShowsEach(frames: seq<FrameValue>, n: nat) {
    forall c: u32 :: c < |frames| ==> Shown(frames, c) == n
  }

  lemma ShowsIffOccurs(cfg: MockConfig, frames: seq<FrameValue>, sequence: u64, n: nat)
    requires cfg.Valid() && frames != [] && sequence + |frames| <= U64 && Bands(cfg, frames, sequence, n)
    ensures ShowsEach(frames, n) <==> OccursEach(cfg, sequence, |frames|, n)
  {
    forall c: u32
      ensures Shown(frames, c) == Occurrences(cfg, sequence, |frames|, n, c)
    {
      ShownAreOccurrences(cfg, frames, sequence, n, c);
    }
  }

  /**
    Exactly which geometries are covered evenly, over any full round of frames in which the
    sequence does not wrap: those whose last band still ends inside 32 bits. Otherwise cell 0
    is shown too often.
   */
  lemma CoveredEvenlyIff(
      cfg: MockConfig, cameraId: u32, capacity: u32, start: int, period: nat, wakes: seq<i64>, s: nat,
      frames: seq<FrameValue>)
    requires IsRound(cfg, cameraId, capacity, start, period, wakes, s, frames)
    ensures frames != []
    ensures var n := |frames[0].support|;
            ShowsEach(frames, n) <==> |frames| + n <= 0x1_0000_0001
  {
    RoundBands(cfg, cameraId, capacity, start, period, wakes, s, frames);
    ShowsIffOccurs(cfg, frames, s % U64, |frames[0].support|);
    SitesCoverIff(cfg, s % U64, |frames|, |frames[0].support|);
  }
}
