/** The webcam backend of v4l2_webcam.c, its driver reduced to what one call may bring back. */
module Webcam {
  import opened Machine
  import opened Frames
  import opened Binary32
  import opened BlockMeans
  import opened RowMajor
  import opened Tiling
  import opened Yuyv

  // ---- what one image becomes ----

  /** The sites a frame of this capacity has room for. */
  function SitesTaken(g: Geometry, img: Image, capacity: u32): (sites: seq<Site>)
    requires Fits(g, img)
    ensures |sites| <= capacity
  {
    var all := AllSites(g, img);
    if |all| <= capacity then all else all[..capacity]
  }

  /** The flattened indices, as the 32-bit values the frame stores. */
  function SupportOf(sites: seq<Site>, cols: nat): (s: seq<u32>)
    ensures |s| == |sites|
    ensures forall i :: 0 <= i < |s| ==> s[i] == sites[i].Index(cols) % U32
  {
    seq(|sites|, i requires 0 <= i < |sites| => sites[i].Index(cols) % U32)
  }

  function SignalOf(sites: seq<Site>): (s: seq<u32>)
    ensures |s| == |sites|
    ensures forall i :: 0 <= i < |s| ==> s[i] == sites[i].signal
  {
    seq(|sites|, i requires 0 <= i < |sites| => sites[i].signal)
  }

  /** The frame an image fills, under the driver's stamp and sequence number. */
  function Captured(g: Geometry, cameraId: u32, capacity: u32, img: Image, tNs: i64, sequence: u32): FrameValue
    requires Fits(g, img)
  {
    var sites := SitesTaken(g, img, capacity);
    FrameValue(cameraId, tNs, sequence, SupportOf(sites, g.Cols()), SignalOf(sites))
  }

  // ---- what a webcam can never send ----

  /** An all-white block of this cell's size has a mean of at most 255. */
  ghost predicate SafeCell(g: Geometry, r: nat, c: nat)
    requires r < g.Rows() && c < g.Cols()
  {
    var n := CellBlock(g, r, c).Area();
    0 < n < U32 ==> Mean(255 * n, n) <= WHITE
  }

  /** Known from the geometry alone, before any image arrives. */
  ghost predicate SafeGrid(g: Geometry) {
    forall r: nat, c: nat :: r < g.Rows() && c < g.Cols() ==> SafeCell(g, r, c)
  }

  lemma TakenSite(g: Geometry, img: Image, capacity: u32, i: nat)
    requires Fits(g, img) && i < |SitesTaken(g, img, capacity)|
    ensures var site := SitesTaken(g, img, capacity)[i];
            && site.row < g.Rows() && site.col < g.Cols()
            && CellSignal(g, img, site.row, site.col) == Some(site.signal)
            && site.Index(g.Cols()) < g.MaxSites()
  {
    GridSound(Reports(g, img), g.Cols(), g.Rows());
    IndexInside(SitesTaken(g, img, capacity)[i], g.Rows(), g.Cols());
  }

  lemma SafeSignal(g: Geometry, img: Image, r: nat, c: nat)
    requires Fits(g, img) && r < g.Rows() && c < g.Cols() && SafeCell(g, r, c)
    requires CellSignal(g, img, r, c).Some?
    ensures !OutsideUnitInterval(CellSignal(g, img, r, c).value)
  {
    var n := CellCount(g, img, r, c);
    BlockSumBound(img, CellBlock(g, r, c));
    SafeIffWhiteIsWhite(n);
  }

  /**
    The frame an image fills: as many of its listed sites as there is room for, in row-major
    order, each as its flattened index and its signal, under the driver's stamp and number.
   */
  lemma CapturedIs(g: Geometry, cameraId: u32, capacity: u32, img: Image, tNs: i64, sequence: u32)
    requires Fits(g, img) && g.MaxSites() < U32
    ensures var f, all := Captured(g, cameraId, capacity, img, tNs, sequence), AllSites(g, img);
            && f.cameraId == cameraId && f.tNs == tNs && f.sequence == sequence
            && |f.support| == |f.signal| == (if |all| <= capacity then |all| else capacity)
            && forall i :: 0 <= i < |f.support| ==>
                 f.support[i] == all[i].row * g.Cols() + all[i].col && f.signal[i] == all[i].signal
  {
    var sites, all := SitesTaken(g, img, capacity), AllSites(g, img);
    forall i | 0 <= i < |sites|
      ensures SupportOf(sites, g.Cols())[i] == all[i].row * g.Cols() + all[i].col
    {
      TakenSite(g, img, capacity, i);
      WordIs(sites[i].Index(g.Cols()), sites[i].Index(g.Cols()));
    }
  }

  /** Indices stay on the grid, whatever the image. */
  lemma CapturedOnGrid(g: Geometry, cameraId: u32, capacity: u32, img: Image, tNs: i64, sequence: u32)
    requires Fits(g, img) && g.MaxSites() < U32
    ensures var f := Captured(g, cameraId, capacity, img, tNs, sequence);
            && f.WellFormed() && |f.support| <= capacity
            && forall i :: 0 <= i < |f.support| ==> f.support[i] < g.MaxSites()
  {
    var sites := SitesTaken(g, img, capacity);
    forall i | 0 <= i < |sites|
      ensures SupportOf(sites, g.Cols())[i] < g.MaxSites()
    {
      TakenSite(g, img, capacity, i);
      WordIs(sites[i].Index(g.Cols()), sites[i].Index(g.Cols()));
    }
  }

  /** Values stay in [0, 1] when every cell is safe. */
  lemma CapturedInRange(g: Geometry, cameraId: u32, capacity: u32, img: Image, tNs: i64, sequence: u32)
    requires Fits(g, img) && SafeGrid(g)
    ensures var f := Captured(g, cameraId, capacity, img, tNs, sequence);
            forall i :: 0 <= i < |f.signal| ==> !OutsideUnitInterval(f.signal[i])
  {
    var sites := SitesTaken(g, img, capacity);
    forall i | 0 <= i < |sites|
      ensures !OutsideUnitInterval(SignalOf(sites)[i])
    {
      TakenSite(g, img, capacity, i);
      SafeSignal(g, img, sites[i].row, sites[i].col);
    }
  }

  // ---- and exactly when ----

  ghost predicate InRange(sites: seq<Site>) {
    forall i :: 0 <= i < |sites| ==> !OutsideUnitInterval(sites[i].signal)
  }

  /** No image of this geometry makes it emit a value outside [0, 1]. */
  ghost predicate NeverEscapes(g: Geometry) {
    forall img :: Fits(g, img) ==> InRange(AllSites(g, img))
  }

  ghost predicate AllWhite(img: Image) {
    forall k :: 0 <= k < |img.raw| ==> img.raw[k] == 255
  }

  function Blank(size: nat): (raw: seq<byte>)
    ensures |raw| == size && forall k :: 0 <= k < size ==> raw[k] == 255
  {
    seq(size, _ => 255)
  }

  function White(g: Geometry): (img: Image)
    requires 2 * (g.width * g.height) < U32
    ensures Fits(g, img) && AllWhite(img)
  {
    MulNonNegative(g.width, g.height);
    Image(g.width, g.height, Blank(2 * (g.width * g.height)))
  }

  lemma {:induction false} WhiteRow(img: Image, y: nat, x0: nat, x1: nat)
    requires img.Valid() && y < img.height && x0 <= x1 <= img.width && AllWhite(img)
    ensures RowSum(img, y, x0, x1) == 255 * (x1 - x0)
    decreases x1
  {
    if x0 < x1 {
      WhiteRow(img, y, x0, x1 - 1);
      PixelInside(img.width, img.height, y, x1 - 1);
      assert img.Luma(y, x1 - 1) == 255;
    }
  }

  lemma {:induction false} WhiteBlock(img: Image, b: Block)
    requires img.Valid() && b.Inside(img) && AllWhite(img)
    ensures BlockSum(img, b) == 255 * b.Area()
    decreases b.y1
  {
    if b.y0 < b.y1 {
      WhiteBlock(img, b.(y1 := b.y1 - 1));
      WhiteRow(img, b.y1 - 1, b.x0, b.x1);
      AreaGrows(b.y1 - 1 - b.y0, b.x1 - b.x0);
    }
  }

  /** No threshold keeps back a mean above 255. */
  lemma PastWhitePasses(sum: nat, n: u32, threshold: byte)
    requires n > 0 && Mean(sum, n) > WHITE
    ensures Passes(sum, n, threshold)
  {
    WhiteIs255();
    RoundAtMost(threshold as real, WHITE);
    Ordered(Mean(sum, n), FromNat(threshold));
  }

  lemma UnsafeSignal(n: u32, threshold: byte)
    requires n > 0 && Mean(255 * n, n) > WHITE
    ensures Passes(255 * n, n, threshold) && OutsideUnitInterval(Signal(255 * n, n))
  {
    PastWhitePasses(255 * n, n, threshold);
    PastWhiteEscapes(Mean(255 * n, n));
    UnitIntervalPatterns(Signal(255 * n, n));
  }

  lemma UnsafeCellSignal(g: Geometry, img: Image, r: nat, c: nat)
    requires Fits(g, img) && AllWhite(img) && r < g.Rows() && c < g.Cols() && !SafeCell(g, r, c)
    ensures var said := CellSignal(g, img, r, c); said.Some? && OutsideUnitInterval(said.value)
  {
    WhiteBlock(img, CellBlock(g, r, c));
    UnsafeSignal(CellCount(g, img, r, c), g.threshold);
  }

  lemma UnsafeCellShows(g: Geometry, img: Image, r: nat, c: nat)
    requires Fits(g, img) && AllWhite(img) && r < g.Rows() && c < g.Cols() && !SafeCell(g, r, c)
    ensures !InRange(AllSites(g, img))
  {
    UnsafeCellSignal(g, img, r, c);
    GridComplete(Reports(g, img), g.Cols(), g.Rows(), r, c);
  }

  lemma SitesInRange(g: Geometry, img: Image)
    requires Fits(g, img) && SafeGrid(g)
    ensures InRange(AllSites(g, img))
  {
    var sites := AllSites(g, img);
    GridSound(Reports(g, img), g.Cols(), g.Rows());
    forall i | 0 <= i < |sites|
      ensures !OutsideUnitInterval(sites[i].signal)
    {
      SafeSignal(g, img, sites[i].row, sites[i].col);
    }
  }

  /** Exactly which geometries keep every value of every image in [0, 1]. */
  lemma NeverEscapesIff(g: Geometry)
    requires 2 * (g.width * g.height) < U32
    ensures NeverEscapes(g) <==> SafeGrid(g)
  {
    if SafeGrid(g) {
      forall img | Fits(g, img)
        ensures InRange(AllSites(g, img))
      {
        SitesInRange(g, img);
      }
    }
    forall r: nat, c: nat | r < g.Rows() && c < g.Cols() && NeverEscapes(g)
      ensures SafeCell(g, r, c)
    {
      if !SafeCell(g, r, c) {
        UnsafeCellShows(g, White(g), r, c);
      }
    }
  }

  // ---- the backend ----

  /** What poll and the driver bring back to one acquire. */
  datatype Capture =
    | Closed
    | PollTimeout
    | PollFailed
    | NothingYet
    | DequeueFailed
    | BadIndex
    | Shot(img: Image, tNs: i64, sequence: u32)
    | RequeueFailed(img: Image, tNs: i64, sequence: u32)
  {
    predicate Fills() {
      Shot? || RequeueFailed?
    }
  }

  /** The return code of v4l2_acquire. */
  function CodeOf(capture: Capture): int {
    match capture
    case Closed => -1
    case PollTimeout => 1
    case PollFailed => -2
    case NothingYet => 1
    case DequeueFailed => -3
    case BadIndex => -4
    case Shot(_, _, _) => 0
    case RequeueFailed(_, _, _) => -5
  }

  class Webcam {
    var geometry: Geometry

    constructor (geometry: Geometry)
      ensures this.geometry == geometry
    {
      this.geometry := geometry;
    }

    /** v4l2_init, the driver granting some image size or nothing at all. */
    method Init(granted: Option<(u32, u32)>) returns (rc: int)
      modifies this
      ensures rc == if granted.Some? then 0 else -1
      ensures geometry == match granted
                          case None => old(geometry)
                          case Some((width, height)) => old(geometry).(width := width, height := height)
    {
      if granted.None? {
        return -1;
      }
      geometry := geometry.(width := granted.value.0, height := granted.value.1);
      rc := 0;
    }

    method Fill(out: Frame, img: Image) returns (count: u32)
      requires out.Valid() && Fits(geometry, img) && geometry.MaxSites() < U32
      modifies out.support, out.signal
      ensures var sites := SitesTaken(geometry, img, out.capacity);
              && count == |sites|
              && out.support[..count] == SupportOf(sites, geometry.Cols())
              && out.signal[..count] == SignalOf(sites)
    {
      count := YuyvToSparse(geometry, img, out);
      ghost var sites := SitesTaken(geometry, img, out.capacity);
      assert AllSites(geometry, img)[..count] == sites;
      HeldAsValues(out.support[..], out.signal[..], sites, geometry.Cols());
      assert out.support[..][..count] == out.support[..count] && out.signal[..][..count] == out.signal[..count];
    }

    /** v4l2_acquire: an image, once dequeued, fills the frame even if handing its buffer back fails. */
    method Acquire(out: Frame, capture: Capture) returns (rc: int)
      requires out.Valid() && (capture.Fills() ==> Fits(geometry, capture.img) && geometry.MaxSites() < U32)
      modifies out`count, out`tNs, out`sequence, out.support, out.signal
      ensures rc == match capture
                    case Closed => -1
                    case PollTimeout => 1
                    case PollFailed => -2
                    case NothingYet => 1
                    case DequeueFailed => -3
                    case BadIndex => -4
                    case Shot(_, _, _) => 0
                    case RequeueFailed(_, _, _) => -5
      ensures rc == CodeOf(capture) && (old(out.Readable()) || rc == 0 ==> out.Readable())
      ensures capture.Fills() ==>
                out.Readable() && out.Value() == Captured(geometry, out.cameraId, out.capacity, capture.img,
                                                          capture.tNs, capture.sequence)
    {
      rc := CodeOf(capture);
      if capture.Fills() {
        var count := Fill(out, capture.img);
        out.count, out.tNs, out.sequence := count, capture.tNs, capture.sequence;
      }
    }
  }

  lemma HeldAsValues(support: seq<u32>, signal: seq<u32>, sites: seq<Site>, cols: nat)
    requires |sites| <= |support| == |signal|
    requires forall i :: 0 <= i < |sites| ==> support[i] == sites[i].Index(cols) && signal[i] == sites[i].signal
    ensures support[..|sites|] == SupportOf(sites, cols) && signal[..|sites|] == SignalOf(sites)
  {
    forall i | 0 <= i < |sites|
      ensures support[i] == SupportOf(sites, cols)[i]
    {
      WordIs(support[i], sites[i].Index(cols));
    }
  }

  lemma WordIs(word: u32, index: nat)
    requires word == index
    ensures index % U32 == word
  {
  }
}
