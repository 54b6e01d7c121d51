/** yuyv_to_sparse: a packed YUYV image to the sparse sites of its bright blocks. */
module Yuyv {
  import opened Machine
  import opened Frames
  import opened Binary32
  import opened BlockMeans
  import opened RowMajor
  import opened Tiling

  datatype Geometry = Geometry(gridRows: u32, gridCols: u32, threshold: byte, width: u32, height: u32)
  {
    /** v4l2_info_from_ctx: a zero grid dimension means one cell per pixel. */
    function Rows(): u32 {
      if gridRows != 0 then gridRows else height
    }

    function Cols(): u32 {
      if gridCols != 0 then gridCols else width
    }

    /** v4l2_max_sites. */
    function MaxSites(): nat {
      Rows() * Cols()
    }
  }

  /** Two bytes a pixel, luminance first. A driver buffer's length is 32 bits wide. */
  datatype Image = Image(width: nat, height: nat, raw: seq<byte>)
  {
    predicate Valid() {
      2 * (width * height) <= |raw| < U32
    }

    function Luma(y: nat, x: nat): byte
      requires Valid() && y < height && x < width
    {
      PixelInside(width, height, y, x);
      raw[2 * (y * width + x)]
    }
  }

  lemma PixelInside(width: nat, height: nat, y: nat, x: nat)
    requires y < height && x < width
    ensures y * width + x < width * height
    ensures 2 * y * width + 2 * x == 2 * (y * width + x)
  {
    MulMono(y + 1, height, width);
  }

  /** A block of pixels, half-open in both directions. */
  datatype Block = Block(y0: nat, y1: nat, x0: nat, x1: nat)
  {
    ghost predicate Inside(img: Image) {
      y0 <= y1 <= img.height && x0 <= x1 <= img.width
    }

    function Area(): int {
      (y1 - y0) * (x1 - x0)
    }
  }

  function RowSum(img: Image, y: nat, x0: nat, x1: nat): nat
    requires img.Valid() && y < img.height && x0 <= x1 <= img.width
  {
    if x0 == x1 then 0 else RowSum(img, y, x0, x1 - 1) + img.Luma(y, x1 - 1)
  }

  function BlockSum(img: Image, b: Block): nat
    requires img.Valid() && b.Inside(img)
    decreases b.y1
  {
    if b.y0 == b.y1 then 0
    else BlockSum(img, b.(y1 := b.y1 - 1)) + RowSum(img, b.y1 - 1, b.x0, b.x1)
  }

  // ---- luminance and area are conserved by cutting ----

  lemma {:induction false} RowSumSplits(img: Image, y: nat, x0: nat, mid: nat, x1: nat)
    requires img.Valid() && y < img.height && x0 <= mid <= x1 <= img.width
    ensures RowSum(img, y, x0, x1) == RowSum(img, y, x0, mid) + RowSum(img, y, mid, x1)
    decreases x1
  {
    if mid < x1 {
      RowSumSplits(img, y, x0, mid, x1 - 1);
    }
  }

  lemma {:induction false} SplitAcross(img: Image, b: Block, mid: nat)
    requires img.Valid() && b.Inside(img) && b.x0 <= mid <= b.x1
    ensures BlockSum(img, b) == BlockSum(img, b.(x1 := mid)) + BlockSum(img, b.(x0 := mid))
    decreases b.y1
  {
    if b.y0 < b.y1 {
      var above := b.(y1 := b.y1 - 1);
      SplitAcross(img, above, mid);
      RowSumSplits(img, b.y1 - 1, b.x0, mid, b.x1);
      assert b.(x1 := mid).(y1 := b.y1 - 1) == above.(x1 := mid);
      assert b.(x0 := mid).(y1 := b.y1 - 1) == above.(x0 := mid);
    }
  }

  lemma {:induction false} SplitDown(img: Image, b: Block, mid: nat)
    requires img.Valid() && b.Inside(img) && b.y0 <= mid <= b.y1
    ensures BlockSum(img, b) == BlockSum(img, b.(y1 := mid)) + BlockSum(img, b.(y0 := mid))
    decreases b.y1
  {
    if mid < b.y1 {
      var above := b.(y1 := b.y1 - 1);
      SplitDown(img, above, mid);
      assert b.(y0 := mid).(y1 := b.y1 - 1) == above.(y0 := mid);
    }
  }

  lemma {:induction false} RowSumBound(img: Image, y: nat, x0: nat, x1: nat)
    requires img.Valid() && y < img.height && x0 <= x1 <= img.width
    ensures RowSum(img, y, x0, x1) <= 255 * (x1 - x0)
    decreases x1
  {
    if x0 < x1 {
      RowSumBound(img, y, x0, x1 - 1);
    }
  }

  lemma {:induction false} BlockSumBound(img: Image, b: Block)
    requires img.Valid() && b.Inside(img)
    ensures BlockSum(img, b) <= 255 * b.Area()
    decreases b.y1
  {
    if b.y0 < b.y1 {
      BlockSumBound(img, b.(y1 := b.y1 - 1));
      RowSumBound(img, b.y1 - 1, b.x0, b.x1);
      AreaGrows(b.y1 - 1 - b.y0, b.x1 - b.x0);
    }
  }

  lemma AreaGrows(rows: nat, cols: nat)
    ensures (rows + 1) * cols == rows * cols + cols
  {
  }

  lemma AreaFits(img: Image, b: Block)
    requires img.Valid() && b.Inside(img)
    ensures 0 <= b.Area() <= img.width * img.height < U32
  {
    MulMono(b.y1 - b.y0, img.height, b.x1 - b.x0);
    MulMono(b.x1 - b.x0, img.width, img.height);
    MulNonNegative(b.y1 - b.y0, b.x1 - b.x0);
  }

  // ---- the specification: row-major, the non-empty cells whose mean passes ----

  predicate Fits(g: Geometry, img: Image) {
    img.Valid() && img.width == g.width && img.height == g.height
  }

  function CellBlock(g: Geometry, r: nat, c: nat): (b: Block)
    requires r < g.Rows() && c < g.Cols()
    ensures b.y0 <= b.y1 <= g.height && b.x0 <= b.x1 <= g.width
  {
    EdgesInside(r, g.Rows(), g.height);
    EdgesInside(c, g.Cols(), g.width);
    Block(Edge(r, g.Rows(), g.height), Edge(r + 1, g.Rows(), g.height),
          Edge(c, g.Cols(), g.width), Edge(c + 1, g.Cols(), g.width))
  }

  function CellCount(g: Geometry, img: Image, r: nat, c: nat): u32
    requires Fits(g, img) && r < g.Rows() && c < g.Cols()
  {
    AreaFits(img, CellBlock(g, r, c));
    CellBlock(g, r, c).Area()
  }

  function CellSum(g: Geometry, img: Image, r: nat, c: nat): nat
    requires Fits(g, img) && r < g.Rows() && c < g.Cols()
  {
    BlockSum(img, CellBlock(g, r, c))
  }

  /** The signal of a cell that is neither empty nor too dark. */
  function CellSignal(g: Geometry, img: Image, r: nat, c: nat): Option<u32>
    requires Fits(g, img) && r < g.Rows() && c < g.Cols()
  {
    var sum, n := CellSum(g, img, r, c), CellCount(g, img, r, c);
    if n > 0 && Passes(sum, n, g.threshold) then Some(Signal(sum, n)) else None
  }

  function Reports(g: Geometry, img: Image): Report
    requires Fits(g, img)
  {
    (r: int, c: int) => if 0 <= r < g.Rows() && 0 <= c < g.Cols() then CellSignal(g, img, r, c) else None
  }

  function AllSites(g: Geometry, img: Image): seq<Site>
    requires Fits(g, img)
  {
    GridSites(Reports(g, img), g.Cols(), g.Rows())
  }

  // ---- the program ----

  method SumRow(img: Image, y: nat, x0: nat, x1: nat) returns (sum: nat, n: nat)
    requires img.Valid() && y < img.height && x0 <= x1 <= img.width
    ensures sum == RowSum(img, y, x0, x1) && n == x1 - x0
  {
    sum, n := 0, 0;
    for x := x0 to x1
      invariant sum == RowSum(img, y, x0, x) && n == x - x0
    {
      PixelInside(img.width, img.height, y, x);
      sum := sum + img.raw[2 * y * img.width + 2 * x];
      n := n + 1;
    }
  }

  method SumBlock(img: Image, b: Block) returns (sum: nat, n: nat)
    requires img.Valid() && b.Inside(img)
    ensures sum == BlockSum(img, b) && n == b.Area()
  {
    sum, n := 0, 0;
    for y := b.y0 to b.y1
      invariant sum == BlockSum(img, b.(y1 := y))
      invariant n == (y - b.y0) * (b.x1 - b.x0)
    {
      var rowSum, rowN := SumRow(img, y, b.x0, b.x1);
      sum, n := sum + rowSum, n + rowN;
      AreaGrows(y - b.y0, b.x1 - b.x0);
      assert b.(y1 := y + 1).(y1 := y) == b.(y1 := y);
    }
    assert b.(y1 := b.y1) == b;
  }

  /** The leading slots of the arrays hold these sites of a grid with this many columns. */
  ghost predicate Holds(support: array<u32>, signal: array<u32>, sites: seq<Site>, cols: nat)
    reads support, signal
  {
    && |sites| <= support.Length == signal.Length
    && forall i :: 0 <= i < |sites| ==>
         support[i] == sites[i].Index(cols) && signal[i] == sites[i].signal
  }

  /** The body of the two outer loops; `full` when a site had to be turned away. */
  method ScanCell(g: Geometry, img: Image, r: u32, c: u32, out: Frame, start: u32, ghost held: seq<Site>)
    returns (count: u32, full: bool)
    requires Fits(g, img) && g.MaxSites() < U32 && r < g.Rows() && c < g.Cols()
    requires out.Valid() && |held| == start <= out.capacity
    requires Holds(out.support, out.signal, held, g.Cols())
    modifies out.support, out.signal
    ensures full <==> CellSignal(g, img, r, c).Some? && start == out.capacity
    ensures full ==> count == start && Holds(out.support, out.signal, held, g.Cols())
    ensures !full ==>
              && count == |Extended(held, r, c, CellSignal(g, img, r, c))| <= out.capacity
              && Holds(out.support, out.signal, Extended(held, r, c, CellSignal(g, img, r, c)), g.Cols())
  {
    var b := CellBlock(g, r, c);
    var sum, n := SumBlock(img, b);
    AreaFits(img, b);
    if n == 0 || !Passes(sum, n, g.threshold) {
      return start, false;
    }
    if start >= out.capacity {
      return start, true;
    }
    IndexInside(Site(r, c, 0), g.Rows(), g.Cols());
    out.support[start], out.signal[start] := r * g.Cols() + c, Signal(sum, n);
    return start + 1, false;
  }

  /** One row of the grid, onto the sites already held. */
  method ScanRow(g: Geometry, img: Image, r: u32, out: Frame, start: u32, ghost before: seq<Site>)
    returns (count: u32, full: bool, ghost held: seq<Site>)
    requires Fits(g, img) && g.MaxSites() < U32 && r < g.Rows()
    requires out.Valid() && |before| == start <= out.capacity
    requires Holds(out.support, out.signal, before, g.Cols())
    modifies out.support, out.signal
    ensures count == |held| <= out.capacity && Holds(out.support, out.signal, held, g.Cols())
    ensures held <= before + RowSites(Reports(g, img), r, g.Cols())
    ensures full ==> count == out.capacity < |before + RowSites(Reports(g, img), r, g.Cols())|
    ensures !full ==> held == before + RowSites(Reports(g, img), r, g.Cols())
  {
    ghost var report := Reports(g, img);
    count, full, held := start, false, before;
    for c := 0 to g.Cols()
      invariant held == before + RowSites(report, r, c)
      invariant count == |held| <= out.capacity && Holds(out.support, out.signal, held, g.Cols())
      invariant !full
    {
      RowExtends(report, before, held, r, c, g.Cols());
      count, full := ScanCell(g, img, r, c, out, count, held);
      if full {
        return;
      }
      held := Extended(held, r, c, report(r, c));
    }
  }

  /** The output is exactly the first min(capacity, total) sites of the specification. */
  method YuyvToSparse(g: Geometry, img: Image, out: Frame) returns (count: u32)
    requires Fits(g, img) && g.MaxSites() < U32 && out.Valid()
    modifies out.support, out.signal
    ensures count == if |AllSites(g, img)| <= out.capacity then |AllSites(g, img)| else out.capacity
    ensures Holds(out.support, out.signal, AllSites(g, img)[..count], g.Cols())
  {
    count := 0;
    ghost var report := Reports(g, img);
    ghost var held: seq<Site> := [];
    for r := 0 to g.Rows()
      invariant held == GridSites(report, g.Cols(), r)
      invariant count == |held| <= out.capacity && Holds(out.support, out.signal, held, g.Cols())
    {
      var full: bool;
      count, full, held := ScanRow(g, img, r, out, count, held);
      NextRowPrefix(report, g.Cols(), r, g.Rows(), held);
      if full {
        return;
      }
    }
  }

  // ---- what the specification means ----

  /** With room for v4l2_max_sites nothing is ever turned away. */
  lemma NeverTruncated(g: Geometry, img: Image, capacity: nat)
    requires Fits(g, img)
    requires capacity >= (if g.gridRows != 0 then g.gridRows else g.height)
                         * (if g.gridCols != 0 then g.gridCols else g.width)
    ensures |AllSites(g, img)| <= capacity
  {
    GridSize(Reports(g, img), g.Cols(), g.Rows());
  }

  /** Support indices strictly increase and stay inside the grid. */
  lemma SupportIncreases(g: Geometry, img: Image, i: nat, j: nat)
    requires Fits(g, img) && i < j < |AllSites(g, img)|
    ensures var a, b := AllSites(g, img)[i], AllSites(g, img)[j];
            a.row * g.Cols() + a.col < b.row * g.Cols() + b.col < g.Rows() * g.Cols()
  {
    var sites := AllSites(g, img);
    GridSound(Reports(g, img), g.Cols(), g.Rows());
    OrderIsFlat(sites[i], sites[j], g.Cols());
    IndexInside(sites[j], g.Rows(), g.Cols());
  }

  /** A cell is listed exactly when it passes, and with its own signal. */
  lemma ListedIffPasses(g: Geometry, img: Image, site: Site)
    requires Fits(g, img)
    ensures site in AllSites(g, img) <==>
            && site.row < g.Rows() && site.col < g.Cols()
            && CellCount(g, img, site.row, site.col) > 0
            && Passes(CellSum(g, img, site.row, site.col), CellCount(g, img, site.row, site.col), g.threshold)
            && site.signal == Signal(CellSum(g, img, site.row, site.col), CellCount(g, img, site.row, site.col))
  {
    ListedIffSignal(g, img, site);
  }

  lemma ListedIffSignal(g: Geometry, img: Image, site: Site)
    requires Fits(g, img)
    ensures site in AllSites(g, img) <==>
            && site.row < g.Rows() && site.col < g.Cols()
            && CellSignal(g, img, site.row, site.col) == Some(site.signal)
  {
    var report, sites := Reports(g, img), AllSites(g, img);
    if site in sites {
      var i :| 0 <= i < |sites| && sites[i] == site;
      GridSound(report, g.Cols(), g.Rows());
    }
    if site.row < g.Rows() && site.col < g.Cols() && CellSignal(g, img, site.row, site.col) == Some(site.signal) {
      GridComplete(report, g.Cols(), g.Rows(), site.row, site.col);
    }
  }

  /** The cell's block: its bounds cut height and width into as many parts as the grid has. */
  ghost predicate IsCell(g: Geometry, r: nat, c: nat, b: Block) {
    var rows: nat := if g.gridRows != 0 then g.gridRows else g.height;
    var cols: nat := if g.gridCols != 0 then g.gridCols else g.width;
    && r < rows && c < cols
    && b.y0 == r * g.height / rows && b.y1 == (r + 1) * g.height / rows
    && b.x0 == c * g.width / cols && b.x1 == (c + 1) * g.width / cols
  }

  lemma CellIsBlock(g: Geometry, img: Image, r: nat, c: nat, b: Block)
    requires Fits(g, img) && IsCell(g, r, c, b)
    ensures r < g.Rows() && c < g.Cols() && b == CellBlock(g, r, c) && b.Inside(img)
    ensures 0 <= (b.y1 - b.y0) * (b.x1 - b.x0) < U32
    ensures CellCount(g, img, r, c) == (b.y1 - b.y0) * (b.x1 - b.x0)
    ensures CellSum(g, img, r, c) == BlockSum(img, b)
  {
    AreaFits(img, CellBlock(g, r, c));
  }

  /**
    Which sites are listed, said of the pixels: the cell's block is not empty, and with its
    pixel sum, its pixel count, their quotient and that over 255 each rounded to the nearest
    float, the mean exceeds the threshold and the signal is the last of them.
   */
  lemma ListedIffShown(g: Geometry, img: Image, site: Site, b: Block)
    requires Fits(g, img) && IsCell(g, site.row, site.col, b)
    ensures b.Inside(img) && 0 <= (b.y1 - b.y0) * (b.x1 - b.x0) < U32
    ensures var n: u32 := (b.y1 - b.y0) * (b.x1 - b.x0);
            site in AllSites(g, img) <==> n > 0 && Shown(BlockSum(img, b), n, g.threshold, site.signal)
  {
    CellIsBlock(g, img, site.row, site.col, b);
    ListedIffPasses(g, img, site);
    BlockSumBound(img, b);
    if b.Area() > 0 {
      PassesIffShown(BlockSum(img, b), b.Area(), g.threshold, site.signal);
    }
  }

  /** A listed cell of at most 65793 pixels carries its mean luminance over 255, to within 2^-23. */
  lemma ListedSignal(g: Geometry, img: Image, site: Site)
    requires Fits(g, img) && site in AllSites(g, img) && site.row < g.Rows() && site.col < g.Cols()
    requires CellCount(g, img, site.row, site.col) <= 65793
    ensures CellCount(g, img, site.row, site.col) > 0 && site.signal <= ONE
    ensures var exact := CellSum(g, img, site.row, site.col) as real
                         / CellCount(g, img, site.row, site.col) as real / 255.0;
            -1.0 / 8388608.0 <= Magnitude(site.signal) - exact <= 1.0 / 8388608.0
  {
    var sum, n := CellSum(g, img, site.row, site.col), CellCount(g, img, site.row, site.col);
    ListedIffPasses(g, img, site);
    BlockSumBound(img, CellBlock(g, site.row, site.col));
    SignalWithin(sum, n);
    MeanAtMostWhite(sum, n);
    SignalOfMean(Mean(sum, n));
  }

  /** A block of one pixel sums to that pixel's luminance, the first of its two bytes. */
  lemma OnePixel(img: Image, y: nat, x: nat)
    requires img.Valid() && y < img.height && x < img.width
    ensures 2 * (y * img.width + x) < |img.raw|
    ensures BlockSum(img, Block(y, y + 1, x, x + 1)) == img.raw[2 * (y * img.width + x)]
  {
    PixelInside(img.width, img.height, y, x);
    var b := Block(y, y + 1, x, x + 1);
    assert b.(y1 := b.y1 - 1) == Block(y, y, x, x + 1);
    assert RowSum(img, y, x, x) == 0;
  }

  /**
    A block sums to the sums of any two blocks it is cut into, down or across. With the single
    pixels this fixes every block's sum.
   */
  lemma CutsAddUp(img: Image, b: Block, mid: nat)
    requires img.Valid() && b.Inside(img)
    ensures b.x0 <= mid <= b.x1 ==>
              BlockSum(img, b) == BlockSum(img, b.(x1 := mid)) + BlockSum(img, b.(x0 := mid))
    ensures b.y0 <= mid <= b.y1 ==>
              BlockSum(img, b) == BlockSum(img, b.(y1 := mid)) + BlockSum(img, b.(y0 := mid))
  {
    if b.x0 <= mid <= b.x1 {
      SplitAcross(img, b, mid);
    }
    if b.y0 <= mid <= b.y1 {
      SplitDown(img, b, mid);
    }
  }

  /** Every pixel of the image is in exactly one cell of the grid. */
  lemma PixelCell(g: Geometry, y: nat, x: nat, r: nat, c: nat, b: Block)
    requires y < g.height && x < g.width && IsCell(g, r, c, b)
    ensures b.y0 <= y < b.y1 && b.x0 <= x < b.x1 <==>
            r == ((y + 1) * g.Rows() - 1) / g.height && c == ((x + 1) * g.Cols() - 1) / g.width
  {
    Tiles(y, r, g.Rows(), g.height);
    Tiles(x, c, g.Cols(), g.width);
  }

  /**
    On blocks of at most 65793 pixels the float pipeline means what it says: a cell is
    listed exactly when its exact mean exceeds the threshold, with a signal in [0, 1].
   */
  lemma ListedIffBright(g: Geometry, img: Image, r: nat, c: nat)
    requires Fits(g, img) && r < g.Rows() && c < g.Cols()
    requires CellCount(g, img, r, c) <= 65793
    ensures (exists signal: u32 :: Site(r, c, signal) in AllSites(g, img)) <==>
            CellSum(g, img, r, c) > g.threshold * CellCount(g, img, r, c)
    ensures forall signal: u32 :: Site(r, c, signal) in AllSites(g, img) ==> !OutsideUnitInterval(signal)
  {
    SignalIffBright(g, img, r, c);
    forall signal: u32
      ensures Site(r, c, signal) in AllSites(g, img) <==> CellSignal(g, img, r, c) == Some(signal)
    {
      ListedIffSignal(g, img, Site(r, c, signal));
    }
    var said := CellSignal(g, img, r, c);
    if said.Some? {
      assert Site(r, c, said.value) in AllSites(g, img);
    }
  }

  lemma SignalIffBright(g: Geometry, img: Image, r: nat, c: nat)
    requires Fits(g, img) && r < g.Rows() && c < g.Cols()
    requires CellCount(g, img, r, c) <= EXACT_BLOCK
    ensures CellSignal(g, img, r, c).Some? <==>
            CellSum(g, img, r, c) > g.threshold * CellCount(g, img, r, c)
    ensures CellSignal(g, img, r, c).Some? ==> !OutsideUnitInterval(CellSignal(g, img, r, c).value)
    ensures CellSignal(g, img, r, c).Some? ==> CellCount(g, img, r, c) > 0
  {
    var sum, n := CellSum(g, img, r, c), CellCount(g, img, r, c);
    BlockSumBound(img, CellBlock(g, r, c));
    if n > 0 {
      ThresholdIsExact(sum, n, g.threshold);
      SignalInRange(sum, n);
    }
  }

  // ---- conservation over the whole grid ----

  function RowOfCells(g: Geometry, img: Image, r: nat, c: nat): nat
    requires Fits(g, img) && r < g.Rows() && c <= g.Cols()
  {
    if c == 0 then 0 else RowOfCells(g, img, r, c - 1) + CellSum(g, img, r, c - 1)
  }

  function GridOfCells(g: Geometry, img: Image, r: nat): nat
    requires Fits(g, img) && r <= g.Rows()
  {
    if r == 0 then 0 else GridOfCells(g, img, r - 1) + RowOfCells(g, img, r - 1, g.Cols())
  }

  lemma {:induction false} RowConserved(g: Geometry, img: Image, r: nat, c: nat)
    requires Fits(g, img) && r < g.Rows() && c <= g.Cols() && g.Cols() > 0
    ensures Edge(r, g.Rows(), g.height) <= Edge(r + 1, g.Rows(), g.height) <= g.height
    ensures Edge(c, g.Cols(), g.width) <= g.width
    ensures RowOfCells(g, img, r, c) ==
            BlockSum(img, Block(Edge(r, g.Rows(), g.height), Edge(r + 1, g.Rows(), g.height),
                                0, Edge(c, g.Cols(), g.width)))
    decreases c
  {
    EdgesInside(r, g.Rows(), g.height);
    Ends(g.Cols(), g.width);
    EdgesOrdered(c, g.Cols(), g.Cols(), g.width);
    var y0, y1 := Edge(r, g.Rows(), g.height), Edge(r + 1, g.Rows(), g.height);
    if c == 0 {
      NoColumns(img, Block(y0, y1, 0, 0));
    } else {
      RowConserved(g, img, r, c - 1);
      EdgesOrdered(c - 1, c, g.Cols(), g.width);
      SplitAcross(img, Block(y0, y1, 0, Edge(c, g.Cols(), g.width)), Edge(c - 1, g.Cols(), g.width));
    }
  }

  lemma {:induction false} NoColumns(img: Image, b: Block)
    requires img.Valid() && b.Inside(img) && b.x0 == b.x1
    ensures BlockSum(img, b) == 0
    decreases b.y1
  {
    if b.y0 < b.y1 {
      NoColumns(img, b.(y1 := b.y1 - 1));
    }
  }

  lemma {:induction false} GridConserved(g: Geometry, img: Image, r: nat)
    requires Fits(g, img) && 0 < g.Rows() && r <= g.Rows() && g.Cols() > 0
    ensures Edge(r, g.Rows(), g.height) <= g.height
    ensures GridOfCells(g, img, r) == BlockSum(img, Block(0, Edge(r, g.Rows(), g.height), 0, g.width))
    decreases r
  {
    Ends(g.Rows(), g.height);
    Ends(g.Cols(), g.width);
    EdgesOrdered(r, g.Rows(), g.Rows(), g.height);
    if r > 0 {
      GridConserved(g, img, r - 1);
      RowConserved(g, img, r - 1, g.Cols());
      SplitDown(img, Block(0, Edge(r, g.Rows(), g.height), 0, g.width), Edge(r - 1, g.Rows(), g.height));
    }
  }

  /** The cell sums add up to the whole image's luminance, whatever the grid. */
  lemma LuminanceConserved(g: Geometry, img: Image)
    requires Fits(g, img) && g.Rows() > 0 && g.Cols() > 0
    ensures GridOfCells(g, img, g.Rows()) == BlockSum(img, Block(0, g.height, 0, g.width))
  {
    GridConserved(g, img, g.Rows());
    Ends(g.Rows(), g.height);
  }

  function RowOfAreas(g: Geometry, r: nat, c: nat): int
    requires r < g.Rows() && c <= g.Cols()
  {
    if c == 0 then 0 else RowOfAreas(g, r, c - 1) + CellBlock(g, r, c - 1).Area()
  }

  function GridOfAreas(g: Geometry, r: nat): int
    requires r <= g.Rows()
  {
    if r == 0 then 0 else GridOfAreas(g, r - 1) + RowOfAreas(g, r - 1, g.Cols())
  }

  lemma Telescope(a: int, from: int, mid: int, end: int)
    ensures a * (mid - from) + a * (end - mid) == a * (end - from)
  {
  }

  lemma {:induction false} RowAreas(g: Geometry, r: nat, c: nat)
    requires r < g.Rows() && c <= g.Cols() && g.Cols() > 0
    ensures RowOfAreas(g, r, c)
            == (Edge(r + 1, g.Rows(), g.height) - Edge(r, g.Rows(), g.height)) * (Edge(c, g.Cols(), g.width) - 0)
    decreases c
  {
    Ends(g.Cols(), g.width);
    if c > 0 {
      RowAreas(g, r, c - 1);
      Telescope(Edge(r + 1, g.Rows(), g.height) - Edge(r, g.Rows(), g.height),
                0, Edge(c - 1, g.Cols(), g.width), Edge(c, g.Cols(), g.width));
    }
  }

  lemma WholeRowArea(g: Geometry, r: nat)
    requires r < g.Rows() && g.Cols() > 0
    ensures RowOfAreas(g, r, g.Cols())
            == (Edge(r + 1, g.Rows(), g.height) - Edge(r, g.Rows(), g.height)) * g.width
  {
    RowAreas(g, r, g.Cols());
    Ends(g.Cols(), g.width);
  }

  lemma RowAdded(before: int, row: int, from: int, end: int, width: int)
    requires before == from * width && row == (end - from) * width
    ensures before + row == end * width
  {
  }

  lemma {:induction false} GridAreas(g: Geometry, r: nat)
    requires r <= g.Rows() && g.Rows() > 0 && g.Cols() > 0
    ensures GridOfAreas(g, r) == Edge(r, g.Rows(), g.height) * g.width
    decreases r
  {
    if r == 0 {
      Ends(g.Rows(), g.height);
    } else {
      GridAreas(g, r - 1);
      WholeRowArea(g, r - 1);
      RowAdded(GridOfAreas(g, r - 1), RowOfAreas(g, r - 1, g.Cols()),
               Edge(r - 1, g.Rows(), g.height), Edge(r, g.Rows(), g.height), g.width);
    }
  }

  /** And their areas to the area of the image. */
  lemma AreaConserved(g: Geometry)
    requires g.Rows() > 0 && g.Cols() > 0
    ensures GridOfAreas(g, g.Rows()) == g.height * g.width
  {
    GridAreas(g, g.Rows());
    Ends(g.Rows(), g.height);
  }
}
