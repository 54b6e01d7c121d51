/** Listing the cells of a grid that have something to report, row by row. */
module RowMajor {
  import opened Machine
  import opened Tiling

  datatype Site = Site(row: nat, col: nat, signal: u32)
  {
    /** Row-major order. */
    predicate Before(other: Site) {
      row < other.row || (row == other.row && col < other.col)
    }

    /** The flattened index in a grid of this many columns. */
    function Index(cols: nat): nat {
      row * cols + col
    }
  }

  /** What each cell reports, if anything. */
  type Report = (int, int) -> Option<u32>

  /** The sites of row r among its first c cells. */
  function RowSites(report: Report, r: nat, c: nat): (s: seq<Site>)
    ensures |s| <= c
  {
    if c == 0 then []
    else
      var said := report(r, c - 1);
      RowSites(report, r, c - 1) + (if said.Some? then [Site(r, c - 1, said.value)] else [])
  }

  /** The sites of the first r rows. */
  function GridSites(report: Report, cols: nat, r: nat): (s: seq<Site>) {
    if r == 0 then [] else GridSites(report, cols, r - 1) + RowSites(report, r - 1, cols)
  }

  lemma {:induction false} GridSize(report: Report, cols: nat, r: nat)
    ensures |GridSites(report, cols, r)| <= r * cols
  {
    if r > 0 {
      GridSize(report, cols, r - 1);
      NextRow(r - 1, cols);
    }
  }

  lemma NextRow(r: nat, cols: nat)
    ensures (r + 1) * cols == r * cols + cols
  {
  }

  /** Row-major order is the order of the flattened indices. */
  lemma OrderIsFlat(a: Site, b: Site, cols: nat)
    requires a.Before(b) && a.col < cols
    ensures a.Index(cols) < b.Index(cols)
  {
    if a.row < b.row {
      NextRow(a.row, cols);
      MulMono(a.row + 1, b.row, cols);
    }
  }

  lemma IndexInside(site: Site, rows: nat, cols: nat)
    requires site.row < rows && site.col < cols
    ensures site.Index(cols) < rows * cols
  {
    NextRow(site.row, cols);
    MulMono(site.row + 1, rows, cols);
  }

  lemma {:induction false} RowPrefix(report: Report, r: nat, c: nat, c': nat)
    requires c <= c'
    ensures RowSites(report, r, c) <= RowSites(report, r, c')
    decreases c'
  {
    if c < c' {
      RowPrefix(report, r, c, c' - 1);
    }
  }

  lemma {:induction false} GridPrefix(report: Report, cols: nat, r: nat, r': nat)
    requires r <= r'
    ensures GridSites(report, cols, r) <= GridSites(report, cols, r')
    decreases r'
  {
    if r < r' {
      GridPrefix(report, cols, r, r' - 1);
    }
  }

  /** What one more cell adds to the sites held. */
  function Extended(held: seq<Site>, r: nat, c: nat, said: Option<u32>): seq<Site> {
    if said.Some? then held + [Site(r, c, said.value)] else held
  }

  lemma RowExtends(report: Report, before: seq<Site>, held: seq<Site>, r: nat, c: nat, cols: nat)
    requires c < cols && held == before + RowSites(report, r, c)
    ensures Extended(held, r, c, report(r, c)) == before + RowSites(report, r, c + 1)
    ensures held <= before + RowSites(report, r, cols)
    ensures report(r, c).Some? ==> |held| < |before + RowSites(report, r, cols)|
  {
    RowPrefix(report, r, c + 1, cols);
  }

  lemma NextRowPrefix(report: Report, cols: nat, r: nat, rows: nat, held: seq<Site>)
    requires r < rows && held <= GridSites(report, cols, r) + RowSites(report, r, cols)
    ensures GridSites(report, cols, r + 1) == GridSites(report, cols, r) + RowSites(report, r, cols)
    ensures |held| <= |GridSites(report, cols, rows)| && held == GridSites(report, cols, rows)[..|held|]
    ensures |GridSites(report, cols, r + 1)| <= |GridSites(report, cols, rows)|
  {
    GridPrefix(report, cols, r + 1, rows);
  }

  ghost predicate Increasing(s: seq<Site>) {
    forall i, j :: 0 <= i < j < |s| ==> s[i].Before(s[j])
  }

  /** Every site listed is what its cell reports. */
  ghost predicate Sound(report: Report, s: seq<Site>, rows: nat, cols: nat) {
    forall i :: 0 <= i < |s| ==>
      s[i].row < rows && s[i].col < cols && report(s[i].row, s[i].col) == Some(s[i].signal)
  }

  lemma {:induction false} RowSound(report: Report, r: nat, c: nat)
    ensures Sound(report, RowSites(report, r, c), r + 1, c) && Increasing(RowSites(report, r, c))
    ensures forall i :: 0 <= i < |RowSites(report, r, c)| ==> RowSites(report, r, c)[i].row == r
    decreases c
  {
    if c > 0 {
      RowSound(report, r, c - 1);
    }
  }

  lemma {:induction false} GridSound(report: Report, cols: nat, r: nat)
    ensures Sound(report, GridSites(report, cols, r), r, cols) && Increasing(GridSites(report, cols, r))
    decreases r
  {
    if r > 0 {
      GridSound(report, cols, r - 1);
      RowSound(report, r - 1, cols);
    }
  }

  /** Every cell that reports is listed, behind the cells before it. */
  lemma GridComplete(report: Report, cols: nat, rows: nat, r: nat, c: nat)
    requires r < rows && c < cols && report(r, c).Some?
    ensures var k := |GridSites(report, cols, r)| + |RowSites(report, r, c)|;
            k < |GridSites(report, cols, rows)| &&
            GridSites(report, cols, rows)[k] == Site(r, c, report(r, c).value)
  {
    var above, row := GridSites(report, cols, r), RowSites(report, r, c);
    RowPrefix(report, r, c + 1, cols);
    GridPrefix(report, cols, r + 1, rows);
    assert RowSites(report, r, c + 1)[|row|] == Site(r, c, report(r, c).value);
    assert RowSites(report, r, cols)[|row|] == Site(r, c, report(r, c).value);
    assert GridSites(report, cols, r + 1)[|above| + |row|] == Site(r, c, report(r, c).value);
  }
}
