/** The rounded block bounds of yuyv_to_sparse: how `cells` intervals cut up `extent` pixels. */
module Tiling {

  /** Where cell k starts: (k * extent) / cells. */
  function Edge(k: nat, cells: nat, extent: nat): nat
    requires cells > 0
  {
    k * extent / cells
  }

  lemma DivBounds(a: nat, d: nat)
    requires d > 0
    ensures a / d * d <= a < a / d * d + d
  {
  }

  lemma QuotientIs(a: nat, d: nat, q: nat)
    requires d > 0 && q * d <= a < q * d + d
    ensures a / d == q
  {
    DivBounds(a, d);
    if a / d < q {
      MulMono(a / d + 1, q, d);
    } else if a / d > q {
      MulMono(q + 1, a / d, d);
    }
  }

  lemma MulMono(a: nat, b: nat, d: nat)
    requires a <= b
    ensures a * d <= b * d
  {
    assert b * d == a * d + (b - a) * d;
    MulNonNegative(b - a, d);
  }

  lemma MulNonNegative(a: nat, d: nat)
    ensures a * d >= 0
  {
  }

  lemma MulCancel(a: nat, b: nat, d: nat)
    requires a * d < b * d
    ensures a < b
  {
    if b <= a {
      MulMono(b, a, d);
    }
  }

  lemma EdgeBounds(k: nat, cells: nat, extent: nat)
    requires cells > 0
    ensures Edge(k, cells, extent) * cells <= k * extent < Edge(k, cells, extent) * cells + cells
  {
    DivBounds(k * extent, cells);
  }

  lemma Ends(cells: nat, extent: nat)
    requires cells > 0
    ensures Edge(0, cells, extent) == 0 && Edge(cells, cells, extent) == extent
  {
    QuotientIs(0, cells, 0);
    QuotientIs(cells * extent, cells, extent);
  }

  lemma EdgesOrdered(j: nat, k: nat, cells: nat, extent: nat)
    requires cells > 0 && j <= k
    ensures Edge(j, cells, extent) <= Edge(k, cells, extent)
  {
    EdgeBounds(j, cells, extent);
    EdgeBounds(k, cells, extent);
    MulMono(j, k, extent);
    var a, b := Edge(j, cells, extent), Edge(k, cells, extent);
    assert a * cells < (b + 1) * cells;
    MulCancel(a, b + 1, cells);
  }

  lemma EdgesInside(k: nat, cells: nat, extent: nat)
    requires k < cells
    ensures Edge(k, cells, extent) <= Edge(k + 1, cells, extent) <= extent
  {
    EdgesOrdered(k, k + 1, cells, extent);
    EdgesOrdered(k + 1, cells, cells, extent);
    Ends(cells, extent);
  }

  /** The one cell that holds pixel p. */
  function CellOf(p: nat, cells: nat, extent: nat): nat
    requires extent > 0 && cells > 0
  {
    ((p + 1) * cells - 1) / extent
  }

  lemma StartsAtOrBefore(k: nat, p: nat, cells: nat, extent: nat)
    requires cells > 0
    ensures Edge(k, cells, extent) <= p <==> k * extent < (p + 1) * cells
  {
    var e := Edge(k, cells, extent);
    EdgeBounds(k, cells, extent);
    if e <= p {
      MulMono(e + 1, p + 1, cells);
      assert (e + 1) * cells == e * cells + cells;
    } else {
      MulMono(p + 1, e, cells);
    }
  }

  /** Every pixel lies in exactly one cell, the one CellOf names. */
  lemma Tiles(p: nat, k: nat, cells: nat, extent: nat)
    requires p < extent && k < cells
    ensures CellOf(p, cells, extent) < cells
    ensures k * extent / cells <= p < (k + 1) * extent / cells <==> k == ((p + 1) * cells - 1) / extent
  {
    var a, q := (p + 1) * cells - 1, CellOf(p, cells, extent);
    StartsAtOrBefore(k, p, cells, extent);
    StartsAtOrBefore(k + 1, p, cells, extent);
    DivBounds(a, extent);
    MulMono(p + 1, extent, cells);
    assert extent * cells == cells * extent;
    MulCancel(q, cells, extent);
    assert (k + 1) * extent == k * extent + extent;
    if k * extent <= a < k * extent + extent {
      QuotientIs(a, extent, k);
    }
  }

  lemma SizeAtLeast(a: nat, b: nat, cells: nat, start: nat, extent: nat, low: nat)
    requires a * cells <= start && start + extent < b * cells + cells && low * cells <= extent
    ensures a + low <= b
  {
    assert (a + low) * cells == a * cells + low * cells;
    assert (b + 1) * cells == b * cells + cells;
    MulCancel(a + low, b + 1, cells);
  }

  lemma SizeAtMost(a: nat, b: nat, cells: nat, start: nat, extent: nat, high: nat)
    requires start < a * cells + cells && b * cells <= start + extent && extent <= high * cells
    ensures b <= a + high
  {
    assert (a + 1 + high) * cells == a * cells + cells + high * cells;
    MulCancel(b, a + 1 + high, cells);
  }

  lemma CeilingCovers(extent: nat, cells: nat)
    requires cells > 0
    ensures extent <= (extent + cells - 1) / cells * cells
  {
    DivBounds(extent + cells - 1, cells);
  }

  /** Cells differ in size by at most one: the floor or the ceiling of extent/cells. */
  lemma NearlyEven(k: nat, cells: nat, extent: nat)
    requires cells > 0
    ensures var size := Edge(k + 1, cells, extent) - Edge(k, cells, extent);
            extent / cells <= size <= (extent + cells - 1) / cells
  {
    var a, b := Edge(k, cells, extent), Edge(k + 1, cells, extent);
    EdgeBounds(k, cells, extent);
    EdgeBounds(k + 1, cells, extent);
    assert (k + 1) * extent == k * extent + extent;
    DivBounds(extent, cells);
    CeilingCovers(extent, cells);
    SizeAtLeast(a, b, cells, k * extent, extent, extent / cells);
    SizeAtMost(a, b, cells, k * extent, extent, (extent + cells - 1) / cells);
  }

  lemma NoCellEmpty(k: nat, cells: nat, extent: nat)
    requires 0 < cells <= extent
    ensures Edge(k, cells, extent) < Edge(k + 1, cells, extent)
  {
    NearlyEven(k, cells, extent);
    DivBounds(extent, cells);
  }
}
