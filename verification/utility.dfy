/**
 * The automatic column count of a grid: the space available along the
 * secondary axis, then as many measured children as fit with the minimum
 * spacing after each.  Sizes are inputs (the recycler's laid-out and
 * measured sizes, the display size, and the child's measured size).
 */
module Utility {
  import opened Arith

  /** The sizes the recycler reports along one axis, and its own padding on both sides. */
  datatype Extent = Extent(laidOut: int, measured: int, display: int, paddingStart: int, paddingEnd: int)

  /**
   * `computeRecyclerAvailableWidth` / `Height`: the first positive size of
   * laid-out and measured, else the display size, minus the padding.
   */
  function Available(e: Extent): (r: int)
    ensures e.laidOut > 0 ==> r + e.paddingStart + e.paddingEnd == e.laidOut
    ensures e.laidOut <= 0 && e.measured > 0 ==> r + e.paddingStart + e.paddingEnd == e.measured
    ensures e.laidOut <= 0 && e.measured <= 0 ==> r + e.paddingStart + e.paddingEnd == e.display
  {
    var padding := e.paddingStart + e.paddingEnd;
    if e.laidOut > 0 then e.laidOut - padding
    else if e.measured > 0 then e.measured - padding
    else e.display - padding
  }

  /**
   * The column loop: start from floor(parent / child) and drop columns
   * while they do not fit with their spacing.  The result is the largest
   * count no greater than floor(parent / child) that fits; for a
   * non-negative space that is parent / (child + spacing).
   */
  method Columns(parent: int, child: int, spacing: int) returns (columns: int)
    requires child > 0 && spacing >= 0
    ensures columns * (child + spacing) <= parent
    ensures columns <= parent / child
    ensures columns + 1 <= parent / child ==> (columns + 1) * (child + spacing) > parent
    ensures parent >= 0 ==> columns == parent / (child + spacing) && columns >= 0
    ensures parent < 0 ==> columns == parent / child
  {
    var k := child + spacing;
    var q := parent / child;
    columns := q;
    if parent < 0 {
      StartFits(parent, child, spacing);
    }
    while columns * k > parent
      invariant columns <= q
      invariant columns == q || (columns + 1) * k > parent
      invariant parent >= 0 ==> columns >= 0
      invariant parent < 0 ==> columns == q
      decreases columns
    {
      PositiveFactor(columns, k, parent);
      columns := columns - 1;
    }
    if parent >= 0 {
      if columns == q {
        NextDoesNotFit(parent, child, spacing);
      }
      DivUnique(columns, parent, k);
    }
  }

  /** With no space left, floor(parent / child) columns already fit. */
  lemma StartFits(parent: int, child: int, spacing: int)
    requires child > 0 && spacing >= 0 && parent < 0
    ensures (parent / child) * (child + spacing) <= parent
  {
    var q := parent / child;
    assert q * (child + spacing) == q * child + q * spacing;
    assert q < 0;
    assert q * spacing <= 0;
  }

  /** A count whose spacing overshoots a non-negative space is positive. */
  lemma PositiveFactor(c: int, k: int, parent: int)
    requires k > 0 && parent >= 0 && c * k > parent
    ensures c > 0
  {
  }

  /** One more than floor(parent / child) children do not fit, with or without spacing. */
  lemma NextDoesNotFit(parent: int, child: int, spacing: int)
    requires child > 0 && spacing >= 0 && parent >= 0
    ensures (parent / child + 1) * (child + spacing) > parent
  {
    var q := parent / child;
    assert (q + 1) * child > parent;
    assert q + 1 > 0;
    assert (q + 1) * spacing >= 0;
    assert (q + 1) * (child + spacing) == (q + 1) * child + (q + 1) * spacing;
  }

  /**
   * `computeRecyclerColumns`: the extra padding of the padding decoration
   * is taken twice off the available space along the secondary axis
   * (width for vertical grids, height for horizontal ones).
   */
  method RecyclerColumns(vertical: bool, width: Extent, height: Extent, child: int, spacing: int, extraPadding: int)
    returns (columns: int)
    requires child > 0 && spacing >= 0
    ensures var parent := (if vertical then Available(width) else Available(height)) - 2 * extraPadding;
            columns * (child + spacing) <= parent
            && (parent >= 0 ==> columns == parent / (child + spacing))
            && (parent < 0 ==> columns == parent / child)
  {
    var parent := if vertical then Available(width) else Available(height);
    parent := parent - extraPadding * 2;
    columns := Columns(parent, child, spacing);
  }
}
