/**
 * The item decorations of the result grids: where an item sits along the
 * primary axis (lines) and the secondary axis (position within a line),
 * the spacing between items, the dividers drawn between lines, and the
 * padding around a group of items.  The grid's span-group lookup is a
 * parameter (the sections give headers the full width).
 */
module Decorations {
  import opened Wrappers
  import opened Arith

  /** The layout manager of the recycler, or its absence. */
  datatype Manager =
    | NoManager
    | Grid(vertical: bool, spanCount: int, groupIndex: int -> int)
    | Linear(vertical: bool)
    | OtherManager

  /** `OffsetDecoration.Data`. */
  datatype Data = Data(isVertical: bool, primaryPosition: int, primaryCount: int, secondaryPosition: int, secondaryCount: int)

  /** The view being decorated: its layout position, its span index in a grid, and the layout direction. */
  datatype Item = Item(position: int, spanIndex: int, rtl: bool)

  /** Lines taken by the first `offset` items: none without an offset, else up to the last offset item's line. */
  function OffsetLines(groupIndex: int -> int, offset: int): int
  {
    if offset == 0 then 0 else groupIndex(offset - 1) + 1
  }

  /**
   * `computeData`: the previous data stays when there is no adapter or no
   * layout manager; grids count lines after the offset lines, lists count
   * items after the offset items; other managers throw.
   */
  function ComputeData(previous: Data, hasAdapter: bool, manager: Manager, item: Item, itemCount: int, offset: int): (r: Outcome<Data>)
    ensures !hasAdapter || manager.NoManager? ==> r == Ok(previous)
    ensures hasAdapter && manager.OtherManager? ==> r == Thrown(Runtime)
    ensures hasAdapter && manager.Linear? ==>
              r == Ok(Data(manager.vertical, item.position - offset, itemCount - offset, -1, -1))
    ensures hasAdapter && manager.Grid? ==>
              var lines := OffsetLines(manager.groupIndex, offset);
              r.Ok? && r.value.isVertical == manager.vertical && r.value.secondaryCount == manager.spanCount
              && r.value.primaryPosition == manager.groupIndex(item.position) - lines
              && r.value.primaryCount == manager.groupIndex(itemCount - 1) + 1 - lines
              && r.value.secondaryPosition == (if r.value.primaryPosition < 0 then -1 else item.spanIndex)
  {
    if !hasAdapter || manager.NoManager? then Ok(previous)
    else
      match manager
      case Grid(vertical, spanCount, groupIndex) =>
        var lines := OffsetLines(groupIndex, offset);
        var primary := groupIndex(item.position) - lines;
        Ok(Data(vertical, primary, groupIndex(itemCount - 1) + 1 - lines,
                if primary < 0 then -1 else item.spanIndex, spanCount))
      case Linear(vertical) => Ok(Data(vertical, item.position - offset, itemCount - offset, -1, -1))
      case _ => Thrown(Runtime)
  }

  /** Span groups never go back as positions advance. */
  ghost predicate Monotone(groupIndex: int -> int)
  {
    forall a, b :: a <= b ==> groupIndex(a) <= groupIndex(b)
  }

  /**
   * In a grid, the offset items are exactly the ones on negative lines
   * (with no secondary position), and the first item after them starts
   * line 0 when it opens a new span group.
   */
  lemma GridOffsetItemsIgnored(previous: Data, vertical: bool, spanCount: int, groupIndex: int -> int, item: Item, itemCount: int, offset: int)
    requires Monotone(groupIndex) && offset >= 0 && item.position >= 0
    ensures var r := ComputeData(previous, true, Grid(vertical, spanCount, groupIndex), item, itemCount, offset).value;
            (item.position < offset ==> r.primaryPosition < 0 && r.secondaryPosition == -1)
            && (offset > 0 && groupIndex(item.position) > groupIndex(offset - 1) ==>
                  r.primaryPosition >= 0 && r.secondaryPosition == item.spanIndex)
            && (offset == 0 ==> r.primaryPosition == groupIndex(item.position))
  {
    if item.position < offset {
      assert groupIndex(item.position) <= groupIndex(offset - 1);
    }
  }

  /** The default lookup (every item one span): the group of a position is its line. */
  function DefaultGroups(spanCount: int): (g: int -> int)
    requires spanCount > 0
    ensures forall p :: g(p) == p / spanCount
  {
    p => p / spanCount
  }

  lemma DefaultGroupsMonotone(spanCount: int)
    requires spanCount > 0
    ensures Monotone(DefaultGroups(spanCount))
  {
    forall a: int, b: int | a <= b
      ensures a / spanCount <= b / spanCount
    {
      DivMonotone(a, b, spanCount);
    }
  }

  // ---------------------------------------------------------------- margins

  datatype Rect = Rect(left: int, top: int, right: int, bottom: int)

  const ZERO: Rect := Rect(0, 0, 0, 0)

  /** `applyStartMargin`: top when vertical, else left in left-to-right and right in right-to-left. */
  function ApplyStart(r: Rect, vertical: bool, rtl: bool, margin: int): (q: Rect)
    ensures vertical ==> q == r.(top := margin)
    ensures !vertical && !rtl ==> q == r.(left := margin)
    ensures !vertical && rtl ==> q == r.(right := margin)
  {
    if vertical then r.(top := margin) else if !rtl then r.(left := margin) else r.(right := margin)
  }

  /** `applyEndMargin`: bottom when vertical, else right in left-to-right and left in right-to-left. */
  function ApplyEnd(r: Rect, vertical: bool, rtl: bool, margin: int): (q: Rect)
    ensures vertical ==> q == r.(bottom := margin)
    ensures !vertical && !rtl ==> q == r.(right := margin)
    ensures !vertical && rtl ==> q == r.(left := margin)
  {
    if vertical then r.(bottom := margin) else if !rtl then r.(right := margin) else r.(left := margin)
  }

  /** Horizontally, an end margin is a start margin in the opposite direction. */
  lemma EndMirrorsStart(r: Rect, rtl: bool, margin: int)
    ensures ApplyEnd(r, false, rtl, margin) == ApplyStart(r, false, !rtl, margin)
  {
  }

  /** The side a start margin lands on: top when vertical, else left, or right in right-to-left. */
  function StartSide(q: Rect, vertical: bool, rtl: bool): int
  {
    if vertical then q.top else if rtl then q.right else q.left
  }

  /** The side an end margin lands on: bottom when vertical, else right, or left in right-to-left. */
  function EndSide(q: Rect, vertical: bool, rtl: bool): int
  {
    if vertical then q.bottom else if rtl then q.left else q.right
  }

  /** The two sides across the given axis are the same in both rectangles. */
  predicate SameAcross(q: Rect, r: Rect, vertical: bool)
  {
    if vertical then q.left == r.left && q.right == r.right else q.top == r.top && q.bottom == r.bottom
  }

  /** The start and end sides of both axes are the four sides of the rectangle. */
  lemma SidesDetermineRect(q: Rect, r: Rect, vertical: bool, rtl: bool)
    requires StartSide(q, vertical, rtl) == StartSide(r, vertical, rtl) && EndSide(q, vertical, rtl) == EndSide(r, vertical, rtl)
    requires StartSide(q, !vertical, rtl) == StartSide(r, !vertical, rtl) && EndSide(q, !vertical, rtl) == EndSide(r, !vertical, rtl)
    ensures q == r
  {
  }

  // ---------------------------------------------------------------- spacing

  /** `computeSecondaryMarginStart` over the reals. */
  function SecondaryStart(position: nat, count: int, spacing: real): real
    requires count != 0
    decreases position, 0
  {
    if position == 0 then 0.0 else spacing - SecondaryEnd(position - 1, count, spacing)
  }

  /** `computeSecondaryMarginEnd` over the reals: the item's share minus its start. */
  function SecondaryEnd(position: nat, count: int, spacing: real): real
    requires count != 0
    decreases position, 1
  {
    spacing * (count - 1) as real / count as real - SecondaryStart(position, count, spacing)
  }

  /** The recurrence in closed form: the i-th item starts at i·s/n and ends with (n−1−i)·s/n. */
  lemma {:induction false} SecondaryClosedForm(position: nat, count: int, spacing: real)
    requires count > 0
    ensures SecondaryStart(position, count, spacing) == spacing * position as real / count as real
    ensures SecondaryEnd(position, count, spacing) == spacing * (count - 1 - position) as real / count as real
    decreases position
  {
    if position > 0 {
      SecondaryClosedForm(position - 1, count, spacing);
      ClosedFormStep(spacing, count, position, SecondaryEnd(position - 1, count, spacing),
                     SecondaryStart(position, count, spacing), SecondaryEnd(position, count, spacing));
    } else {
      ClosedFormBase(spacing, count, SecondaryStart(position, count, spacing), SecondaryEnd(position, count, spacing));
    }
  }

  /** The first item: no start margin and the whole share at its end. */
  lemma ClosedFormBase(s: real, n: int, start: real, end: real)
    requires n > 0 && start == 0.0
    requires end == s * (n - 1) as real / n as real - start
    ensures start == s * 0 as real / n as real
    ensures end == s * (n - 1 - 0) as real / n as real
  {
  }

  /** One step of the recurrence, given the previous item's end in closed form. */
  lemma ClosedFormStep(s: real, n: int, p: nat, prevEnd: real, start: real, end: real)
    requires n > 0 && p > 0
    requires prevEnd == s * (n - 1 - (p - 1)) as real / n as real
    requires start == s - prevEnd
    requires end == s * (n - 1) as real / n as real - start
    ensures start == s * p as real / n as real
    ensures end == s * (n - 1 - p) as real / n as real
  {
    var m := n as real;
    var k := p as real;
    assert (n - 1 - (p - 1)) as real == m - k;
    ShareComplement(s, m, k);
    assert (n - 1 - p) as real == (n - 1) as real - k;
    ShareDifference(s, (n - 1) as real, k, m);
  }

  /** What is left of the spacing after the share of n − k is the share of k. */
  lemma ShareComplement(s: real, n: real, k: real)
    requires n > 0.0
    ensures s - s * (n - k) / n == s * k / n
  {
    ShareDifference(s, n, n - k, n);
    assert s * n / n == s;
  }

  /** Two shares of the same spacing over the same count differ by the share of the difference. */
  lemma ShareDifference(s: real, a: real, b: real, n: real)
    requires n > 0.0
    ensures s * a / n - s * b / n == s * (a - b) / n
  {
    assert s * a / n - s * b / n == (s * a - s * b) / n;
    assert s * a - s * b == s * (a - b);
  }

  /**
   * Every item of a line gets the same total margin s·(n−1)/n, facing
   * margins of neighbours add up to the spacing, the first start and the
   * last end are 0, and with a non-negative spacing no margin is negative.
   */
  lemma SecondarySpacingProperties(position: nat, count: int, spacing: real)
    requires count > 0 && position < count
    ensures SecondaryStart(position, count, spacing) + SecondaryEnd(position, count, spacing)
            == spacing * (count - 1) as real / count as real
    ensures position + 1 < count ==> SecondaryEnd(position, count, spacing) + SecondaryStart(position + 1, count, spacing) == spacing
    ensures position == 0 ==> SecondaryStart(position, count, spacing) == 0.0
    ensures position == count - 1 ==> SecondaryEnd(position, count, spacing) == 0.0
    ensures spacing >= 0.0 ==> SecondaryStart(position, count, spacing) >= 0.0 && SecondaryEnd(position, count, spacing) >= 0.0
  {
    SecondaryClosedForm(position, count, spacing);
    var n := count as real;
    if spacing >= 0.0 {
      assert spacing * position as real >= 0.0;
      assert spacing * (count - 1 - position) as real >= 0.0;
    }
  }

  /** Math.round on a non-negative real: half rounds up. */
  function Round(x: real): (r: int)
    ensures r as real - 0.5 <= x < r as real + 0.5
  {
    (x + 0.5).Floor
  }

  /**
   * SpacingDecoration `getItemOffsets`: all sides zeroed; along the
   * primary axis an item after the first of its line gets the spacing at
   * its start and nothing at its end; an item with a secondary position
   * gets its rounded secondary margins across.
   */
  function SpacingOffsets(d: Data, spacing: int, rtl: bool): (r: Rect)
    ensures StartSide(r, d.isVertical, rtl) == (if d.primaryPosition > 0 then spacing else 0)
    ensures EndSide(r, d.isVertical, rtl) == 0
    ensures StartSide(r, !d.isVertical, rtl)
            == (if d.secondaryPosition >= 0 && d.secondaryCount != 0
                then Round(SecondaryStart(d.secondaryPosition, d.secondaryCount, spacing as real)) else 0)
    ensures EndSide(r, !d.isVertical, rtl)
            == (if d.secondaryPosition >= 0 && d.secondaryCount != 0
                then Round(SecondaryEnd(d.secondaryPosition, d.secondaryCount, spacing as real)) else 0)
    ensures d.primaryPosition <= 0 && d.secondaryPosition < 0 ==> r == ZERO
  {
    var primary := if d.primaryPosition > 0 then ApplyStart(ZERO, d.isVertical, rtl, spacing) else ZERO;
    if d.secondaryPosition >= 0 && d.secondaryCount != 0 then
      var start := SecondaryStart(d.secondaryPosition, d.secondaryCount, spacing as real);
      var end := SecondaryEnd(d.secondaryPosition, d.secondaryCount, spacing as real);
      ApplyEnd(ApplyStart(primary, !d.isVertical, rtl, Round(start)), !d.isVertical, rtl, Round(end))
    else primary
  }

  /**
   * Across a line of n items with spacing s, the item in column i gets
   * round(i·s/n) at its start and round((n−1−i)·s/n) at its end, so the
   * first column has no start margin and the last no end margin.
   */
  lemma SpacingAcrossLine(d: Data, spacing: int, rtl: bool)
    requires 0 <= d.secondaryPosition < d.secondaryCount
    ensures StartSide(SpacingOffsets(d, spacing, rtl), !d.isVertical, rtl)
            == Round(spacing as real * d.secondaryPosition as real / d.secondaryCount as real)
    ensures EndSide(SpacingOffsets(d, spacing, rtl), !d.isVertical, rtl)
            == Round(spacing as real * (d.secondaryCount - 1 - d.secondaryPosition) as real / d.secondaryCount as real)
    ensures d.secondaryPosition == 0 ==> StartSide(SpacingOffsets(d, spacing, rtl), !d.isVertical, rtl) == 0
    ensures d.secondaryPosition == d.secondaryCount - 1 ==> EndSide(SpacingOffsets(d, spacing, rtl), !d.isVertical, rtl) == 0
  {
    var r := SpacingOffsets(d, spacing, rtl);
    var start := SecondaryStart(d.secondaryPosition, d.secondaryCount, spacing as real);
    var end := SecondaryEnd(d.secondaryPosition, d.secondaryCount, spacing as real);
    assert StartSide(r, !d.isVertical, rtl) == Round(start) && EndSide(r, !d.isVertical, rtl) == Round(end);
    SecondaryClosedForm(d.secondaryPosition, d.secondaryCount, spacing as real);
    assert start == spacing as real * d.secondaryPosition as real / d.secondaryCount as real;
    assert StartSide(r, !d.isVertical, rtl) == Round(spacing as real * d.secondaryPosition as real / d.secondaryCount as real);
    assert end == spacing as real * (d.secondaryCount - 1 - d.secondaryPosition) as real / d.secondaryCount as real;
    if d.secondaryPosition == 0 {
      assert start == 0.0;
    }
    if d.secondaryPosition == d.secondaryCount - 1 {
      ZeroShare(spacing as real, d.secondaryCount - 1 - d.secondaryPosition, d.secondaryCount);
    }
    assert Round(0.0) == 0;
  }

  /** No items give no share of the spacing. */
  lemma ZeroShare(s: real, k: int, n: int)
    requires k == 0 && n > 0
    ensures s * k as real / n as real == 0.0
  {
  }

  /**
   * The divider lines drawn: none without a drawable; otherwise the lines
   * after the offset lines and the first drawn one, up to the last line and
   * the last visible one.
   */
  function DividerLines(hasDrawable: bool, count: int, offset: int, firstVisible: int, lastVisible: int): (r: seq<int>)
    ensures !hasDrawable ==> r == []
    ensures forall k :: 0 <= k < |r| ==> r[k] == r[0] + k
    ensures forall k :: 0 <= k < |r| ==> offset < r[k] < count && firstVisible <= r[k] <= lastVisible
  {
    if !hasDrawable then []
    else
      var start := if offset + 1 >= firstVisible then offset + 1 else firstVisible;
      var end := if count <= lastVisible + 1 then count else lastVisible + 1;
      if start >= end then [] else seq(end - start, k requires 0 <= k < end - start => start + k)
  }

  /** With a drawable, every line strictly inside the range and visible gets a divider. */
  lemma DividerLinesComplete(count: int, offset: int, firstVisible: int, lastVisible: int, line: int)
    requires offset < line < count && firstVisible <= line <= lastVisible
    ensures line in DividerLines(true, count, offset, firstVisible, lastVisible)
  {
    var r := DividerLines(true, count, offset, firstVisible, lastVisible);
    var start := if offset + 1 >= firstVisible then offset + 1 else firstVisible;
    assert r[line - start] == line;
  }

  /**
   * The divider pass: missing adapter or manager draws nothing, other
   * managers throw; grids count span groups, lists count items.
   */
  function DrawnLines(hasDrawable: bool, hasAdapter: bool, manager: Manager, itemCount: int, offset: int,
                      firstVisibleItem: int, lastVisibleItem: int): (r: Outcome<seq<int>>)
    ensures !hasDrawable ==> r == Ok([])
    ensures hasDrawable && hasAdapter && manager.OtherManager? ==> r == Thrown(Runtime)
    ensures hasDrawable && hasAdapter && manager.Linear? ==>
              r == Ok(DividerLines(true, itemCount, offset, firstVisibleItem, lastVisibleItem))
  {
    if !hasDrawable || !hasAdapter || manager.NoManager? then Ok([])
    else
      match manager
      case Grid(_, _, groupIndex) =>
        Ok(DividerLines(true, groupIndex(itemCount - 1) + 1, OffsetLines(groupIndex, offset),
                        groupIndex(firstVisibleItem), groupIndex(lastVisibleItem)))
      case Linear(_) => Ok(DividerLines(true, itemCount, offset, firstVisibleItem, lastVisibleItem))
      case _ => Thrown(Runtime)
  }

  // ---------------------------------------------------------------- padding

  /** PaddingDecoration's two amounts; the one-value constructor uses the same for both. */
  datatype Padding = Padding(horizontal: int, vertical: int)

  function UniformPadding(padding: int): (p: Padding)
    ensures p.horizontal == padding && p.vertical == padding
  {
    Padding(padding, padding)
  }

  /** The padding amount along an axis. */
  function Amount(p: Padding, vertical: bool): int
  {
    if vertical then p.vertical else p.horizontal
  }

  /**
   * The rule along one axis: the first item of the line gets the start
   * padding (even when it is also the last), the last of several the end
   * padding, and nothing across the axis changes.
   */
  function LinePadding(r: Rect, p: Padding, position: int, lineSize: int, vertical: bool, rtl: bool): (q: Rect)
    ensures StartSide(q, vertical, rtl) == (if position == 0 then Amount(p, vertical) else StartSide(r, vertical, rtl))
    ensures EndSide(q, vertical, rtl)
            == (if position != 0 && position == lineSize - 1 then Amount(p, vertical) else EndSide(r, vertical, rtl))
    ensures SameAcross(q, r, vertical)
  {
    var amount := if vertical then p.vertical else p.horizontal;
    if position == 0 then ApplyStart(r, vertical, rtl, amount)
    else if position == lineSize - 1 then ApplyEnd(r, vertical, rtl, amount)
    else r
  }

  /**
   * PaddingDecoration `getItemOffsets`: all sides zeroed, then the line
   * rule along the primary axis for an item on a line, and the same rule
   * across for an item with a secondary position.
   */
  function PaddingOffsets(d: Data, p: Padding, rtl: bool): (r: Rect)
    ensures StartSide(r, d.isVertical, rtl) == (if d.primaryPosition == 0 then Amount(p, d.isVertical) else 0)
    ensures EndSide(r, d.isVertical, rtl)
            == (if d.primaryPosition > 0 && d.primaryPosition == d.primaryCount - 1 then Amount(p, d.isVertical) else 0)
    ensures StartSide(r, !d.isVertical, rtl) == (if d.secondaryPosition == 0 then Amount(p, !d.isVertical) else 0)
    ensures EndSide(r, !d.isVertical, rtl)
            == (if d.secondaryPosition > 0 && d.secondaryPosition == d.secondaryCount - 1 then Amount(p, !d.isVertical) else 0)
  {
    var primary := if d.primaryPosition >= 0 then LinePadding(ZERO, p, d.primaryPosition, d.primaryCount, d.isVertical, rtl) else ZERO;
    if d.secondaryPosition >= 0 then LinePadding(primary, p, d.secondaryPosition, d.secondaryCount, !d.isVertical, rtl)
    else primary
  }

  /**
   * Along a vertical list: the first item gets only the top padding (even
   * when it is also the last), the last of several only the bottom
   * padding, and the items in between none.
   */
  lemma VerticalListPadding(p: Padding, position: int, count: int, rtl: bool)
    requires 0 <= position < count
    ensures var r := PaddingOffsets(Data(true, position, count, -1, -1), p, rtl);
            (position == 0 ==> r == ZERO.(top := p.vertical))
            && (0 < position && position == count - 1 ==> r == ZERO.(bottom := p.vertical))
            && (0 < position < count - 1 ==> r == ZERO)
  {
  }

  /**
   * A cell of a vertical grid: the first row gets the top padding, the
   * last of several rows the bottom; the first column gets the start side
   * (left, or right in right-to-left) and the last of several columns the
   * other side.
   */
  lemma GridCellPadding(p: Padding, row: int, rows: int, column: int, columns: int, rtl: bool)
    ensures var r := PaddingOffsets(Data(true, row, rows, column, columns), p, rtl);
            var first := if column == 0 then p.horizontal else 0;
            var last := if column > 0 && column == columns - 1 then p.horizontal else 0;
            && r.top == (if row == 0 then p.vertical else 0)
            && r.bottom == (if row > 0 && row == rows - 1 then p.vertical else 0)
            && r.left == (if rtl then last else first)
            && r.right == (if rtl then first else last)
  {
  }
}
