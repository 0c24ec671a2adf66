/**
 * DiscoveryAdapter: the list behind one section.  An optional header row
 * comes first; the number of visible items is bounded by the capacity, or
 * by the collapsed capacity while collapsed (when that is positive).
 */
module DiscoveryAdapter {
  import opened Wrappers
  import opened JavaText

  const VIEW_TYPE_HEADER: int := -99

  /** getCapacity's default: unbounded. */
  const DEFAULT_CAPACITY: int := MAX_INT

  /** getCollapsedCapacity's default: collapsing disabled. */
  const DEFAULT_COLLAPSED_CAPACITY: int := 0

  /**
   * The adapter state.  `capacity` and `collapsedCapacity` are the values
   * the subclass returns for the current column count.
   */
  datatype Adapter<T> = Adapter(items: seq<T>, hasHeader: bool, collapsed: bool, capacity: int, collapsedCapacity: int)

  /** A new adapter: no items, expanded. */
  function Create<T>(hasHeader: bool, capacity: int, collapsedCapacity: int): Adapter<T>
  {
    Adapter([], hasHeader, false, capacity, collapsedCapacity)
  }

  function Min(a: int, b: int): int { if a <= b then a else b }

  /** The item limit in the given state. */
  function Limit<T>(a: Adapter<T>, collapsed: bool): int
  {
    if collapsed && a.collapsedCapacity > 0 then a.collapsedCapacity else a.capacity
  }

  /** The number of visible items, not counting the header. */
  function VisibleItems<T>(a: Adapter<T>, collapsed: bool): int
  {
    Min(Limit(a, collapsed), |a.items|)
  }

  /** `getItemCount(collapsed)`: the visible items plus the header row when there are any. */
  function ItemCountFor<T>(a: Adapter<T>, collapsed: bool): (r: int)
    ensures r <= |a.items| + 1
    ensures VisibleItems(a, collapsed) == 0 ==> r == 0
    ensures r == VisibleItems(a, collapsed) || (a.hasHeader && r == VisibleItems(a, collapsed) + 1)
  {
    var count := VisibleItems(a, collapsed);
    if count == 0 || !a.hasHeader then count else count + 1
  }

  function ItemCount<T>(a: Adapter<T>): int
  {
    ItemCountFor(a, a.collapsed)
  }

  /** 1 when a header row precedes the items. */
  function HeaderRows<T>(a: Adapter<T>): (r: int)
    ensures r == 0 || r == 1
  {
    if a.hasHeader then 1 else 0
  }

  /**
   * `getItemForPosition`: null out of range and on the header row,
   * otherwise the item below the header.
   */
  function ItemForPosition<T>(a: Adapter<T>, position: int): (r: Option<T>)
    ensures position < 0 || position > ItemCount(a) - 1 ==> r.None?
    ensures a.hasHeader && position == 0 ==> r.None?
    ensures r.Some? ==> 0 <= position - HeaderRows(a) < |a.items| && r.value == a.items[position - HeaderRows(a)]
  {
    if position < 0 || position > ItemCount(a) - 1 then None
    else if a.hasHeader && position == 0 then None
    else
      var i := if a.hasHeader then position - 1 else position;
      if i < |a.items| then Some(a.items[i]) else assert false; None
  }

  /** `getItemViewType` with the default item type 0. */
  function ItemViewType<T>(a: Adapter<T>, position: int): (r: int)
    ensures r == VIEW_TYPE_HEADER <==> a.hasHeader && position == 0
  {
    if a.hasHeader && position == 0 then VIEW_TYPE_HEADER else 0
  }

  /** `computeItemPositionForAdapterPosition`: throws out of range, otherwise skips the header. */
  function ItemPosition<T>(a: Adapter<T>, position: int): (r: Outcome<int>)
    ensures position < 0 || position > ItemCount(a) - 1 <==> r == Thrown(IllegalArgument)
    ensures r.Ok? ==> r.value == position - HeaderRows(a)
  {
    if position < 0 || position > ItemCount(a) - 1 then Thrown(IllegalArgument)
    else Ok(if a.hasHeader then position - 1 else position)
  }

  /**
   * The visible rows are exactly the header (when present) followed by the
   * first VisibleItems items, and item positions invert adapter positions.
   */
  lemma {:induction false} PositionsRoundTrip<T>(a: Adapter<T>, k: int)
    requires 0 <= k < VisibleItems(a, a.collapsed)
    ensures ItemForPosition(a, k + HeaderRows(a)) == Some(a.items[k])
    ensures ItemPosition(a, k + HeaderRows(a)) == Ok(k)
  {
    assert ItemCount(a) == VisibleItems(a, a.collapsed) + HeaderRows(a);
  }

  /**
   * `setItems`: replaces the items, consumes them all (returns []), and
   * starts collapsed when collapsing is enabled.
   */
  function SetItems<T>(a: Adapter<T>, items: seq<T>): (r: (Adapter<T>, seq<T>))
    ensures r.0.items == items && r.1 == []
    ensures r.0.collapsed == (a.collapsed || a.collapsedCapacity > 0)
    ensures r.0.hasHeader == a.hasHeader && r.0.capacity == a.capacity && r.0.collapsedCapacity == a.collapsedCapacity
  {
    var collapsed := if a.collapsedCapacity > 0 then true else a.collapsed;
    (a.(collapsed := collapsed, items := items), [])
  }

  /** The RecyclerView change notifications the adapter issues. */
  datatype Notification = ItemChanged(position: int) | RangeInserted(start: int, count: int) | RangeRemoved(start: int, count: int)

  /** `onCollapseStateChanged`: rebind the header, then insert or remove the difference at the end. */
  function CollapseNotifications(hasHeader: bool, oldCount: int, newCount: int): (r: seq<Notification>)
    ensures newCount > oldCount ==> RangeInserted(oldCount, newCount - oldCount) in r
    ensures newCount < oldCount ==> RangeRemoved(newCount, oldCount - newCount) in r
    ensures newCount == oldCount ==> forall n :: n in r ==> n.ItemChanged?
    ensures hasHeader <==> ItemChanged(0) in r
  {
    (if hasHeader then [ItemChanged(0)] else [])
    + (if newCount > oldCount then [RangeInserted(oldCount, newCount - oldCount)]
       else if newCount < oldCount then [RangeRemoved(newCount, oldCount - newCount)]
       else [])
  }

  /** The row count a RecyclerView holds after applying notifications. */
  function ApplyNotifications(count: int, notes: seq<Notification>): int
    decreases |notes|
  {
    if |notes| == 0 then count
    else
      var c := match notes[0]
        case ItemChanged(_) => count
        case RangeInserted(_, n) => count + n
        case RangeRemoved(_, n) => count - n;
      ApplyNotifications(c, notes[1..])
  }

  /** `toggleCollapseState`: always expands, and collapses only when collapsing is enabled. */
  function Toggle<T>(a: Adapter<T>): (r: (Adapter<T>, seq<Notification>))
    ensures a.collapsed ==> !r.0.collapsed
    ensures !a.collapsed ==> r.0.collapsed == (a.collapsedCapacity > 0)
    ensures r.0.items == a.items && r.0.hasHeader == a.hasHeader
    ensures r.0.capacity == a.capacity && r.0.collapsedCapacity == a.collapsedCapacity
    ensures !a.collapsed && a.collapsedCapacity <= 0 ==> r == (a, [])
  {
    if a.collapsed then
      (a.(collapsed := false), CollapseNotifications(a.hasHeader, ItemCountFor(a, true), ItemCountFor(a, false)))
    else if a.collapsedCapacity > 0 then
      (a.(collapsed := true), CollapseNotifications(a.hasHeader, ItemCountFor(a, false), ItemCountFor(a, true)))
    else (a, [])
  }

  /** The notifications of a toggle take the displayed row count from the old to the new state. */
  lemma ToggleNotificationsAreConsistent<T>(a: Adapter<T>)
    ensures ApplyNotifications(ItemCount(a), Toggle(a).1) == ItemCount(Toggle(a).0)
  {
    var (a', notes) := Toggle(a);
    if a.collapsed || a.collapsedCapacity > 0 {
      var oldCount := ItemCount(a);
      var newCount := ItemCount(a');
      assert notes == CollapseNotifications(a.hasHeader, oldCount, newCount);
      var tail := if newCount > oldCount then [RangeInserted(oldCount, newCount - oldCount)]
                  else if newCount < oldCount then [RangeRemoved(newCount, oldCount - newCount)] else [];
      if |tail| > 0 {
        assert tail[1..] == [];
      }
      assert ApplyNotifications(oldCount, tail) == newCount;
      if a.hasHeader {
        assert notes == [ItemChanged(0)] + tail;
        assert notes[1..] == tail;
      } else {
        assert notes == tail;
      }
    }
  }

  /** With the default capacities the adapter never collapses and shows every item. */
  lemma DefaultNeverCollapses<T>(a: Adapter<T>, items: seq<T>)
    requires a.collapsedCapacity == DEFAULT_COLLAPSED_CAPACITY && a.capacity == DEFAULT_CAPACITY && !a.collapsed
    requires |items| <= MAX_INT
    ensures !SetItems(a, items).0.collapsed
    ensures !Toggle(a).0.collapsed
    ensures VisibleItems(SetItems(a, items).0, false) == |items|
  {
  }

  /**
   * `onBindHeader`: the header shows a collapse state only when collapsing
   * is enabled and would change the count.
   */
  function HeaderCollapseState<T>(a: Adapter<T>): (r: Option<bool>)
    ensures r.Some? ==> r.value == a.collapsed && a.collapsedCapacity > 0
    ensures r.None? <==> a.collapsedCapacity <= 0 || ItemCountFor(a, true) == ItemCountFor(a, false)
  {
    if a.collapsedCapacity > 0 && ItemCountFor(a, true) != ItemCountFor(a, false) then Some(a.collapsed) else None
  }
}
