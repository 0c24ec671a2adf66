/**
 * The reconciliation both database generators run against the store: rows
 * whose id is no longer on the device are deleted, then each device item
 * is written unless the snapshot already holds a row for its id that the
 * generator decides to keep.  `List.contains` and `indexOf` compare ids
 * (DatabaseItem equality), so every search below is a lookup by id.
 */
module Sync {
  import opened Wrappers
  import opened Seqs
  import opened Store

  /** `deviceItems.contains(item)`: some device item has the item's id. */
  predicate OnDevice<X>(device: seq<X>, idOf: X -> int, id: int)
  {
    Lookup(Table(device), id, idOf).Some?
  }

  /** The first loop: each listed store row absent from the device is deleted. */
  function DeleteAbsent<X>(t: Table<X>, listing: seq<X>, device: seq<X>, idOf: X -> int): (r: Table<X>)
    decreases |listing|
  {
    if |listing| == 0 then t
    else
      var id := idOf(listing[0]);
      DeleteAbsent(if OnDevice(device, idOf, id) then t else Delete(t, id, idOf), listing[1..], device, idOf)
  }

  /** Deleting along the table's own listing keeps exactly the device's ids. */
  lemma {:induction false} DeleteAbsentEffect<X>(t: Table<X>, listing: seq<X>, device: seq<X>, idOf: X -> int)
    requires Valid(t, idOf)
    ensures Valid(DeleteAbsent(t, listing, device, idOf), idOf)
    ensures forall j :: Lookup(DeleteAbsent(t, listing, device, idOf), j, idOf)
                        == (if !OnDevice(device, idOf, j) && Lookup(Table(listing), j, idOf).Some? then None
                            else Lookup(t, j, idOf))
    decreases |listing|
  {
    if |listing| > 0 {
      var id := idOf(listing[0]);
      var next := if OnDevice(device, idOf, id) then t else Delete(t, id, idOf);
      DeleteEffect(t, id, idOf);
      DeleteAbsentEffect(next, listing[1..], device, idOf);
    }
  }

  /** Pruning a table along its own ordered listing. */
  lemma PruneEffect<X>(t: Table<X>, listing: seq<X>, device: seq<X>, idOf: X -> int)
    requires Valid(t, idOf) && multiset(listing) == multiset(t.rows)
    ensures Valid(DeleteAbsent(t, listing, device, idOf), idOf)
    ensures forall j :: Lookup(DeleteAbsent(t, listing, device, idOf), j, idOf)
                        == (if OnDevice(device, idOf, j) then Lookup(t, j, idOf) else None)
  {
    DeleteAbsentEffect(t, listing, device, idOf);
    forall j
      ensures Lookup(Table(listing), j, idOf) == Lookup(t, j, idOf)
    {
      LookupPermutation(t, listing, idOf, j);
    }
  }

  /**
   * The row to write for a device item, given the snapshot's row for its id:
   * the item itself when there is none, otherwise what `merge` decides
   * (None keeps the stored row).
   */
  function Decide<X>(stored: Option<X>, d: X, merge: (X, X) -> Option<X>): Option<X>
  {
    match stored
    case None => Some(d)
    case Some(o) => merge(o, d)
  }

  /** The second loop, over the device items in order, searching a fixed snapshot. */
  function Reconcile<X>(t: Table<X>, snapshot: seq<X>, device: seq<X>, idOf: X -> int, merge: (X, X) -> Option<X>): (r: Table<X>)
    decreases |device|
  {
    if |device| == 0 then t
    else
      var w := Decide(Lookup(Table(snapshot), idOf(device[0]), idOf), device[0], merge);
      Reconcile(if w.Some? then Upsert(t, w.value, idOf) else t, snapshot, device[1..], idOf, merge)
  }

  /** The row a device item leaves in the store: reference definition of one loop step. */
  function Settled<X>(stored: Option<X>, d: X, merge: (X, X) -> Option<X>): X
  {
    match stored
    case None => d
    case Some(o) => (match merge(o, d) case None => o case Some(n) => n)
  }

  ghost predicate KeepsId<X(!new)>(merge: (X, X) -> Option<X>, idOf: X -> int)
  {
    forall o: X, d: X :: merge(o, d).Some? ==> idOf(merge(o, d).value) == idOf(d)
  }

  /**
   * With distinct device ids and a snapshot that agrees with the store on
   * them, every device id ends up holding its settled row and every other
   * row is untouched.
   */
  lemma {:induction false} ReconcileEffect<X(!new)>(t: Table<X>, snapshot: seq<X>, device: seq<X>, idOf: X -> int, merge: (X, X) -> Option<X>)
    requires Valid(t, idOf) && Valid(Table(device), idOf) && KeepsId(merge, idOf)
    requires forall i :: 0 <= i < |device| ==>
               Lookup(Table(snapshot), idOf(device[i]), idOf) == Lookup(t, idOf(device[i]), idOf)
    ensures Valid(Reconcile(t, snapshot, device, idOf, merge), idOf)
    ensures forall j :: Lookup(Reconcile(t, snapshot, device, idOf, merge), j, idOf)
                        == (match Lookup(Table(device), j, idOf)
                            case None => Lookup(t, j, idOf)
                            case Some(d) => Some(Settled(Lookup(t, j, idOf), d, merge)))
    decreases |device|
  {
    if |device| > 0 {
      var d := device[0];
      var w := Decide(Lookup(Table(snapshot), idOf(d), idOf), d, merge);
      var next := if w.Some? then Upsert(t, w.value, idOf) else t;
      if w.Some? {
        UpsertEffect(t, w.value, idOf);
      }
      assert Lookup(next, idOf(d), idOf) == Some(Settled(Lookup(t, idOf(d), idOf), d, merge));
      assert forall j :: j != idOf(d) ==> Lookup(next, j, idOf) == Lookup(t, j, idOf);
      ValidTail(device, idOf);
      var rest := device[1..];
      assert forall i :: 0 <= i < |rest| ==> rest[i] == device[i + 1];
      ReconcileEffect(next, snapshot, rest, idOf, merge);
      assert Lookup(Table(rest), idOf(d), idOf).None?;
    }
  }
}
