/**
 * The local database of apps and contacts: one table per item class keyed by
 * the item's id, written with "insert or replace" and "delete", and read
 * back ordered by the DAO queries.  A table is its rows in storage order.
 */
module Store {
  import opened Wrappers
  import opened JavaText
  import opened Seqs
  import opened Models

  datatype Table<X> = Table(rows: seq<X>)

  /** The primary key: no two rows share an id. */
  predicate Valid<X>(t: Table<X>, idOf: X -> int)
  {
    forall i, j :: 0 <= i < j < |t.rows| ==> idOf(t.rows[i]) != idOf(t.rows[j])
  }

  function Ids<X>(t: Table<X>, idOf: X -> int): set<int>
  {
    set i | 0 <= i < |t.rows| :: idOf(t.rows[i])
  }

  /** The row with a given id, if any. */
  function Lookup<X>(t: Table<X>, id: int, idOf: X -> int): (r: Option<X>)
    ensures r.Some? ==> r.value in t.rows && idOf(r.value) == id
    ensures r.None? <==> forall i :: 0 <= i < |t.rows| ==> idOf(t.rows[i]) != id
    decreases |t.rows|
  {
    if |t.rows| == 0 then None
    else if idOf(t.rows[0]) == id then Some(t.rows[0])
    else
      var r := Lookup(Table(t.rows[1..]), id, idOf);
      assert forall i :: 1 <= i < |t.rows| ==> t.rows[i] == t.rows[1..][i - 1];
      r
  }

  /** `List.indexOf` under DatabaseItem equality: the first position holding the id, or -1. */
  function Position<X>(rows: seq<X>, id: int, idOf: X -> int): (k: int)
    ensures -1 <= k < |rows|
    ensures k >= 0 ==> idOf(rows[k]) == id && forall i :: 0 <= i < k ==> idOf(rows[i]) != id
    ensures k < 0 <==> forall i :: 0 <= i < |rows| ==> idOf(rows[i]) != id
  {
    if |rows| == 0 then -1
    else if idOf(rows[0]) == id then 0
    else
      var k := Position(rows[1..], id, idOf);
      assert forall i :: 1 <= i < |rows| ==> rows[i] == rows[1..][i - 1];
      if k < 0 then -1 else k + 1
  }

  /** `indexOf` only looks at ids. */
  lemma PositionSameIds<X>(a: seq<X>, b: seq<X>, id: int, idOf: X -> int)
    requires |a| == |b| && forall i :: 0 <= i < |a| ==> idOf(a[i]) == idOf(b[i])
    ensures Position(a, id, idOf) == Position(b, id, idOf)
  {
    var x, y := Position(a, id, idOf), Position(b, id, idOf);
    if x >= 0 && y >= 0 {
      assert !(x < y) && !(y < x);
    }
  }

  function HasId<X>(id: int, idOf: X -> int): X -> bool
  {
    x => idOf(x) != id
  }

  /** `@Delete`: removes the row whose key equals the item's id. */
  function Delete<X>(t: Table<X>, id: int, idOf: X -> int): (r: Table<X>)
  {
    Table(Filter(t.rows, HasId(id, idOf)))
  }

  /** `@Insert(onConflict = REPLACE)`: the row with the same key is removed and the item stored. */
  function Upsert<X>(t: Table<X>, x: X, idOf: X -> int): (r: Table<X>)
    ensures |r.rows| >= 1 && r.rows[|r.rows| - 1] == x
  {
    Table(Delete(t, idOf(x), idOf).rows + [x])
  }

  /** `getCount()`. */
  function Count<X>(t: Table<X>): nat
  {
    |t.rows|
  }

  lemma DeleteEffect<X>(t: Table<X>, id: int, idOf: X -> int)
    ensures Lookup(Delete(t, id, idOf), id, idOf).None?
    ensures forall j :: j != id ==> Lookup(Delete(t, id, idOf), j, idOf) == Lookup(t, j, idOf)
    ensures Valid(t, idOf) ==> Valid(Delete(t, id, idOf), idOf)
    ensures Valid(t, idOf) ==> Count(Delete(t, id, idOf)) == Count(t) - (if Lookup(t, id, idOf).Some? then 1 else 0)
  {
    DeleteEffectRows(t.rows, id, idOf);
  }

  lemma DeleteEffectRows<X>(rows: seq<X>, id: int, idOf: X -> int)
    ensures Lookup(Table(Filter(rows, HasId(id, idOf))), id, idOf).None?
    ensures forall j :: j != id ==> Lookup(Table(Filter(rows, HasId(id, idOf))), j, idOf) == Lookup(Table(rows), j, idOf)
    ensures Valid(Table(rows), idOf) ==> Valid(Table(Filter(rows, HasId(id, idOf))), idOf)
    ensures Valid(Table(rows), idOf) ==>
              |Filter(rows, HasId(id, idOf))| == |rows| - (if Lookup(Table(rows), id, idOf).Some? then 1 else 0)
  {
    FilterMembers(rows, HasId(id, idOf));
    DeleteLookups(rows, id, idOf);
    if Valid(Table(rows), idOf) {
      FilterKeepsValid(rows, HasId(id, idOf), idOf);
      DeleteCount(rows, id, idOf);
    }
  }

  lemma ValidTail<X>(rows: seq<X>, idOf: X -> int)
    requires |rows| > 0 && Valid(Table(rows), idOf)
    ensures Valid(Table(rows[1..]), idOf)
    ensures forall i :: 1 <= i < |rows| ==> idOf(rows[i]) != idOf(rows[0])
  {
    forall i, j | 0 <= i < j < |rows[1..]|
      ensures idOf(rows[1..][i]) != idOf(rows[1..][j])
    {
      assert rows[1..][i] == rows[i + 1] && rows[1..][j] == rows[j + 1];
    }
  }

  lemma {:induction false} DeleteLookups<X>(rows: seq<X>, id: int, idOf: X -> int)
    ensures forall j :: j != id ==> Lookup(Table(Filter(rows, HasId(id, idOf))), j, idOf) == Lookup(Table(rows), j, idOf)
  {
    var keep := HasId(id, idOf);
    if |rows| > 0 {
      var rest := Filter(rows[1..], keep);
      DeleteLookups(rows[1..], id, idOf);
      FilterCons(rows[0], rows[1..], keep);
      assert rows == [rows[0]] + rows[1..];
      var r := Filter(rows, keep);
      if keep(rows[0]) {
        assert r == [rows[0]] + rest;
        assert r[1..] == rest;
      } else {
        assert r == rest;
      }
    }
  }

  /** Dropping rows never creates a duplicate key. */
  lemma {:induction false} FilterKeepsValid<X>(rows: seq<X>, keep: X -> bool, idOf: X -> int)
    requires Valid(Table(rows), idOf)
    ensures Valid(Table(Filter(rows, keep)), idOf)
  {
    if |rows| > 0 {
      var rest := Filter(rows[1..], keep);
      ValidTail(rows, idOf);
      FilterKeepsValid(rows[1..], keep, idOf);
      FilterCons(rows[0], rows[1..], keep);
      assert rows == [rows[0]] + rows[1..];
      var r := Filter(rows, keep);
      if keep(rows[0]) {
        FilterMembers(rows[1..], keep);
        assert r == [rows[0]] + rest;
        forall i | 0 <= i < |rest|
          ensures idOf(rest[i]) != idOf(rows[0])
        {
          var tail := rows[1..];
          FilterKeepsFrom(tail, keep, rest[i]);
          var k :| 0 <= k < |tail| && tail[k] == rest[i];
          assert rows[k + 1] == rest[i];
        }
        forall i, j | 0 <= i < j < |r|
          ensures idOf(r[i]) != idOf(r[j])
        {
          assert r[j] == rest[j - 1];
          if i > 0 {
            assert r[i] == rest[i - 1];
          }
        }
      } else {
        assert r == rest;
      }
    }
  }

  lemma FilterKeepsFrom<X>(xs: seq<X>, keep: X -> bool, y: X)
    requires y in Filter(xs, keep)
    ensures y in xs
  {
    FilterMembers(xs, keep);
  }

  lemma {:induction false} DeleteCount<X>(rows: seq<X>, id: int, idOf: X -> int)
    requires Valid(Table(rows), idOf)
    ensures |Filter(rows, HasId(id, idOf))| == |rows| - (if Lookup(Table(rows), id, idOf).Some? then 1 else 0)
  {
    var keep := HasId(id, idOf);
    if |rows| > 0 {
      ValidTail(rows, idOf);
      DeleteCount(rows[1..], id, idOf);
      FilterCons(rows[0], rows[1..], keep);
      assert rows == [rows[0]] + rows[1..];
      if !keep(rows[0]) {
        assert Lookup(Table(rows[1..]), id, idOf).None? by {
          forall i | 0 <= i < |rows[1..]|
            ensures idOf(rows[1..][i]) != id
          {
            assert rows[1..][i] == rows[i + 1];
          }
        }
      }
    }
  }

  /** After an upsert the item is the row for its id and every other row is untouched. */
  lemma UpsertEffect<X>(t: Table<X>, x: X, idOf: X -> int)
    ensures Lookup(Upsert(t, x, idOf), idOf(x), idOf) == Some(x)
    ensures forall j :: j != idOf(x) ==> Lookup(Upsert(t, x, idOf), j, idOf) == Lookup(t, j, idOf)
    ensures Valid(t, idOf) ==> Valid(Upsert(t, x, idOf), idOf)
    ensures Valid(t, idOf) ==> Count(Upsert(t, x, idOf)) == Count(t) + (if Lookup(t, idOf(x), idOf).None? then 1 else 0)
  {
    var d := Delete(t, idOf(x), idOf);
    DeleteEffect(t, idOf(x), idOf);
    LookupAppend(d.rows, x, idOf);
    if Valid(t, idOf) {
      forall i | 0 <= i < |d.rows|
        ensures idOf(d.rows[i]) != idOf(x)
      {
      }
    }
  }

  /** Appending a row whose id is absent makes it the row for that id. */
  lemma {:induction false} LookupAppend<X>(rows: seq<X>, x: X, idOf: X -> int)
    requires forall i :: 0 <= i < |rows| ==> idOf(rows[i]) != idOf(x)
    ensures Lookup(Table(rows + [x]), idOf(x), idOf) == Some(x)
    ensures forall j :: j != idOf(x) ==> Lookup(Table(rows + [x]), j, idOf) == Lookup(Table(rows), j, idOf)
  {
    if |rows| > 0 {
      LookupAppend(rows[1..], x, idOf);
      assert (rows + [x])[1..] == rows[1..] + [x];
    }
  }

  /** Deleting what was just upserted leaves the table as a plain delete would. */
  lemma DeleteUndoesUpsert<X>(t: Table<X>, x: X, idOf: X -> int)
    ensures Delete(Upsert(t, x, idOf), idOf(x), idOf) == Delete(Delete(t, idOf(x), idOf), idOf(x), idOf)
  {
    var keep := HasId(idOf(x), idOf);
    var d := Delete(t, idOf(x), idOf).rows;
    FilterAppend(d, [x], keep);
    FilterCons(x, [], keep);
    assert [x] + [] == [x];
  }

  /** Keeps the rows whose id satisfies `wanted`. */
  function KeepIds<X>(idOf: X -> int, wanted: int -> bool): X -> bool
  {
    x => wanted(idOf(x))
  }

  /** Filtering on ids keeps exactly the wanted ids' rows. */
  lemma {:induction false} FilterByIdLookup<X>(rows: seq<X>, idOf: X -> int, wanted: int -> bool)
    ensures forall j :: Lookup(Table(Filter(rows, KeepIds(idOf, wanted))), j, idOf)
                        == (if wanted(j) then Lookup(Table(rows), j, idOf) else None)
  {
    var keep := KeepIds(idOf, wanted);
    if |rows| > 0 {
      var rest := Filter(rows[1..], keep);
      FilterByIdLookup(rows[1..], idOf, wanted);
      FilterCons(rows[0], rows[1..], keep);
      assert rows == [rows[0]] + rows[1..];
      var r := Filter(rows, keep);
      if keep(rows[0]) {
        assert r == [rows[0]] + rest;
        assert r[1..] == rest;
      } else {
        assert r == rest;
      }
    }
  }

  /**
   * Any ordering of a keyed table answers lookups as the table does: this is
   * what lets a caller search the ordered `getAll` listing by id.
   */
  lemma LookupPermutation<X>(t: Table<X>, s: seq<X>, idOf: X -> int, id: int)
    requires Valid(t, idOf) && multiset(s) == multiset(t.rows)
    ensures Lookup(Table(s), id, idOf) == Lookup(t, id, idOf)
  {
    var a, b := Lookup(Table(s), id, idOf), Lookup(t, id, idOf);
    if a.Some? {
      assert a.value in multiset(t.rows);
      var k :| 0 <= k < |t.rows| && t.rows[k] == a.value;
      var m :| 0 <= m < |t.rows| && t.rows[m] == b.value;
      assert k == m;
    } else {
      forall k | 0 <= k < |t.rows|
        ensures idOf(t.rows[k]) != id
      {
        assert t.rows[k] in multiset(s);
      }
    }
  }

  // ---------------------------------------------------------------- the DAO orderings

  function AppId(a: App): int { a.id }

  function ContactId(c: Contact): int { c.id }

  /** `ORDER BY interactions DESC, popularity DESC, label ASC`: a strictly precedes b. */
  predicate AppBefore(a: App, b: App)
  {
    a.interactions > b.interactions
    || (a.interactions == b.interactions
        && (a.popularity > b.popularity || (a.popularity == b.popularity && LexLess(a.appLabel, b.appLabel))))
  }

  /** `ORDER BY interactions DESC, displayName ASC`. */
  predicate ContactBefore(a: Contact, b: Contact)
  {
    a.interactions > b.interactions || (a.interactions == b.interactions && LexLess(a.fullName, b.fullName))
  }

  lemma OrdersAsymmetric()
    ensures Asymmetric(AppBefore) && Asymmetric(ContactBefore)
  {
    forall a: App, b: App | AppBefore(a, b)
      ensures !AppBefore(b, a)
    {
      LexLessOrder(a.appLabel, b.appLabel, b.appLabel);
    }
    forall a: Contact, b: Contact | ContactBefore(a, b)
      ensures !ContactBefore(b, a)
    {
      LexLessOrder(a.fullName, b.fullName, b.fullName);
    }
  }

  /**
   * AppsDao.getAll: every row once, most used first, then most popular,
   * then by label.  Rows equal on all three keep their storage order.
   */
  function AllApps(t: Table<App>): (r: seq<App>)
    ensures multiset(r) == multiset(t.rows)
    ensures forall i :: 0 <= i < |r| - 1 ==> !AppBefore(r[i + 1], r[i])
  {
    OrdersAsymmetric();
    SortByPermutes(t.rows, AppBefore);
    SortBySorted(t.rows, AppBefore);
    SortBy(t.rows, AppBefore)
  }

  /** ContactsDao.getAll: every row once, most used first, then by display name. */
  function AllContacts(t: Table<Contact>): (r: seq<Contact>)
    ensures multiset(r) == multiset(t.rows)
    ensures forall i :: 0 <= i < |r| - 1 ==> !ContactBefore(r[i + 1], r[i])
  {
    OrdersAsymmetric();
    SortByPermutes(t.rows, ContactBefore);
    SortBySorted(t.rows, ContactBefore);
    SortBy(t.rows, ContactBefore)
  }
}
