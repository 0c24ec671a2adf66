/**
 * The `loadResults` bodies of the simple providers: what each returns for a
 * query and a capacity, and how many exact-match notifications it sends to
 * the controller on the way.  Databases, content resolvers and the Branch
 * SDK are parameters: the list they produce (or None for null) is an input.
 */
module ProviderFilters {
  import opened Wrappers
  import opened Seqs
  import opened JavaText
  import opened Models
  import WM = WordMatcher

  // ---------------------------------------------------------------- capped scans (apps, contacts)

  /**
   * The loop of the apps and contacts providers: every element is tested,
   * the accepted ones are collected, each element sends `notify(x)` exact
   * notifications, and the loop breaks as soon as the collected list's size
   * EQUALS the capacity (tested after each element).
   *
   * The contract characterises the prefix scanned: it is the whole input,
   * or the shortest non-empty prefix whose accepted elements number exactly
   * `capacity`.
   */
  method ScanCapped<X>(items: seq<X>, keep: X -> bool, notify: X -> nat, capacity: int)
    returns (list: seq<X>, visited: nat, notifications: nat)
    ensures visited <= |items|
    ensures list == Filter(items[..visited], keep)
    ensures notifications == Sum(items[..visited], notify)
    ensures visited == |items| || |list| == capacity
    ensures forall m :: 1 <= m < visited ==> |Filter(items[..m], keep)| != capacity
    ensures |items| > 0 ==> visited >= 1
  {
    list, visited, notifications := [], 0, 0;
    while visited < |items|
      invariant visited <= |items|
      invariant list == Filter(items[..visited], keep)
      invariant notifications == Sum(items[..visited], notify)
      invariant forall m :: 1 <= m < visited ==> |Filter(items[..m], keep)| != capacity
      invariant visited >= 1 ==> |list| != capacity
    {
      var x := items[visited];
      assert items[..visited + 1] == items[..visited] + [x];
      FilterAppend(items[..visited], [x], keep);
      SumAppend(items[..visited], [x], notify);
      if keep(x) {
        list := list + [x];
      }
      notifications := notifications + notify(x);
      visited := visited + 1;
      if |list| == capacity {
        return;
      }
    }
  }

  /**
   * With a positive capacity the scan never collects more than the capacity:
   * the size grows one at a time, so it meets the capacity before passing it.
   */
  lemma {:induction false} ScanWithinCapacity<X>(items: seq<X>, keep: X -> bool, capacity: int, visited: nat)
    requires capacity >= 1 && visited <= |items|
    requires forall m :: 1 <= m < visited ==> |Filter(items[..m], keep)| != capacity
    ensures |Filter(items[..visited], keep)| <= capacity
    decreases visited
  {
    if visited > 0 {
      ScanWithinCapacity(items, keep, capacity, visited - 1);
      FilterStep(items, visited - 1, keep);
      if visited - 1 >= 1 {
        assert |Filter(items[..visited - 1], keep)| != capacity;
      } else {
        assert items[..0] == [];
      }
    }
  }

  /** The apps provider's matcher: a word starts at every non-lower-case character. */
  function AppsMatcher(): (m: WM.Matcher)
    ensures m.splitters == [WM.NonLowerCaseSplitter]
  {
    WM.Matcher([WM.NonLowerCaseSplitter])
  }

  /** One exact-match notification when the label equals the query ignoring case, matched or not. */
  function AppNotifications(query: String): App -> nat
  {
    (a: App) => if EqualsIgnoreCase(a.appLabel, query) then 1 else 0
  }

  function AppKeep(query: String): App -> bool
  {
    (a: App) => WM.Matches(AppsMatcher(), a.appLabel, query)
  }

  /**
   * The loop visits exactly `items[..v]`: it stops after the first element
   * at which the kept ones number `capacity`, or at the end of the list.
   */
  ghost predicate ScannedPrefix<X>(items: seq<X>, v: nat, keep: X -> bool, capacity: int)
  {
    && v <= |items|
    && (v == |items| || (v >= 1 && |Filter(items[..v], keep)| == capacity))
    && (forall m :: 1 <= m < v ==> |Filter(items[..m], keep)| != capacity)
  }

  /**
   * The shared shape of the two list providers' loadResults (None for a
   * null list): the kept items of the scanned prefix in list order, and the
   * notifications of every scanned item; a positive capacity caps the list.
   */
  method ScanList<X(==)>(items: Option<seq<X>>, keep: X -> bool, notify: X -> nat, capacity: int)
    returns (list: seq<X>, notifications: nat)
    ensures items.None? ==> list == [] && notifications == 0
    ensures items.Some? ==> exists v: nat :: ScannedPrefix(items.value, v, keep, capacity)
                                        && list == Filter(items.value[..v], keep)
                                        && notifications == Sum(items.value[..v], notify)
    ensures forall x :: x in list ==> items.Some? && x in items.value && keep(x)
    ensures capacity >= 1 ==> |list| <= capacity
    ensures items.Some? && |Filter(items.value, keep)| < capacity ==> list == Filter(items.value, keep)
    ensures notifications > 0 ==> items.Some? && exists x :: x in items.value && notify(x) > 0
  {
    if items.None? || |items.value| == 0 {
      if items.Some? {
        assert items.value[..0] == [];
        assert ScannedPrefix(items.value, 0, keep, capacity);
      }
      return [], 0;
    }
    var xs := items.value;
    var visited;
    list, visited, notifications := ScanCapped(xs, keep, notify, capacity);
    assert ScannedPrefix(xs, visited, keep, capacity);
    FilterMembers(xs[..visited], keep);
    assert forall x :: x in xs[..visited] ==> x in xs;
    if capacity >= 1 {
      ScanWithinCapacity(xs, keep, capacity, visited);
    }
    FilterPrefixLength(xs, visited, keep);
    if visited == |xs| {
      assert xs[..visited] == xs;
    }
    SumPositive(xs[..visited], notify);
    if notifications > 0 {
      var i :| 0 <= i < visited && notify(xs[..visited][i]) > 0;
      assert xs[i] in xs;
    }
  }

  /**
   * AppsProvider.loadResults over the top-apps list (None for null): the
   * apps are scanned in list order until the matching ones number
   * `capacity`; the result is the matching apps of the scanned prefix, and
   * every scanned app whose label equals the query ignoring case sends one
   * exact-match notification, matched or not.
   */
  method LoadApps(apps: Option<seq<App>>, query: String, capacity: int) returns (list: seq<App>, notifications: nat)
    ensures apps.None? ==> list == [] && notifications == 0
    ensures apps.Some? ==> exists v: nat :: ScannedPrefix(apps.value, v, AppKeep(query), capacity)
                                       && list == Filter(apps.value[..v], AppKeep(query))
                                       && notifications == Sum(apps.value[..v], AppNotifications(query))
    ensures forall a :: a in list ==> apps.Some? && a in apps.value && WM.Matches(AppsMatcher(), a.appLabel, query)
    ensures capacity >= 1 ==> |list| <= capacity
    ensures apps.Some? && |Filter(apps.value, AppKeep(query))| < capacity ==> list == Filter(apps.value, AppKeep(query))
    ensures notifications > 0 ==> exists a :: a in apps.value && EqualsIgnoreCase(a.appLabel, query)
  {
    list, notifications := ScanList(apps, AppKeep(query), AppNotifications(query), capacity);
  }

  /** `getNames` entries equal to the query ignoring case: one notification each. */
  function ContactNotifications(query: String): Contact -> nat
  {
    (c: Contact) => |Filter(Names(c), (n: String) => EqualsIgnoreCase(n, query))|
  }

  function ContactKeep(query: String): Contact -> bool
  {
    (c: Contact) => WM.Matches(WM.DefaultMatcher(), c.fullName, query)
  }

  /**
   * ContactsProvider.loadResults: the same capped scan with the default
   * (whitespace) matcher on the full name; every scanned contact sends one
   * exact notification per space-separated name equal to the query
   * ignoring case.
   */
  method LoadContacts(contacts: Option<seq<Contact>>, query: String, capacity: int)
    returns (list: seq<Contact>, notifications: nat)
    ensures contacts.None? ==> list == [] && notifications == 0
    ensures contacts.Some? ==> exists v: nat :: ScannedPrefix(contacts.value, v, ContactKeep(query), capacity)
                                           && list == Filter(contacts.value[..v], ContactKeep(query))
                                           && notifications == Sum(contacts.value[..v], ContactNotifications(query))
    ensures forall c :: c in list ==> contacts.Some? && c in contacts.value && WM.Matches(WM.DefaultMatcher(), c.fullName, query)
    ensures capacity >= 1 ==> |list| <= capacity
    ensures contacts.Some? && |Filter(contacts.value, ContactKeep(query))| < capacity
            ==> list == Filter(contacts.value, ContactKeep(query))
    ensures notifications > 0 ==> exists c, n :: c in contacts.value && n in Names(c) && EqualsIgnoreCase(n, query)
  {
    list, notifications := ScanList(contacts, ContactKeep(query), ContactNotifications(query), capacity);
    if notifications > 0 {
      var c :| c in contacts.value && ContactNotifications(query)(c) > 0;
      NotifiedName(c, query);
    }
  }

  /** A contact counted for notifications has a name equal to the query. */
  lemma NotifiedName(c: Contact, query: String)
    requires ContactNotifications(query)(c) > 0
    ensures exists n :: n in Names(c) && EqualsIgnoreCase(n, query)
  {
    var hits := Filter(Names(c), (n: String) => EqualsIgnoreCase(n, query));
    FilterMembers(Names(c), (n: String) => EqualsIgnoreCase(n, query));
    assert hits[0] in hits;
  }

  // ---------------------------------------------------------------- media

  /** The MediaStore MEDIA_TYPE_* values of the platform. */
  const MEDIA_TYPE_IMAGE: int := 1
  const MEDIA_TYPE_AUDIO: int := 2
  const MEDIA_TYPE_VIDEO: int := 3
  const MEDIA_TYPE_PLAYLIST: int := 4

  /**
   * One cursor row with what the file system says about its path: DATA,
   * TITLE (nullable), MEDIA_TYPE, whether the file is hidden or a
   * directory, and the extension MimeTypeMap reports for its file URI.
   */
  datatype Row = Row(fullPath: String, title: Option<String>, storeType: int, hidden: bool, directory: bool, extension: String)

  /** One trailing "/" is dropped. */
  function StripSlash(path: String): (r: String)
    ensures EndsWith(path, "/") ==> r == path[..|path| - 1]
    ensures !EndsWith(path, "/") ==> r == path
  {
    if EndsWith(path, "/") then path[..|path| - 1] else path
  }

  /** The part after the last "/", or the whole path when it has none. */
  function LastSegment(path: String): (r: String)
    ensures '/' !in r
    ensures EndsWith(path, r)
  {
    var k := LastIndexOfChar(path, '/');
    SuffixAfter(path, k, '/');
    path[k + 1..]
  }

  lemma SuffixAfter(path: String, k: int, c: char)
    requires -1 <= k < |path|
    requires forall i :: k < i < |path| ==> path[i] != c
    ensures c !in path[k + 1..]
    ensures EndsWith(path, path[k + 1..])
  {
    var r := path[k + 1..];
    assert path[|path| - |r|..] == r;
    forall i | 0 <= i < |r|
      ensures r[i] != c
    {
      assert r[i] == path[k + 1 + i];
    }
  }

  function TypeOf(row: Row): (t: int)
    ensures row.storeType == MEDIA_TYPE_AUDIO ==> t == TYPE_AUDIO
    ensures row.storeType == MEDIA_TYPE_IMAGE ==> t == TYPE_PICTURE
    ensures row.storeType == MEDIA_TYPE_VIDEO ==> t == TYPE_VIDEO
    ensures row.storeType == MEDIA_TYPE_PLAYLIST ==> t == TYPE_PLAYLIST
    ensures !(1 <= row.storeType <= 4) ==> t == (if row.extension == "pdf" then TYPE_PDF else TYPE_OTHER)
  {
    if row.storeType == MEDIA_TYPE_AUDIO then TYPE_AUDIO
    else if row.storeType == MEDIA_TYPE_IMAGE then TYPE_PICTURE
    else if row.storeType == MEDIA_TYPE_VIDEO then TYPE_VIDEO
    else if row.storeType == MEDIA_TYPE_PLAYLIST then TYPE_PLAYLIST
    else if row.extension == "pdf" then TYPE_PDF
    else TYPE_OTHER
  }

  /** `applyFilters`: the path lies under one of the public directories. */
  predicate UnderAnyDirectory(path: String, directories: seq<String>)
  {
    exists i :: 0 <= i < |directories| && StartsWith(path, directories[i])
  }

  /** The file URI of a path; its encoding is not modelled. */
  function FileUri(path: String): (u: Uri)
    ensures u.scheme == "file"
  {
    var seg := LastSegment(path);
    Uri("file", if |seg| > 0 then Some(seg) else None, "file://" + path)
  }

  /** The Media a row becomes when every filter accepts it. */
  function RowResult(row: Row, query: String, directories: seq<String>): (r: Option<Media>)
    ensures r.Some? <==> UnderAnyDirectory(StripSlash(row.fullPath), directories) && !row.hidden
                         && WM.Matches(AppsMatcher(), LastSegment(StripSlash(row.fullPath)), query) && !row.directory
    ensures r.Some? ==> r.value.title == row.title && r.value.mediaType == TypeOf(row) && r.value.uri.scheme == "file"
  {
    var path := StripSlash(row.fullPath);
    if UnderAnyDirectory(path, directories) && !row.hidden
       && WM.Matches(AppsMatcher(), LastSegment(path), query) && !row.directory
    then Some(Media(FileUri(path), row.title, TypeOf(row)))
    else None
  }

  /** What one row is selected as: nothing for an unreadable or dropped row. */
  function Picked<R, M>(row: Option<R>, select: R -> Option<M>): (r: seq<M>)
    ensures |r| <= 1
  {
    if row.Some? && select(row.value).Some? then [select(row.value).value] else []
  }

  /** The selections of the rows, in row order. */
  function Selections<R, M>(rows: seq<Option<R>>, select: R -> Option<M>): (r: seq<M>)
    ensures |r| <= |rows|
  {
    if |rows| == 0 then [] else Picked(rows[0], select) + Selections(rows[1..], select)
  }

  /**
   * The loop reads exactly `rows[..v]`: each of those rows is readable and
   * is read while fewer than `capacity` results were kept.
   */
  ghost predicate ReadPrefix<R, M>(rows: seq<Option<R>>, v: nat, capacity: int, select: R -> Option<M>)
  {
    && v <= |rows|
    && (forall i :: 0 <= i < v ==> rows[i].Some?)
    && (forall m :: 0 <= m < v ==> |Selections(rows[..m], select)| < capacity)
  }

  /**
   * A cursor loop: rows are read while fewer than `capacity` results were
   * kept; `select` turns a row into a result or drops it, an unreadable
   * row (None) throws, and `exact` tells which kept results are reported
   * as exact matches.  The results are the selections of the rows read,
   * in order, up to the end of the cursor or the capacity; the loop throws
   * exactly when it reaches an unreadable row.
   */
  function LoadRows<R, M>(rows: seq<Option<R>>, capacity: int, select: R -> Option<M>, exact: M -> bool): (r: Outcome<(seq<M>, nat)>)
    ensures r.Thrown? ==> r.error == Runtime
    ensures r.Ok? ==> r.value.1 == Count(r.value.0, exact)
    ensures r.Ok? ==> |r.value.0| <= |rows| && |r.value.0| <= (if capacity > 0 then capacity else 0)
    ensures capacity <= 0 ==> r == Ok(([], 0))
    decreases |rows|
  {
    if |rows| == 0 || capacity <= 0 then Ok(([], 0))
    else if rows[0].None? then Thrown(Runtime)
    else
      var head := select(rows[0].value);
      var rest := LoadRows(rows[1..], if head.Some? then capacity - 1 else capacity, select, exact);
      if rest.Thrown? then rest
      else if head.Some? then
        var r := [head.value] + rest.value.0;
        assert r[0] == head.value && r[1..] == rest.value.0;
        Ok((r, rest.value.1 + if exact(head.value) then 1 else 0))
      else rest
  }

  /**
   * What the loop reads on success: the results are the selections of the
   * rows read, which run to the end of the cursor or to the capacity.
   */
  lemma {:induction false} LoadRowsReadsPrefix<R, M>(rows: seq<Option<R>>, capacity: int, select: R -> Option<M>, exact: M -> bool)
    ensures var r := LoadRows(rows, capacity, select, exact);
            r.Ok? ==> exists v: nat :: ReadPrefix(rows, v, capacity, select)
                                       && (v == |rows| || |Selections(rows[..v], select)| >= capacity)
                                       && r.value.0 == Selections(rows[..v], select)
    decreases |rows|
  {
    if |rows| == 0 || capacity <= 0 || rows[0].None? {
      assert rows[..0] == [];
      assert ReadPrefix(rows, 0, capacity, select);
    } else {
      var c1 := capacity - |Picked(rows[0], select)|;
      LoadRowsHead(rows, capacity, select, exact);
      var rest := LoadRows(rows[1..], c1, select, exact);
      if rest.Ok? {
        LoadRowsReadsPrefix(rows[1..], c1, select, exact);
        ReadPrefixOk(rows, capacity, select, rest.value.0);
      }
    }
  }

  /** The loop throws exactly at an unreadable row it reaches. */
  lemma {:induction false} LoadRowsThrowsAtUnreadable<R, M>(rows: seq<Option<R>>, capacity: int, select: R -> Option<M>, exact: M -> bool)
    ensures LoadRows(rows, capacity, select, exact).Thrown? ==>
              exists u: nat :: ReadPrefix(rows, u, capacity, select) && u < |rows| && rows[u].None?
    decreases |rows|
  {
    if |rows| == 0 || capacity <= 0 || rows[0].None? {
      assert rows[..0] == [];
      assert ReadPrefix(rows, 0, capacity, select);
    } else {
      var c1 := capacity - |Picked(rows[0], select)|;
      LoadRowsHead(rows, capacity, select, exact);
      if LoadRows(rows[1..], c1, select, exact).Thrown? {
        LoadRowsThrowsAtUnreadable(rows[1..], c1, select, exact);
        ReadPrefixThrown(rows, capacity, select);
      }
    }
  }

  /** The rows read after the first one, seen from the whole cursor. */
  lemma ReadPrefixCons<R, M>(rows: seq<Option<R>>, v: nat, capacity: int, select: R -> Option<M>)
    requires |rows| > 0 && capacity > 0 && rows[0].Some?
    requires ReadPrefix(rows[1..], v, capacity - |Picked(rows[0], select)|, select)
    ensures ReadPrefix(rows, v + 1, capacity, select)
    ensures Selections(rows[..v + 1], select) == Picked(rows[0], select) + Selections(rows[1..][..v], select)
  {
    forall m | 1 <= m <= v + 1
      ensures Selections(rows[..m], select) == Picked(rows[0], select) + Selections(rows[1..][..m - 1], select)
    {
      assert rows[..m][0] == rows[0] && rows[..m][1..] == rows[1..][..m - 1];
    }
    forall i | 0 <= i < v + 1
      ensures rows[i].Some?
    {
      if i > 0 {
        assert rows[i] == rows[1..][i - 1];
      }
    }
    assert rows[..0] == [];
  }

  /** An unreadable row reached in the rest of the cursor is reached in the whole cursor. */
  lemma ReadPrefixThrown<R, M>(rows: seq<Option<R>>, capacity: int, select: R -> Option<M>)
    requires |rows| > 0 && capacity > 0 && rows[0].Some?
    requires exists u: nat :: ReadPrefix(rows[1..], u, capacity - |Picked(rows[0], select)|, select)
                              && u < |rows[1..]| && rows[1..][u].None?
    ensures exists u: nat :: ReadPrefix(rows, u, capacity, select) && u < |rows| && rows[u].None?
  {
    var u: nat :| ReadPrefix(rows[1..], u, capacity - |Picked(rows[0], select)|, select) && u < |rows[1..]| && rows[1..][u].None?;
    ReadPrefixCons(rows, u, capacity, select);
    assert rows[u + 1] == rows[1..][u];
  }

  /** The rows read in the rest of the cursor, behind the first row, are the rows read in the whole cursor. */
  lemma ReadPrefixOk<R, M>(rows: seq<Option<R>>, capacity: int, select: R -> Option<M>, rest: seq<M>)
    requires |rows| > 0 && capacity > 0 && rows[0].Some?
    requires exists v: nat :: ReadPrefix(rows[1..], v, capacity - |Picked(rows[0], select)|, select)
                              && (v == |rows[1..]| || |Selections(rows[1..][..v], select)| >= capacity - |Picked(rows[0], select)|)
                              && rest == Selections(rows[1..][..v], select)
    ensures exists v: nat :: ReadPrefix(rows, v, capacity, select)
                             && (v == |rows| || |Selections(rows[..v], select)| >= capacity)
                             && Picked(rows[0], select) + rest == Selections(rows[..v], select)
  {
    var c1 := capacity - |Picked(rows[0], select)|;
    var v: nat :| ReadPrefix(rows[1..], v, c1, select)
                  && (v == |rows[1..]| || |Selections(rows[1..][..v], select)| >= c1)
                  && rest == Selections(rows[1..][..v], select);
    ReadPrefixCons(rows, v, capacity, select);
  }

  /** Only an unreadable row can make the loop throw. */
  lemma {:induction false} LoadRowsReadable<R, M>(rows: seq<Option<R>>, capacity: int, select: R -> Option<M>, exact: M -> bool)
    requires forall i :: 0 <= i < |rows| ==> rows[i].Some?
    ensures LoadRows(rows, capacity, select, exact).Ok?
    decreases |rows|
  {
    if |rows| > 0 && capacity > 0 {
      assert forall i :: 0 <= i < |rows[1..]| ==> rows[1..][i] == rows[i + 1];
      LoadRowsReadable(rows[1..], if select(rows[0].value).Some? then capacity - 1 else capacity, select, exact);
    }
  }

  /** Some readable row is selected as exactly `m`. */
  ghost predicate SelectedFrom<R, M>(m: M, rows: seq<Option<R>>, select: R -> Option<M>)
  {
    exists i :: 0 <= i < |rows| && rows[i].Some? && select(rows[i].value) == Some(m)
  }

  lemma SelectedFromTail<R, M>(m: M, rows: seq<Option<R>>, select: R -> Option<M>)
    requires |rows| > 0 && SelectedFrom(m, rows[1..], select)
    ensures SelectedFrom(m, rows, select)
  {
    var i :| 0 <= i < |rows[1..]| && rows[1..][i].Some? && select(rows[1..][i].value) == Some(m);
    assert rows[i + 1] == rows[1..][i];
  }

  /** Every result is what some row was selected as. */
  lemma {:induction false} LoadRowsSelected<R, M>(rows: seq<Option<R>>, capacity: int, select: R -> Option<M>, exact: M -> bool)
    requires LoadRows(rows, capacity, select, exact).Ok?
    ensures forall m :: m in LoadRows(rows, capacity, select, exact).value.0 ==> SelectedFrom(m, rows, select)
    decreases |rows|
  {
    if |rows| > 0 && capacity > 0 {
      var head := select(rows[0].value);
      var restCapacity := if head.Some? then capacity - 1 else capacity;
      LoadRowsSelected(rows[1..], restCapacity, select, exact);
      var rest := LoadRows(rows[1..], restCapacity, select, exact).value.0;
      forall m | m in LoadRows(rows, capacity, select, exact).value.0
        ensures SelectedFrom(m, rows, select)
      {
        if head.Some? && m == head.value {
          assert select(rows[0].value) == Some(m);
        } else {
          assert m in rest;
          SelectedFromTail(m, rows, select);
        }
      }
    }
  }

  /** One turn of the loop on a readable first row below the capacity. */
  lemma LoadRowsHead<R, M>(rows: seq<Option<R>>, capacity: int, select: R -> Option<M>, exact: M -> bool)
    requires |rows| > 0 && capacity > 0 && rows[0].Some?
    ensures var head := select(rows[0].value);
            var rest := LoadRows(rows[1..], capacity - |Picked(rows[0], select)|, select, exact);
            LoadRows(rows, capacity, select, exact)
            == if rest.Thrown? || head.None? then rest
               else Ok(([head.value] + rest.value.0, rest.value.1 + if exact(head.value) then 1 else 0))
  {
  }

  /** Rows after the capacity is reached are never read, so a broken row there does no harm. */
  lemma {:induction false} LoadRowsStopsAtCapacity<R, M>(rows: seq<Option<R>>, tail: seq<Option<R>>, capacity: int, select: R -> Option<M>, exact: M -> bool)
    requires LoadRows(rows, capacity, select, exact).Ok?
    requires |LoadRows(rows, capacity, select, exact).value.0| == capacity
    ensures LoadRows(rows + tail, capacity, select, exact) == LoadRows(rows, capacity, select, exact)
    decreases |rows|
  {
    if capacity > 0 {
      assert |rows| > 0 && rows[0].Some?;
      assert (rows + tail)[0] == rows[0];
      assert (rows + tail)[1..] == rows[1..] + tail;
      var restCapacity := capacity - |Picked(rows[0], select)|;
      LoadRowsHead(rows, capacity, select, exact);
      LoadRowsHead(rows + tail, capacity, select, exact);
      LoadRowsStopsAtCapacity(rows[1..], tail, restCapacity, select, exact);
    }
  }

  /** What a media row becomes, for a query and the public directories. */
  function MediaSelect(query: String, directories: seq<String>): Row -> Option<Media>
  {
    row => RowResult(row, query, directories)
  }

  /** A kept result is reported as an exact match when its name equals the query ignoring case. */
  function MediaExact(query: String): Media -> bool
  {
    m => EqualsIgnoreCase(query, MediaName(m))
  }

  /**
   * MediaProvider.loadResults: without a context it throws before querying;
   * a cursor the resolver could not open (None) fails on first use, and
   * otherwise the cursor's rows (None: reading the row throws) are read
   * while the result list is below the capacity.  Any exception inside the
   * read becomes a RuntimeException.  Also returns the number of
   * exact-match notifications.
   */
  function LoadMedia(hasContext: bool, cursor: Option<seq<Option<Row>>>, query: String, capacity: int, directories: seq<String>): (r: Outcome<(seq<Media>, nat)>)
    ensures !hasContext || cursor.None? ==> r == Thrown(Runtime)
    ensures r.Thrown? ==> r.error == Runtime
    ensures r.Ok? ==> cursor.Some? && |r.value.0| <= |cursor.value| && |r.value.0| <= (if capacity > 0 then capacity else 0)
    ensures r.Ok? ==> r.value.1 == Count(r.value.0, MediaExact(query))
    ensures hasContext && cursor.Some? && capacity <= 0 ==> r == Ok(([], 0))
  {
    if !hasContext then Thrown(Runtime)
    else if cursor.None? then Thrown(Runtime)
    else LoadRows(cursor.value, capacity, MediaSelect(query, directories), MediaExact(query))
  }

  /** With a context and an open cursor, only an unreadable row can make the media load throw. */
  lemma LoadMediaReadable(rows: seq<Option<Row>>, query: String, capacity: int, directories: seq<String>)
    requires forall i :: 0 <= i < |rows| ==> rows[i].Some?
    ensures LoadMedia(true, Some(rows), query, capacity, directories).Ok?
  {
    LoadRowsReadable(rows, capacity, MediaSelect(query, directories), MediaExact(query));
  }

  /**
   * The media results are the filtered rows of the prefix read, in cursor
   * order; that prefix ends at the end of the cursor or at the capacity.
   */
  lemma MediaReadsPrefix(rows: seq<Option<Row>>, query: String, capacity: int, directories: seq<String>)
    ensures var r := LoadMedia(true, Some(rows), query, capacity, directories);
            r.Ok? ==> exists v: nat :: ReadPrefix(rows, v, capacity, MediaSelect(query, directories))
                                       && (v == |rows| || |Selections(rows[..v], MediaSelect(query, directories))| >= capacity)
                                       && r.value.0 == Selections(rows[..v], MediaSelect(query, directories))
  {
    LoadRowsReadsPrefix(rows, capacity, MediaSelect(query, directories), MediaExact(query));
  }

  /** The media load throws on a row only when the loop reaches an unreadable one. */
  lemma MediaThrowsAtUnreadable(rows: seq<Option<Row>>, query: String, capacity: int, directories: seq<String>)
    ensures LoadMedia(true, Some(rows), query, capacity, directories).Thrown? ==>
              exists u: nat :: ReadPrefix(rows, u, capacity, MediaSelect(query, directories)) && u < |rows| && rows[u].None?
  {
    LoadRowsThrowsAtUnreadable(rows, capacity, MediaSelect(query, directories), MediaExact(query));
  }

  /** Every media result is what some row became after passing every filter. */
  lemma MediaResultsFromRows(rows: seq<Option<Row>>, query: String, capacity: int, directories: seq<String>)
    requires LoadMedia(true, Some(rows), query, capacity, directories).Ok?
    ensures forall m :: m in LoadMedia(true, Some(rows), query, capacity, directories).value.0 ==>
              exists i :: 0 <= i < |rows| && rows[i].Some? && RowResult(rows[i].value, query, directories) == Some(m)
  {
    LoadRowsSelected(rows, capacity, MediaSelect(query, directories), MediaExact(query));
  }

  /** Media rows after the capacity is reached are never read. */
  lemma MediaStopsAtCapacity(rows: seq<Option<Row>>, tail: seq<Option<Row>>, query: String, capacity: int, directories: seq<String>)
    requires LoadMedia(true, Some(rows), query, capacity, directories).Ok?
    requires |LoadMedia(true, Some(rows), query, capacity, directories).value.0| == capacity
    ensures LoadMedia(true, Some(rows + tail), query, capacity, directories) == LoadMedia(true, Some(rows), query, capacity, directories)
  {
    LoadRowsStopsAtCapacity(rows, tail, capacity, MediaSelect(query, directories), MediaExact(query));
  }

  // ---------------------------------------------------------------- all apps

  /** The sort key: the label lower-cased. */
  function SortKey(a: App): String
  {
    ToLower(a.appLabel)
  }

  /** The comparator's "less than": the lower-case labels compare below zero. */
  predicate LabelBefore(a: App, b: App)
  {
    LexLess(SortKey(a), SortKey(b))
  }

  lemma LabelBeforeAsymmetric()
    ensures Asymmetric(LabelBefore)
  {
    forall a: App, b: App | LabelBefore(a, b)
      ensures !LabelBefore(b, a)
    {
      LexLessOrder(SortKey(a), SortKey(b), SortKey(b));
    }
  }

  /**
   * `Collections.sort` with the lower-case label comparator: a stable sort,
   * so the result is ordered and a permutation of the input.
   */
  function SortByLabel(apps: seq<App>): (r: seq<App>)
    ensures SortedBy(r, LabelBefore)
    ensures multiset(r) == multiset(apps)
  {
    LabelBeforeAsymmetric();
    SortBySorted(apps, LabelBefore);
    SortByPermutes(apps, LabelBefore);
    SortBy(apps, LabelBefore)
  }

  function SameKey(k: String): App -> bool
  {
    (a: App) => SortKey(a) == k
  }

  /** Every element after the inserted one has a strictly greater key. */
  lemma {:induction false} InsertFilter(sorted: seq<App>, a: App, k: String)
    requires SortedBy(sorted, LabelBefore)
    ensures Filter(InsertBy(sorted, a, LabelBefore), SameKey(k))
            == Filter(sorted, SameKey(k)) + (if SortKey(a) == k then [a] else [])
  {
    var keep := SameKey(k);
    if |sorted| == 0 {
      FilterCons(a, [], keep);
    } else if LexLess(SortKey(a), SortKey(sorted[0])) {
      GreaterKeysFiltered(sorted, SortKey(a), k);
      FilterCons(a, sorted, keep);
    } else {
      SortedByTail(sorted, LabelBefore);
      InsertFilter(sorted[1..], a, k);
      FilterCons(sorted[0], InsertBy(sorted[1..], a, LabelBefore), keep);
      FilterCons(sorted[0], sorted[1..], keep);
      assert [sorted[0]] + sorted[1..] == sorted;
    }
  }

  /** In a sorted list whose head exceeds `low`, no element has key `low`, so a filter for it yields nothing when k == low. */
  lemma {:induction false} GreaterKeysFiltered(sorted: seq<App>, low: String, k: String)
    requires SortedBy(sorted, LabelBefore) && |sorted| > 0 && LexLess(low, SortKey(sorted[0]))
    ensures k == low ==> Filter(sorted, SameKey(k)) == []
  {
    if k == low {
      forall j | 0 <= j < |sorted|
        ensures LexLess(low, SortKey(sorted[j]))
      {
        SortedChain(sorted, j, low);
      }
      NoneKept(sorted, k);
    }
  }

  lemma {:induction false} SortedChain(sorted: seq<App>, j: nat, low: String)
    requires SortedBy(sorted, LabelBefore) && j < |sorted| && |sorted| > 0 && LexLess(low, SortKey(sorted[0]))
    ensures LexLess(low, SortKey(sorted[j]))
    decreases j
  {
    if j > 0 {
      SortedChain(sorted, j - 1, low);
      var a, b := SortKey(sorted[j - 1]), SortKey(sorted[j]);
      LexLessOrder(low, a, b);
      LexLessOrder(a, b, b);
      if a != b {
        assert LexLess(a, b);
      }
    }
  }

  lemma {:induction false} NoneKept(xs: seq<App>, k: String)
    requires forall j :: 0 <= j < |xs| ==> LexLess(k, SortKey(xs[j]))
    ensures Filter(xs, SameKey(k)) == []
  {
    if |xs| > 0 {
      LexLessOrder(k, k, k);
      NoneKept(xs[1..], k);
    }
  }

  /** The sort is stable: apps with equal keys keep their relative order. */
  lemma {:induction false} SortByLabelStable(apps: seq<App>, k: String)
    ensures Filter(SortByLabel(apps), SameKey(k)) == Filter(apps, SameKey(k))
  {
    if |apps| > 0 {
      var init, last := apps[..|apps| - 1], apps[|apps| - 1];
      var keep := SameKey(k);
      var tail := if SortKey(last) == k then [last] else [];
      SortByLabelStable(init, k);
      InsertFilter(SortByLabel(init), last, k);
      assert apps == init + [last];
      FilterAppend(init, [last], keep);
      FilterCons(last, [], keep);
      assert [last] + [] == [last];
      assert Filter([last], keep) == tail;
      calc {
        Filter(SortByLabel(apps), keep);
        Filter(InsertBy(SortByLabel(init), last, LabelBefore), keep);
        Filter(SortByLabel(init), keep) + tail;
        Filter(init, keep) + tail;
        Filter(apps, keep);
      }
    }
  }

  /**
   * The icon cache: a package already cached keeps its icon; an uncached
   * package gets the icon computed for its first app in the list.
   */
  function CacheIcons(cache: map<String, int>, apps: seq<App>, iconOf: App -> int): (r: map<String, int>)
    ensures r.Keys == cache.Keys + set a | a in apps :: a.packageName
    ensures forall p :: p in cache ==> r[p] == cache[p]
    decreases |apps|
  {
    if |apps| == 0 then cache
    else
      var a := apps[0];
      var next := if a.packageName in cache then cache else cache[a.packageName := iconOf(a)];
      var r := CacheIcons(next, apps[1..], iconOf);
      assert (set x | x in apps :: x.packageName) == {a.packageName} + (set x | x in apps[1..] :: x.packageName) by {
        assert forall x :: x in apps <==> x == a || x in apps[1..];
      }
      r
  }

  lemma {:induction false} CacheIconsFirstWins(cache: map<String, int>, apps: seq<App>, iconOf: App -> int, i: nat)
    requires i < |apps| && apps[i].packageName !in cache
    requires forall j :: 0 <= j < i ==> apps[j].packageName != apps[i].packageName
    ensures CacheIcons(cache, apps, iconOf)[apps[i].packageName] == iconOf(apps[i])
    decreases i
  {
    var a := apps[0];
    var next := if a.packageName in cache then cache else cache[a.packageName := iconOf(a)];
    if i > 0 {
      CacheIconsFirstWins(next, apps[1..], iconOf, i - 1);
    }
  }

  /** AllAppsProvider.loadResults: null throws; otherwise the icons are cached and the list sorted. */
  function LoadAllApps(apps: Option<seq<App>>, cache: map<String, int>, iconOf: App -> int): (r: Outcome<(seq<App>, map<String, int>)>)
    ensures apps.None? <==> r == Thrown(Runtime)
    ensures r.Ok? ==> multiset(r.value.0) == multiset(apps.value)
    ensures r.Ok? ==> SortedBy(r.value.0, LabelBefore)
    ensures r.Ok? ==> forall k :: Filter(r.value.0, SameKey(k)) == Filter(apps.value, SameKey(k))
    ensures r.Ok? ==> r.value.1.Keys == cache.Keys + set a | a in apps.value :: a.packageName
    ensures r.Ok? ==> forall p :: p in cache ==> r.value.1[p] == cache[p]
    ensures r.Ok? ==> forall i :: 0 <= i < |apps.value| && apps.value[i].packageName !in cache
                                  && (forall j :: 0 <= j < i ==> apps.value[j].packageName != apps.value[i].packageName)
                                  ==> r.value.1[apps.value[i].packageName] == iconOf(apps.value[i])
  {
    if apps.None? then Thrown(Runtime)
    else
      var sorted := SortByLabel(apps.value);
      var icons := CacheIcons(cache, apps.value, iconOf);
      forall k ensures Filter(sorted, SameKey(k)) == Filter(apps.value, SameKey(k)) {
        SortByLabelStable(apps.value, k);
      }
      forall i | 0 <= i < |apps.value| && apps.value[i].packageName !in cache
                 && (forall j :: 0 <= j < i ==> apps.value[j].packageName != apps.value[i].packageName)
        ensures icons[apps.value[i].packageName] == iconOf(apps.value[i])
      {
        CacheIconsFirstWins(cache, apps.value, iconOf, i);
      }
      Ok((sorted, icons))
  }

  // ---------------------------------------------------------------- shortcuts

  /**
   * ShortcutProvider.initialize: the static cache is filled once, on the
   * first successful base initialization, with the catalogue entries that
   * resolve to an activity; later initializations keep it.
   */
  function InitShortcuts(cached: Option<seq<Shortcut>>, baseOk: bool, catalogue: seq<Shortcut>, resolves: Shortcut -> bool)
    : (r: (Option<seq<Shortcut>>, bool))
    ensures r.1 == baseOk
    ensures !baseOk || cached.Some? ==> r.0 == cached
    ensures baseOk && cached.None? ==> r.0 == Some(Filter(catalogue, resolves))
  {
    if !baseOk then (cached, false)
    else if cached.None? then (Some(Filter(catalogue, resolves)), true)
    else (cached, true)
  }

  /** Once filled, the cache survives every later initialization: the resolution runs at most once per process. */
  lemma InitShortcutsOnce(cached: Option<seq<Shortcut>>, later: bool, catalogue: seq<Shortcut>, resolves: Shortcut -> bool)
    ensures var once := InitShortcuts(cached, true, catalogue, resolves).0;
            once.Some? && InitShortcuts(once, later, catalogue, resolves).0 == once
  {
  }

  /** ShortcutProvider.loadResults: every cached shortcut whose label matches, whatever the capacity. */
  function LoadShortcuts(cached: seq<Shortcut>, labelOf: Shortcut -> String, query: String): (r: seq<Shortcut>)
    ensures forall s :: s in r <==> s in cached && WM.Matches(WM.DefaultMatcher(), labelOf(s), query)
  {
    var keep := (s: Shortcut) => WM.Matches(WM.DefaultMatcher(), labelOf(s), query);
    FilterMembers(cached, keep);
    Filter(cached, keep)
  }

  // ---------------------------------------------------------------- suggested apps and contacts, autocomplete

  /** SuggestedApps/SuggestedContacts.loadResults: the top list itself, or a RuntimeException for null. */
  function LoadSuggested<X>(top: Option<seq<X>>): (r: Outcome<seq<X>>)
    ensures r.Ok? <==> top.Some?
    ensures r.Ok? ==> r.value == top.value
    ensures r.Thrown? ==> r.error == Runtime
  {
    if top.Some? then Ok(top.value) else Thrown(Runtime)
  }

  function NotQuery(query: String): AutoComplete -> bool
  {
    (a: AutoComplete) => !EqualsIgnoreCase(a.name, query)
  }

  /**
   * AutoCompleteProvider.loadResults: the SDK's suggestions in order, minus
   * those equal to the query ignoring case; an SDK error (None) throws.
   */
  function LoadAutoComplete(sdk: Option<seq<String>>, query: String): (r: Outcome<seq<AutoComplete>>)
    ensures r.Ok? <==> sdk.Some?
    ensures r.Thrown? ==> r.error == Runtime
    ensures r.Ok? ==> forall a :: a in r.value <==> a in ParseSdk(sdk.value) && !EqualsIgnoreCase(a.name, query)
  {
    if sdk.None? then Thrown(Runtime)
    else
      FilterMembers(ParseSdk(sdk.value), NotQuery(query));
      Ok(Filter(ParseSdk(sdk.value), NotQuery(query)))
  }

  /** Removing the query's own suggestions twice removes nothing more. */
  lemma {:induction false} AutoCompleteFilterIdempotent(xs: seq<AutoComplete>, query: String)
    ensures Filter(Filter(xs, NotQuery(query)), NotQuery(query)) == Filter(xs, NotQuery(query))
  {
    if |xs| > 0 {
      AutoCompleteFilterIdempotent(xs[1..], query);
      var keep := NotQuery(query);
      assert [xs[0]] + xs[1..] == xs;
      FilterCons(xs[0], xs[1..], keep);
      if keep(xs[0]) {
        FilterCons(xs[0], Filter(xs[1..], keep), keep);
      } else {
        assert Filter(xs, keep) == [] + Filter(xs[1..], keep) == Filter(xs[1..], keep);
      }
    }
  }
}
