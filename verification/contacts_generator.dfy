/**
 * The top-contacts generator: contacts read from the device's data rows
 * (one row per phone number or structured name), first names inferred,
 * family candidates promoted, and the contacts table reconciled with the
 * result.  The regeneration flags are process-wide; a content observer
 * clears the synced flag.  The permission and the cursor are inputs.
 */
module ContactsGenerator {
  import opened Wrappers
  import opened JavaText
  import opened Seqs
  import opened Models
  import opened Store
  import opened Sync

  // ---------------------------------------------------------------- device rows

  datatype DataKind = PhoneKind | NameKind

  /** One row of the data query: the contact id and display name, and the columns of its kind. */
  datatype DataRow = DataRow(contactId: int, displayName: Option<String>, kind: DataKind,
                             number: Option<String>, given: Option<String>, family: Option<String>, prefix: Option<String>)

  /** `TextUtils.isEmpty(s) ? null : s`. */
  function NonEmpty(s: Option<String>): (r: Option<String>)
    ensures r.Some? <==> s.Some? && |s.value| > 0
    ensures r.Some? ==> r == s
  {
    if s.Some? && |s.value| > 0 then s else None
  }

  /** The names tried as the first name, in order. */
  function FirstNameCandidates(prefix: Option<String>, given: String, family: String): seq<String>
  {
    [given, family]
    + (if prefix.Some? then [prefix.value + " " + given, prefix.value + " " + family, prefix.value + given, prefix.value + family]
       else [])
  }

  /** The first candidate the full name starts with: reference definition. */
  function FirstPrefixing(candidates: seq<String>, full: String): (r: Option<String>)
  {
    if |candidates| == 0 then None
    else if StartsWith(full, candidates[0]) then Some(candidates[0])
    else FirstPrefixing(candidates[1..], full)
  }

  /**
   * The structured-name rule: only with both a given and a family name, the
   * first of given, family, and (with a prefix) prefix+" "+given,
   * prefix+" "+family, prefix+given, prefix+family that starts the full name.
   */
  function InferFirstName(full: String, prefix: Option<String>, given: Option<String>, family: Option<String>): (r: Option<String>)
    ensures r.Some? ==> StartsWith(full, r.value)
    ensures given.None? || family.None? ==> r.None?
  {
    if given.None? || family.None? then None
    else
      var g, f := given.value, family.value;
      if StartsWith(full, g) then Some(g)
      else if StartsWith(full, f) then Some(f)
      else if prefix.Some? && StartsWith(full, prefix.value + " " + g) then Some(prefix.value + " " + g)
      else if prefix.Some? && StartsWith(full, prefix.value + " " + f) then Some(prefix.value + " " + f)
      else if prefix.Some? && StartsWith(full, prefix.value + g) then Some(prefix.value + g)
      else if prefix.Some? && StartsWith(full, prefix.value + f) then Some(prefix.value + f)
      else None
  }

  /** The if-chain picks the first prefixing candidate of the list. */
  lemma InferFirstNameIsFirstCandidate(full: String, prefix: Option<String>, given: String, family: String)
    ensures InferFirstName(full, prefix, Some(given), Some(family)) == FirstPrefixing(FirstNameCandidates(prefix, given, family), full)
  {
    var cs := FirstNameCandidates(prefix, given, family);
    var tail := FirstPrefixing(cs[2..], full);
    assert FirstPrefixing(cs, full) == if StartsWith(full, given) then Some(given) else FirstPrefixing(cs[1..], full);
    assert FirstPrefixing(cs[1..], full) == if StartsWith(full, family) then Some(family) else tail by {
      assert cs[1..][0] == family && cs[1..][1..] == cs[2..];
    }
    if prefix.Some? {
      var p := prefix.value;
      var c2, c3, c4, c5 := p + " " + given, p + " " + family, p + given, p + family;
      assert cs[2..] == [c2, c3, c4, c5];
      assert FirstPrefixing([c5], full) == if StartsWith(full, c5) then Some(c5) else None by {
        assert [c5][1..] == [];
      }
      assert FirstPrefixing([c4, c5], full) == if StartsWith(full, c4) then Some(c4) else FirstPrefixing([c5], full) by {
        assert [c4, c5][1..] == [c5];
      }
      assert FirstPrefixing([c3, c4, c5], full) == if StartsWith(full, c3) then Some(c3) else FirstPrefixing([c4, c5], full) by {
        assert [c3, c4, c5][1..] == [c4, c5];
      }
      assert tail == if StartsWith(full, c2) then Some(c2) else FirstPrefixing([c3, c4, c5], full) by {
        assert [c2, c3, c4, c5][1..] == [c3, c4, c5];
      }
    } else {
      assert cs[2..] == [];
    }
  }

  /**
   * Applying one row to the contact it belongs to: a phone row sets the
   * number while none is set; a name row infers the first name while none
   * is set; anything else leaves the contact alone.
   */
  function ApplyRow(c: Contact, row: DataRow): (r: Contact)
    ensures r.id == c.id && r.fullName == c.fullName && r.interactions == c.interactions
    ensures HasPhoneNumber(c) ==> r.phoneNumber == c.phoneNumber
    ensures HasFirstName(c) ==> r.firstName == c.firstName
    ensures row.kind == NameKind ==> r.phoneNumber == c.phoneNumber
    ensures row.kind == PhoneKind ==> r.firstName == c.firstName
    ensures r.firstName != c.firstName ==> r.firstName.Some? && StartsWith(c.fullName, r.firstName.value)
  {
    if row.kind == PhoneKind && !HasPhoneNumber(c) then c.(phoneNumber := row.number)
    else if row.kind == NameKind && !HasFirstName(c) then
      var f := InferFirstName(c.fullName, NonEmpty(row.prefix), NonEmpty(row.given), NonEmpty(row.family));
      if f.Some? then c.(firstName := f) else c
    else c
  }

  /** Some row with a display name belongs to the id. */
  predicate NamedId(rows: seq<DataRow>, id: int)
  {
    exists i :: 0 <= i < |rows| && rows[i].displayName.Some? && rows[i].contactId == id
  }

  /** The display name of the first named row of the id. */
  function FirstDisplayName(rows: seq<DataRow>, id: int): Option<String>
  {
    if |rows| == 0 then None
    else if rows[0].displayName.Some? && rows[0].contactId == id then rows[0].displayName
    else FirstDisplayName(rows[1..], id)
  }

  /** The cursor loop: rows without a display name are skipped, the rest merged per contact id. */
  function Collect(results: seq<Contact>, rows: seq<DataRow>): seq<Contact>
    decreases |rows|
  {
    if |rows| == 0 then results
    else
      var row := rows[0];
      var next :=
        if row.displayName.None? then results
        else
          var k := Position(results, row.contactId, ContactId);
          if k >= 0 then results[k := ApplyRow(results[k], row)]
          else results + [ApplyRow(NewContact(row.contactId, row.displayName.value), row)];
      Collect(next, rows[1..])
  }

  /** What every contact built from rows satisfies: no interactions yet, and any first name starts the full name. */
  predicate WellFormed(c: Contact)
  {
    c.interactions == 0 && (c.firstName.Some? ==> StartsWith(c.fullName, c.firstName.value))
  }

  /**
   * Merging keeps one contact per id, creates one for exactly the named ids,
   * names each new contact after its first named row, and keeps contacts
   * well formed.
   */
  lemma {:induction false} CollectEffect(results: seq<Contact>, rows: seq<DataRow>)
    requires Valid(Table(results), ContactId)
    requires forall i :: 0 <= i < |results| ==> WellFormed(results[i])
    ensures var r := Collect(results, rows);
            Valid(Table(r), ContactId)
            && (forall i :: 0 <= i < |r| ==> WellFormed(r[i]))
            && (forall j :: Lookup(Table(r), j, ContactId).Some? <==> Lookup(Table(results), j, ContactId).Some? || NamedId(rows, j))
            && (forall j :: Lookup(Table(results), j, ContactId).Some? ==>
                  Lookup(Table(r), j, ContactId).value.fullName == Lookup(Table(results), j, ContactId).value.fullName)
            && (forall j :: Lookup(Table(results), j, ContactId).None? && NamedId(rows, j) ==>
                  Some(Lookup(Table(r), j, ContactId).value.fullName) == FirstDisplayName(rows, j))
    decreases |rows|
  {
    if |rows| > 0 {
      var row := rows[0];
      var next :=
        if row.displayName.None? then results
        else
          var k := Position(results, row.contactId, ContactId);
          if k >= 0 then results[k := ApplyRow(results[k], row)]
          else results + [ApplyRow(NewContact(row.contactId, row.displayName.value), row)];
      CollectStep(results, row);
      CollectEffect(next, rows[1..]);
      var r := Collect(next, rows[1..]);
      assert r == Collect(results, rows);
      forall j
        ensures NamedId(rows, j) <==> (row.displayName.Some? && row.contactId == j) || NamedId(rows[1..], j)
      {
        NamedIdCons(rows, j);
      }
      forall j | Lookup(Table(results), j, ContactId).None? && NamedId(rows, j)
        ensures Some(Lookup(Table(r), j, ContactId).value.fullName) == FirstDisplayName(rows, j)
      {
        NamedIdCons(rows, j);
      }
    }
  }

  lemma NamedIdCons(rows: seq<DataRow>, j: int)
    requires |rows| > 0
    ensures NamedId(rows, j) <==> (rows[0].displayName.Some? && rows[0].contactId == j) || NamedId(rows[1..], j)
  {
    if NamedId(rows, j) {
      var i :| 0 <= i < |rows| && rows[i].displayName.Some? && rows[i].contactId == j;
      if i > 0 {
        assert rows[1..][i - 1] == rows[i];
      }
    }
    if NamedId(rows[1..], j) {
      var i :| 0 <= i < |rows[1..]| && rows[1..][i].displayName.Some? && rows[1..][i].contactId == j;
      assert rows[i + 1] == rows[1..][i];
    }
  }

  /** One row of the cursor loop. */
  lemma CollectStep(results: seq<Contact>, row: DataRow)
    requires Valid(Table(results), ContactId)
    requires forall i :: 0 <= i < |results| ==> WellFormed(results[i])
    ensures var next :=
              if row.displayName.None? then results
              else
                var k := Position(results, row.contactId, ContactId);
                if k >= 0 then results[k := ApplyRow(results[k], row)]
                else results + [ApplyRow(NewContact(row.contactId, row.displayName.value), row)];
            Valid(Table(next), ContactId)
            && (forall i :: 0 <= i < |next| ==> WellFormed(next[i]))
            && (forall j :: Lookup(Table(next), j, ContactId).Some? <==>
                              Lookup(Table(results), j, ContactId).Some? || (row.displayName.Some? && row.contactId == j))
            && (forall j :: Lookup(Table(results), j, ContactId).Some? ==>
                  Lookup(Table(next), j, ContactId).value.fullName == Lookup(Table(results), j, ContactId).value.fullName)
            && (row.displayName.Some? && Lookup(Table(results), row.contactId, ContactId).None? ==>
                  Some(Lookup(Table(next), row.contactId, ContactId).value.fullName) == row.displayName)
  {
    if row.displayName.Some? {
      var k := Position(results, row.contactId, ContactId);
      if k >= 0 {
        var next := results[k := ApplyRow(results[k], row)];
        assert forall i :: 0 <= i < |next| ==> next[i].id == results[i].id && next[i].fullName == results[i].fullName;
        SameIdsSameLookups(results, next);
      } else {
        var c := ApplyRow(NewContact(row.contactId, row.displayName.value), row);
        LookupAppend(results, c, ContactId);
      }
    }
  }

  /** The fallback loop: without a first name, a name of two or more words gets its first word. */
  function Fallback(c: Contact): (r: Contact)
    ensures r.id == c.id && r.fullName == c.fullName && r.interactions == c.interactions && r.phoneNumber == c.phoneNumber
    ensures HasFirstName(c) || |Names(c)| <= 1 ==> r == c
  {
    if !HasFirstName(c) && |Names(c)| > 1 then c.(firstName := Some(Names(c)[0])) else c
  }

  /** The guessed first name is a leading word of the full name. */
  lemma FallbackIsPrefix(c: Contact)
    requires Fallback(c) != c
    ensures Fallback(c).firstName.Some? && StartsWith(c.fullName, Fallback(c).firstName.value)
    ensures ' ' !in Fallback(c).firstName.value
  {
    var s := c.fullName;
    var parts := SplitAll(s);
    assert Names(c)[0] == parts[0];
    JoinSplitAll(s);
    if |parts| > 1 {
      assert s == parts[0] + ([' '] + JoinSpace(parts[1..]));
    }
    assert s[..|parts[0]|] == parts[0];
  }

  // ---------------------------------------------------------------- family candidates

  const CANDIDATE_MOM: seq<String> := ["mom", "mommy", "ma", "amma"]
  const CANDIDATE_DAD: seq<String> := ["dad", "daddy", "pa", "papa"]
  const CANDIDATE_HOME: seq<String> := ["home"]
  const CANDIDATES: seq<seq<String>> := [CANDIDATE_MOM, CANDIDATE_DAD, CANDIDATE_HOME]

  /** The full name equals one of the group's tests, ignoring case. */
  predicate MatchesGroup(c: Contact, tests: seq<String>)
  {
    exists k :: 0 <= k < |tests| && EqualsIgnoreCase(c.fullName, tests[k])
  }

  /** The labelled loop: the first contact matching any test of the group, or -1. */
  function FirstMatch(cs: seq<Contact>, tests: seq<String>): (k: int)
    ensures -1 <= k < |cs|
    ensures k >= 0 ==> MatchesGroup(cs[k], tests) && forall i :: 0 <= i < k ==> !MatchesGroup(cs[i], tests)
    ensures k < 0 <==> forall i :: 0 <= i < |cs| ==> !MatchesGroup(cs[i], tests)
  {
    if |cs| == 0 then -1
    else if MatchesGroup(cs[0], tests) then 0
    else
      var k := FirstMatch(cs[1..], tests);
      assert forall i :: 1 <= i < |cs| ==> cs[i] == cs[1..][i - 1];
      if k < 0 then -1 else k + 1
  }

  /** One group: its first matching contact gets one interaction. */
  function PromoteGroup(cs: seq<Contact>, tests: seq<String>): (r: seq<Contact>)
    ensures |r| == |cs|
    ensures forall i :: 0 <= i < |cs| && r[i] != cs[i] ==> r[i] == cs[i].(interactions := 1) && MatchesGroup(cs[i], tests)
  {
    var k := FirstMatch(cs, tests);
    if k >= 0 then cs[k := cs[k].(interactions := 1)] else cs
  }

  /** At most one contact per group is touched, and no earlier contact matches the group. */
  lemma PromoteGroupAtMostOne(cs: seq<Contact>, tests: seq<String>, i: int, j: int)
    requires 0 <= i < |cs| && 0 <= j < |cs|
    requires PromoteGroup(cs, tests)[i] != cs[i] && PromoteGroup(cs, tests)[j] != cs[j]
    ensures i == j
    ensures forall m :: 0 <= m < i ==> !MatchesGroup(cs[m], tests)
  {
  }

  /** When some contact matches, the first one is promoted unless it already has exactly one interaction. */
  lemma PromoteGroupFirst(cs: seq<Contact>, tests: seq<String>, i: int)
    requires 0 <= i < |cs| && MatchesGroup(cs[i], tests)
    requires forall m :: 0 <= m < i ==> !MatchesGroup(cs[m], tests)
    ensures PromoteGroup(cs, tests)[i].interactions == 1
  {
    var k := FirstMatch(cs, tests);
    assert !(k < i) && !(i < k);
  }

  function PromoteAll(cs: seq<Contact>, groups: seq<seq<String>>): (r: seq<Contact>)
    ensures |r| == |cs|
    ensures forall i :: 0 <= i < |cs| ==> r[i].id == cs[i].id && r[i].fullName == cs[i].fullName
                                          && r[i].phoneNumber == cs[i].phoneNumber && r[i].firstName == cs[i].firstName
    decreases |groups|
  {
    if |groups| == 0 then cs
    else
      var next := PromoteGroup(cs, groups[0]);
      PromoteAll(next, groups[1..])
  }

  /** `getDeviceContacts`: a missing cursor throws. */
  function DeviceContacts(cursor: Option<seq<DataRow>>): (r: Outcome<seq<Contact>>)
    ensures cursor.None? <==> r == Thrown(Runtime)
  {
    if cursor.None? then Thrown(Runtime)
    else
      var merged := Collect([], cursor.value);
      var named := seq(|merged|, i requires 0 <= i < |merged| => Fallback(merged[i]));
      Ok(PromoteAll(named, CANDIDATES))
  }

  /**
   * The device contacts are one per named contact id, named after their
   * first row, with at most the candidate interaction, and every first
   * name set starts the full name.
   */
  lemma DeviceContactsEffect(rows: seq<DataRow>)
    ensures var r := DeviceContacts(Some(rows)).value;
            Valid(Table(r), ContactId)
            && (forall j :: Lookup(Table(r), j, ContactId).Some? <==> NamedId(rows, j))
            && (forall j :: NamedId(rows, j) ==> Some(Lookup(Table(r), j, ContactId).value.fullName) == FirstDisplayName(rows, j))
            && (forall i :: 0 <= i < |r| ==> r[i].firstName.Some? ==> StartsWith(r[i].fullName, r[i].firstName.value))
  {
    CollectEffect([], rows);
    var merged := Collect([], rows);
    var named := seq(|merged|, i requires 0 <= i < |merged| => Fallback(merged[i]));
    var r := PromoteAll(named, CANDIDATES);
    forall i | 0 <= i < |merged| && named[i] != merged[i]
      ensures named[i].firstName.Some? && StartsWith(named[i].fullName, named[i].firstName.value)
    {
      FallbackIsPrefix(merged[i]);
    }
    SameIdsSameLookups(merged, r);
  }

  /** Lists with the same ids in the same order answer lookups at the same positions. */
  lemma {:induction false} SameIdsSameLookups(a: seq<Contact>, b: seq<Contact>)
    requires |a| == |b| && forall i :: 0 <= i < |a| ==> a[i].id == b[i].id && a[i].fullName == b[i].fullName
    ensures Valid(Table(a), ContactId) ==> Valid(Table(b), ContactId)
    ensures forall j :: Lookup(Table(a), j, ContactId).Some? <==> Lookup(Table(b), j, ContactId).Some?
    ensures forall j :: Lookup(Table(a), j, ContactId).Some? ==>
                          Lookup(Table(a), j, ContactId).value.fullName == Lookup(Table(b), j, ContactId).value.fullName
  {
    if |a| > 0 {
      SameIdsSameLookups(a[1..], b[1..]);
    }
  }

  // ---------------------------------------------------------------- reconciliation

  /** Stored and device contact agree on everything shown, and the stored one is at least as used. */
  predicate Identical(stored: Contact, device: Contact)
  {
    stored.fullName == device.fullName && stored.interactions >= device.interactions
    && stored.phoneNumber == device.phoneNumber && stored.firstName == device.firstName
  }

  function Max(a: int, b: int): int { if a >= b then a else b }

  /** The merge decision: keep an identical stored row, otherwise the device fields with the larger interactions. */
  function MergeContact(): (m: (Contact, Contact) -> Option<Contact>)
    ensures forall o, d :: m(o, d).None? <==> Identical(o, d)
    ensures forall o, d :: m(o, d).Some? ==> m(o, d).value == d.(interactions := Max(o.interactions, d.interactions))
  {
    (o: Contact, d: Contact) =>
      if Identical(o, d) then None
      else Some(NewContact(d.id, d.fullName).(phoneNumber := d.phoneNumber, firstName := d.firstName,
                                                interactions := Max(o.interactions, d.interactions)))
  }

  /** `onGenerate` with permission: delete vanished contacts, write new and changed ones, list the table. */
  function OnGenerate(t: Table<Contact>, device: seq<Contact>): (r: (Table<Contact>, seq<Contact>))
    ensures multiset(r.1) == multiset(r.0.rows)
  {
    var pruned := DeleteAbsent(t, AllContacts(t), device, ContactId);
    var synced := Reconcile(pruned, AllContacts(pruned), device, ContactId, MergeContact());
    (synced, AllContacts(synced))
  }

  /**
   * The table ends with exactly the device's ids, each holding the device
   * contact with the larger of the stored and the device interactions.
   */
  lemma OnGenerateEffect(t: Table<Contact>, device: seq<Contact>)
    requires Valid(t, ContactId) && Valid(Table(device), ContactId)
    ensures var r := OnGenerate(t, device).0;
            Valid(r, ContactId)
            && forall j :: Lookup(r, j, ContactId)
                           == (match Lookup(Table(device), j, ContactId)
                               case None => None
                               case Some(d) =>
                                 Some(d.(interactions := if Lookup(t, j, ContactId).Some?
                                                         then Max(Lookup(t, j, ContactId).value.interactions, d.interactions)
                                                         else d.interactions)))
  {
    var pruned := DeleteAbsent(t, AllContacts(t), device, ContactId);
    PruneEffect(t, AllContacts(t), device, ContactId);
    forall i | 0 <= i < |device|
      ensures Lookup(Table(AllContacts(pruned)), device[i].id, ContactId) == Lookup(pruned, device[i].id, ContactId)
    {
      LookupPermutation(pruned, AllContacts(pruned), ContactId, device[i].id);
    }
    ReconcileEffect(pruned, AllContacts(pruned), device, ContactId, MergeContact());
    forall j
      ensures Lookup(OnGenerate(t, device).0, j, ContactId)
              == (match Lookup(Table(device), j, ContactId)
                  case None => None
                  case Some(d) =>
                    Some(d.(interactions := if Lookup(t, j, ContactId).Some?
                                            then Max(Lookup(t, j, ContactId).value.interactions, d.interactions)
                                            else d.interactions)))
    {
      var found := Lookup(Table(device), j, ContactId);
      var stored := Lookup(t, j, ContactId);
      if found.Some? {
        var d := found.value;
        if stored.None? {
          assert d == d.(interactions := d.interactions);
        } else if Identical(stored.value, d) {
          assert stored.value.id == d.id;
          assert stored.value == d.(interactions := Max(stored.value.interactions, d.interactions));
        }
      }
    }
  }

  // ---------------------------------------------------------------- the generator

  /** The static cache and flags, whether the observer is registered, and the contacts table. */
  datatype Generator = Generator(cache: seq<Contact>, shouldBeEmpty: bool, firstSyncDone: bool, isSynced: bool,
                                 observing: bool, table: Table<Contact>)

  /** A fresh process over a persisted table. */
  function Start(table: Table<Contact>): (g: Generator)
    ensures g.cache == [] && !g.shouldBeEmpty && !g.firstSyncDone && g.isSynced && !g.observing && g.table == table
  {
    Generator([], false, false, true, false, table)
  }

  /** The observer's `onChange`: only a registered observer hears the change. */
  function ContentChanged(g: Generator): (r: Generator)
    ensures g.observing ==> r == g.(isSynced := false)
    ensures !g.observing ==> r == g
  {
    if g.observing then g.(isSynced := false) else g
  }

  /**
   * `needsGeneration`: true on the first call, then true once after each
   * change; otherwise an empty cache not known to be empty is filled from
   * the table, and generation is needed iff it is still empty.
   */
  function NeedsGeneration(g: Generator): (r: (bool, Generator))
    ensures !g.firstSyncDone ==> r == (true, g.(firstSyncDone := true))
    ensures g.firstSyncDone && !g.isSynced ==> r == (true, g.(isSynced := true))
    ensures g.firstSyncDone && g.isSynced ==>
              r.1.firstSyncDone && r.1.isSynced && r.1.table == g.table && r.1.shouldBeEmpty == g.shouldBeEmpty
              && (r.0 <==> |g.cache| == 0 && !g.shouldBeEmpty && |g.table.rows| == 0)
              && (|g.cache| > 0 || g.shouldBeEmpty ==> r.1 == g)
  {
    if !g.firstSyncDone then (true, g.(firstSyncDone := true))
    else if !g.isSynced then (true, g.(isSynced := true))
    else
      var cache := if |g.cache| == 0 && !g.shouldBeEmpty then AllContacts(g.table) else g.cache;
      (|cache| == 0 && !g.shouldBeEmpty, g.(cache := cache))
  }

  /** What the device offers one `get`. */
  datatype Env = Env(permission: bool, cursor: Option<seq<DataRow>>)

  /** `generate`: nothing without permission; a missing cursor throws. */
  function Generate(table: Table<Contact>, env: Env): (r: Outcome<(Table<Contact>, seq<Contact>)>)
    ensures !env.permission ==> r == Ok((table, []))
    ensures env.permission ==> (r.Thrown? <==> env.cursor.None?)
    ensures r.Thrown? ==> r.error == Runtime
    ensures env.permission && r.Ok? ==> multiset(r.value.1) == multiset(r.value.0.rows)
  {
    if !env.permission then Ok((table, []))
    else
      match DeviceContacts(env.cursor)
      case Thrown(e) => Thrown(e)
      case Ok(device) => Ok(OnGenerate(table, device))
  }

  /**
   * `get`: register the observer, regenerate when needed (recording
   * whether the result is empty), and answer the cache.  A throw leaves the
   * cache cleared.
   */
  function Get(g: Generator, env: Env): (r: (Generator, Outcome<seq<Contact>>))
    ensures r.0.observing && r.0.firstSyncDone
    ensures r.1.Ok? ==> r.1.value == r.0.cache
    ensures NeedsGeneration(g.(observing := true)).0 && r.1.Ok? ==> r.0.shouldBeEmpty == (|r.0.cache| == 0)
    ensures !NeedsGeneration(g.(observing := true)).0 ==> r == (NeedsGeneration(g.(observing := true)).1, Ok(r.0.cache))
    ensures r.1.Thrown? ==> r.1.error == Runtime && r.0.cache == [] && r.0.table == g.table
  {
    var (needs, g1) := NeedsGeneration(g.(observing := true));
    if !needs then (g1, Ok(g1.cache))
    else
      match Generate(g1.table, env)
      case Thrown(e) => (g1.(cache := []), Thrown(e))
      case Ok((table, list)) => (g1.(cache := list, shouldBeEmpty := |list| == 0, table := table), Ok(list))
  }

  /** The first `get` of a process always regenerates. */
  lemma FirstGetGenerates(table: Table<Contact>, env: Env)
    ensures NeedsGeneration(Start(table).(observing := true)).0
  {
  }

  /** A change heard after a `get` makes the next `get` regenerate. */
  lemma ChangeForcesGeneration(g: Generator, env: Env)
    ensures var g1 := ContentChanged(Get(g, env).0);
            NeedsGeneration(g1.(observing := true)).0
  {
  }

  /**
   * Without a change in between, a second `get` after a successful one
   * answers the same list and changes nothing, unless a change was pending
   * while the first sync was still to come (then the first `get` consumes
   * only the first-sync flag).
   */
  lemma GetStable(g: Generator, env: Env, env2: Env)
    requires g.firstSyncDone || g.isSynced
    requires Get(g, env).1.Ok?
    ensures Get(Get(g, env).0, env2) == Get(g, env)
  {
  }

  /** `add`: register the observer, write the contact back with one more interaction, reload the cache. */
  function Add(g: Generator, item: Contact): (r: Generator)
    ensures r.observing
    ensures Lookup(r.table, item.id, ContactId) == Some(item.(interactions := item.interactions + 1))
    ensures forall j :: j != item.id ==> Lookup(r.table, j, ContactId) == Lookup(g.table, j, ContactId)
    ensures multiset(r.cache) == multiset(r.table.rows)
  {
    var bumped := item.(interactions := item.interactions + 1);
    UpsertEffect(g.table, bumped, ContactId);
    var table := Upsert(g.table, bumped, ContactId);
    g.(observing := true, cache := AllContacts(table), table := table)
  }

  /** `release`: the observer is unregistered, so later changes go unheard. */
  function Release(g: Generator): (r: Generator)
    ensures !r.observing && ContentChanged(r) == r
  {
    g.(observing := false)
  }
}
