/**
 * The top-apps generator: a process-wide cache of the apps table, a saved
 * locale, and the reconciliation of the table with the launcher apps the
 * device reports, their popularity taken from the bundled top-apps list.
 * Device state (the package-change flag, the locale, the launcher list and
 * the asset) arrives as inputs.
 */
module AppsGenerator {
  import opened Wrappers
  import opened JavaText
  import opened Seqs
  import opened Models
  import opened Store
  import opened Sync

  /** One launcher activity as the package manager reports it. */
  datatype Installed = Installed(packageName: String, appLabel: String)

  /** One entry of the bundled top-apps list. */
  datatype TopApp = TopApp(packageName: String, popularity: int)

  /** What the device says during one `get`. */
  datatype Env = Env(appsDirty: bool, locale: String, installed: seq<Installed>, topApps: Option<seq<TopApp>>)

  /** The static cache, the saved locale preference and the apps table. */
  datatype Generator = Generator(cache: seq<App>, savedLocale: Option<String>, table: Table<App>)

  // ---------------------------------------------------------------- locale and regeneration

  /**
   * `isLocaleDirty`: the locale is always stored afterwards; it is dirty
   * exactly when a different locale had been stored before.
   */
  function LocaleCheck(saved: Option<String>, locale: String): (r: (bool, Option<String>))
    ensures r.1 == Some(locale)
    ensures r.0 <==> saved.Some? && saved.value != locale
  {
    if saved.None? then (false, Some(locale))
    else if locale == saved.value then (false, saved)
    else (true, Some(locale))
  }

  /**
   * `needsGeneration`: dirty packages win without looking at the locale;
   * then a locale change; otherwise an empty cache is filled from the table
   * and generation is needed only if it is still empty.
   */
  function NeedsGeneration(g: Generator, appsDirty: bool, locale: String): (r: (bool, Generator))
    ensures appsDirty ==> r == (true, g)
    ensures !appsDirty ==> r.1.savedLocale == Some(locale) && r.1.table == g.table
    ensures !appsDirty && g.savedLocale.Some? && g.savedLocale.value != locale ==> r.0 && r.1.cache == g.cache
    ensures !appsDirty && !(g.savedLocale.Some? && g.savedLocale.value != locale) ==>
              (r.0 <==> |g.cache| == 0 && |g.table.rows| == 0)
              && (|g.cache| > 0 ==> r.1.cache == g.cache)
              && (|g.cache| == 0 ==> multiset(r.1.cache) == multiset(g.table.rows))
  {
    if appsDirty then (true, g)
    else
      var (dirty, saved) := LocaleCheck(g.savedLocale, locale);
      if dirty then (true, g.(savedLocale := saved))
      else
        var cache := if |g.cache| == 0 then AllApps(g.table) else g.cache;
        (|cache| == 0, Generator(cache, saved, g.table))
  }

  // ---------------------------------------------------------------- device apps

  /** The popularity the last top-apps entry for the id assigns, if any: reference definition. */
  function ListedPopularity(top: seq<TopApp>, id: int): Option<int>
  {
    if |top| == 0 then None
    else
      var later := ListedPopularity(top[1..], id);
      if later.Some? then later
      else if StringHash(top[0].packageName) == id then Some(top[0].popularity)
      else None
  }

  /** The merge loop: each top-apps entry sets the popularity of the first device app with its id. */
  function MergePopularity(apps: seq<App>, top: seq<TopApp>): (r: seq<App>)
    ensures |r| == |apps|
    decreases |top|
  {
    if |top| == 0 then apps
    else
      var k := Position(apps, StringHash(top[0].packageName), AppId);
      MergePopularity(if k >= 0 then apps[k := apps[k].(popularity := top[0].popularity)] else apps, top[1..])
  }

  /**
   * Only the popularity of the first app of each listed id changes, and it
   * becomes the last listed popularity for that id.
   */
  lemma {:induction false} MergePopularityEffect(apps: seq<App>, top: seq<TopApp>)
    ensures forall i :: 0 <= i < |apps| ==>
              MergePopularity(apps, top)[i]
              == apps[i].(popularity := if Position(apps, apps[i].id, AppId) == i && ListedPopularity(top, apps[i].id).Some?
                                        then ListedPopularity(top, apps[i].id).value
                                        else apps[i].popularity)
    decreases |top|
  {
    if |top| > 0 {
      var h := StringHash(top[0].packageName);
      var k := Position(apps, h, AppId);
      var next := if k >= 0 then apps[k := apps[k].(popularity := top[0].popularity)] else apps;
      MergePopularityEffect(next, top[1..]);
      forall i | 0 <= i < |apps|
        ensures MergePopularity(apps, top)[i]
                == apps[i].(popularity := if Position(apps, apps[i].id, AppId) == i && ListedPopularity(top, apps[i].id).Some?
                                          then ListedPopularity(top, apps[i].id).value
                                          else apps[i].popularity)
      {
        PositionSameIds(next, apps, apps[i].id, AppId);
        assert next[i].id == apps[i].id;
        if Position(apps, apps[i].id, AppId) == i && apps[i].id == h {
          assert k == i;
        }
      }
    }
  }

  /** One fresh app per launcher entry, in the reported order. */
  function LauncherApps(installed: seq<Installed>): (r: seq<App>)
    ensures |r| == |installed|
    ensures forall i :: 0 <= i < |r| ==> r[i] == NewAppNoIcon(installed[i].packageName, installed[i].appLabel)
  {
    seq(|installed|, i requires 0 <= i < |installed| => NewAppNoIcon(installed[i].packageName, installed[i].appLabel))
  }

  /** `getDeviceApps`: launcher apps with their listed popularity merged in. */
  function DeviceApps(installed: seq<Installed>, top: seq<TopApp>): (r: seq<App>)
    ensures |r| == |installed|
  {
    MergePopularity(LauncherApps(installed), top)
  }

  /**
   * A device app is fresh (no interactions, no icon) and has -1 popularity
   * unless it is the first launcher entry of a package the list names, in
   * which case it has the list's popularity.
   */
  lemma DeviceAppsPopularity(installed: seq<Installed>, top: seq<TopApp>, i: int)
    requires 0 <= i < |installed|
    ensures var a := DeviceApps(installed, top)[i];
            var listed := ListedPopularity(top, StringHash(installed[i].packageName));
            a.id == StringHash(installed[i].packageName) && a.packageName == installed[i].packageName
            && a.appLabel == installed[i].appLabel && a.interactions == 0
            && a.popularity == (if Position(LauncherApps(installed), a.id, AppId) == i && listed.Some? then listed.value else -1)
  {
    MergePopularityEffect(LauncherApps(installed), top);
  }

  // ---------------------------------------------------------------- reconciliation

  /** The loop as written: an app already in the table is never rewritten. */
  function KeepStored(): (App, App) -> Option<App>
  {
    (o: App, d: App) => None
  }

  /** Intended: a stored app takes the device's label and popularity and keeps its interactions. */
  function Refresh(): (App, App) -> Option<App>
  {
    (o: App, d: App) => Some(d.(interactions := o.interactions))
  }

  /** `onGenerate` as written: delete apps no longer installed, insert new ones, list the table. */
  function OnGenerateAsWritten(t: Table<App>, device: seq<App>): (r: (Table<App>, seq<App>))
    ensures multiset(r.1) == multiset(r.0.rows)
  {
    var pruned := DeleteAbsent(t, AllApps(t), device, AppId);
    var synced := Reconcile(pruned, AllApps(pruned), device, AppId, KeepStored());
    (synced, AllApps(synced))
  }

  /** `onGenerate` with stored rows refreshed from the device. */
  function OnGenerate(t: Table<App>, device: seq<App>): (r: (Table<App>, seq<App>))
    ensures multiset(r.1) == multiset(r.0.rows)
  {
    var pruned := DeleteAbsent(t, AllApps(t), device, AppId);
    var synced := Reconcile(pruned, AllApps(pruned), device, AppId, Refresh());
    (synced, AllApps(synced))
  }

  /** The pruned table answers for the device ids as the original table did. */
  lemma PrunedSnapshot(t: Table<App>, device: seq<App>)
    requires Valid(t, AppId)
    ensures var pruned := DeleteAbsent(t, AllApps(t), device, AppId);
            Valid(pruned, AppId)
            && (forall j :: Lookup(pruned, j, AppId) == (if OnDevice(device, AppId, j) then Lookup(t, j, AppId) else None))
            && (forall i :: 0 <= i < |device| ==>
                  Lookup(Table(AllApps(pruned)), device[i].id, AppId) == Lookup(pruned, device[i].id, AppId))
  {
    var pruned := DeleteAbsent(t, AllApps(t), device, AppId);
    PruneEffect(t, AllApps(t), device, AppId);
    forall i | 0 <= i < |device|
      ensures Lookup(Table(AllApps(pruned)), device[i].id, AppId) == Lookup(pruned, device[i].id, AppId)
    {
      LookupPermutation(pruned, AllApps(pruned), AppId, device[i].id);
    }
  }

  /**
   * As written: afterwards the table holds exactly the device's ids; a
   * newly installed app is stored as reported, and an app that was already
   * stored keeps its old row, label and popularity included.
   */
  lemma OnGenerateAsWrittenEffect(t: Table<App>, device: seq<App>)
    requires Valid(t, AppId) && Valid(Table(device), AppId)
    ensures var r := OnGenerateAsWritten(t, device).0;
            Valid(r, AppId)
            && forall j :: Lookup(r, j, AppId)
                           == (match Lookup(Table(device), j, AppId)
                               case None => None
                               case Some(d) => if Lookup(t, j, AppId).Some? then Lookup(t, j, AppId) else Some(d))
  {
    var pruned := DeleteAbsent(t, AllApps(t), device, AppId);
    PrunedSnapshot(t, device);
    ReconcileEffect(pruned, AllApps(pruned), device, AppId, KeepStored());
  }

  /**
   * The stale label: when the device now reports a different label for a
   * stored app (the locale changed), regeneration keeps the old label.
   */
  lemma StaleLabelAsWritten(t: Table<App>, device: seq<App>, d: App)
    requires Valid(t, AppId) && Valid(Table(device), AppId)
    requires d in device && Lookup(t, d.id, AppId).Some? && Lookup(t, d.id, AppId).value.appLabel != d.appLabel
    ensures var r := Lookup(OnGenerateAsWritten(t, device).0, d.id, AppId);
            r == Lookup(t, d.id, AppId) && r.value.appLabel != d.appLabel
  {
    OnGenerateAsWrittenEffect(t, device);
    var k :| 0 <= k < |device| && device[k] == d;
    var found := Lookup(Table(device), d.id, AppId);
    var m :| 0 <= m < |device| && device[m] == found.value;
    assert m == k;
  }

  /** A concrete case: "Camera" stored, the device now says "Kamera", the table still says "Camera". */
  lemma StaleLabelExample()
    ensures var stored := NewAppNoIcon("com.a", "Camera");
            var device := [NewAppNoIcon("com.a", "Kamera")];
            Lookup(OnGenerateAsWritten(Table([stored]), device).0, stored.id, AppId) == Some(stored)
  {
    var stored := NewAppNoIcon("com.a", "Camera");
    var device := [NewAppNoIcon("com.a", "Kamera")];
    OnGenerateAsWrittenEffect(Table([stored]), device);
  }

  /**
   * Intended: the table holds exactly the device's ids and every row is the
   * device's app (label, popularity, icon) with the stored interactions, if
   * any, carried over.
   */
  lemma OnGenerateEffect(t: Table<App>, device: seq<App>)
    requires Valid(t, AppId) && Valid(Table(device), AppId)
    ensures var r := OnGenerate(t, device).0;
            Valid(r, AppId)
            && forall j :: Lookup(r, j, AppId)
                           == (match Lookup(Table(device), j, AppId)
                               case None => None
                               case Some(d) =>
                                 Some(d.(interactions := if Lookup(t, j, AppId).Some? then Lookup(t, j, AppId).value.interactions
                                                         else d.interactions)))
  {
    var pruned := DeleteAbsent(t, AllApps(t), device, AppId);
    PrunedSnapshot(t, device);
    ReconcileEffect(pruned, AllApps(pruned), device, AppId, Refresh());
    forall j
      ensures Lookup(OnGenerate(t, device).0, j, AppId)
              == (match Lookup(Table(device), j, AppId)
                  case None => None
                  case Some(d) =>
                    Some(d.(interactions := if Lookup(t, j, AppId).Some? then Lookup(t, j, AppId).value.interactions
                                            else d.interactions)))
    {
      var found := Lookup(Table(device), j, AppId);
      if found.Some? && Lookup(t, j, AppId).None? {
        assert found.value == found.value.(interactions := found.value.interactions);
      }
    }
  }

  // ---------------------------------------------------------------- get and add

  /**
   * `get`: regenerate when needed, then answer the cache.  A missing or
   * malformed top-apps asset makes generation throw after the cache was
   * cleared.
   */
  function Get(g: Generator, env: Env): (r: (Generator, Outcome<seq<App>>))
    ensures r.1.Ok? ==> r.1.value == r.0.cache
    ensures r.1.Thrown? ==> r.1.error == Runtime && r.0.cache == [] && r.0.table == g.table
    ensures !NeedsGeneration(g, env.appsDirty, env.locale).0 ==> r == (NeedsGeneration(g, env.appsDirty, env.locale).1, Ok(r.0.cache))
    ensures NeedsGeneration(g, env.appsDirty, env.locale).0 && env.topApps.Some? ==>
              r.1.Ok? && multiset(r.0.cache) == multiset(r.0.table.rows)
  {
    var (needs, g1) := NeedsGeneration(g, env.appsDirty, env.locale);
    if !needs then (g1, Ok(g1.cache))
    else if env.topApps.None? then (g1.(cache := []), Thrown(Runtime))
    else
      var (table, list) := OnGenerate(g1.table, DeviceApps(env.installed, env.topApps.value));
      (Generator(list, g1.savedLocale, table), Ok(list))
  }

  /**
   * A second `get` with clean packages and the same locale, after one that
   * answered a non-empty list with clean packages, answers the same list and
   * changes nothing.
   */
  lemma GetStable(g: Generator, env: Env, env2: Env)
    requires !env.appsDirty && !env2.appsDirty && env2.locale == env.locale
    requires Get(g, env).1.Ok? && |Get(g, env).1.value| > 0
    ensures Get(Get(g, env).0, env2) == (Get(g, env).0, Get(g, env).1)
  {
  }

  /**
   * `add`: an installed app is written back with one more interaction and
   * the cache reloaded from the table; an uninstalled one is ignored.
   */
  function Add(g: Generator, item: App, installed: bool): (r: Generator)
    ensures !installed ==> r == g
    ensures installed ==> Lookup(r.table, item.id, AppId) == Some(item.(interactions := item.interactions + 1))
    ensures installed ==> forall j :: j != item.id ==> Lookup(r.table, j, AppId) == Lookup(g.table, j, AppId)
    ensures installed ==> multiset(r.cache) == multiset(r.table.rows) && r.savedLocale == g.savedLocale
  {
    if !installed then g
    else
      var bumped := item.(interactions := item.interactions + 1);
      UpsertEffect(g.table, bumped, AppId);
      var table := Upsert(g.table, bumped, AppId);
      Generator(AllApps(table), g.savedLocale, table)
  }
}
