/**
 * DiscoveryProvider and the per-kind overrides: the validity gate of
 * `startDiscovery`, the valid path (current query, one task) and the
 * invalid path (clear, abort, hide), show/hide with the current-query check,
 * the items observer rule, the listeners run when a task completes, the
 * autocomplete provider's last-clicked memory and exact-match reaction, and
 * the adapter defaults of SimpleDiscoveryProvider.
 */
module Provider {
  import opened Wrappers
  import opened JavaText
  import opened Callbacks
  import VMs = ViewModel
  import TM = DiscoveryTaskManager
  import Slots = AsyncTaskManager
  import InAppSearch
  import Sections

  datatype Permission = AccessFineLocation | ReadExternalStorage | ReadContacts

  datatype ProviderKind =
    | AppsKind | ContactsKind | ShortcutKind | MediaKind | AllAppsKind
    | SuggestedAppsKind | SuggestedContactsKind | InAppSearchKind | AutoCompleteKind

  /** Kinds built on BaseBranchProvider (the Branch search SDK). */
  predicate IsBranchKind(kind: ProviderKind)
  {
    kind == InAppSearchKind || kind == AutoCompleteKind
  }

  function RequiredPermissions(kind: ProviderKind): (r: set<Permission>)
    ensures IsBranchKind(kind) ==> r == {AccessFineLocation}
    ensures kind in {AppsKind, AllAppsKind, SuggestedAppsKind, ShortcutKind} ==> r == {}
  {
    match kind
    case InAppSearchKind => {AccessFineLocation}
    case AutoCompleteKind => {AccessFineLocation}
    case MediaKind => {ReadExternalStorage}
    case ContactsKind => {ReadContacts}
    case SuggestedContactsKind => {ReadContacts}
    case _ => {}
  }

  const MEDIA_MIN_QUERY_CHARS: int := 2
  const AUTOCOMPLETE_MIN_QUERY: int := 2
  const AUTOCOMPLETE_MAX_ITEMS: int := 5

  datatype Visibility = Visible | Gone | EnginesOnly

  /**
   * One provider.  `granted` is the set of permissions the system has
   * granted; `lastClicked`/`lastWasClicked` are the autocomplete
   * provider's memory; `applied` is the last (query, results) passed to
   * `applyResults` by the items observer.
   */
  datatype State<T> = State(
    kind: ProviderKind,
    id: ProviderId,
    active: bool,
    granted: set<Permission>,
    lastClicked: Option<String>,
    lastWasClicked: bool,
    vm: VMs.VM<T>,
    manager: TM.Manager<T>,
    visibility: Visibility,
    applied: Option<(String, seq<T>)>)

  predicate Valid<T>(s: State<T>)
  {
    TM.Valid(s.manager) && s.manager.provider == s.id && s.manager.hasCallback
  }

  /** A provider right after `initialize` and `onCreate`: active, with a fresh view model and task manager. */
  function Create<T>(kind: ProviderKind, id: ProviderId, granted: set<Permission>): State<T>
  {
    State(kind, id, true, granted, None, false, VMs.Create(), TM.Create(id, true), Visible, None)
  }

  /** After `initialize` and `onCreate` a provider is active, idle, and shows a cleared view model. */
  lemma CreateIsActiveAndCleared<T>(kind: ProviderKind, id: ProviderId, granted: set<Permission>, s: State<T>)
    requires s == Create(kind, id, granted)
    ensures Valid(s) && s.active && s.kind == kind && s.id == id && s.manager.slot.held.None?
    ensures s.vm.items == Some([]) && s.vm.CompletedQuery() == "" && s.vm.CompletedToken() == -1
  {
  }

  predicate HasPermissions<T>(s: State<T>)
  {
    RequiredPermissions(s.kind) <= s.granted
  }

  // ---------------------------------------------------------------- validity

  datatype Checked<T> = Checked(state: State<T>, valid: bool)

  /**
   * `isQueryValid` per kind.  Only the autocomplete provider changes state
   * while checking: it forgets a remembered click once that click's query is
   * checked, and records the query as current whatever the verdict.
   */
  function CheckQuery<T>(s: State<T>, query: String, token: int, confirmed: bool): (r: Checked<T>)
    ensures r.state.kind == s.kind && r.state.id == s.id && r.state.active == s.active
    ensures r.state.manager == s.manager && r.state.granted == s.granted
    ensures r.state.visibility == s.visibility && r.state.applied == s.applied
    ensures s.kind != AutoCompleteKind ==> r.state == s
  {
    match s.kind
    case AllAppsKind => Checked(s, true)
    case SuggestedAppsKind => Checked(s, |query| == 0)
    case SuggestedContactsKind => Checked(s, |query| == 0)
    case InAppSearchKind => Checked(s, InAppSearch.IsQueryValid(query))
    case MediaKind => Checked(s, HasPermissions(s) && |query| != 0 && |query| >= MEDIA_MIN_QUERY_CHARS)
    case AutoCompleteKind =>
      var isLast := s.lastClicked == Some(query);
      var valid := |query| != 0 && |query| >= AUTOCOMPLETE_MIN_QUERY && !confirmed && !isLast;
      var s' := s.(lastWasClicked := isLast,
                   lastClicked := if isLast then None else s.lastClicked,
                   vm := VMs.SetCurrentQuery(s.vm, query, token));
      Checked(s', valid)
    case _ => Checked(s, HasPermissions(s) && |query| != 0)
  }

  /** The validity rule of every kind, in terms of the query alone (plus permissions and confirmation). */
  lemma ValidityRules<T>(s: State<T>, query: String, token: int, confirmed: bool)
    ensures var v := CheckQuery(s, query, token, confirmed).valid;
            && (s.kind in {AppsKind, ContactsKind, ShortcutKind} ==> (v <==> RequiredPermissions(s.kind) <= s.granted && query != ""))
            && (s.kind == MediaKind ==> (v <==> ReadExternalStorage in s.granted && |query| >= 2))
            && (s.kind == AllAppsKind ==> v)
            && (s.kind in {SuggestedAppsKind, SuggestedContactsKind} ==> (v <==> query == ""))
            && (s.kind == InAppSearchKind ==> (v <==> |query| >= 3))
            && (s.kind == AutoCompleteKind ==> (v <==> |query| >= 2 && !confirmed && s.lastClicked != Some(query)))
  {
  }

  /** The autocomplete provider records every checked query as current, valid or not. */
  lemma AutoCompleteRecordsCurrent<T>(s: State<T>, query: String, token: int, confirmed: bool)
    requires s.kind == AutoCompleteKind
    ensures var c := CheckQuery(s, query, token, confirmed);
            c.state.vm.CurrentQuery() == query && c.state.vm.CurrentToken() == token
  {
  }

  /**
   * A clicked suggestion's query is refused once: the check that refuses it
   * forgets the click, so the same check right after depends on the query
   * and confirmation alone.
   */
  lemma {:induction false} ClickedQueryRejectedOnce<T>(s: State<T>, name: String, t1: int, t2: int, confirmed: bool)
    requires s.kind == AutoCompleteKind && s.lastClicked == Some(name)
    ensures !CheckQuery(s, name, t1, confirmed).valid
    ensures var s1 := CheckQuery(s, name, t1, confirmed).state;
            s1.lastClicked == None
            && (CheckQuery(s1, name, t2, confirmed).valid <==> |name| >= AUTOCOMPLETE_MIN_QUERY && !confirmed)
  {
  }

  // ---------------------------------------------------------------- show / hide and the observer

  /**
   * `onHideView`: an autocomplete provider on a clicked suggestion hides only
   * its results list, so a shown view keeps its search engines and a view
   * already gone stays gone; any other provider's view goes.
   */
  function Hidden<T>(s: State<T>): (v: Visibility)
    ensures v != Visible
    ensures v == EnginesOnly <==> s.kind == AutoCompleteKind && s.lastWasClicked && s.visibility != Gone
  {
    if s.kind == AutoCompleteKind && s.lastWasClicked then (if s.visibility == Gone then Gone else EnginesOnly)
    else Gone
  }

  /** `showView(query, check)`: only when active and, if checking, the query is the current one. */
  function ShowView<T>(s: State<T>, query: String, checkIsCurrent: bool): (r: State<T>)
    ensures r == s.(visibility := r.visibility)
    ensures s.active && (!checkIsCurrent || query == s.vm.CurrentQuery()) ==> r.visibility == Visible
    ensures !(s.active && (!checkIsCurrent || query == s.vm.CurrentQuery())) ==> r == s
  {
    if s.active && (!checkIsCurrent || query == s.vm.CurrentQuery()) then s.(visibility := Visible) else s
  }

  /** `hideView(query, check)`: the same guard as showView. */
  function HideView<T>(s: State<T>, query: String, checkIsCurrent: bool): (r: State<T>)
    ensures r == s.(visibility := r.visibility)
    ensures s.active && (!checkIsCurrent || query == s.vm.CurrentQuery()) ==>
              && r.visibility != Visible
              && (r.visibility == EnginesOnly <==> s.kind == AutoCompleteKind && s.lastWasClicked && s.visibility != Gone)
    ensures !(s.active && (!checkIsCurrent || query == s.vm.CurrentQuery())) ==> r == s
  {
    if s.active && (!checkIsCurrent || query == s.vm.CurrentQuery()) then s.(visibility := Hidden(s)) else s
  }

  /** Hiding never brings a view back: a view that is gone stays gone, whatever the provider. */
  lemma HideViewKeepsGone<T>(s: State<T>, query: String, checkIsCurrent: bool)
    requires s.visibility == Gone
    ensures HideView(s, query, checkIsCurrent).visibility == Gone
  {
  }

  /**
   * The items observer, run when the items cell is set: empty (or unset)
   * items are always applied; other items only when the completed query is
   * the current query.
   */
  function Observe<T>(s: State<T>): (r: State<T>)
    ensures r == s.(applied := r.applied)
    ensures var data := s.vm.items.GetOr([]);
            if |data| == 0 || s.vm.CurrentQuery() == s.vm.CompletedQuery()
            then r.applied == Some((s.vm.CompletedQuery(), data))
            else r.applied == s.applied
  {
    var data := s.vm.items.GetOr([]);
    if |data| == 0 then s.(applied := Some((s.vm.CompletedQuery(), data)))
    else if s.vm.CurrentQuery() == s.vm.CompletedQuery() then s.(applied := Some((s.vm.CompletedQuery(), data)))
    else s
  }

  // ---------------------------------------------------------------- startDiscovery

  /** `onValidQuery`: the view model's current cells, then one task (announced as started). */
  function OnValidQuery<T>(s: State<T>, query: String, token: int): (r: (State<T>, seq<Event<T>>))
    requires Valid(s)
  {
    var vm := VMs.SetCurrentQuery(s.vm, query, token);
    var ex := TM.Execute(s.manager, query, token);
    (s.(vm := vm, manager := ex.manager), ex.events)
  }

  /** `onInvalidQuery`: clear the view model (the observer applies []), abort with (query, token), hide unchecked. */
  function OnInvalidQuery<T>(s: State<T>, query: String, token: int): (r: (State<T>, seq<Event<T>>))
    requires Valid(s)
  {
    var s1 := Observe(s.(vm := VMs.Clear(s.vm)));
    var (m, events) := TM.Abort(s1.manager, Some(query), token);
    (HideView(s1.(manager := m), query, false), events)
  }

  /**
   * `startDiscovery`: exactly one of the valid and invalid paths, chosen by
   * the validity check.  The valid path sets the current cells and reports a
   * start; the invalid path clears the results and reports a cancellation
   * for the same query and token.
   */
  function StartDiscovery<T>(s: State<T>, query: String, token: int, confirmed: bool): (r: (State<T>, seq<Event<T>>))
    requires Valid(s)
    ensures Valid(r.0) && r.0.id == s.id && r.0.kind == s.kind && r.0.active == s.active && r.0.granted == s.granted
    ensures |r.0.manager.slot.tasks| == |s.manager.slot.tasks| + 1
    ensures var valid := CheckQuery(s, query, token, confirmed).valid;
            && (valid ==> r.1 == [Event(s.id, DiscoveryStarted(query, token))]
                          && r.0.vm.CurrentQuery() == query && r.0.vm.CurrentToken() == token
                          && r.0.manager == TM.Execute(s.manager, query, token).manager)
            && (!valid ==> r.1 == [Event(s.id, DiscoveryCompleted(query, token, None, Some(Cancellation)))]
                           && r.0.vm.items == Some([]) && r.0.vm.CompletedQuery() == "" && r.0.vm.CompletedToken() == -1
                           && r.0.applied == Some(("", []))
                           && (s.active ==> r.0.visibility != Visible))
  {
    var c := CheckQuery(s, query, token, confirmed);
    if c.valid then OnValidQuery(c.state, query, token) else OnInvalidQuery(c.state, query, token)
  }

  /**
   * Re-running the clicked suggestion on an active autocomplete provider
   * takes the invalid path: the click is consumed, and the view keeps its
   * search engines if it was showing and stays gone if it was gone.
   */
  lemma ClickedQueryHidesResultsOnly<T>(s: State<T>, query: String, token: int, confirmed: bool)
    requires Valid(s) && s.kind == AutoCompleteKind && s.active && s.lastClicked == Some(query)
    ensures var r := StartDiscovery(s, query, token, confirmed).0;
            && !CheckQuery(s, query, token, confirmed).valid
            && r.lastClicked == None
            && r.visibility != Visible
            && (r.visibility == Gone <==> s.visibility == Gone)
  {
    var c := CheckQuery(s, query, token, confirmed);
    assert c.state.lastWasClicked && c.state.visibility == s.visibility;
  }

  // ---------------------------------------------------------------- task completion

  /**
   * A worker reporting its outcome for a task.  The task manager's listener
   * reports the completion to the controller first; then the provider's
   * listeners set the items for the task's (query, token) (an empty list on
   * failure), the observer runs, and the view is shown when there are
   * results and hidden otherwise, both with the current-query check.
   */
  function Deliver<T>(s: State<T>, task: nat, outcome: Slots.Completion<seq<T>>): (r: (State<T>, seq<Event<T>>))
    requires Valid(s) && task < |s.manager.slot.tasks| && outcome != Slots.Pending
    ensures Valid(r.0) && r.0.id == s.id && r.0.kind == s.kind && r.0.active == s.active && r.0.granted == s.granted
    ensures r.1 == TM.Deliver(s.manager, task, outcome).events
    ensures forall k :: 0 <= k < |r.1| ==> r.1[k].provider == s.id && r.1[k].call.DiscoveryCompleted?
    ensures TM.Deliver(s.manager, task, outcome).fired.None? ==> r.0.vm == s.vm && r.0.applied == s.applied
  {
    var d := TM.Deliver(s.manager, task, outcome);
    var s1 := s.(manager := d.manager);
    match d.fired
    case None => (s1, d.events)
    case Some((q, t, o)) =>
      var list := if o.Succeeded? then o.value.GetOr([]) else [];
      var s2 := Observe(s1.(vm := VMs.SetItems(s1.vm, q, t, list)));
      var s3 := if |list| > 0 then ShowView(s2, q, true) else HideView(s2, q, true);
      (s3, d.events)
  }

  /**
   * Stale results are kept out of the view: a completion whose query is not
   * the provider's current query sets the items cell but the observer does
   * not apply non-empty results, and the view is left as it was.
   */
  lemma StaleResultsNotApplied<T>(s: State<T>, task: nat, list: seq<T>)
    requires Valid(s) && task < |s.manager.slot.tasks|
    requires s.manager.slot.tasks[task].completion == Slots.Pending
    requires s.manager.listeners[task].Some? && s.manager.listeners[task].value.0 != s.vm.CurrentQuery()
    requires |list| > 0
    ensures var r := Deliver(s, task, Slots.Succeeded(Some(list))).0;
            r.applied == s.applied && r.visibility == s.visibility
            && r.vm.CompletedQuery() == s.manager.listeners[task].value.0 && r.vm.items == Some(list)
  {
  }

  /** A failed task leaves empty items for its query and token, and the provider applies them. */
  lemma FailureClearsItems<T>(s: State<T>, task: nat, error: JavaException)
    requires Valid(s) && task < |s.manager.slot.tasks|
    requires s.manager.slot.tasks[task].completion == Slots.Pending && s.manager.listeners[task].Some?
    ensures var q := s.manager.listeners[task].value.0;
            var r := Deliver(s, task, Slots.Failed(error));
            && r.0.vm.items == Some([]) && r.0.vm.CompletedQuery() == q
            && r.0.vm.CompletedToken() == s.manager.listeners[task].value.1
            && r.0.applied == Some((q, []))
            && r.1 == [Event(s.id, DiscoveryCompleted(q, s.manager.listeners[task].value.1, None, Some(error)))]
  {
  }

  // ---------------------------------------------------------------- other provider entry points

  /**
   * `onExactMatch(query, token, providers)`: nothing by default; the
   * autocomplete provider, when not among the reporters, aborts with
   * (query, token) and hides with the current-query check.
   */
  function OnExactMatch<T>(s: State<T>, query: String, token: int, providers: set<ProviderId>): (r: (State<T>, seq<Event<T>>))
    requires Valid(s)
    ensures Valid(r.0) && r.0.id == s.id && r.0.kind == s.kind && r.0.active == s.active && r.0.granted == s.granted
    ensures s.kind != AutoCompleteKind || s.id in providers ==> r == (s, [])
    ensures s.kind == AutoCompleteKind && s.id !in providers ==>
              r.1 == [Event(s.id, DiscoveryCompleted(query, token, None, Some(Cancellation)))]
              && r.0.manager.slot.held.Some? && r.0.manager.slot.tasks[r.0.manager.slot.held.value].kind == Slots.NoOpTask
  {
    if s.kind == AutoCompleteKind && s.id !in providers then
      var (m, events) := TM.Abort(s.manager, Some(query), token);
      (HideView(s.(manager := m), query, true), events)
    else (s, [])
  }

  /** `setActive`: the flag, and the view shown or gone accordingly. */
  function SetActive<T>(s: State<T>, active: bool): (r: State<T>)
    ensures r.active == active && r == s.(active := active, visibility := r.visibility)
  {
    s.(active := active, visibility := if active then Visible else Gone)
  }

  /**
   * `onItemClick`: reports the click with the completed query and token;
   * the autocomplete provider then remembers the suggestion's name and asks
   * for a discovery with that name as the new query.
   */
  function OnItemClick<T>(s: State<T>, item: T, name: String): (r: (State<T>, seq<Event<T>>))
    ensures |r.1| >= 1 && r.1[0] == Event(s.id, ResultClick(s.vm.CompletedQuery(), s.vm.CompletedToken(), item))
    ensures forall k :: 0 <= k < |r.1| ==> r.1[k].provider == s.id
    ensures s.kind == AutoCompleteKind ==>
              r.0 == s.(lastClicked := Some(name)) && r.1[1..] == [Event(s.id, RequestDiscovery(Some(name)))]
    ensures s.kind != AutoCompleteKind ==> r.0 == s && |r.1| == 1
  {
    var click := Event(s.id, ResultClick(s.vm.CompletedQuery(), s.vm.CompletedToken(), item));
    if s.kind == AutoCompleteKind then
      (s.(lastClicked := Some(name)), [click, Event(s.id, RequestDiscovery(Some(name)))])
    else (s, [click])
  }

  /** `onPermissionResults`: a fresh discovery is requested when the kind requires any permission. */
  function OnPermissionResults<T>(s: State<T>, granted: set<Permission>): (r: (State<T>, seq<Event<T>>))
    ensures r.0 == s.(granted := granted)
    ensures |RequiredPermissions(s.kind)| > 0 ==> r.1 == [Event(s.id, RequestDiscovery(None))]
    ensures |RequiredPermissions(s.kind)| == 0 ==> r.1 == []
  {
    (s.(granted := granted), if |RequiredPermissions(s.kind)| > 0 then [Event(s.id, RequestDiscovery(None))] else [])
  }

  // ---------------------------------------------------------------- adapter defaults

  /** SimpleDiscoveryProvider: one column, no spacing, vertical; contacts and shortcuts use two columns. */
  datatype Orientation = Horizontal | Vertical

  datatype SectionSpec = SectionSpec(columns: int, spacing: int, orientation: Orientation)

  function AdapterSpec(kind: ProviderKind): (r: SectionSpec)
    ensures kind in {ContactsKind, SuggestedContactsKind, ShortcutKind} ==> r.columns == 2
    ensures kind in {AppsKind, AllAppsKind, SuggestedAppsKind, MediaKind} ==> r.columns == 1
    ensures kind == AutoCompleteKind ==> r.orientation == Horizontal
    ensures kind != AutoCompleteKind ==> r.orientation == Vertical
  {
    match kind
    case ContactsKind => SectionSpec(2, 0, Vertical)
    case SuggestedContactsKind => SectionSpec(2, 0, Vertical)
    case ShortcutKind => SectionSpec(2, 0, Vertical)
    case AutoCompleteKind => SectionSpec(1, 0, Horizontal)
    case _ => SectionSpec(1, 0, Vertical)
  }

  /** `getAdapterCapacity(columns)`: unbounded unless the kind overrides it. */
  function AdapterCapacity(kind: ProviderKind, columns: int): (r: int)
    ensures kind in {AppsKind, ContactsKind, MediaKind} ==> r == 2 * columns
    ensures kind in {SuggestedAppsKind, SuggestedContactsKind} ==> r == columns
    ensures kind == AutoCompleteKind ==> r == AUTOCOMPLETE_MAX_ITEMS
    ensures kind in {AllAppsKind, ShortcutKind, InAppSearchKind} ==> r == MAX_INT
  {
    match kind
    case AppsKind => 2 * columns
    case ContactsKind => 2 * columns
    case MediaKind => 2 * columns
    case SuggestedAppsKind => columns
    case SuggestedContactsKind => columns
    case AutoCompleteKind => AUTOCOMPLETE_MAX_ITEMS
    case _ => MAX_INT
  }

  /**
   * A single-section provider asks `loadResults` for its adapter capacity:
   * the section sum of one section is that section's capacity.
   */
  lemma SingleSectionCapacity(kind: ProviderKind, columns: int, id: nat)
    requires kind != InAppSearchKind
    requires 0 <= AdapterCapacity(kind, columns) <= MAX_INT
    ensures Sections.Capacity([Sections.Section(0, id, AdapterCapacity(kind, columns))]) == AdapterCapacity(kind, columns)
  {
    var c := AdapterCapacity(kind, columns);
    if c != MAX_INT {
      Sections.CapacityIsSum([Sections.Section(0, id, c)], 0);
    }
  }
}
