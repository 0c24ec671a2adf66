/**
 * BranchSearchController: the current query, its token, the confirmed flag
 * and source, the one debounced dispatch that may be armed, the exact-match
 * set and per-provider result counts of the current token, and the loading
 * flag.  Every entry point is a pure step returning the new state, the
 * notifications for the host's callbacks, and the commands the controller
 * issues to providers (in order).  Providers are their positions in the
 * loader; `actives[p]` is provider p's active flag at the moment of the step.
 */
module Controller {
  import opened Wrappers
  import opened JavaText
  import opened Callbacks
  import Meta = QueryMetadata

  const ID_REQUEST_PERMISSIONS: int := 532
  const DEBOUNCE_MILLIS: int := 150
  const IME_ACTION_SEARCH: int := 3
  const IME_ACTION_DONE: int := 6

  /** The source property of the search-executed analytics event. */
  datatype SearchSource = SourceKeyboard | SourceVoice | SourceAutoSuggest

  /** The host notifications (BranchSearchCallback and its keyboard) that carry no provider item. */
  datatype Notice =
    | LoadingChanged(loading: bool)
    | SearchExecuted(query: String, source: SearchSource)
    | SearchResults(query: String, counts: map<ProviderId, int>)
    | ProviderError(provider: ProviderId, query: String, error: JavaException)
    | QueryUpdateRequested(query: String)
    | KeyboardHidden

  /** Every notification for the host: a plain notice, or one handing over provider items. */
  datatype HostEvent<T> =
    | Notify(notice: Notice)
    | ProviderResults(provider: ProviderId, query: String, results: seq<T>)
    | ResultClicked(provider: ProviderId, query: String, item: T)

  /** What the controller asks of a provider; a posted exact-match broadcast runs later, as its own step. */
  datatype Command =
    | StartDiscovery(provider: ProviderId, query: String, token: int, confirmed: bool)
    | SetProviderActive(provider: ProviderId, active: bool)
    | PostExactMatch(query: String, token: int, providers: set<ProviderId>)
    | PermissionResults(provider: ProviderId)

  datatype Ctl = Ctl(
    query: String,
    token: int,
    confirmed: bool,
    source: Option<Meta.QuerySource>,
    pending: Option<bool>,          // the armed debounced dispatch and its confirmed flag
    exactMatches: set<ProviderId>,
    results: map<ProviderId, int>,
    loading: bool)

  /** The outcome of a provider callback: the new state, the host's notifications, the commands, and what was thrown. */
  datatype Step<T> = Step(ctl: Ctl, host: seq<HostEvent<T>>, commands: seq<Command>, thrown: Option<JavaException>)

  /** The outcome of a host-driven entry point, which hands no provider item to the host and throws nothing. */
  datatype Reaction = Reaction(ctl: Ctl, notices: seq<Notice>, commands: seq<Command>)

  /** Notices appended, in order, to a host notification log. */
  function Notified<T>(host: seq<HostEvent<T>>, notices: seq<Notice>): (r: seq<HostEvent<T>>)
    ensures |r| == |host| + |notices| && r[..|host|] == host
    ensures forall k :: 0 <= k < |notices| ==> r[|host| + k] == Notify(notices[k])
  {
    host + seq(|notices|, k requires 0 <= k < |notices| => Notify(notices[k]))
  }

  /** `setCurrentQuery`: a new token, and the per-token aggregates emptied. */
  function SetCurrentQuery(c: Ctl, query: String, source: Option<Meta.QuerySource>): (r: Ctl)
    ensures r.token == c.token + 1 && r.query == query && r.source == source
    ensures r.exactMatches == {} && r.results == map[]
    ensures r.confirmed == c.confirmed && r.pending == c.pending && r.loading == c.loading
  {
    c.(query := query, token := c.token + 1, exactMatches := {}, results := map[], source := source)
  }

  /** The constructor starts at token 0 and immediately sets the empty query, so the first token is 1. */
  function Create(): (c: Ctl)
    ensures c.token == 1 && c.query == "" && c.source == None && c.pending == None
    ensures !c.loading && !c.confirmed && c.results == map[] && c.exactMatches == {}
  {
    SetCurrentQuery(Ctl("", 0, false, None, None, {}, map[], false), "", None)
  }

  // ---------------------------------------------------------------- active providers

  /** The positions of the active providers, in loader order. */
  function ActiveIds(actives: seq<bool>): (r: seq<ProviderId>)
    ensures forall k :: 0 <= k < |r| ==> r[k] < |actives| && actives[r[k]]
    ensures forall p :: 0 <= p < |actives| && actives[p] ==> p in r
    ensures forall j, k :: 0 <= j < k < |r| ==> r[j] < r[k]
  {
    if |actives| == 0 then []
    else ActiveIds(actives[..|actives| - 1]) + (if actives[|actives| - 1] then [|actives| - 1] else [])
  }

  /** `getActiveProvidersCount`: a count over the loader. */
  function ActiveCount(actives: seq<bool>): (n: nat)
  {
    if |actives| == 0 then 0
    else ActiveCount(actives[..|actives| - 1]) + (if actives[|actives| - 1] then 1 else 0)
  }

  /** The active providers as a set. */
  function ActiveSet(actives: seq<bool>): (r: set<ProviderId>)
    ensures forall p: ProviderId :: p in r <==> p < |actives| && actives[p]
  {
    if |actives| == 0 then {}
    else ActiveSet(actives[..|actives| - 1]) + (if actives[|actives| - 1] then {|actives| - 1} else {})
  }

  /** The active count is the number of distinct active providers. */
  lemma {:induction false} ActiveCountIsCardinality(actives: seq<bool>)
    ensures ActiveCount(actives) == |ActiveSet(actives)|
  {
    if |actives| > 0 {
      var n := |actives| - 1;
      ActiveCountIsCardinality(actives[..n]);
      assert n !in ActiveSet(actives[..n]);
    }
  }

  /** The ordered positions are as many as the count. */
  lemma {:induction false} ActiveIdsLength(actives: seq<bool>)
    ensures |ActiveIds(actives)| == ActiveCount(actives)
  {
    if |actives| > 0 {
      ActiveIdsLength(actives[..|actives| - 1]);
    }
  }

  // ---------------------------------------------------------------- dispatch

  function StartAll(ids: seq<ProviderId>, query: String, token: int, confirmed: bool): (r: seq<Command>)
    ensures |r| == |ids|
    ensures forall k :: 0 <= k < |ids| ==> r[k] == StartDiscovery(ids[k], query, token, confirmed)
  {
    seq(|ids|, k requires 0 <= k < |ids| => StartDiscovery(ids[k], query, token, confirmed))
  }

  function SourceValue(source: Option<Meta.QuerySource>): (r: SearchSource)
    ensures r == SourceVoice <==> source == Some(Meta.Voice)
    ensures r == SourceAutoSuggest <==> source == Some(Meta.AutoCompleteSource)
  {
    match source
    case Some(Voice) => SourceVoice
    case Some(AutoCompleteSource) => SourceAutoSuggest
    case _ => SourceKeyboard
  }

  /**
   * `dispatchSearch(0, confirmed)`: disarm the pending dispatch, record the
   * confirmed flag, and start the current query and token on the active
   * providers in loader order (see DispatchStartsExactlyTheActive).
   */
  function DispatchNow(c: Ctl, confirmed: bool, actives: seq<bool>): (r: Reaction)
    ensures r.ctl == c.(pending := None, confirmed := confirmed)
    ensures r.notices == [SearchExecuted(c.query, SourceValue(c.source))]
    ensures |r.commands| == |ActiveIds(actives)|
    ensures forall k :: 0 <= k < |r.commands| ==>
              r.commands[k] == StartDiscovery(ActiveIds(actives)[k], c.query, c.token, confirmed)
  {
    Reaction(c.(pending := None, confirmed := confirmed), [SearchExecuted(c.query, SourceValue(c.source))],
             StartAll(ActiveIds(actives), c.query, c.token, confirmed))
  }

  /**
   * An immediate dispatch starts each active provider exactly once and no
   * other, in loader order, all with the current query, token and the given
   * confirmed flag.
   */
  lemma DispatchStartsExactlyTheActive(c: Ctl, confirmed: bool, actives: seq<bool>)
    ensures var cmds := DispatchNow(c, confirmed, actives).commands;
            && |cmds| == ActiveCount(actives)
            && (forall k :: 0 <= k < |cmds| ==>
                  cmds[k].StartDiscovery? && cmds[k].query == c.query && cmds[k].token == c.token && cmds[k].confirmed == confirmed)
            && (forall p :: p in ActiveSet(actives) <==> exists k :: 0 <= k < |cmds| && cmds[k].provider == p)
            && (forall j, k :: 0 <= j < k < |cmds| ==> cmds[j].provider < cmds[k].provider)
  {
    ActiveIdsLength(actives);
    ActiveIdsCoverActiveSet(actives);
    var ids := ActiveIds(actives);
    var cmds := DispatchNow(c, confirmed, actives).commands;
    assert forall k :: 0 <= k < |cmds| ==> cmds[k].provider == ids[k];
  }

  /** A provider is active exactly when it has a position among the active ids. */
  lemma ActiveIdsCoverActiveSet(actives: seq<bool>)
    ensures forall p :: p in ActiveSet(actives) <==> exists k :: 0 <= k < |ActiveIds(actives)| && ActiveIds(actives)[k] == p
  {
    var ids := ActiveIds(actives);
    forall p | p in ActiveSet(actives) ensures exists k :: 0 <= k < |ids| && ids[k] == p {
      var k :| 0 <= k < |ids| && ids[k] == p;
    }
  }

  /** `dispatchSearch(delay, confirmed)`: at once when the delay is 0; otherwise (re-)arm the one pending dispatch. */
  function Dispatch(c: Ctl, delay: int, confirmed: bool, actives: seq<bool>): (r: Reaction)
    ensures delay != 0 ==> r == Reaction(c.(pending := Some(confirmed)), [], [])
    ensures delay == 0 ==> r == DispatchNow(c, confirmed, actives)
  {
    if delay == 0 then DispatchNow(c, confirmed, actives)
    else Reaction(c.(pending := Some(confirmed)), [], [])
  }

  /**
   * `onTextChanged`: the lower-cased text becomes the current query under a
   * new token, with its source read from the text's metadata; the search
   * itself is only armed, unconfirmed, for the debounce delay.
   */
  function OnTextChanged(c: Ctl, text: Meta.Text, actives: seq<bool>): (r: Reaction)
    ensures r.ctl.token == c.token + 1 && r.ctl.query == ToLower(text.chars)
    ensures r.ctl.source == Meta.SourceOf(text) && r.ctl.pending == Some(false)
    ensures r.ctl.exactMatches == {} && r.ctl.results == map[]
    ensures r.ctl.loading == c.loading && r.ctl.confirmed == c.confirmed
    ensures r.notices == [] && r.commands == []
  {
    Dispatch(SetCurrentQuery(c, ToLower(text.chars), Meta.SourceOf(text)), DEBOUNCE_MILLIS, false, actives)
  }

  /**
   * `onEditorAction`: DONE and SEARCH hide the keyboard, re-set the same
   * query from the keyboard (a new token) and dispatch at once, confirmed;
   * any other action is not handled.
   */
  function OnEditorAction(c: Ctl, actionId: int, actives: seq<bool>): (r: (Reaction, bool))
    ensures r.1 <==> actionId == IME_ACTION_DONE || actionId == IME_ACTION_SEARCH
    ensures !r.1 ==> r.0 == Reaction(c, [], [])
    ensures r.1 ==> && r.0.ctl.token == c.token + 1 && r.0.ctl.query == c.query
                    && r.0.ctl.source == Some(Meta.Keyboard) && r.0.ctl.confirmed && r.0.ctl.pending == None
                    && r.0.ctl.results == map[] && r.0.ctl.exactMatches == {}
                    && r.0.notices == [KeyboardHidden, SearchExecuted(c.query, SourceKeyboard)]
                    && r.0.commands == DispatchNow(SetCurrentQuery(c, c.query, Some(Meta.Keyboard)), true, actives).commands
  {
    if actionId == IME_ACTION_DONE || actionId == IME_ACTION_SEARCH then
      var d := DispatchNow(SetCurrentQuery(c, c.query, Some(Meta.Keyboard)), true, actives);
      (d.(notices := [KeyboardHidden] + d.notices), true)
    else (Reaction(c, [], []), false)
  }

  /** The armed debounced dispatch runs: `dispatchSearch(0, confirmed)` with the flag it was armed with. */
  function TimerFires(c: Ctl, actives: seq<bool>): (r: Reaction)
    requires c.pending.Some?
    ensures r == DispatchNow(c, c.pending.value, actives)
  {
    DispatchNow(c, c.pending.value, actives)
  }

  /**
   * The order of setActive's commands: every command flips or restarts a
   * provider, a restart comes right after the flip of the same provider,
   * flips address increasing providers, and providers never go back.
   */
  predicate FlipOrder(r: seq<Command>, active: bool)
  {
    && (forall k :: 0 <= k < |r| ==> r[k].StartDiscovery? || r[k].SetProviderActive?)
    && (|r| > 0 ==> r[0].SetProviderActive?)
    && (forall j, k :: 0 <= j < |r| && 0 <= k < |r| && k == j + 1 && r[k].StartDiscovery? ==> r[j] == SetProviderActive(r[k].provider, active))
    && (forall j, k :: 0 <= j < k < |r| && r[j].SetProviderActive? && r[k].SetProviderActive? ==>
          r[j].provider < r[k].provider)
    && (forall j, k :: 0 <= j < k < |r| ==> r[j].provider <= r[k].provider)
  }

  /** What setActive does for one provider whose flag differs: the flip, then the restart when activating. */
  function FlipCommands(c: Ctl, p: ProviderId, active: bool): seq<Command>
  {
    [SetProviderActive(p, active)] + (if active then [StartDiscovery(p, c.query, c.token, c.confirmed)] else [])
  }

  /** One provider's commands are in order, address only it, and restart it with the current query when activating. */
  lemma FlipCommandsShape(c: Ctl, p: ProviderId, active: bool)
    ensures var r := FlipCommands(c, p, active);
            && FlipOrder(r, active) && |r| > 0 && r[0] == SetProviderActive(p, active)
            && (forall k :: 0 <= k < |r| ==> r[k].provider == p)
            && (forall k :: 0 <= k < |r| && r[k].StartDiscovery? ==> active && r[k] == StartDiscovery(p, c.query, c.token, c.confirmed))
            && (active <==> StartDiscovery(p, c.query, c.token, c.confirmed) in r)
  {
    var r := FlipCommands(c, p, active);
    if active {
      assert r[1] == StartDiscovery(p, c.query, c.token, c.confirmed);
    }
  }

  /** One provider's commands before the commands of later providers keep the order. */
  lemma FlipOrderAppend(here: seq<Command>, rest: seq<Command>, p: ProviderId, active: bool)
    requires FlipOrder(here, active) && FlipOrder(rest, active)
    requires forall k :: 0 <= k < |here| ==> here[k].provider == p
    requires forall k :: 0 <= k < |rest| ==> rest[k].provider > p
    requires |here| > 0 ==> here[0].SetProviderActive?
    ensures FlipOrder(here + rest, active)
  {
    var r := here + rest;
    forall j, k | 0 <= j < |r| && 0 <= k < |r| && k == j + 1 && r[k].StartDiscovery?
      ensures r[j] == SetProviderActive(r[k].provider, active)
    {
      if k >= |here| {
        var i := k - |here|;
        assert r[k] == rest[i];
        if i == 0 {
          assert false;
        } else {
          assert r[j] == rest[i - 1];
        }
      }
    }
  }

  /** Every command addresses a matching provider from `from` on whose flag differs, restarts only when activating. */
  predicate FlipsSound(r: seq<Command>, c: Ctl, matching: set<ProviderId>, active: bool, actives: seq<bool>, from: nat)
  {
    && (forall k :: 0 <= k < |r| && r[k].StartDiscovery? ==>
          from <= r[k].provider < |actives| && active
          && r[k] == StartDiscovery(r[k].provider, c.query, c.token, c.confirmed))
    && (forall k :: 0 <= k < |r| && r[k].SetProviderActive? ==>
          from <= r[k].provider < |actives|
          && r[k].active == active && r[k].provider in matching && actives[r[k].provider] != active)
  }

  /** Every matching provider from `from` on whose flag differs is flipped, and restarted when activating. */
  predicate FlipsComplete(r: seq<Command>, c: Ctl, matching: set<ProviderId>, active: bool, actives: seq<bool>, from: nat)
  {
    forall p :: from <= p < |actives| && p in matching && actives[p] != active ==>
      SetProviderActive(p, active) in r && (active ==> StartDiscovery(p, c.query, c.token, c.confirmed) in r)
  }

  /** The commands for provider `from` followed by those for the later providers keep order and soundness. */
  lemma FlipsStep(c: Ctl, matching: set<ProviderId>, active: bool, actives: seq<bool>, from: nat, here: seq<Command>, rest: seq<Command>)
    requires from < |actives|
    requires here == if from in matching && actives[from] != active then FlipCommands(c, from, active) else []
    requires FlipOrder(rest, active) && FlipsSound(rest, c, matching, active, actives, from + 1)
    ensures FlipOrder(here + rest, active) && FlipsSound(here + rest, c, matching, active, actives, from)
  {
    FlipCommandsShape(c, from, active);
    FlipOrderAppend(here, rest, from, active);
    var r := here + rest;
    forall k | 0 <= k < |r|
      ensures r[k] == (if k < |here| then here[k] else rest[k - |here|])
    {
    }
  }

  /**
   * `setActive(class, active)`: the commands come in loader order, each
   * restart right after its flip; each flips a matching provider whose
   * flag differs, and a restart (only when activating) uses the current
   * query, token and confirmed flag; no token is created.
   */
  function SetActiveCommands(c: Ctl, matching: set<ProviderId>, active: bool, actives: seq<bool>, from: nat): (r: seq<Command>)
    requires from <= |actives|
    ensures FlipOrder(r, active)
    ensures FlipsSound(r, c, matching, active, actives, from)
    decreases |actives| - from
  {
    if from == |actives| then []
    else
      var here := if from in matching && actives[from] != active then FlipCommands(c, from, active) else [];
      var rest := SetActiveCommands(c, matching, active, actives, from + 1);
      FlipsStep(c, matching, active, actives, from, here, rest);
      here + rest
  }

  /** `setActive` misses none: every matching provider whose flag differs is flipped, and restarted when activating. */
  lemma {:induction false} SetActiveCommandsComplete(c: Ctl, matching: set<ProviderId>, active: bool, actives: seq<bool>, from: nat)
    requires from <= |actives|
    ensures FlipsComplete(SetActiveCommands(c, matching, active, actives, from), c, matching, active, actives, from)
    decreases |actives| - from
  {
    if from < |actives| {
      var here := if from in matching && actives[from] != active then FlipCommands(c, from, active) else [];
      var rest := SetActiveCommands(c, matching, active, actives, from + 1);
      SetActiveCommandsComplete(c, matching, active, actives, from + 1);
      CompleteStep(c, matching, active, actives, from, here, rest);
      assert SetActiveCommands(c, matching, active, actives, from) == here + rest;
    }
  }

  /** Provider `from`'s own commands, then a complete list for the later providers. */
  lemma CompleteStep(c: Ctl, matching: set<ProviderId>, active: bool, actives: seq<bool>, from: nat, here: seq<Command>, rest: seq<Command>)
    requires from < |actives|
    requires here == if from in matching && actives[from] != active then FlipCommands(c, from, active) else []
    requires FlipsComplete(rest, c, matching, active, actives, from + 1)
    ensures FlipsComplete(here + rest, c, matching, active, actives, from)
  {
    FlipCommandsShape(c, from, active);
    forall p | from <= p < |actives| && p in matching && actives[p] != active
      ensures SetProviderActive(p, active) in here + rest
              && (active ==> StartDiscovery(p, c.query, c.token, c.confirmed) in here + rest)
    {
      if p > from {
        InAppended(here, rest, SetProviderActive(p, active));
        if active {
          InAppended(here, rest, StartDiscovery(p, c.query, c.token, c.confirmed));
        }
      } else {
        InPrefix(here, rest, SetProviderActive(p, active));
        if active {
          InPrefix(here, rest, StartDiscovery(p, c.query, c.token, c.confirmed));
        }
      }
    }
  }

  /** An element of the second list is in the concatenation. */
  lemma InAppended<X>(a: seq<X>, b: seq<X>, x: X)
    requires x in b
    ensures x in a + b
  {
    var i :| 0 <= i < |b| && b[i] == x;
    assert (a + b)[|a| + i] == x;
  }

  /** An element of the first list is in the concatenation. */
  lemma InPrefix<X>(a: seq<X>, b: seq<X>, x: X)
    requires x in a
    ensures x in a + b
  {
    var i :| 0 <= i < |a| && a[i] == x;
    assert (a + b)[i] == x;
  }

  // ---------------------------------------------------------------- provider callbacks

  /** `setLoading`: observers hear only actual changes. */
  function SetLoading(c: Ctl, loading: bool): (r: Reaction)
    ensures r.ctl == c.(loading := loading) && r.commands == []
    ensures r.notices == (if loading != c.loading then [LoadingChanged(loading)] else [])
  {
    if loading != c.loading then Reaction(c.(loading := loading), [LoadingChanged(loading)], [])
    else Reaction(c, [], [])
  }

  /** The "all done" test as written: as many providers recorded as are active now. */
  predicate AllDoneAsWritten(results: map<ProviderId, int>, actives: seq<bool>)
  {
    |results.Keys| == ActiveCount(actives)
  }

  /** The evidently intended test: every provider active now has reported for the current token. */
  predicate AllActiveReported(results: map<ProviderId, int>, actives: seq<bool>)
  {
    forall p :: 0 <= p < |actives| && actives[p] ==> p in results
  }

  predicate AllDone(results: map<ProviderId, int>, actives: seq<bool>, corrected: bool)
  {
    if corrected then AllActiveReported(results, actives) else AllDoneAsWritten(results, actives)
  }

  /**
   * The recording half of `onDiscoveryCompleted`: a completion for the
   * current token records its count; once everything is in, loading is
   * cleared and the search summary follows any loading notice.
   */
  function RecordCompletion(c: Ctl, p: ProviderId, query: String, token: int, count: int,
                            actives: seq<bool>, corrected: bool): (r: (Ctl, seq<Notice>))
    ensures token != c.token ==> r == (c, [])
    ensures token == c.token ==> r.0.results == c.results[p := count]
    ensures r.0 == c.(results := r.0.results, loading := r.0.loading)
    ensures token == c.token && AllDone(r.0.results, actives, corrected) ==>
              !r.0.loading && |r.1| > 0 && r.1[|r.1| - 1] == SearchResults(query, r.0.results)
    ensures !(token == c.token && AllDone(r.0.results, actives, corrected)) ==> r.0.loading == c.loading && r.1 == []
  {
    if token == c.token then
      var m := c.results[p := count];
      if AllDone(m, actives, corrected) then
        var s := SetLoading(c.(results := m), false);
        (s.ctl, s.notices + [SearchResults(query, m)])
      else (c.(results := m), [])
    else (c, [])
  }

  /**
   * `onDiscoveryCompleted`: a completion for the current token records the
   * result count (-1 without results) and, once everything is in, clears
   * loading and emits the summary; whatever the token, the results (or else
   * the error) are forwarded to the host, and a completion with neither
   * throws IllegalArgumentException after the recording.
   */
  function OnCompleted<T>(c: Ctl, p: ProviderId, query: String, token: int, results: Option<seq<T>>,
                          error: Option<JavaException>, actives: seq<bool>, corrected: bool): (r: Step<T>)
    ensures r.commands == []
    ensures token != c.token ==> r.ctl == c
    ensures token == c.token ==> r.ctl.results == c.results[p := if results.Some? then |results.value| else -1]
    ensures r.ctl == c.(results := r.ctl.results, loading := r.ctl.loading)
    ensures token == c.token && AllDone(r.ctl.results, actives, corrected) ==> !r.ctl.loading
    ensures !(token == c.token && AllDone(r.ctl.results, actives, corrected)) ==> r.ctl.loading == c.loading
    ensures results.Some? ==> r.thrown == None && |r.host| > 0 && r.host[|r.host| - 1] == ProviderResults(p, query, results.value)
    ensures results.None? && error.Some? ==> r.thrown == None && |r.host| > 0 && r.host[|r.host| - 1] == Notify(ProviderError(p, query, error.value))
    ensures results.None? && error.None? ==> r.thrown == Some(IllegalArgument)
  {
    var rec := RecordCompletion(c, p, query, token, if results.Some? then |results.value| else -1, actives, corrected);
    Step(rec.0, Forward(rec.1, p, query, results, error), [], if results.None? && error.None? then Some(IllegalArgument) else None)
  }

  /** The host side of `onDiscoveryCompleted`: the recording's notices, then the results or else the error. */
  function Forward<T>(notices: seq<Notice>, p: ProviderId, query: String, results: Option<seq<T>>,
                      error: Option<JavaException>): (h: seq<HostEvent<T>>)
    ensures |h| >= |notices| && forall k :: 0 <= k < |notices| ==> h[k] == Notify(notices[k])
    ensures results.Some? ==> |h| > 0 && h[|h| - 1] == ProviderResults(p, query, results.value)
    ensures results.None? && error.Some? ==> |h| > 0 && h[|h| - 1] == Notify(ProviderError(p, query, error.value))
    ensures results.None? && error.None? ==> |h| == |notices|
  {
    var n := Notified<T>([], notices);
    if results.Some? then n + [ProviderResults(p, query, results.value)]
    else if error.Some? then n + [Notify(ProviderError(p, query, error.value))]
    else n
  }

  /**
   * The controller's IDiscoveryProviderCallback: one call from provider
   * `e.provider`.
   */
  function OnCall<T>(c: Ctl, e: Event<T>, actives: seq<bool>, corrected: bool): (r: Step<T>)
    requires e.provider < |actives|
    ensures r.ctl.query == c.query && r.ctl.token == c.token && r.ctl.confirmed == c.confirmed
    ensures r.ctl.source == c.source && r.ctl.pending == c.pending
    ensures forall k :: 0 <= k < |r.commands| ==>
              (r.commands[k].StartDiscovery? && r.commands[k].provider == e.provider) || r.commands[k].PostExactMatch?
    ensures e.call.DiscoveryStarted? || e.call.DiscoveryCompleted? ==> r.commands == []
  {
    var p := e.provider;
    match e.call
    case RequestDiscovery(update) =>
      if update.None? || update.value == c.query then
        Step(c, [], if actives[p] then [StartDiscovery(p, c.query, c.token, c.confirmed)] else [], None)
      else Step(c, [Notify(KeyboardHidden), Notify(QueryUpdateRequested(update.value))], [], None)
    case DiscoveryStarted(_, _) =>
      var s := SetLoading(c, true);
      Step(s.ctl, Notified([], s.notices), s.commands, None)
    case DiscoveryCompleted(q, t, results, error) => OnCompleted(c, p, q, t, results, error, actives, corrected)
    case ExactMatch(q, t) =>
      if t == c.token then
        var m := c.exactMatches + {p};
        Step(c.(exactMatches := m), [], [PostExactMatch(q, t, m)], None)
      else Step(c, [], [], None)
    case ResultClick(q, _, item) => Step(c, [ResultClicked(p, q, item)], [], None)
  }

  /**
   * `onRequestPermissionsResult`: for the controller's own request code with
   * a non-empty permission list, every provider that requires permissions
   * hears the results, in loader order.
   */
  function PermissionCommands(requestCode: int, permissionsCount: int, requires_: seq<bool>): (r: seq<Command>)
    ensures requestCode != ID_REQUEST_PERMISSIONS || permissionsCount <= 0 ==> r == []
    ensures requestCode == ID_REQUEST_PERMISSIONS && permissionsCount > 0 ==>
              |r| == ActiveCount(requires_)
              && (forall k :: 0 <= k < |r| ==> r[k].PermissionResults? && r[k].provider in ActiveSet(requires_))
  {
    if requestCode == ID_REQUEST_PERMISSIONS && permissionsCount > 0 then
      ActiveIdsLength(requires_);
      var ids := ActiveIds(requires_);
      seq(|ids|, k requires 0 <= k < |ids| => PermissionResults(ids[k]))
    else []
  }

  // ---------------------------------------------------------------- properties

  /** Every started event sets loading, stale or not, and notifies only when loading was off. */
  lemma StartedSetsLoading<T>(c: Ctl, e: Event<T>, actives: seq<bool>, corrected: bool)
    requires e.provider < |actives| && e.call.DiscoveryStarted?
    ensures var r := OnCall(c, e, actives, corrected);
            r.ctl.loading && (r.host == [Notify(LoadingChanged(true))] <==> !c.loading) && (c.loading ==> r.host == [])
  {
  }

  /**
   * A stale completion (another token) leaves the controller's state alone,
   * yet the host still receives the results or the error.
   */
  lemma StaleCompletionForwardedNotRecorded<T>(c: Ctl, p: ProviderId, q: String, t: int, results: Option<seq<T>>,
                                               error: Option<JavaException>, actives: seq<bool>, corrected: bool)
    requires t != c.token && (results.Some? || error.Some?)
    ensures var r := OnCompleted(c, p, q, t, results, error, actives, corrected);
            r.ctl == c && r.thrown == None
            && r.host == [if results.Some? then ProviderResults(p, q, results.value) else Notify(ProviderError(p, q, error.value))]
  {
  }

  /**
   * An exact match for the current token adds the reporter and posts a
   * snapshot of the accumulated set; any other token changes nothing.
   */
  lemma ExactMatchSnapshot<T>(c: Ctl, e: Event<T>, actives: seq<bool>, corrected: bool)
    requires e.provider < |actives| && e.call.ExactMatch?
    ensures var r := OnCall(c, e, actives, corrected);
            var (p, q, t) := (e.provider, e.call.query, e.call.token);
            && (t == c.token ==> r.ctl == c.(exactMatches := c.exactMatches + {p})
                                 && r.commands == [PostExactMatch(q, t, c.exactMatches + {p})])
            && (t != c.token ==> r == Step(c, [], [], None))
  {
  }

  /**
   * A discovery request restarts only the requesting provider, and only
   * when it asks for the current query (or none) and is active; another
   * query goes to the host instead.  No token is created either way.
   */
  lemma RequestDiscoveryRestartsOnlyRequester<T>(c: Ctl, e: Event<T>, actives: seq<bool>, corrected: bool)
    requires e.provider < |actives| && e.call.RequestDiscovery?
    ensures var r := OnCall(c, e, actives, corrected);
            var (p, update) := (e.provider, e.call.queryUpdate);
            && r.ctl == c
            && ((update.None? || update.value == c.query) ==>
                  r.host == [] && r.commands == (if actives[p] then [StartDiscovery(p, c.query, c.token, c.confirmed)] else []))
            && (update.Some? && update.value != c.query ==>
                  r.commands == [] && r.host == [Notify(KeyboardHidden), Notify(QueryUpdateRequested(update.value))])
  {
  }

  lemma {:induction false} SubsetCardinality(a: set<ProviderId>, b: set<ProviderId>)
    requires a <= b
    ensures |a| <= |b|
  {
    if a != {} {
      assert exists x :: x in a;
      var x :| x in a;
      SubsetCardinality(a - {x}, b - {x});
    }
  }

  lemma SubsetSameCardinality(a: set<ProviderId>, b: set<ProviderId>)
    requires a <= b && |a| == |b|
    ensures a == b
  {
    if a != b {
      assert exists x :: x in b && x !in a;
      var x :| x in b && x !in a;
      SubsetCardinality(a, b - {x});
    }
  }

  /**
   * The two "all done" tests agree as long as every recorded provider is
   * still active: the count comparison is then a set equality.
   */
  lemma AllDoneAgreesWhileRecordedAreActive(results: map<ProviderId, int>, actives: seq<bool>)
    requires forall p :: p in results ==> p in ActiveSet(actives)
    ensures AllDoneAsWritten(results, actives) <==> AllActiveReported(results, actives)
  {
    ActiveCountIsCardinality(actives);
    assert results.Keys <= ActiveSet(actives);
    if AllDoneAsWritten(results, actives) {
      SubsetSameCardinality(results.Keys, ActiveSet(actives));
    }
    if AllActiveReported(results, actives) {
      assert results.Keys == ActiveSet(actives);
    }
  }

  /**
   * As written, loading can stay on after every active provider has
   * reported: two providers, the first reports, is then deactivated, and
   * the second's report makes two recorded against one active.
   */
  lemma LoadingStuckAsWritten<T>(c: Ctl, q: String, list: seq<T>)
    requires c.results == map[] && c.loading
    ensures var first := OnCompleted(c, 0, q, c.token, Some(list), None, [true, true], false);
            var second := OnCompleted(first.ctl, 1, q, c.token, Some(list), None, [false, true], false);
            && first.ctl.loading
            && AllActiveReported(second.ctl.results, [false, true])
            && second.ctl.loading
  {
    assert [true, true][..1] == [true] && [false, true][..1] == [false];
    assert ActiveCount([true, true]) == 2 && ActiveCount([false, true]) == 1;
    var m1 := map[0 := |list|];
    assert m1.Keys == {0};
    CurrentCompletionKeepsLoading(c, 0, q, list, [true, true]);
    var first := OnCompleted(c, 0, q, c.token, Some(list), None, [true, true], false);
    assert first.ctl.results == m1;
    var m2 := m1[1 := |list|];
    assert m2.Keys == {0, 1};
    CurrentCompletionKeepsLoading(first.ctl, 1, q, list, [false, true]);
  }

  /** A current-token completion that does not finish the as-written test records its count and leaves loading alone. */
  lemma CurrentCompletionKeepsLoading<T>(c: Ctl, p: ProviderId, q: String, list: seq<T>, actives: seq<bool>)
    requires !AllDoneAsWritten(c.results[p := |list|], actives)
    ensures var r := OnCompleted(c, p, q, c.token, Some(list), None, actives, false);
            r.ctl.results == c.results[p := |list|] && r.ctl.loading == c.loading && r.ctl.token == c.token
  {
  }

  /**
   * With the intended test, a current-token completion that leaves every
   * active provider reported always turns loading off and emits the summary.
   */
  lemma LoadingClearsWhenAllReported<T>(c: Ctl, p: ProviderId, q: String, results: Option<seq<T>>,
                                        error: Option<JavaException>, actives: seq<bool>)
    ensures var r := OnCompleted(c, p, q, c.token, results, error, actives, true);
            AllActiveReported(r.ctl.results, actives) ==> !r.ctl.loading && Notify(SearchResults(q, r.ctl.results)) in r.host
  {
    var rec := RecordCompletion(c, p, q, c.token, if results.Some? then |results.value| else -1, actives, true);
    var r := OnCompleted(c, p, q, c.token, results, error, actives, true);
    if AllActiveReported(r.ctl.results, actives) {
      assert r.host[|rec.1| - 1] == Notify(SearchResults(q, r.ctl.results));
    }
  }
}
