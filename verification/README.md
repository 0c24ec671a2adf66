# Branch universal search SDK: a Dafny model of the search pipeline

This project models the core of the Branch Android universal-search SDK
(`branchuisdk`): the search controller, the discovery providers that answer
it, and the helpers those providers rely on. Everything is written as
immutable records and pure transition functions.

- **Controller** (`BranchSearchController`). The search controller is a
  state machine over:
  - the current query text, its token, the confirmed flag and the query source;
  - one pending debounced dispatch;
  - the exact-match set and the per-token completion counts;
  - the loading flag and the host notifications.

  It is driven by text changes, editor actions, `setActive`, permission
  results, and the calls providers make through `IDiscoveryProviderCallback`.
- **Providers** (`DiscoveryProvider`). Each provider has:
  - a query-validity gate;
  - a single-flight task slot (`DiscoveryTaskManager` over `AsyncTaskManager`);
  - the view-model cells (`DiscoveryViewModel`);
  - section recycling;
  - the adapter's position arithmetic (`DiscoveryAdapter`).

  Each concrete provider adds its own validity rule and result filter: apps,
  contacts, media, all apps, shortcuts, suggested lists, auto-complete and
  in-app search.
- **System** (module `System`). This module composes the controller with
  its providers. The Handler timer, the worker threads and the posted
  exact-match broadcast become explicit steps: the timer fires, a worker
  delivers results or an error, a posted broadcast runs.
- **Helpers.** Around the pipeline sit:
  - Java string semantics: case mapping, `split`, `trim`, `indexOf`, `hashCode` with 32-bit wrap-around;
  - the word matcher and the query metadata spans;
  - the model records and their Parcel encodings;
  - the top-apps and top-contacts generators, reconciling the device with a keyed store;
  - the item decorations, the column arithmetic, the colour palette and the location finder singleton.

Every operation keeps the source's branches, edge cases, constants and
exceptions, except where "Left out" says otherwise. Exceptions are values (`Outcome.Thrown`). Absent Java
references are `Option.None`. External inputs are parameters: cursor rows,
package lists, SDK responses, the granted permissions and resource lookups.

Where the source is evidently wrong, the model keeps two definitions side by
side:

- the code as written, with a lemma exhibiting the defect;
- the corrected definition, with the intended property proved about it.

The rest of the model uses the corrected definition (see "Findings").

## Model

| member | source | states |
|---|---|---|
| JavaText.ToLower | branchuisdk/src/main/java/io/branch/search/widget/BranchSearchController.java:340 | `toLowerCase` keeps the length and lower-cases each character independently |
| JavaText.ToUpper | branchuisdk/src/main/java/io/branch/search/widget/model/Contact.java:82 | `toUpperCase` keeps the length and upper-cases each character independently |
| JavaText.EqualsIgnoreCaseIsLowerEquality | branchuisdk/src/main/java/io/branch/search/widget/provider/AppsProvider.java:48 | `equalsIgnoreCase` holds exactly when the lower-cased strings are equal |
| JavaText.RegionMatchesWholeIsEquals | branchuisdk/src/main/java/io/branch/search/widget/util/WordMatcher.java:217-220 | a case-insensitive region match at offset 0 of a whole equal-length string is `equalsIgnoreCase` |
| JavaText.IndexOf | branchuisdk/src/main/java/io/branch/search/widget/ui/AutoCompleteViewHolder.java:38 | `indexOf` is the first position where the substring occurs, and -1 exactly when it occurs nowhere |
| JavaText.LastIndexOfChar | branchuisdk/src/main/java/io/branch/search/widget/provider/MediaProvider.java:111 | `lastIndexOf` is a position holding the character with none after it, or -1 |
| JavaText.LexLessOrder | branchuisdk/src/main/java/io/branch/search/widget/provider/AllAppsProvider.java:74-75 | `compareTo` is irreflexive, total on distinct strings, asymmetric and transitive |
| JavaText.TrimEmptyIffBlank | branchuisdk/src/main/java/io/branch/search/widget/model/Contact.java:87 | `trim().length() > 0` fails exactly when every character is at most a space |
| JavaText.SplitSpace | branchuisdk/src/main/java/io/branch/search/widget/model/Contact.java:51 | `split(" ")` gives the text itself when it has no space; otherwise space-free pieces in order, trailing empty pieces dropped |
| JavaText.SplitJoinWords | branchuisdk/src/main/java/io/branch/search/widget/model/Contact.java:51 | space-free words joined by single spaces split back into the same words |
| JavaText.JavaAbs | branchuisdk/src/main/java/io/branch/search/widget/ui/color/PaletteColorPicker.java:33 | `Math.abs` is the magnitude, except that MIN_VALUE stays negative |
| JavaText.JavaRem | branchuisdk/src/main/java/io/branch/search/widget/ui/color/PaletteColorPicker.java:33 | `%` takes the sign of the dividend and is smaller in magnitude than the divisor |
| JavaText.StringHashIsWrappedPolyHash | branchuisdk/src/main/java/io/branch/search/widget/model/App.java:52 | `hashCode` computed in 32-bit steps equals the exact polynomial hash wrapped once to 32 bits |
| QueryMetadata.FirstWithKey | branchuisdk/src/main/java/io/branch/search/widget/query/BranchQueryMetadata.java:65-67 | the value read is the first span of the key in insertion order, and there is none exactly when no span has the key |
| QueryMetadata.Clear | branchuisdk/src/main/java/io/branch/search/widget/query/BranchQueryMetadata.java:38-45 | a spannable text loses every span of the key and keeps all others; a text that is not spannable is untouched |
| QueryMetadata.Get | branchuisdk/src/main/java/io/branch/search/widget/query/BranchQueryMetadata.java:63-71 | only a spanned text yields a value, and it has the requested key |
| QueryMetadata.SetAsWritten | branchuisdk/src/main/java/io/branch/search/widget/query/BranchQueryMetadata.java:48-60 | the result is spannable, has the input's characters and ends with the new span over the whole text |
| QueryMetadata.Set | branchuisdk/src/main/java/io/branch/search/widget/query/BranchQueryMetadata.java:48-60 | corrected `set`: `get` reads the new value back, every span of the key is the new one, and spans of other keys survive |
| QueryMetadata.SetAsWrittenAgreesOnSpannableOrPlain | branchuisdk/src/main/java/io/branch/search/widget/query/BranchQueryMetadata.java:52-58 | on a spannable or plain-string input the code as written reads the new value back and equals the corrected `set` |
| QueryMetadata.SetAsWrittenLosesNewValue | branchuisdk/src/main/java/io/branch/search/widget/query/BranchQueryMetadata.java:56 | a spanned, non-spannable text holding a voice source still reads voice after `set` to keyboard |
| QueryMetadata.SetLeavesOneValuePerKey | branchuisdk/src/main/java/io/branch/search/widget/query/BranchQueryMetadata.java:52-58 | on a spannable text only the last span carries the key after `set` |
| QueryMetadata.SourceOf | branchuisdk/src/main/java/io/branch/search/widget/BranchSearchController.java:339 | the controller's source is the value `get` finds under the source key, or none |
| AsyncTaskManager.Abort | branchuisdk/src/main/java/io/branch/search/widget/task/AndroidAsyncTask.java:85-86 | `abort` requests cancellation of a worker task, does nothing to a no-op task, and never changes a completion |
| AsyncTaskManager.Execute | branchuisdk/src/main/java/io/branch/search/widget/task/AsyncTaskManager.java:46-93 | the new task is appended and held, the previously held task (only it) is aborted, and all other tasks are unchanged; a null action makes a no-op task already completed with null, any other action a pending worker task |
| AsyncTaskManager.Deliver | branchuisdk/src/main/java/io/branch/search/widget/task/AsyncTaskManager.java:52-63 | `trySetResult` / `trySetException` complete a task only while it is pending, and the listeners run exactly then |
| AsyncTaskManager.ExecuteAbortsExactlyThePrevious | branchuisdk/src/main/java/io/branch/search/widget/task/AsyncTaskManager.java:48-50 | each `execute` adds one abort call to the previously held task and none to any other |
| AsyncTaskManager.AbortNoOpIsHarmless | branchuisdk/src/main/java/io/branch/search/widget/task/AsyncTaskManager.java:91-92 | aborting a no-op task any number of times leaves it as it was |
| AsyncTaskManager.CompletesAtMostOnce | branchuisdk/src/main/java/io/branch/search/widget/task/AsyncTaskManager.java:55-62 | the first report completes the task and fires; a second report neither fires nor changes the outcome |
| AsyncTaskManager.AbortedWorkerStillDelivers | branchuisdk/src/main/java/io/branch/search/widget/task/AndroidAsyncTask.java:85-86 | a worker replaced by a later `execute` is marked cancelled, yet its report still completes its task |
| DiscoveryTaskManager.CreateIsIdle | branchuisdk/src/main/java/io/branch/search/widget/task/DiscoveryTaskManager.java:31-36 | a new manager belongs to its provider, keeps whether it has a callback, and holds no task |
| DiscoveryTaskManager.Execute | branchuisdk/src/main/java/io/branch/search/widget/task/DiscoveryTaskManager.java:47-71 | with a callback the start is reported first; a worker task is executed and remembers (query, token) for its listeners |
| DiscoveryTaskManager.Abort | branchuisdk/src/main/java/io/branch/search/widget/task/DiscoveryTaskManager.java:77-83 | the no-op task replaces the held one without listeners; a cancellation completion is reported only with a callback and a non-null query; never a start |
| DiscoveryTaskManager.Deliver | branchuisdk/src/main/java/io/branch/search/widget/task/DiscoveryTaskManager.java:54-70 | the completion is reported only for a pending task that has listeners, with that task's own query and token |
| DiscoveryTaskManager.CompletionCallShape | branchuisdk/src/main/java/io/branch/search/widget/task/DiscoveryTaskManager.java:56-69 | success reports the results with a null error; failure reports the error with null results |
| DiscoveryTaskManager.NoCallbackIsSilent | branchuisdk/src/main/java/io/branch/search/widget/task/DiscoveryTaskManager.java:52-81 | without a callback none of execute, abort or delivery reports anything |
| DiscoveryTaskManager.CompletionKeepsExecuteArguments | branchuisdk/src/main/java/io/branch/search/widget/task/DiscoveryTaskManager.java:48-70 | a task's completion carries the query and token given to its `execute`, even after a later `execute` replaced it |
| ViewModel.SetItems | branchuisdk/src/main/java/io/branch/search/widget/provider/DiscoveryViewModel.java:49-60 | the completed query, completed token and items become the given ones; the current query and token are untouched |
| ViewModel.Clear | branchuisdk/src/main/java/io/branch/search/widget/provider/DiscoveryViewModel.java:66-69 | `clear` leaves empty items, completed query "" and completed token -1, and does not touch the current cells |
| ViewModel.SetCurrentQuery | branchuisdk/src/main/java/io/branch/search/widget/provider/DiscoveryViewModel.java:76-84 | only the current query and token change |
| ViewModel.CreateIsCleared | branchuisdk/src/main/java/io/branch/search/widget/provider/DiscoveryViewModel.java:29-32 | a new view model reads empty items, "" and -1 for both the completed and the current query and token |
| ViewModel.ClearIdempotent | branchuisdk/src/main/java/io/branch/search/widget/provider/DiscoveryViewModel.java:66-69 | clearing twice is clearing once |
| ViewModel.SetItemsAndSetCurrentQueryCommute | branchuisdk/src/main/java/io/branch/search/widget/provider/DiscoveryViewModel.java:49-84 | setting results and setting the current query touch disjoint cells, so their order does not matter |
| WordMatcher.SplitOffset | branchuisdk/src/main/java/io/branch/search/widget/util/WordMatcher.java:43-46 | every splitter puts the next word either at the split character or right after it |
| WordMatcher.FindAfter | branchuisdk/src/main/java/io/branch/search/widget/util/WordMatcher.java:191-213 | after position 0 fails, the scan returns the least word start from a split position at or after `from` where the query matches, and -1 exactly when none does |
| WordMatcher.Find | branchuisdk/src/main/java/io/branch/search/widget/util/WordMatcher.java:183-204 | `find` returns -1 or a position where the query region-matches ignoring case |
| WordMatcher.FindIsLeastMatchingWordStart | branchuisdk/src/main/java/io/branch/search/widget/util/WordMatcher.java:183-204 | `find` returns a word start, the least word start where the query matches, and -1 exactly when the query matches at no word start |
| WordMatcher.ContainsIgnoreCase | branchuisdk/src/main/java/io/branch/search/widget/util/WordMatcher.java:225-233 | `containsIgnoreCase` holds exactly when the match region-matches at some offset |
| WordMatcher.FirstFinder | branchuisdk/src/main/java/io/branch/search/widget/util/WordMatcher.java:144-148 | splitters are tried in order: every splitter before the chosen one finds nothing, and the chosen one finds a position |
| WordMatcher.DefaultMatcher | branchuisdk/src/main/java/io/branch/search/widget/util/WordMatcher.java:133-135 | the no-argument matcher uses only the whitespace splitter |
| WordMatcher.Matches | branchuisdk/src/main/java/io/branch/search/widget/util/WordMatcher.java:140-150 | `matches` holds exactly when text and query are non-empty and some splitter's `find` succeeds; then the text contains the query |
| WordMatcher.Decorate | branchuisdk/src/main/java/io/branch/search/widget/util/WordMatcher.java:156-173 | a span is set exactly when `matches` holds; it covers the query's length at the position the first succeeding splitter finds |
| WordMatcher.SpaceMatcherCharacterization | branchuisdk/src/main/java/io/branch/search/widget/util/WordMatcher.java:8-21 | with the whitespace splitter the query matches exactly when it is a case-insensitive prefix of the text or of the text after some whitespace |
| WordMatcher.NonLowerCaseCandidates | branchuisdk/src/main/java/io/branch/search/widget/util/WordMatcher.java:114-125 | the non-lowercase splitter's word starts are 0, every non-lowercase letter or digit, and the position after every other non-lowercase character |
| WordMatcher.EmptyNeverMatches | branchuisdk/src/main/java/io/branch/search/widget/util/WordMatcher.java:141 | an empty text or query neither matches nor gets a span |
| WordMatcher.JohnMatchesJoh | branchuisdk/src/main/java/io/branch/search/widget/util/WordMatcher.java:15 | "joh" matches "John Mark Smith" |
| WordMatcher.JohnMatchesSmit | branchuisdk/src/main/java/io/branch/search/widget/util/WordMatcher.java:17 | "smit" matches "John Mark Smith" |
| WordMatcher.JohnMatchesJohnMa | branchuisdk/src/main/java/io/branch/search/widget/util/WordMatcher.java:18 | "john ma" matches "John Mark Smith" |
| WordMatcher.JohnMatchesMarkSm | branchuisdk/src/main/java/io/branch/search/widget/util/WordMatcher.java:19 | "mark sm" matches "John Mark Smith" |
| WordMatcher.JohnMatchesJohnMarkSm | branchuisdk/src/main/java/io/branch/search/widget/util/WordMatcher.java:20 | "john mark sm" matches "John Mark Smith" |
| WordMatcher.JohnDoesNotMatchOhn | branchuisdk/src/main/java/io/branch/search/widget/util/WordMatcher.java:16 | "ohn" does not match "John Mark Smith" |
| Controller.SetCurrentQuery | branchuisdk/src/main/java/io/branch/search/widget/BranchSearchController.java:283-289 | a new query takes the next token and its source, and empties the exact-match set and the result counts; nothing else changes |
| Controller.Create | branchuisdk/src/main/java/io/branch/search/widget/BranchSearchController.java:54-64 | a new controller is at token 1 with the empty query, no source, nothing armed, not loading, unconfirmed and with no results |
| Controller.ActiveIds | branchuisdk/src/main/java/io/branch/search/widget/BranchSearchController.java:308-314 | the providers visited are exactly the active ones, in increasing loader order |
| Controller.ActiveCountIsCardinality | branchuisdk/src/main/java/io/branch/search/widget/BranchSearchController.java:393-399 | `getActiveProvidersCount` equals the number of distinct active providers |
| Controller.StartAll | branchuisdk/src/main/java/io/branch/search/widget/BranchSearchController.java:308-314 | one start per visited provider, each with the same query, token and confirmed flag |
| Controller.SourceValue | branchuisdk/src/main/java/io/branch/search/widget/BranchSearchController.java:297-302 | the analytics source is voice exactly for a voice query and auto-suggest exactly for an auto-complete query, and keyboard otherwise |
| Controller.DispatchNow | branchuisdk/src/main/java/io/branch/search/widget/BranchSearchController.java:296-314 | an immediate dispatch disarms the timer, records the confirmed flag, logs one search event and starts the active providers in order |
| Controller.DispatchStartsExactlyTheActive | branchuisdk/src/main/java/io/branch/search/widget/BranchSearchController.java:308-314 | each active provider is started exactly once and no inactive one, in increasing order, all with the current query, token and flag |
| Controller.Dispatch | branchuisdk/src/main/java/io/branch/search/widget/BranchSearchController.java:294-319 | delay 0 dispatches at once; any other delay only re-arms the single pending dispatch with the flag |
| Controller.OnTextChanged | branchuisdk/src/main/java/io/branch/search/widget/BranchSearchController.java:338-342 | the lower-cased text becomes the query under a new token with the source read from its metadata; the search is only armed, unconfirmed |
| Controller.OnEditorAction | branchuisdk/src/main/java/io/branch/search/widget/BranchSearchController.java:350-361 | DONE and SEARCH hide the keyboard, take a new token for the same query from the keyboard and dispatch at once, confirmed; other actions are not handled and change nothing |
| Controller.TimerFires | branchuisdk/src/main/java/io/branch/search/widget/BranchSearchController.java:324-330 | the armed runnable dispatches immediately with the flag it was armed with |
| Controller.SetActiveCommands | branchuisdk/src/main/java/io/branch/search/widget/BranchSearchController.java:371-387 | the commands come in loader order, each restart right after the flip of the same provider; every flip is of a matching provider whose flag differs, and a restart comes only with activation and carries the current query, token and confirmed flag |
| Controller.SetActiveCommandsComplete | branchuisdk/src/main/java/io/branch/search/widget/BranchSearchController.java:374-385 | no matching provider whose flag differs is missed: each is flipped, and restarted when activated |
| Controller.FlipCommandsShape | branchuisdk/src/main/java/io/branch/search/widget/BranchSearchController.java:378-383 | one provider's commands are its flip followed, only when activating, by its restart with the current query |
| Controller.SetLoading | branchuisdk/src/main/java/io/branch/search/widget/BranchSearchController.java:401-408 | observers hear a loading change only when the value actually changes |
| Controller.OnCompleted | branchuisdk/src/main/java/io/branch/search/widget/BranchSearchController.java:448-491 | only a current-token completion records its count (-1 without results) and may clear loading; results, else the error, always reach the host; neither throws after the recording |
| Controller.RecordCompletion | branchuisdk/src/main/java/io/branch/search/widget/BranchSearchController.java:455-477 | a stale token changes nothing; a current one records the count for the provider, and once everything is in, loading is off and the last notice is the search summary over the recorded counts; otherwise loading is untouched and nothing is announced |
| Controller.Forward | branchuisdk/src/main/java/io/branch/search/widget/BranchSearchController.java:480-490 | the recording's notices reach the host first, in order, followed by the results, or else the error; with neither, only the notices |
| Controller.OnCall | branchuisdk/src/main/java/io/branch/search/widget/BranchSearchController.java:413-522 | no provider callback changes the query, token, flag, source or armed dispatch; the only restarts are of the calling provider, and start or completion calls restart nothing |
| Controller.PermissionCommands | branchuisdk/src/main/java/io/branch/search/widget/BranchSearchController.java:258-276 | only the controller's request code with a non-empty permission list forwards results, and then to each provider that requires permissions |
| Controller.StartedSetsLoading | branchuisdk/src/main/java/io/branch/search/widget/BranchSearchController.java:440-445 | every start, stale or not, turns loading on and notifies only if it was off |
| Controller.StaleCompletionForwardedNotRecorded | branchuisdk/src/main/java/io/branch/search/widget/BranchSearchController.java:456-490 | a completion for another token leaves the controller alone but still forwards its results or error |
| Controller.ExactMatchSnapshot | branchuisdk/src/main/java/io/branch/search/widget/BranchSearchController.java:493-511 | an exact match for the current token adds the reporter and posts a copy of the set; for another token nothing happens |
| Controller.RequestDiscoveryRestartsOnlyRequester | branchuisdk/src/main/java/io/branch/search/widget/BranchSearchController.java:415-438 | a request for the current query (or none) restarts only the requester, if active; another query goes to the host with the keyboard hidden; no new token either way |
| Controller.AllDoneAgreesWhileRecordedAreActive | branchuisdk/src/main/java/io/branch/search/widget/BranchSearchController.java:458 | while every recorded provider is still active, comparing the result count with the active count is the same as "every active provider reported" |
| Controller.LoadingStuckAsWritten | branchuisdk/src/main/java/io/branch/search/widget/BranchSearchController.java:458 | a provider that reports and is then deactivated makes the count exceed the active count, so loading stays on after everyone active has reported |
| Controller.LoadingClearsWhenAllReported | branchuisdk/src/main/java/io/branch/search/widget/BranchSearchController.java:456-477 | with the corrected test, a current completion that leaves every active provider reported clears loading and emits the summary |
| Provider.RequiredPermissions | branchuisdk/src/main/java/io/branch/search/widget/provider/BaseBranchProvider.java:31-33 | Branch-backed kinds need fine location; the app, all-apps, suggested-apps and shortcut kinds need nothing |
| Provider.CreateIsActiveAndCleared | branchuisdk/src/main/java/io/branch/search/widget/provider/DiscoveryProvider.java:80-104 | after `initialize` and `onCreate` a provider is active with a cleared view model: empty items, "" and -1 |
| Provider.CheckQuery | branchuisdk/src/main/java/io/branch/search/widget/provider/AutoCompleteProvider.java:61-80 | checking a query changes no state except for the autocomplete provider, and never touches the task manager, permissions or view |
| Provider.ValidityRules | branchuisdk/src/main/java/io/branch/search/widget/provider/DiscoveryProvider.java:394-396 | per kind: permissions and a non-empty query; media also 2+ characters; all apps always; suggestions only the empty query; in-app 3+ characters; autocomplete 2+ characters, unconfirmed and not the clicked suggestion |
| Provider.AutoCompleteRecordsCurrent | branchuisdk/src/main/java/io/branch/search/widget/provider/AutoCompleteProvider.java:73-76 | the autocomplete provider records every checked query and token as current, valid or not |
| Provider.ClickedQueryRejectedOnce | branchuisdk/src/main/java/io/branch/search/widget/provider/AutoCompleteProvider.java:63-72 | the clicked suggestion's query is refused once and the click is forgotten, so the next check depends only on length and confirmation |
| Provider.ShowView | branchuisdk/src/main/java/io/branch/search/widget/provider/DiscoveryProvider.java:484-501 | the view becomes visible exactly when the provider is active and, if checking, the query is current; otherwise nothing changes |
| Provider.Hidden | branchuisdk/src/main/java/io/branch/search/widget/provider/AutoCompleteProvider.java:82-90 | hiding never leaves a view fully visible; only an autocomplete provider on a clicked suggestion whose view is not gone keeps its search engines, any other view (including an autocomplete view already gone) becomes gone |
| Provider.HideView | branchuisdk/src/main/java/io/branch/search/widget/provider/DiscoveryProvider.java:510-527 | under the same guard as `showView` the view is hidden: it keeps only its search engines exactly for a clicked autocomplete query on a view not already gone, and is gone otherwise; outside the guard nothing changes |
| Provider.HideViewKeepsGone | branchuisdk/src/main/java/io/branch/search/widget/provider/AutoCompleteProvider.java:82-90 | a view that is already gone stays gone whatever provider hides it |
| Provider.ClickedQueryHidesResultsOnly | branchuisdk/src/main/java/io/branch/search/widget/provider/AutoCompleteProvider.java:63-90 | re-running the clicked suggestion is an invalid query that consumes the click; the view is never left fully visible, and it is gone afterwards exactly when it was gone before |
| Provider.Observe | branchuisdk/src/main/java/io/branch/search/widget/provider/DiscoveryProvider.java:215-230 | empty items are always applied with the completed query; other items only when the completed query is the current one |
| Provider.StartDiscovery | branchuisdk/src/main/java/io/branch/search/widget/provider/DiscoveryProvider.java:405-474 | the valid path sets the current query and token, executes a task and reports a start; the invalid path clears the results, aborts with a cancellation for the same query and token, and hides the view |
| Provider.Deliver | branchuisdk/src/main/java/io/branch/search/widget/provider/DiscoveryProvider.java:430-446 | the controller hears the task manager's completion first; a report that fires nothing leaves the view model and the applied results alone |
| Provider.StaleResultsNotApplied | branchuisdk/src/main/java/io/branch/search/widget/provider/DiscoveryProvider.java:218-228 | non-empty results for a query that is no longer current are stored but neither applied nor shown |
| Provider.FailureClearsItems | branchuisdk/src/main/java/io/branch/search/widget/provider/DiscoveryProvider.java:440-446 | a failed task stores and applies empty items for its own query and token and reports the error |
| Provider.OnExactMatch | branchuisdk/src/main/java/io/branch/search/widget/provider/AutoCompleteProvider.java:100-108 | only the autocomplete provider reacts, and only when it did not report the match itself: it aborts with a cancellation for that query and token |
| Provider.SetActive | branchuisdk/src/main/java/io/branch/search/widget/provider/DiscoveryProvider.java:352-358 | the flag is set and only the visibility changes with it |
| Provider.OnItemClick | branchuisdk/src/main/java/io/branch/search/widget/provider/DiscoveryProvider.java:576-582 | the click is reported with the completed query and token; autocomplete then remembers the suggestion and requests a discovery for its name |
| Provider.OnPermissionResults | branchuisdk/src/main/java/io/branch/search/widget/provider/DiscoveryProvider.java:332-336 | a kind that needs any permission asks for a fresh discovery; others stay silent |
| Provider.AdapterSpec | branchuisdk/src/main/java/io/branch/search/widget/provider/SimpleDiscoveryProvider.java:69-88 | contacts, suggested contacts and shortcuts use two columns, the app and media kinds one; only autocomplete is horizontal |
| Provider.AdapterCapacity | branchuisdk/src/main/java/io/branch/search/widget/provider/SimpleDiscoveryProvider.java:153-155 | capacity is unbounded unless overridden: two rows for apps, contacts and media, one row for suggestions, five for autocomplete |
| Provider.SingleSectionCapacity | branchuisdk/src/main/java/io/branch/search/widget/provider/DiscoveryProvider.java:178-188 | a provider with one section asks `loadResults` for exactly that section's capacity |
| Sections.LastOfType | branchuisdk/src/main/java/io/branch/search/widget/provider/DiscoveryProvider.java:148-154 | the reuse scan has no early exit, so the section found is the last old one of the type, or none |
| Sections.Recycle | branchuisdk/src/main/java/io/branch/search/widget/provider/DiscoveryProvider.java:138-171 | section i gets the i-th computed type, and new sections take fresh ids counting up |
| Sections.RecycleCreatesOnlyWhenNoneLeft | branchuisdk/src/main/java/io/branch/search/widget/provider/DiscoveryProvider.java:155-167 | an old section is reused exactly when one of the type is left, and then it is the last such one |
| Sections.RecycleOrigin | branchuisdk/src/main/java/io/branch/search/widget/provider/DiscoveryProvider.java:158-167 | every resulting section is either an old section or a newly created one with a fresh id |
| Sections.RecycleReusesAtMostOnce | branchuisdk/src/main/java/io/branch/search/widget/provider/DiscoveryProvider.java:158-160 | a reused section is removed from the candidates, so no section appears twice in the result |
| Sections.Capacity | branchuisdk/src/main/java/io/branch/search/widget/provider/DiscoveryProvider.java:178-188 | as soon as one section is unbounded the total is unbounded |
| Sections.CapacityIsSum | branchuisdk/src/main/java/io/branch/search/widget/provider/DiscoveryProvider.java:178-188 | without an unbounded section, and when the sum fits in an int, the capacity is the sum of the section capacities |
| Sections.ApplyChainTrace | branchuisdk/src/main/java/io/branch/search/widget/provider/DiscoveryProvider.java:314-319 | each section gets what the previous one returned; on success the result is what the last left; an exception stops the chain at the section that threw |
| Sections.ChainAppend | branchuisdk/src/main/java/io/branch/search/widget/provider/DiscoveryProvider.java:316-318 | applying two groups of sections is applying the first, then the second to what it left |
| DiscoveryAdapter.ItemCountFor | branchuisdk/src/main/java/io/branch/search/widget/provider/DiscoveryAdapter.java:109-120 | the row count is the visible items plus one header row only when there is a header and some item; no items means no rows |
| DiscoveryAdapter.ItemForPosition | branchuisdk/src/main/java/io/branch/search/widget/provider/DiscoveryAdapter.java:156-167 | out of range or on the header row there is no item; otherwise it is the item just below the header |
| DiscoveryAdapter.ItemViewType | branchuisdk/src/main/java/io/branch/search/widget/provider/DiscoveryAdapter.java:180-196 | the header type is used exactly for row 0 of an adapter with a header |
| DiscoveryAdapter.ItemPosition | branchuisdk/src/main/java/io/branch/search/widget/provider/DiscoveryAdapter.java:333-339 | an out-of-range position throws IllegalArgumentException exactly; otherwise the header row is skipped |
| DiscoveryAdapter.PositionsRoundTrip | branchuisdk/src/main/java/io/branch/search/widget/provider/DiscoveryAdapter.java:156-167 | for every visible item, the item at its adapter position is that item, and the item position of that row is its index |
| DiscoveryAdapter.SetItems | branchuisdk/src/main/java/io/branch/search/widget/provider/DiscoveryAdapter.java:138-148 | the items are replaced and all consumed, and the adapter starts collapsed when collapsing is enabled |
| DiscoveryAdapter.CollapseNotifications | branchuisdk/src/main/java/io/branch/search/widget/provider/DiscoveryAdapter.java:259-267 | the header is rebound exactly when present, and the difference is inserted or removed at the end |
| DiscoveryAdapter.Toggle | branchuisdk/src/main/java/io/branch/search/widget/provider/DiscoveryAdapter.java:235-251 | a collapsed adapter expands; an expanded one collapses only when collapsing is enabled and otherwise nothing happens |
| DiscoveryAdapter.ToggleNotificationsAreConsistent | branchuisdk/src/main/java/io/branch/search/widget/provider/DiscoveryAdapter.java:235-267 | the notifications of a toggle take the displayed row count from the old state's to the new state's |
| DiscoveryAdapter.DefaultNeverCollapses | branchuisdk/src/main/java/io/branch/search/widget/provider/DiscoveryAdapter.java:89-102 | with the default capacities the adapter never collapses and shows every item |
| DiscoveryAdapter.HeaderCollapseState | branchuisdk/src/main/java/io/branch/search/widget/provider/DiscoveryAdapter.java:307-315 | the header shows the collapse state only when collapsing is enabled and would change the row count |
| InAppSearch.FirstFeaturedLink | branchuisdk/src/main/java/io/branch/search/widget/model/InAppInstallAd.java:25-31 | the chosen link is the first deep link whose ranking hint is "featured" in any case; none exactly when no link is featured |
| InAppSearch.MakeInstallAd | branchuisdk/src/main/java/io/branch/search/widget/model/InAppInstallAd.java:19-37 | an install ad is built exactly when the app is featured and has a featured link; otherwise IllegalArgumentException |
| InAppSearch.IsQueryValid | branchuisdk/src/main/java/io/branch/search/widget/provider/InAppSearchProvider.java:91-93 | a query is searched exactly when it has at least MIN_CHARS (3) characters |
| InAppSearch.FilterShown | branchuisdk/src/main/java/io/branch/search/widget/provider/InAppSearchProvider.java:147-153 | the kept results are exactly the shown ones (all, or only installed apps), in their original order |
| InAppSearch.LoadResults | branchuisdk/src/main/java/io/branch/search/widget/provider/InAppSearchProvider.java:143-168 | a search error becomes a RuntimeException; a result becomes the filtered list |
| InAppSearch.CountAdsAppend | branchuisdk/src/main/java/io/branch/search/widget/provider/InAppSearchProvider.java:235-241 | the ad count, the organic list and every occurrence count split over concatenation |
| InAppSearch.CountAdsIsCount | branchuisdk/src/main/java/io/branch/search/widget/provider/InAppSearchProvider.java:235-241 | the ad/organic split is the generic count and complement filter of the install-ad test |
| InAppSearch.AdsFirstIffLeadingAds | branchuisdk/src/main/java/io/branch/search/widget/provider/InAppSearchProvider.java:235-241 | results have their ads first exactly when the first CountAds of them are ads, and the rest is then the organic list |
| InAppSearch.NoAdsMeansAllNonAds | branchuisdk/src/main/java/io/branch/search/widget/provider/InAppSearchProvider.java:235-241 | no ads exactly when every result is organic, and then the organic list is the whole list |
| InAppSearch.AdTypes | branchuisdk/src/main/java/io/branch/search/widget/provider/InAppSearchProvider.java:235-238 | one install-ad section per ad |
| InAppSearch.AppTypes | branchuisdk/src/main/java/io/branch/search/widget/provider/InAppSearchProvider.java:253-257 | one app section per organic result, or per occurrence of the filtered app |
| InAppSearch.ComputeSections | branchuisdk/src/main/java/io/branch/search/widget/provider/InAppSearchProvider.java:226-259 | no sections for missing or empty results; otherwise a filter header first, for two or more organic results when filters are enabled, then one section per install ad, then the app sections; a filter whose app vanished is dropped |
| InAppSearch.CreateSection | branchuisdk/src/main/java/io/branch/search/widget/provider/InAppSearchProvider.java:262-277 | the three known section types create a section of their kind, any other type is a RuntimeException |
| InAppSearch.CreateSectionInvertsKindType | branchuisdk/src/main/java/io/branch/search/widget/provider/InAppSearchProvider.java:262-277 | creating a section from a kind's type gives back that kind |
| InAppSearch.CreateSections | branchuisdk/src/main/java/io/branch/search/widget/provider/InAppSearchProvider.java:262-277 | all sections are created exactly when every type is known, one kind per type in order |
| InAppSearch.FirstAdIndex | branchuisdk/src/main/java/io/branch/search/widget/provider/InAppSearchProvider.java:289-291 | the index of the first install ad, or -1 exactly when there is none |
| InAppSearch.IndexOfItem | branchuisdk/src/main/java/io/branch/search/widget/provider/InAppSearchProvider.java:379 | the first index of the item, or -1 exactly when it is absent |
| InAppSearch.AdTakeAsWritten | branchuisdk/src/main/java/io/branch/search/widget/provider/InAppSearchProvider.java:288-295 | the ad section succeeds exactly when the first remaining result is an ad, and hands on the rest |
| InAppSearch.AdTake | branchuisdk/src/main/java/io/branch/search/widget/provider/InAppSearchProvider.java:288-295 | corrected: succeeds exactly when an ad remains, removing one ad and keeping the organic results |
| InAppSearch.AppTake | branchuisdk/src/main/java/io/branch/search/widget/provider/InAppSearchProvider.java:374-388 | without a filter the head is taken; with one, its first occurrence is removed, an IllegalStateException when absent |
| InAppSearch.RemoveOneCounts | branchuisdk/src/main/java/io/branch/search/widget/provider/InAppSearchProvider.java:289 | removing one result lowers exactly its own counts |
| InAppSearch.FilterEntries | branchuisdk/src/main/java/io/branch/search/widget/provider/InAppSearchProvider.java:323-335 | the filter row is a "see all" entry followed by one entry per organic result, and no result is consumed |
| InAppSearch.AdRunAsWritten | branchuisdk/src/main/java/io/branch/search/widget/provider/InAppSearchProvider.java:288-295 | n ad sections in a row succeed exactly when the first n results are ads, consuming them |
| InAppSearch.AdRunCorrected | branchuisdk/src/main/java/io/branch/search/widget/provider/InAppSearchProvider.java:288-295 | corrected: n ad sections succeed whenever n ads remain, leaving the organic results in order |
| InAppSearch.AppRunUnfiltered | branchuisdk/src/main/java/io/branch/search/widget/provider/InAppSearchProvider.java:376-377 | n unfiltered app sections succeed exactly when n results remain, consuming the first n |
| InAppSearch.AppRunFiltered | branchuisdk/src/main/java/io/branch/search/widget/provider/InAppSearchProvider.java:378-381 | n filtered app sections succeed when the filtered app occurs n times |
| InAppSearch.HeaderRun | branchuisdk/src/main/java/io/branch/search/widget/provider/InAppSearchProvider.java:323-335 | the filter header section never fails and consumes nothing |
| InAppSearch.ComputedKinds | branchuisdk/src/main/java/io/branch/search/widget/provider/InAppSearchProvider.java:249-257 | the computed types create the header, then the ad run, then the app run |
| InAppSearch.ApplyAsWrittenOkIffAdsFirst | branchuisdk/src/main/java/io/branch/search/widget/provider/InAppSearchProvider.java:226-295 | applying fresh results to their own sections succeeds exactly when no ad follows an organic result |
| InAppSearch.AdAfterOrganicThrows | branchuisdk/src/main/java/io/branch/search/widget/provider/InAppSearchProvider.java:287-293 | an organic result followed by an ad makes the ad section throw |
| InAppSearch.FeaturedIsInstallAd | branchuisdk/src/main/java/io/branch/search/widget/model/InAppInstallAd.java:39-41 | the ranking hint compares case-insensitively, so "Featured" marks an install ad |
| InAppSearch.ApplyCorrectedAlwaysOk | branchuisdk/src/main/java/io/branch/search/widget/provider/InAppSearchProvider.java:226-388 | corrected: applying fresh results to their own sections always succeeds and consumes every ad |
| Models.NewApp | branchuisdk/src/main/java/io/branch/search/widget/model/App.java:50-61 | an app's id is the Java hash of its package name; popularity starts at -1 and interactions at 0 |
| Models.NewAppNoIcon | branchuisdk/src/main/java/io/branch/search/widget/model/App.java:45-48 | the two-argument constructor is the three-argument one with no icon resource |
| Models.NewContact | branchuisdk/src/main/java/io/branch/search/widget/model/Contact.java:38-41 | a new contact keeps its id and name and has no phone, no first name and no interactions |
| Models.Names | branchuisdk/src/main/java/io/branch/search/widget/model/Contact.java:49-53 | the names contain no space, and a name without spaces is its own single name |
| Models.Initials | branchuisdk/src/main/java/io/branch/search/widget/model/Contact.java:75-83 | empty for an empty name or a leading control or space character, else the upper-cased first character |
| Models.HasTextIffNonBlank | branchuisdk/src/main/java/io/branch/search/widget/model/Contact.java:85-93 | a phone or first name counts exactly when it is present and holds a character above the space |
| Models.ItemEqualsIsEquivalence | branchuisdk/src/main/java/io/branch/search/widget/database/DatabaseItem.java:43-53 | item equality (same class, same id) is an equivalence, and equal items hash equally |
| Models.AppNeverEqualsContact | branchuisdk/src/main/java/io/branch/search/widget/database/DatabaseItem.java:44-47 | items of different classes are never equal, whatever their ids |
| Models.SamePackageSameApp | branchuisdk/src/main/java/io/branch/search/widget/model/App.java:51-53 | two apps built from one package are equal whatever their labels and icons |
| Models.MediaTypesDistinct | branchuisdk/src/main/java/io/branch/search/widget/model/Media.java:24-30 | the seven media type constants are pairwise distinct |
| Models.MediaName | branchuisdk/src/main/java/io/branch/search/widget/model/Media.java:60-70 | the title when present, else the last path segment of a file URI, else the whole URI |
| Models.StyleOfDistinguishesKnownTypes | branchuisdk/src/main/java/io/branch/search/widget/model/Media.java:75-102 | each of the six known types has its own colour and icon; any other value gets the "other" style |
| Models.NewShortcut | branchuisdk/src/main/java/io/branch/search/widget/model/Shortcut.java:28-36 | the two-argument constructor uses the default settings icon |
| Models.ShortcutHash | branchuisdk/src/main/java/io/branch/search/widget/model/Shortcut.java:66-69 | the hash is a 32-bit int |
| Models.ShortcutHashConsistent | branchuisdk/src/main/java/io/branch/search/widget/model/Shortcut.java:60-69 | shortcuts equal by intent action are equal both ways and hash equally, whatever their labels and icons |
| Models.ParseJson | branchuisdk/src/main/java/io/branch/search/widget/model/AutoComplete.java:66-78 | no "results" array gives no suggestions; otherwise one suggestion per entry that is a string |
| Models.ParseJsonKeepsExtractable | branchuisdk/src/main/java/io/branch/search/widget/model/AutoComplete.java:70-76 | the k-th string entry becomes the suggestion at its rank among string entries, so order is kept |
| Models.ParseSdk | branchuisdk/src/main/java/io/branch/search/widget/model/AutoComplete.java:84-91 | one suggestion per query result, with the same text, in the same order |
| Parcels.ReadInt | branchuisdk/src/main/java/io/branch/search/widget/model/App.java:127 | an int is read exactly when the next value is an int, and the position moves by one |
| Parcels.ReadString | branchuisdk/src/main/java/io/branch/search/widget/model/Media.java:133 | a string, possibly null, is read exactly when the next value is a string |
| Parcels.ReadNonNullString | branchuisdk/src/main/java/io/branch/search/widget/model/App.java:125-126 | a null string fails the read |
| Parcels.ReadByte | branchuisdk/src/main/java/io/branch/search/widget/model/Contact.java:124 | a byte is read exactly when the next value is a byte |
| Parcels.ReadOptionalString | branchuisdk/src/main/java/io/branch/search/widget/model/Contact.java:124-129 | a presence byte of 1 is followed by the string; any other byte means the field stays null |
| Parcels.OptionalStringRoundTrip | branchuisdk/src/main/java/io/branch/search/widget/model/Contact.java:107-128 | a nullable string written with its presence byte is read back, ending where the write ended |
| Parcels.ReadApp | branchuisdk/src/main/java/io/branch/search/widget/model/App.java:121-131 | a read app has five fields and an id recomputed from its package |
| Parcels.AppRoundTrip | branchuisdk/src/main/java/io/branch/search/widget/model/App.java:112-131 | every field but the id survives; the round trip is exact exactly when the id is the package hash |
| Parcels.ReadContact | branchuisdk/src/main/java/io/branch/search/widget/model/Contact.java:117-131 | a read contact uses five to seven values |
| Parcels.ContactRoundTrip | branchuisdk/src/main/java/io/branch/search/widget/model/Contact.java:102-131 | a contact, nullable fields included, is read back exactly, ending where the write ended |
| Parcels.ReadMedia | branchuisdk/src/main/java/io/branch/search/widget/model/Media.java:128-137 | a null URI fails the read; otherwise three or four values are used |
| Parcels.MediaRoundTrip | branchuisdk/src/main/java/io/branch/search/widget/model/Media.java:111-137 | a media item is read back exactly, ending where the write ended |
| Parcels.ReadShortcut | branchuisdk/src/main/java/io/branch/search/widget/model/Shortcut.java:85-92 | a read shortcut uses three values |
| Parcels.ShortcutRoundTrip | branchuisdk/src/main/java/io/branch/search/widget/model/Shortcut.java:78-92 | a shortcut, icon included, is read back exactly |
| Parcels.ReadAutoComplete | branchuisdk/src/main/java/io/branch/search/widget/model/AutoComplete.java:49-54 | a null name fails the read |
| Parcels.AutoCompleteRoundTrip | branchuisdk/src/main/java/io/branch/search/widget/model/AutoComplete.java:44-54 | a suggestion is read back exactly |
| ProviderFilters.ScanCapped | branchuisdk/src/main/java/io/branch/search/widget/provider/AppsProvider.java:43-57 | the scan keeps exactly the accepted items among those visited, sends the notifications of every visited item, and stops at the end or the first time the kept count equals the capacity |
| ProviderFilters.ScanWithinCapacity | branchuisdk/src/main/java/io/branch/search/widget/provider/AppsProvider.java:52-55 | with a positive capacity the kept list never grows past it, because the equality test is met first |
| ProviderFilters.AppsMatcher | branchuisdk/src/main/java/io/branch/search/widget/provider/AppsProvider.java:31-33 | app labels are matched with a word starting at every non-lower-case character |
| ProviderFilters.ScanList | branchuisdk/src/main/java/io/branch/search/widget/provider/ContactsProvider.java:31-53 | a null list gives nothing; the kept items are the matching items of the prefix scanned, in order, and the notifications are those of that prefix; the scan stops right after the item that fills the capacity, or at the end of the list |
| ProviderFilters.LoadApps | branchuisdk/src/main/java/io/branch/search/widget/provider/AppsProvider.java:38-59 | the matching apps of the prefix scanned, in list order, stopping when the capacity is filled; one exact-match notification for each scanned app whose label equals the query ignoring case |
| ProviderFilters.LoadContacts | branchuisdk/src/main/java/io/branch/search/widget/provider/ContactsProvider.java:29-53 | the contacts of the prefix scanned whose full name matches, in order, stopping when the capacity is filled; one notification for each scanned contact with a single name equal to the query ignoring case |
| ProviderFilters.NotifiedName | branchuisdk/src/main/java/io/branch/search/widget/provider/ContactsProvider.java:40-44 | a contact that sends a notification has a name equal to the query ignoring case |
| ProviderFilters.StripSlash | branchuisdk/src/main/java/io/branch/search/widget/provider/MediaProvider.java:108-110 | exactly one trailing slash is dropped |
| ProviderFilters.LastSegment | branchuisdk/src/main/java/io/branch/search/widget/provider/MediaProvider.java:111 | the last segment contains no slash and ends the path |
| ProviderFilters.TypeOf | branchuisdk/src/main/java/io/branch/search/widget/provider/MediaProvider.java:124-141 | audio, image, video and playlist map to their media types; any other store type is PDF for a "pdf" extension and "other" otherwise |
| ProviderFilters.FileUri | branchuisdk/src/main/java/io/branch/search/widget/provider/MediaProvider.java:114-115 | a path becomes a file-scheme URI |
| ProviderFilters.RowResult | branchuisdk/src/main/java/io/branch/search/widget/provider/MediaProvider.java:117-142 | a row yields a result exactly when it is under a watched directory, not hidden, its last segment matches, and it is not a directory; the result keeps the title and the mapped type |
| ProviderFilters.LoadRows | branchuisdk/src/main/java/io/branch/search/widget/provider/MediaProvider.java:104-155 | a failure is a RuntimeException; the exact-match count is the number of kept results that are exact; the results never exceed the rows nor a positive capacity; a non-positive capacity reads nothing |
| ProviderFilters.LoadRowsReadsPrefix | branchuisdk/src/main/java/io/branch/search/widget/provider/MediaProvider.java:106-147 | on success the results are the selections of the readable prefix read, in order, and that prefix ends at the end of the cursor or where the capacity is reached |
| ProviderFilters.LoadRowsThrowsAtUnreadable | branchuisdk/src/main/java/io/branch/search/widget/provider/MediaProvider.java:106-155 | the loop throws only on reaching an unreadable row after a readable prefix still below the capacity |
| ProviderFilters.LoadRowsReadable | branchuisdk/src/main/java/io/branch/search/widget/provider/MediaProvider.java:152-155 | only an unreadable row makes the cursor loop throw |
| ProviderFilters.LoadRowsSelected | branchuisdk/src/main/java/io/branch/search/widget/provider/MediaProvider.java:106-143 | every result is what some row was selected as |
| ProviderFilters.LoadRowsStopsAtCapacity | branchuisdk/src/main/java/io/branch/search/widget/provider/MediaProvider.java:106 | once the capacity is reached no further row is read, so later rows change nothing |
| ProviderFilters.LoadMedia | branchuisdk/src/main/java/io/branch/search/widget/provider/MediaProvider.java:77-156 | no context throws before querying; a cursor that could not be opened throws a RuntimeException; otherwise the cursor loop: a RuntimeException on failure, at most the capacity of results, and one exact notification per exact result |
| ProviderFilters.MediaReadsPrefix | branchuisdk/src/main/java/io/branch/search/widget/provider/MediaProvider.java:104-147 | the media results are the filtered rows of the prefix read, in cursor order, up to the end of the cursor or the capacity |
| ProviderFilters.MediaThrowsAtUnreadable | branchuisdk/src/main/java/io/branch/search/widget/provider/MediaProvider.java:104-155 | the media load throws on the cursor only at an unreadable row the loop reaches |
| ProviderFilters.LoadMediaReadable | branchuisdk/src/main/java/io/branch/search/widget/provider/MediaProvider.java:104-155 | with every row readable the media load succeeds |
| ProviderFilters.MediaResultsFromRows | branchuisdk/src/main/java/io/branch/search/widget/provider/MediaProvider.java:106-143 | every media result comes from a readable row that passed every filter |
| ProviderFilters.MediaStopsAtCapacity | branchuisdk/src/main/java/io/branch/search/widget/provider/MediaProvider.java:106 | media rows after the capacity is reached are never read |
| ProviderFilters.LabelBeforeAsymmetric | branchuisdk/src/main/java/io/branch/search/widget/provider/AllAppsProvider.java:71-77 | the lower-case label comparator is a strict order |
| ProviderFilters.SortByLabel | branchuisdk/src/main/java/io/branch/search/widget/provider/AllAppsProvider.java:70-77 | the sorted list is ordered by lower-case label and is a permutation of the input |
| ProviderFilters.SortByLabelStable | branchuisdk/src/main/java/io/branch/search/widget/provider/AllAppsProvider.java:71 | apps with the same lower-case label keep their relative order |
| ProviderFilters.CacheIcons | branchuisdk/src/main/java/io/branch/search/widget/provider/AllAppsProvider.java:64-69 | the cache gains exactly the listed packages and keeps every icon already cached |
| ProviderFilters.CacheIconsFirstWins | branchuisdk/src/main/java/io/branch/search/widget/provider/AllAppsProvider.java:65-68 | an uncached package gets the icon of its first app in the list |
| ProviderFilters.LoadAllApps | branchuisdk/src/main/java/io/branch/search/widget/provider/AllAppsProvider.java:55-79 | a null list throws; otherwise the result is a permutation of the list ordered by lower-case label, apps with equal labels keep their order, the cache gains exactly the listed packages, keeps cached icons, and gives an uncached package the icon of its first app |
| ProviderFilters.InitShortcuts | branchuisdk/src/main/java/io/branch/search/widget/provider/ShortcutProvider.java:159-181 | the static cache is filled once, on the first successful initialization, with the catalogue entries that resolve; the base result is passed on |
| ProviderFilters.InitShortcutsOnce | branchuisdk/src/main/java/io/branch/search/widget/provider/ShortcutProvider.java:163-177 | once filled, later initializations keep the cache |
| ProviderFilters.LoadShortcuts | branchuisdk/src/main/java/io/branch/search/widget/provider/ShortcutProvider.java:185-194 | a shortcut is shown exactly when it is cached and its label matches, whatever the capacity |
| ProviderFilters.LoadSuggested | branchuisdk/src/main/java/io/branch/search/widget/provider/SuggestedAppsProvider.java:40-45 | the top list itself, or a RuntimeException exactly when it is null |
| ProviderFilters.LoadAutoComplete | branchuisdk/src/main/java/io/branch/search/widget/provider/AutoCompleteProvider.java:112-145 | an SDK error throws; otherwise a suggestion is kept exactly when the SDK returned it and it is not the query ignoring case |
| ProviderFilters.AutoCompleteFilterIdempotent | branchuisdk/src/main/java/io/branch/search/widget/provider/AutoCompleteProvider.java:123-129 | dropping the query's own suggestions a second time drops nothing more |
| ProviderLoader.IndexOfKey | branchuisdk/src/main/java/io/branch/search/widget/provider/loader/ProviderLoader.java:18 | the position of a key, or -1 exactly when it is absent |
| ProviderLoader.Put | branchuisdk/src/main/java/io/branch/search/widget/provider/loader/ResourceProviderLoader.java:39 | a new key goes last; an existing key keeps its place and takes the new provider; keys stay distinct |
| ProviderLoader.Load | branchuisdk/src/main/java/io/branch/search/widget/provider/loader/ResourceProviderLoader.java:26-44 | loading keeps the keys distinct |
| ProviderLoader.PutKeys | branchuisdk/src/main/java/io/branch/search/widget/provider/loader/ResourceProviderLoader.java:39 | a put adds exactly its key to the key set |
| ProviderLoader.LoadKeys | branchuisdk/src/main/java/io/branch/search/widget/provider/loader/ResourceProviderLoader.java:32-43 | the registry holds exactly the constructible configured names; names whose construction throws are skipped |
| ProviderLoader.SizeIsKeyCount | branchuisdk/src/main/java/io/branch/search/widget/provider/loader/ProviderLoader.java:32-34 | the size is the number of distinct keys |
| ProviderLoader.Size | branchuisdk/src/main/java/io/branch/search/widget/provider/loader/ProviderLoader.java:32-34 | after loading, the size is the number of distinct constructible names |
| ProviderLoader.Next | branchuisdk/src/main/java/io/branch/search/widget/provider/loader/ProviderLoader.java:50-55 | the next provider in insertion order, or null without moving once exhausted |
| ProviderLoader.Remove | branchuisdk/src/main/java/io/branch/search/widget/provider/loader/ProviderLoader.java:57-60 | removal always throws UnsupportedOperationException |
| ProviderLoader.IterateInOrder | branchuisdk/src/main/java/io/branch/search/widget/provider/loader/ProviderLoader.java:38-62 | the k-th call of next returns the k-th provider in insertion order, then null |
| AutoCompleteView.LowerOccurrenceIsRegionMatch | branchuisdk/src/main/java/io/branch/search/widget/ui/AutoCompleteViewHolder.java:38 | searching the lower-cased query in the lower-cased name is a case-insensitive region match |
| AutoCompleteView.Highlight | branchuisdk/src/main/java/io/branch/search/widget/ui/AutoCompleteViewHolder.java:38-47 | the highlighted span is as long as the query and starts at the first case-insensitive occurrence; none exactly when there is no occurrence |
| AutoCompleteView.Ellipsize | branchuisdk/src/main/java/io/branch/search/widget/ui/AutoCompleteViewHolder.java:55-86 | text of at most twenty characters is kept; else the first occurrence of the query becomes an ellipsis, or the text is cut to nineteen characters plus an ellipsis |
| AutoCompleteView.EllipsizeRemovesOneOccurrence | branchuisdk/src/main/java/io/branch/search/widget/ui/AutoCompleteViewHolder.java:71-83 | putting the query back in place of the ellipsis restores the text |
| AutoCompleteView.EllipsizeFallbackFits | branchuisdk/src/main/java/io/branch/search/widget/ui/AutoCompleteViewHolder.java:67-70 | a long text lacking the query becomes at most twenty characters and keeps its first nineteen |
| AutoCompleteView.EmptyQueryGrowsText | branchuisdk/src/main/java/io/branch/search/widget/ui/AutoCompleteViewHolder.java:65-74 | an empty query occurs at 0, so a long text gains a leading ellipsis and grows by one |
| Store.Lookup | branchuisdk/src/main/java/io/branch/search/widget/database/AppsDao.java:14-27 | the row found has the id asked for; none exactly when no row has it |
| Store.Position | branchuisdk/src/main/java/io/branch/search/widget/generator/ContactsGenerator.java:164 | indexOf under id equality: the first position holding the id, or -1 exactly when no row has it |
| Store.PositionSameIds | branchuisdk/src/main/java/io/branch/search/widget/database/DatabaseItem.java:43-48 | indexOf looks only at ids, so lists with the same ids answer alike |
| Store.Upsert | branchuisdk/src/main/java/io/branch/search/widget/database/AppsDao.java:22-23 | an insert with REPLACE stores the item |
| Store.DeleteEffect | branchuisdk/src/main/java/io/branch/search/widget/database/AppsDao.java:25-26 | a delete removes the row with the item's id, leaves every other id's row alone, keeps keys distinct and lowers the count by one exactly when the id was present |
| Store.FilterKeepsValid | branchuisdk/src/main/java/io/branch/search/widget/database/AppsDao.java:25-26 | dropping rows never creates a duplicate key |
| Store.UpsertEffect | branchuisdk/src/main/java/io/branch/search/widget/database/ContactsDao.java:22-23 | after an insert with REPLACE the item is the row for its id, every other id's row is unchanged, keys stay distinct and the count grows exactly when the id was new |
| Store.LookupAppend | branchuisdk/src/main/java/io/branch/search/widget/database/ContactsDao.java:22-23 | a row appended under a new id is the row for that id and hides nothing else |
| Store.DeleteUndoesUpsert | branchuisdk/src/main/java/io/branch/search/widget/database/AppsDao.java:22-26 | deleting what was just stored leaves the table as a plain delete would |
| Store.FilterByIdLookup | branchuisdk/src/main/java/io/branch/search/widget/database/AppsDao.java:25-26 | filtering on ids keeps exactly the wanted ids' rows |
| Store.LookupPermutation | branchuisdk/src/main/java/io/branch/search/widget/database/AppsDao.java:16-17 | any ordering of the table answers lookups by id as the table does |
| Store.OrdersAsymmetric | branchuisdk/src/main/java/io/branch/search/widget/database/ContactsDao.java:16 | the two ORDER BY comparisons are strict orders |
| Store.AllApps | branchuisdk/src/main/java/io/branch/search/widget/database/AppsDao.java:16-17 | every row exactly once, ordered by interactions descending, then popularity descending, then label |
| Store.AllContacts | branchuisdk/src/main/java/io/branch/search/widget/database/ContactsDao.java:16-17 | every row exactly once, ordered by interactions descending, then display name |
| Sync.DeleteAbsentEffect | branchuisdk/src/main/java/io/branch/search/widget/generator/ContactsGenerator.java:154-158 | deleting along a listing removes exactly the listed ids that are not on the device, and keeps keys distinct |
| Sync.PruneEffect | branchuisdk/src/main/java/io/branch/search/widget/generator/AppsGenerator.java:123-127 | pruning along the table's own listing keeps exactly the rows whose ids are on the device |
| Sync.ReconcileEffect | branchuisdk/src/main/java/io/branch/search/widget/generator/ContactsGenerator.java:163-193 | with distinct device ids, each device id ends holding its settled row (new, kept or merged) and every other row is untouched |
| AppsGenerator.LocaleCheck | branchuisdk/src/main/java/io/branch/search/widget/generator/AppsGenerator.java:54-68 | the current locale is stored afterwards; dirty exactly when a different locale was stored before |
| AppsGenerator.NeedsGeneration | branchuisdk/src/main/java/io/branch/search/widget/generator/AppsGenerator.java:71-78 | dirty packages need generation without touching the locale; then a locale change does; otherwise an empty cache is filled from the table and generation is needed only when it stays empty |
| AppsGenerator.MergePopularity | branchuisdk/src/main/java/io/branch/search/widget/generator/AppsGenerator.java:165-173 | the merge keeps one app per launcher entry |
| AppsGenerator.MergePopularityEffect | branchuisdk/src/main/java/io/branch/search/widget/generator/AppsGenerator.java:165-173 | only the first app with a listed id changes, and its popularity becomes the last listed one for that id |
| AppsGenerator.LauncherApps | branchuisdk/src/main/java/io/branch/search/widget/generator/AppsGenerator.java:156-162 | one fresh app per launcher entry, with its package and label, in order |
| AppsGenerator.DeviceApps | branchuisdk/src/main/java/io/branch/search/widget/generator/AppsGenerator.java:143-175 | one device app per launcher entry |
| AppsGenerator.DeviceAppsPopularity | branchuisdk/src/main/java/io/branch/search/widget/generator/AppsGenerator.java:156-173 | each device app is fresh, keyed by its package hash, and has popularity -1 unless it is the first entry of a package the list names |
| AppsGenerator.OnGenerateAsWritten | branchuisdk/src/main/java/io/branch/search/widget/generator/AppsGenerator.java:117-140 | the returned list is the table's rows |
| AppsGenerator.OnGenerate | branchuisdk/src/main/java/io/branch/search/widget/generator/AppsGenerator.java:117-140 | corrected: the returned list is the table's rows |
| AppsGenerator.PrunedSnapshot | branchuisdk/src/main/java/io/branch/search/widget/generator/AppsGenerator.java:120-128 | after pruning, the table answers for the device ids as before and holds no other id |
| AppsGenerator.OnGenerateAsWrittenEffect | branchuisdk/src/main/java/io/branch/search/widget/generator/AppsGenerator.java:117-140 | as written: the table holds exactly the device's ids; a new app is stored as reported and a stored app keeps its old row |
| AppsGenerator.StaleLabelAsWritten | branchuisdk/src/main/java/io/branch/search/widget/generator/AppsGenerator.java:131-135 | a stored app whose label changed on the device keeps its old label after regeneration |
| AppsGenerator.StaleLabelExample | branchuisdk/src/main/java/io/branch/search/widget/generator/AppsGenerator.java:131-135 | "Camera" stored and "Kamera" reported still gives "Camera" |
| AppsGenerator.OnGenerateEffect | branchuisdk/src/main/java/io/branch/search/widget/generator/AppsGenerator.java:115-140 | corrected: the table holds exactly the device's ids, each as the device reports it, with the stored interactions kept |
| AppsGenerator.Get | branchuisdk/src/main/java/io/branch/search/widget/generator/AppsGenerator.java:85-95 | the answer is the cache; a generation failure throws a RuntimeException with the cache cleared and the table unchanged; without a need to generate nothing but the locale check changes |
| AppsGenerator.GetStable | branchuisdk/src/main/java/io/branch/search/widget/generator/AppsGenerator.java:71-95 | with clean packages and an unchanged locale, a second get after a non-empty answer repeats it and changes nothing |
| AppsGenerator.Add | branchuisdk/src/main/java/io/branch/search/widget/generator/AppsGenerator.java:97-113 | an installed app is stored with one more interaction, other rows untouched and the cache reloaded; an uninstalled one changes nothing |
| ContactsGenerator.NonEmpty | branchuisdk/src/main/java/io/branch/search/widget/generator/ContactsGenerator.java:255-257 | an empty string is treated as absent |
| ContactsGenerator.InferFirstName | branchuisdk/src/main/java/io/branch/search/widget/generator/ContactsGenerator.java:260-278 | a first name is inferred only with both given and family names, and it always starts the full name |
| ContactsGenerator.InferFirstNameIsFirstCandidate | branchuisdk/src/main/java/io/branch/search/widget/generator/ContactsGenerator.java:264-277 | the if-chain picks the first of the six candidates that starts the full name |
| ContactsGenerator.ApplyRow | branchuisdk/src/main/java/io/branch/search/widget/generator/ContactsGenerator.java:241-279 | a phone row sets the number only while none is set; a name row sets the first name only while none is set; id, name and interactions never change |
| ContactsGenerator.CollectEffect | branchuisdk/src/main/java/io/branch/search/widget/generator/ContactsGenerator.java:229-285 | one contact per id; a contact exists exactly for the ids with a named row, named after the first such row |
| ContactsGenerator.CollectStep | branchuisdk/src/main/java/io/branch/search/widget/generator/ContactsGenerator.java:230-284 | an unnamed row is skipped, a known id is updated in place, a new id is appended |
| ContactsGenerator.Fallback | branchuisdk/src/main/java/io/branch/search/widget/generator/ContactsGenerator.java:290-295 | a contact with a first name, or with at most one word, is unchanged; nothing but the first name ever changes |
| ContactsGenerator.FallbackIsPrefix | branchuisdk/src/main/java/io/branch/search/widget/generator/ContactsGenerator.java:291-294 | a guessed first name is a space-free leading word of the full name |
| ContactsGenerator.FirstMatch | branchuisdk/src/main/java/io/branch/search/widget/generator/ContactsGenerator.java:301-308 | the first contact whose name equals a test ignoring case, or -1 exactly when none does |
| ContactsGenerator.PromoteGroup | branchuisdk/src/main/java/io/branch/search/widget/generator/ContactsGenerator.java:299-309 | only a matching contact may change, and then to exactly one interaction |
| ContactsGenerator.PromoteGroupAtMostOne | branchuisdk/src/main/java/io/branch/search/widget/generator/ContactsGenerator.java:305 | at most one contact per group is promoted, and no earlier contact matches |
| ContactsGenerator.PromoteGroupFirst | branchuisdk/src/main/java/io/branch/search/widget/generator/ContactsGenerator.java:301-306 | the first matching contact ends with one interaction |
| ContactsGenerator.PromoteAll | branchuisdk/src/main/java/io/branch/search/widget/generator/ContactsGenerator.java:299-309 | promotion changes interactions only |
| ContactsGenerator.DeviceContacts | branchuisdk/src/main/java/io/branch/search/widget/generator/ContactsGenerator.java:226-228 | a missing cursor is a RuntimeException |
| ContactsGenerator.DeviceContactsEffect | branchuisdk/src/main/java/io/branch/search/widget/generator/ContactsGenerator.java:200-311 | one device contact per named id, named after its first row, with any first name a prefix of the full name |
| ContactsGenerator.MergeContact | branchuisdk/src/main/java/io/branch/search/widget/generator/ContactsGenerator.java:168-191 | the stored row is kept exactly when it is identical with at least the device interactions; otherwise the device fields with the larger interactions |
| ContactsGenerator.OnGenerate | branchuisdk/src/main/java/io/branch/search/widget/generator/ContactsGenerator.java:143-198 | the returned list is the table's rows |
| ContactsGenerator.OnGenerateEffect | branchuisdk/src/main/java/io/branch/search/widget/generator/ContactsGenerator.java:150-198 | the table ends with exactly the device's ids, each the device contact with the larger interactions |
| ContactsGenerator.Start | branchuisdk/src/main/java/io/branch/search/widget/generator/ContactsGenerator.java:53-57 | a fresh process: empty cache, first sync pending, synced flag true, no observer |
| ContactsGenerator.ContentChanged | branchuisdk/src/main/java/io/branch/search/widget/generator/ContactsGenerator.java:60-66 | only a registered observer marks the contacts unsynced |
| ContactsGenerator.NeedsGeneration | branchuisdk/src/main/java/io/branch/search/widget/generator/ContactsGenerator.java:92-105 | true on the first call, then once after each change; otherwise the cache is filled from the table and generation is needed exactly when it stays empty and was not known empty |
| ContactsGenerator.Generate | branchuisdk/src/main/java/io/branch/search/widget/generator/ContactsGenerator.java:142-198 | without permission nothing is generated and the table is untouched; a missing cursor throws |
| ContactsGenerator.Get | branchuisdk/src/main/java/io/branch/search/widget/generator/ContactsGenerator.java:108-122 | registers the observer; answers the cache; a generation records whether the result is empty |
| ContactsGenerator.FirstGetGenerates | branchuisdk/src/main/java/io/branch/search/widget/generator/ContactsGenerator.java:93-96 | the first get of a process always regenerates |
| ContactsGenerator.ChangeForcesGeneration | branchuisdk/src/main/java/io/branch/search/widget/generator/ContactsGenerator.java:60-66 | a change heard after a get makes the next get regenerate |
| ContactsGenerator.GetStable | branchuisdk/src/main/java/io/branch/search/widget/generator/ContactsGenerator.java:92-122 | with no change in between, a second get repeats the answer and changes nothing |
| ContactsGenerator.Add | branchuisdk/src/main/java/io/branch/search/widget/generator/ContactsGenerator.java:124-139 | the contact is stored with one more interaction, other rows untouched, and the cache is the table |
| ContactsGenerator.Release | branchuisdk/src/main/java/io/branch/search/widget/generator/ContactsGenerator.java:313-316 | after release the observer is gone, so changes go unheard |
| System.Actives | branchuisdk/src/main/java/io/branch/search/widget/BranchSearchController.java:393-399 | the active flags are read from the providers, one per provider |
| System.CreateIsValid | branchuisdk/src/main/java/io/branch/search/widget/BranchSearchController.java:116-156 | every provider is created and initialized in loader order and the controller starts from the empty query |
| System.Record | branchuisdk/src/main/java/io/branch/search/widget/BranchSearchController.java:413-522 | a controller step changes only the controller and appends its host notifications |
| System.ReplaceProvider | branchuisdk/src/main/java/io/branch/search/widget/BranchSearchController.java:67 | replacing one provider keeps the system well formed |
| System.AbsorbOutcomes | branchuisdk/src/main/java/io/branch/search/widget/BranchSearchController.java:440-491 | start and completion calls change only the controller and the host stream, never the query, and issue no commands |
| System.StartOne | branchuisdk/src/main/java/io/branch/search/widget/BranchSearchController.java:415-426 | startDiscovery on one provider changes that provider only, keeps the query, and the calls it makes are handled at once |
| System.RunCallbackCommands | branchuisdk/src/main/java/io/branch/search/widget/BranchSearchController.java:415-438 | restarts asked for from a callback run at once and broadcasts are posted, keeping the query |
| System.Absorb | branchuisdk/src/main/java/io/branch/search/widget/BranchSearchController.java:413-522 | provider calls are handled in order as they are made, keeping the query |
| System.AbsorbOne | branchuisdk/src/main/java/io/branch/search/widget/BranchSearchController.java:413-522 | one provider call and the commands it causes keep the system well formed and the query unchanged |
| System.RunCommands | branchuisdk/src/main/java/io/branch/search/widget/BranchSearchController.java:294-319 | the controller's commands run in order, keeping the system well formed and the query unchanged |
| System.DispatchCommands | branchuisdk/src/main/java/io/branch/search/widget/BranchSearchController.java:294-319 | a dispatch only issues commands for existing providers |
| System.TextChanged | branchuisdk/src/main/java/io/branch/search/widget/BranchSearchController.java:338-342 | typing changes only the controller: a new token, with the search only armed |
| System.EditorAction | branchuisdk/src/main/java/io/branch/search/widget/BranchSearchController.java:350-361 | the action is handled exactly for Done and Search, and then the search runs at once; any other action changes nothing |
| System.TimerFires | branchuisdk/src/main/java/io/branch/search/widget/BranchSearchController.java:324-330 | the armed dispatch runs with the query and token it was armed for, and nothing stays armed |
| System.SetActive | branchuisdk/src/main/java/io/branch/search/widget/BranchSearchController.java:371-387 | toggling providers keeps the query |
| System.SetActiveFlipsEachDiffering | branchuisdk/src/main/java/io/branch/search/widget/BranchSearchController.java:371-387 | exactly the providers of the class whose flag differs get the new flag; an activated one runs `startDiscovery` once (one new task), a deactivated one runs nothing, and every other provider is unchanged |
| System.FlipEffect | branchuisdk/src/main/java/io/branch/search/widget/BranchSearchController.java:378-383 | one provider's flip sets its flag, adds one task exactly when activating, and leaves the other providers alone |
| System.PermissionsResult | branchuisdk/src/main/java/io/branch/search/widget/BranchSearchController.java:258-276 | forwarding permission results keeps the query |
| System.WorkerNotifiesExactMatch | branchuisdk/src/main/java/io/branch/search/widget/BranchSearchController.java:493-511 | an exact-match report reaches the controller for the task's query and token |
| System.WorkerDelivers | branchuisdk/src/main/java/io/branch/search/widget/BranchSearchController.java:448-491 | a delivered outcome goes through the provider to the controller, keeping the query |
| System.Broadcast | branchuisdk/src/main/java/io/branch/search/widget/BranchSearchController.java:502-508 | the posted broadcast reaches every provider, active or not, in loader order |
| System.PostedBroadcastRuns | branchuisdk/src/main/java/io/branch/search/widget/BranchSearchController.java:502-508 | running a posted broadcast removes it from the queue and keeps the query |
| System.ItemClick | branchuisdk/src/main/java/io/branch/search/widget/provider/DiscoveryProvider.java:576-582 | an item click reaches the host through the controller and keeps the query |
| System.Targets | branchuisdk/src/main/java/io/branch/search/widget/BranchSearchController.java:311-316 | the providers addressed are exactly those of some start command |
| System.StartsRunOncePerTarget | branchuisdk/src/main/java/io/branch/search/widget/BranchSearchController.java:311-316 | start commands for increasing providers hand exactly one task to each addressed provider and leave every other provider as it was |
| System.StartsTail | branchuisdk/src/main/java/io/branch/search/widget/BranchSearchController.java:311-316 | the rest of an increasing list of start commands is still increasing |
| System.RunStartHead | branchuisdk/src/main/java/io/branch/search/widget/BranchSearchController.java:311-316 | a leading start command runs before the rest |
| System.StartOneAddsTask | branchuisdk/src/main/java/io/branch/search/widget/provider/DiscoveryProvider.java:405-411 | each startDiscovery hands one task to the provider's slot, valid query or not |
| System.TargetsSplit | branchuisdk/src/main/java/io/branch/search/widget/BranchSearchController.java:311-316 | the first of increasing start commands addresses a provider none of the rest does |
| System.TimerStartsEachActiveProviderOnce | branchuisdk/src/main/java/io/branch/search/widget/BranchSearchController.java:294-330 | when the debounce timer fires, startDiscovery runs exactly once on every active provider and never on an inactive one |
| System.TargetsAreActive | branchuisdk/src/main/java/io/branch/search/widget/BranchSearchController.java:311-316 | start commands for exactly the active set address exactly the active providers |
| System.StaleDeliveryForwardedNotRecorded | branchuisdk/src/main/java/io/branch/search/widget/BranchSearchController.java:456-483 | results for an old token leave the query, token, counts and loading flag alone, but the host still hears them |
| Decorations.ComputeData | branchuisdk/src/main/java/io/branch/search/widget/ui/decorations/OffsetDecoration.java:39-76 | the previous data stays without an adapter or layout manager; grids count lines after the offset lines, lists count items after the offset items; other managers throw |
| Decorations.GridOffsetItemsIgnored | branchuisdk/src/main/java/io/branch/search/widget/ui/decorations/OffsetDecoration.java:46-64 | in a grid the offset items fall on negative lines with no secondary position, and the first item after them starts line 0 |
| Decorations.DefaultGroups | branchuisdk/src/main/java/io/branch/search/widget/ui/decorations/OffsetDecoration.java:46-64 | with single-span items, an item's group is its line |
| Decorations.DefaultGroupsMonotone | branchuisdk/src/main/java/io/branch/search/widget/ui/decorations/OffsetDecoration.java:46-64 | the default group lookup never decreases along positions |
| Decorations.ApplyStart | branchuisdk/src/main/java/io/branch/search/widget/ui/decorations/OffsetDecoration.java:78-92 | a start margin is the top when vertical, else the left in left-to-right and the right in right-to-left |
| Decorations.ApplyEnd | branchuisdk/src/main/java/io/branch/search/widget/ui/decorations/OffsetDecoration.java:94-108 | an end margin is the bottom when vertical, else the right in left-to-right and the left in right-to-left |
| Decorations.EndMirrorsStart | branchuisdk/src/main/java/io/branch/search/widget/ui/decorations/OffsetDecoration.java:78-108 | horizontally, an end margin is a start margin in the opposite direction |
| Decorations.SidesDetermineRect | branchuisdk/src/main/java/io/branch/search/widget/ui/decorations/OffsetDecoration.java:78-108 | the start and end sides of both axes are the four sides of the rectangle, in either direction |
| Decorations.SecondaryClosedForm | branchuisdk/src/main/java/io/branch/search/widget/ui/decorations/SpacingDecoration.java:98-112 | the mutual recursion gives item i a start of i·s/n and an end of (n−1−i)·s/n |
| Decorations.SecondarySpacingProperties | branchuisdk/src/main/java/io/branch/search/widget/ui/decorations/SpacingDecoration.java:79-112 | every item of a line gets the same total margin; neighbours' facing margins add up to the spacing; the outer margins are 0; none is negative for a non-negative spacing |
| Decorations.Round | branchuisdk/src/main/java/io/branch/search/widget/ui/decorations/SpacingDecoration.java:94-95 | rounding picks the integer within half a unit, halves rounding up |
| Decorations.SpacingOffsets | branchuisdk/src/main/java/io/branch/search/widget/ui/decorations/SpacingDecoration.java:44-96 | along the primary axis an item after the first of its line gets the spacing at its start and nothing at its end; across, an item with a secondary position gets its rounded secondary margins at the start and end sides of that axis, in either direction; all other sides are zero |
| Decorations.SpacingAcrossLine | branchuisdk/src/main/java/io/branch/search/widget/ui/decorations/SpacingDecoration.java:74-112 | across a line of n items with spacing s, column i gets round(i·s/n) at its start and round((n−1−i)·s/n) at its end, so the outer sides are 0 |
| Decorations.DividerLines | branchuisdk/src/main/java/io/branch/search/widget/ui/decorations/SpacingDecoration.java:121-205 | no dividers without a drawable; otherwise consecutive lines after the offset, below the count and inside the visible range |
| Decorations.DividerLinesComplete | branchuisdk/src/main/java/io/branch/search/widget/ui/decorations/SpacingDecoration.java:159-162 | with a drawable, every visible line strictly inside the range gets a divider |
| Decorations.DrawnLines | branchuisdk/src/main/java/io/branch/search/widget/ui/decorations/SpacingDecoration.java:121-155 | no drawable or no adapter or manager draws nothing; other managers throw |
| Decorations.UniformPadding | branchuisdk/src/main/java/io/branch/search/widget/ui/decorations/PaddingDecoration.java:22-24 | one padding value is used on both axes |
| Decorations.LinePadding | branchuisdk/src/main/java/io/branch/search/widget/ui/decorations/PaddingDecoration.java:61-73 | the first item of a line gets the start padding of the axis (even when it is also the last), the last of several the end padding, others nothing, and the other axis is untouched |
| Decorations.PaddingOffsets | branchuisdk/src/main/java/io/branch/search/widget/ui/decorations/PaddingDecoration.java:40-59 | on each axis, in either direction: the first item of the line gets the start padding of that axis, the last of several the end padding, every other side is zero |
| Decorations.VerticalListPadding | branchuisdk/src/main/java/io/branch/search/widget/ui/decorations/PaddingDecoration.java:61-73 | in a vertical list the first item gets only the top padding, the last of several only the bottom, the rest none |
| Decorations.GridCellPadding | branchuisdk/src/main/java/io/branch/search/widget/ui/decorations/PaddingDecoration.java:40-81 | in a vertical grid the first row gets the top padding and the last of several the bottom; the first column gets the left padding (right in right-to-left) and the last of several columns the other side |
| Utility.Available | branchuisdk/src/main/java/io/branch/search/widget/util/Utility.java:69-93 | the first positive of laid-out and measured size, else the display size, less the padding |
| Utility.Columns | branchuisdk/src/main/java/io/branch/search/widget/util/Utility.java:54-66 | the columns fit with their spacing, and one more would not; for a non-negative space that is space / (child + spacing) |
| Utility.RecyclerColumns | branchuisdk/src/main/java/io/branch/search/widget/util/Utility.java:43-67 | the column count over the space along the secondary axis less twice the extra padding |
| Palette.Load | branchuisdk/src/main/java/io/branch/search/widget/ui/color/PaletteColorPicker.java:18-29 | the first construction fills the palette entry by entry, with the fallback for an unresolved entry; later ones keep it |
| Palette.LoadOnce | branchuisdk/src/main/java/io/branch/search/widget/ui/color/PaletteColorPicker.java:19 | once loaded, the palette never changes |
| Palette.PickAsWritten | branchuisdk/src/main/java/io/branch/search/widget/ui/color/PaletteColorPicker.java:31-35 | as written: an empty palette throws on the remainder; otherwise the colour at the hash magnitude modulo the length |
| Palette.MinValueHashThrows | branchuisdk/src/main/java/io/branch/search/widget/ui/color/PaletteColorPicker.java:33 | a text hashing to Integer.MIN_VALUE gives a negative index, which throws, whenever the length does not divide 2^31 |
| Palette.WitnessHash | branchuisdk/src/main/java/io/branch/search/widget/model/App.java:52 | "polygenelubricants" hashes to Integer.MIN_VALUE |
| Palette.MinValueHashExample | branchuisdk/src/main/java/io/branch/search/widget/ui/color/PaletteColorPicker.java:33 | a three-colour palette throws on "polygenelubricants" |
| Palette.Pick | branchuisdk/src/main/java/io/branch/search/widget/ui/color/PaletteColorPicker.java:31-35 | corrected: every text gets a palette colour; only an empty palette throws |
| Palette.PickAgreesWithAsWritten | branchuisdk/src/main/java/io/branch/search/widget/ui/color/PaletteColorPicker.java:33 | the correction differs only on the hash that made the original throw |
| Palette.PickByHash | branchuisdk/src/main/java/io/branch/search/widget/ui/color/PaletteColorPicker.java:33 | the colour depends on the text only through its hash |
| LocationFinder.RequestUpdate | branchuisdk/src/main/java/io/branch/search/widget/util/BranchLocationFinder.java:75-110 | updates are requested exactly when fine or coarse location is granted |
| LocationFinder.Initialize | branchuisdk/src/main/java/io/branch/search/widget/util/BranchLocationFinder.java:35-42 | the first call creates an instance with no location; every call adds a user and returns the shared instance |
| LocationFinder.GetInstance | branchuisdk/src/main/java/io/branch/search/widget/util/BranchLocationFinder.java:44-50 | the instance, or a RuntimeException exactly when there is none |
| LocationFinder.Release | branchuisdk/src/main/java/io/branch/search/widget/util/BranchLocationFinder.java:52-57 | one user fewer; the instance is dropped when the count reaches zero |
| LocationFinder.OnLocationResult | branchuisdk/src/main/java/io/branch/search/widget/util/BranchLocationFinder.java:59-66 | a location result becomes the instance's last known location |
| LocationFinder.InitializePreservesInv | branchuisdk/src/main/java/io/branch/search/widget/util/BranchLocationFinder.java:35-42 | initializing keeps an instance exactly while someone holds it |
| LocationFinder.ReleasePreservesInv | branchuisdk/src/main/java/io/branch/search/widget/util/BranchLocationFinder.java:52-57 | a release by a holder keeps an instance exactly while someone holds it |
| LocationFinder.InitializeShares | branchuisdk/src/main/java/io/branch/search/widget/util/BranchLocationFinder.java:35-50 | every initialize while the instance is held returns the same instance |
| LocationFinder.InitializeReleaseRoundTrip | branchuisdk/src/main/java/io/branch/search/widget/util/BranchLocationFinder.java:35-57 | release right after initialize restores the count; the instance survives exactly when others hold it |
| LocationFinder.CycleDropsInstance | branchuisdk/src/main/java/io/branch/search/widget/util/BranchLocationFinder.java:35-57 | n initialize/release pairs restore the count, and from no users leave no instance |
| LocationFinder.LastKnownIsLatest | branchuisdk/src/main/java/io/branch/search/widget/util/BranchLocationFinder.java:59-66 | the last known location is empty until a result arrives, then it is the latest one |

## Left out

- Threads, the Handler and LiveData are not modelled. Worker pools, `cancel(true)`, main-thread posting and `postValue` become explicit steps of `System`. Cancellation is best-effort: an aborted worker still delivers, and `System.WorkerDelivers` allows that at any time.
- The network SDK (`BranchSearch.query` / `autoSuggest`, `Tasks.await`, request building) is an oracle. It is an input that is either a result list or an error.
- Android services are inputs. This covers ContentResolver cursors, MediaStore, PackageManager, SharedPreferences, Room set-up and `DeviceAppsManager`. Cursors are sequences of rows, where an unreadable row is `None`. Package and permission queries are booleans or sets. The two DAOs are an abstract keyed table.
- Reflection in `ResourceProviderLoader` is abstracted. The class-name lookup and construction are a function that yields a provider or nothing, and the resource array of names is an input.
- Fragments, views and drawing are not modelled. This includes view holders other than the auto-complete highlight and ellipsis, `DiscoverySection` view construction, icon views, `BranchSearchResultsView` and keyboard handling.
- Intents and `launchResult` bodies are not modelled. A click is modelled only as the notification the host receives.
- The result-click BranchEvents that providers log (for example `AppsProvider.java:65-70` and `AutoCompleteProvider.java:153-159, 274-281`) are not modelled. The controller's search-executed event with its source (`BranchSearchController.java:297-306`) and its search-results event (`BranchSearchController.java:470-476`) are modelled as the `SearchExecuted` and `SearchResults` notices.
- Host callbacks are collapsed into one ordered stream of host notifications. Adding the same callback twice, and removing callbacks, are not modelled.
- Controller.SetCurrentQuery: the token is an unbounded integer. Java's `int` wraps after 2^31 increments, which is not modelled.
- JavaText.ToLower: case mapping and the `Character` predicates are exact for ASCII only. Non-ASCII letters map to themselves. `Character.isWhitespace` is modelled in full.
- JavaText.ToUpper: exact for ASCII only, as for `ToLower`. Non-ASCII letters map to themselves, and Java's one-to-many mappings (such as "ß" to "SS") are not modelled.
- JavaText.StringHashIsWrappedPolyHash: `String.hashCode` is modelled over code units as `char` values. Surrogate pairs are not treated specially, which matches Java.
- Provider payloads and `Options` other than the ones read by the modelled code are left out. Request building only passes them to the SDK.
- ProviderFilters.TypeOf: the file extension that `MimeTypeMap` derives from the encoded URI is an input of the row. URI encoding is not modelled.
- ProviderFilters.FileUri: only the scheme of the URI built from a path is modelled.
- Store.AllApps: SQL leaves the order of rows that tie on every ORDER BY key unspecified. The model keeps storage order for such rows.
- Store.AllContacts: ties on every ORDER BY key keep storage order, as for apps.
- AutoCompleteView.Ellipsize: the bold and colour spans are not moved when text is replaced. The model states only the resulting characters.
- Models.ShortcutHash: equal hashes of different actions (hash collisions) are not ruled out.
- ProviderFilters.InitShortcuts: the shortcut catalogue and its SDK-level filtering are a parameter.
- Sync.ReconcileEffect: requires distinct device ids. Two launcher activities of one package give the same app id, and that case is not covered by the lemma (the functions themselves accept it).
- AppsGenerator.OnGenerateEffect: requires distinct device ids, for the same reason.
- AppsGenerator.OnGenerateAsWrittenEffect: requires distinct device ids, for the same reason.
- ContactsGenerator.OnGenerateEffect: requires distinct device contact ids. Contacts are unique per id by construction, and this is proved in `ContactsGenerator.DeviceContactsEffect`.
- Store.Upsert: the stored item aliasing the caller's object (Java mutates `item` before writing it) is not modelled. The written value is the incremented copy.
- Decorations.SpacingOffsets: the secondary margins are computed over reals rather than 32-bit floats. `Math.round` is modelled for non-negative values only. A line of zero items (a float division by zero in the source) gets no secondary margins.
- Decorations.SecondaryClosedForm: a line with zero items (`secondaryCount == 0`, a float division by zero in the source) is not modelled.
- Decorations.DrawnLines: the drawable's bounds and the loop over child views are not modelled. Only which lines get a divider is.
- Utility.Columns: requires a positive child size and a non-negative spacing. A zero child size is a floating-point division by zero in the source.
- Utility.RecyclerColumns: requires a positive child size and a non-negative spacing, for the same reason.
- LocationFinder.RequestUpdate: the location-settings check and the fused location client are not modelled. A permitted request is modelled as registered. A callback left registered after `release` is not modelled.
- ContactsGenerator.GetStable: requires that the first sync has happened or that no change is pending. Otherwise the first `get` consumes only the first-sync flag and the next `get` regenerates again, as the source does.
- Controller.PermissionCommands: the source checks the fine-location permission for every slot of the granted array. No provider reads that array, so the model passes the granted set through unchanged.
- AppsGenerator.Get: generation uses the corrected `OnGenerate`, which refreshes stored apps. The as-written generation, which keeps stale labels, is modelled separately (`AppsGenerator.OnGenerateAsWritten`; see "Findings").
- System.AbsorbOutcomes: the controller runs with the corrected "all done" test. The as-written test is modelled in `Controller.AllDoneAsWritten` and shown wrong in `Controller.LoadingStuckAsWritten`.
- System.AbsorbOne: uses the corrected "all done" test, as `System.AbsorbOutcomes` does.
- System.WorkerDelivers: uses the corrected "all done" test, as `System.AbsorbOutcomes` does.
- System.StaleDeliveryForwardedNotRecorded: stated for the corrected "all done" test. A stale completion is not recorded under either test.
- Provider.Deliver: a successful completion carrying a null list is delivered as an empty list. Java would throw a NullPointerException at `list.size()` (`DiscoveryProvider.java:432-434`). The modelled providers never produce a null list, since `loadResults` is `@NonNull`.
- ProviderFilters.LoadMedia: `moveToNext` runs before the capacity check, so Java advances the cursor past one unread row after the capacity is reached. Cursor position is not modelled.
- Instrumented latency tests are not modelled.

## Findings

| source | as written | input that shows it | evidently intended | confidence | as-written member | corrected member |
|---|---|---|---|---|---|---|
| branchuisdk/src/main/java/io/branch/search/widget/query/BranchQueryMetadata.java:48-59 | `set` on a text that is `Spanned` but not `Spannable` copies it with its spans and does not clear the key first | a `Spanned` "abc" whose source is Voice, then `set` to Keyboard: `get` still answers Voice | every `set` leaves the new value as the only value of its key | medium, not executed | QueryMetadata.SetAsWrittenLosesNewValue | QueryMetadata.Set |
| branchuisdk/src/main/java/io/branch/search/widget/provider/InAppSearchProvider.java:287-293 | the ad section takes the head of the remaining results and throws when it is not an ad | results [organic app, featured ad]: `computeSections` gives an ad section first, and it throws "not an ad" | every install ad gets its section, wherever the server ranks it | medium, not executed | InAppSearch.AdAfterOrganicThrows | InAppSearch.ApplyCorrectedAlwaysOk |
| branchuisdk/src/main/java/io/branch/search/widget/BranchSearchController.java:458 | "all done" compares the number of recorded providers with the number of active ones | two active providers; provider 0 reports, then is deactivated; provider 1 reports. Two are recorded against one active, so loading stays on | loading clears once every active provider has reported | high, not executed | Controller.LoadingStuckAsWritten | Controller.LoadingClearsWhenAllReported |
| branchuisdk/src/main/java/io/branch/search/widget/ui/color/PaletteColorPicker.java:33 | `Math.abs(text.hashCode()) % length` | "polygenelubricants" hashes to Integer.MIN_VALUE, so `Math.abs` stays negative and the index is out of bounds for a palette of 3 | every text picks a palette colour | high, not executed | Palette.MinValueHashExample | Palette.Pick |
| branchuisdk/src/main/java/io/branch/search/widget/generator/AppsGenerator.java:131-135 | regeneration inserts only apps not yet stored, so stored rows keep their old label and popularity | "Camera" stored, then the locale changes and the device reports "Kamera": the table still says "Camera" | a locale change (which triggers regeneration) refreshes labels | medium, not executed | AppsGenerator.StaleLabelExample | AppsGenerator.OnGenerateEffect |
