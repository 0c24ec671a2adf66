/**
 * DiscoveryTaskManager: the task slot of one provider, reporting to the
 * controller.  `execute` announces the start and attaches listeners that
 * report the completion for the same query and token; `abort` swaps in the
 * no-op task and reports a cancellation for the aborted query.
 */
module DiscoveryTaskManager {
  import opened Wrappers
  import opened JavaText
  import opened Callbacks
  import Slots = AsyncTaskManager

  /** The query and token a task's listeners report; the no-op task of `abort` has none. */
  datatype Manager<T> = Manager(
    provider: ProviderId,
    hasCallback: bool,
    slot: Slots.Slot<seq<T>>,
    listeners: seq<Option<(String, int)>>)

  predicate Valid<T>(m: Manager<T>)
  {
    Slots.Valid(m.slot) && |m.listeners| == |m.slot.tasks|
  }

  function Create<T>(provider: ProviderId, hasCallback: bool): Manager<T>
  {
    Manager(provider, hasCallback, Slots.Empty(), [])
  }

  /** A new manager belongs to its provider, keeps whether it has a callback, and holds no task yet. */
  lemma CreateIsIdle<T>(provider: ProviderId, hasCallback: bool, m: Manager<T>)
    requires m == Create(provider, hasCallback)
    ensures Valid(m) && m.slot.held.None? && m.slot.tasks == [] && m.listeners == []
    ensures m.provider == provider && m.hasCallback == hasCallback
  {
  }

  /** Result of `execute`: the manager, the new task's index, and the calls made on the controller. */
  datatype Executed<T> = Executed(manager: Manager<T>, task: nat, events: seq<Event<T>>)

  /**
   * `execute(query, token, action)`: reports the start (when there is a
   * callback), then hands a worker task to the slot with listeners for
   * (query, token).
   */
  function Execute<T>(m: Manager<T>, query: String, token: int): (r: Executed<T>)
    requires Valid(m)
    ensures Valid(r.manager) && r.manager.provider == m.provider && r.manager.hasCallback == m.hasCallback
    ensures r.manager.slot == Slots.Execute(m.slot, true).0 && r.task == |m.slot.tasks|
    ensures r.manager.listeners[r.task] == Some((query, token))
    ensures m.hasCallback ==> r.events == [Event(m.provider, DiscoveryStarted(query, token))]
    ensures !m.hasCallback ==> r.events == []
  {
    var (slot', id) := Slots.Execute(m.slot, true);
    var events := if m.hasCallback then [Event(m.provider, DiscoveryStarted(query, token))] else [];
    Executed(m.(slot := slot', listeners := m.listeners + [Some((query, token))]), id, events)
  }

  /**
   * `abort(query, token)`: the slot runs the no-op task (aborting the held
   * one) without listeners and no start is reported; a non-null aborted
   * query gets a completion with a CancellationException.
   */
  function Abort<T>(m: Manager<T>, query: Option<String>, token: int): (r: (Manager<T>, seq<Event<T>>))
    requires Valid(m)
    ensures Valid(r.0) && r.0.provider == m.provider && r.0.hasCallback == m.hasCallback
    ensures r.0.slot == Slots.Execute(m.slot, false).0
    ensures r.0.listeners[|m.slot.tasks|] == None
    ensures m.hasCallback && query.Some? ==>
              r.1 == [Event(m.provider, DiscoveryCompleted(query.value, token, None, Some(Cancellation)))]
    ensures !(m.hasCallback && query.Some?) ==> r.1 == []
    ensures forall e :: e in r.1 ==> !e.call.DiscoveryStarted?
  {
    var (slot', _) := Slots.Execute(m.slot, false);
    var m' := m.(slot := slot', listeners := m.listeners + [None]);
    if m.hasCallback && query.Some? then
      (m', [Event(m.provider, DiscoveryCompleted(query.value, token, None, Some(Cancellation)))])
    else (m', [])
  }

  /** What a delivery did: the listeners' query and token, and the outcome, when they ran. */
  datatype Delivered<T> = Delivered(manager: Manager<T>, fired: Option<(String, int, Slots.Completion<seq<T>>)>, events: seq<Event<T>>)

  /** The completion call reported for an outcome. */
  function CompletionCall<T>(query: String, token: int, outcome: Slots.Completion<seq<T>>): Call<T>
    requires outcome != Slots.Pending
  {
    match outcome
    case Succeeded(v) => DiscoveryCompleted(query, token, v, None)
    case Failed(e) => DiscoveryCompleted(query, token, None, Some(e))
  }

  /**
   * A worker delivering its outcome.  Only the first report completes the
   * task; then the listeners, if the task has any, report the completion for
   * the query and token given to `execute`.
   */
  function Deliver<T>(m: Manager<T>, task: nat, outcome: Slots.Completion<seq<T>>): (r: Delivered<T>)
    requires Valid(m) && task < |m.slot.tasks| && outcome != Slots.Pending
    ensures Valid(r.manager) && r.manager.provider == m.provider && r.manager.hasCallback == m.hasCallback
    ensures r.manager.listeners == m.listeners
    ensures r.fired.Some? <==> m.slot.tasks[task].completion == Slots.Pending && m.listeners[task].Some?
    ensures r.fired.Some? ==> r.fired.value == (m.listeners[task].value.0, m.listeners[task].value.1, outcome)
    ensures r.fired.Some? && m.hasCallback ==>
              r.events == [Event(m.provider, CompletionCall(m.listeners[task].value.0, m.listeners[task].value.1, outcome))]
    ensures r.fired.None? || !m.hasCallback ==> r.events == []
  {
    var (slot', first) := Slots.Deliver(m.slot, task, outcome);
    var m' := m.(slot := slot');
    if first && m.listeners[task].Some? then
      var (q, t) := m.listeners[task].value;
      Delivered(m', Some((q, t, outcome)),
                if m.hasCallback then [Event(m.provider, CompletionCall(q, t, outcome))] else [])
    else Delivered(m', None, [])
  }

  /** Success reports the results with no error; failure reports the error with no results. */
  lemma CompletionCallShape<T>(query: String, token: int, outcome: Slots.Completion<seq<T>>)
    requires outcome != Slots.Pending
    ensures outcome.Succeeded? ==> CompletionCall(query, token, outcome) == DiscoveryCompleted(query, token, outcome.value, None)
    ensures outcome.Failed? ==> CompletionCall(query, token, outcome) == DiscoveryCompleted(query, token, None, Some(outcome.error))
  {
  }

  /** Without a callback no path reports anything. */
  lemma NoCallbackIsSilent<T>(m: Manager<T>, query: String, token: int, aborted: Option<String>, task: nat, outcome: Slots.Completion<seq<T>>)
    requires Valid(m) && !m.hasCallback && task < |m.slot.tasks| && outcome != Slots.Pending
    ensures Execute(m, query, token).events == []
    ensures Abort(m, aborted, token).1 == []
    ensures Deliver(m, task, outcome).events == []
  {
  }

  /**
   * The completion reported for a task carries the query and token given to
   * `execute`, even when a later `execute` or `abort` has replaced it.
   */
  lemma {:induction false} CompletionKeepsExecuteArguments<T>(m: Manager<T>, query: String, token: int,
                                                              q2: String, t2: int, outcome: Slots.Completion<seq<T>>)
    requires Valid(m) && m.hasCallback && outcome != Slots.Pending
    ensures var e1 := Execute(m, query, token);
            var e2 := Execute(e1.manager, q2, t2);
            Deliver(e2.manager, e1.task, outcome).events
              == [Event(m.provider, CompletionCall(query, token, outcome))]
  {
    var e1 := Execute(m, query, token);
    var e2 := Execute(e1.manager, q2, t2);
    assert e2.manager.listeners[e1.task] == Some((query, token));
    assert e2.manager.slot.tasks[e1.task].completion == Slots.Pending;
  }
}
