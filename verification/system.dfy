/**
 * The controller and its providers together, with the asynchronous parts
 * turned into explicit steps: the debounce timer firing, a worker
 * reporting an exact match or delivering its outcome, and a posted
 * exact-match broadcast running.  Everything else is synchronous: a
 * provider's calls on the controller are handled as they are made, and a
 * controller command is carried out before the next one.  The controller
 * uses the corrected "all done" test (see Controller.AllDone).
 */
module System {
  import opened Wrappers
  import opened JavaText
  import opened Callbacks
  import C = Controller
  import P = Provider
  import TM = DiscoveryTaskManager
  import Slots = AsyncTaskManager
  import Meta = QueryMetadata

  /**
   * The controller, the loader's providers (provider i at position i), the
   * posted exact-match broadcasts not yet run, every notification the host
   * has received, and the exception thrown out of a callback, if any.
   */
  datatype Sys<T> = Sys(
    ctl: C.Ctl,
    providers: seq<P.State<T>>,
    posted: seq<C.Command>,
    host: seq<C.HostEvent<T>>,
    thrown: Option<JavaException>)

  predicate Valid<T(==)>(s: Sys<T>)
  {
    && (forall i :: 0 <= i < |s.providers| ==> P.Valid(s.providers[i]) && s.providers[i].id == i)
    && (forall k :: 0 <= k < |s.posted| ==> s.posted[k].PostExactMatch?)
  }

  /** The controller keeps its query, token, confirmed flag, source and pending dispatch. */
  predicate SameQuery<T(==)>(a: Sys<T>, b: Sys<T>)
  {
    a.ctl.query == b.ctl.query && a.ctl.token == b.ctl.token && a.ctl.confirmed == b.ctl.confirmed
    && a.ctl.source == b.ctl.source && a.ctl.pending == b.ctl.pending
  }

  /** The host's notifications only grow. */
  predicate Extends<T(==)>(a: Sys<T>, b: Sys<T>)
  {
    |a.providers| == |b.providers| && a.host <= b.host
  }

  function Actives<T(==)>(ps: seq<P.State<T>>): (r: seq<bool>)
    ensures |r| == |ps| && forall i :: 0 <= i < |ps| ==> r[i] == ps[i].active
  {
    seq(|ps|, i requires 0 <= i < |ps| => ps[i].active)
  }

  /** `init`: every provider created (active, fresh view model and task manager), the controller at token 1. */
  function Create<T(==)>(kinds: seq<P.ProviderKind>, granted: set<P.Permission>): Sys<T>
  {
    Sys(C.Create(), seq(|kinds|, i requires 0 <= i < |kinds| => P.Create(kinds[i], i, granted)), [], [], None)
  }

  /** A new system is well formed: one active, idle provider per kind, in loader order, and a fresh controller. */
  lemma CreateIsValid<T>(kinds: seq<P.ProviderKind>, granted: set<P.Permission>, s: Sys<T>)
    requires s == Create(kinds, granted)
    ensures Valid(s) && |s.providers| == |kinds| && s.ctl == C.Create() && s.host == [] && s.posted == []
    ensures forall i :: 0 <= i < |kinds| ==> s.providers[i].kind == kinds[i] && s.providers[i].active
  {
    forall i | 0 <= i < |kinds|
      ensures P.Valid(s.providers[i]) && s.providers[i].id == i
      ensures s.providers[i].kind == kinds[i] && s.providers[i].active
    {
      P.CreateIsActiveAndCleared(kinds[i], i, granted, s.providers[i]);
    }
  }

  /** A host-driven reaction's state and notices taken into the system. */
  function Respond<T(==)>(s: Sys<T>, rc: C.Reaction): (r: Sys<T>)
    ensures r.providers == s.providers && r.posted == s.posted && r.thrown == s.thrown && r.ctl == rc.ctl
    ensures r.host == C.Notified(s.host, rc.notices)
  {
    s.(ctl := rc.ctl, host := C.Notified(s.host, rc.notices))
  }

  /** A controller step's state, host notifications and thrown exception taken into the system. */
  function Record<T(==)>(s: Sys<T>, st: C.Step<T>): (r: Sys<T>)
    ensures r.providers == s.providers && r.posted == s.posted && r.ctl == st.ctl
    ensures r.host == s.host + st.host
  {
    s.(ctl := st.ctl, host := s.host + st.host, thrown := if st.thrown.Some? then st.thrown else s.thrown)
  }

  function ReplaceProvider<T(==)>(s: Sys<T>, p: nat, ps: P.State<T>): (r: Sys<T>)
    requires Valid(s) && p < |s.providers| && P.Valid(ps) && ps.id == p
    ensures Valid(r) && r == s.(providers := s.providers[p := ps])
  {
    s.(providers := s.providers[p := ps])
  }

  predicate Outcomes<T(==)>(events: seq<Event<T>>, n: nat)
  {
    forall k :: 0 <= k < |events| ==>
      events[k].provider < n && (events[k].call.DiscoveryStarted? || events[k].call.DiscoveryCompleted?)
  }

  /** The controller handles start and completion calls; these never lead to further commands. */
  function AbsorbOutcomes<T(==)>(s: Sys<T>, events: seq<Event<T>>): (r: Sys<T>)
    requires Valid(s) && Outcomes(events, |s.providers|)
    ensures Valid(r) && r.providers == s.providers && r.posted == s.posted && SameQuery(s, r) && Extends(s, r)
    decreases |events|
  {
    if |events| == 0 then s
    else
      var st := C.OnCall(s.ctl, events[0], Actives(s.providers), true);
      AbsorbOutcomes(Record(s, st), events[1..])
  }

  /** `provider.startDiscovery(query, token, confirmed)` and the calls it makes on the controller. */
  function StartOne<T(==)>(s: Sys<T>, p: nat, query: String, token: int, confirmed: bool): (r: Sys<T>)
    requires Valid(s) && p < |s.providers|
    ensures Valid(r) && r.posted == s.posted && SameQuery(s, r) && Extends(s, r)
    ensures forall i :: 0 <= i < |s.providers| && i != p ==> r.providers[i] == s.providers[i]
    ensures r.providers[p] == P.StartDiscovery(s.providers[p], query, token, confirmed).0
  {
    var (ps, events) := P.StartDiscovery(s.providers[p], query, token, confirmed);
    AbsorbOutcomes(ReplaceProvider(s, p, ps), events)
  }

  predicate StartsOrPosts(cmds: seq<C.Command>, n: nat)
  {
    forall k :: 0 <= k < |cmds| ==> (cmds[k].StartDiscovery? && cmds[k].provider < n) || cmds[k].PostExactMatch?
  }

  /** Commands issued from a provider callback: restarts run at once, broadcasts are posted. */
  function RunCallbackCommands<T(==)>(s: Sys<T>, cmds: seq<C.Command>): (r: Sys<T>)
    requires Valid(s) && StartsOrPosts(cmds, |s.providers|)
    ensures Valid(r) && SameQuery(s, r) && Extends(s, r)
    decreases |cmds|
  {
    if |cmds| == 0 then s
    else
      var c := cmds[0];
      var s1 := if c.StartDiscovery? then StartOne(s, c.provider, c.query, c.token, c.confirmed)
                else s.(posted := s.posted + [c]);
      RunCallbackCommands(s1, cmds[1..])
  }

  predicate FromLoader<T(==)>(events: seq<Event<T>>, n: nat)
  {
    forall k :: 0 <= k < |events| ==> events[k].provider < n
  }

  /** Calls made by providers, each handled by the controller as it is made. */
  function Absorb<T(==)>(s: Sys<T>, events: seq<Event<T>>): (r: Sys<T>)
    requires Valid(s) && FromLoader(events, |s.providers|)
    ensures Valid(r) && SameQuery(s, r) && Extends(s, r)
    decreases |events|
  {
    if |events| == 0 then s
    else Absorb(AbsorbOne(s, events[0]), events[1..])
  }

  /** One call made by a provider, and the commands the controller issues in response. */
  function AbsorbOne<T(==)>(s: Sys<T>, e: Event<T>): (r: Sys<T>)
    requires Valid(s) && e.provider < |s.providers|
    ensures Valid(r) && SameQuery(s, r) && Extends(s, r)
  {
    var st := C.OnCall(s.ctl, e, Actives(s.providers), true);
    var s1 := Record(s, st);
    assert StartsOrPosts(st.commands, |s1.providers|);
    RunCallbackCommands(s1, st.commands)
  }

  predicate ControllerCommands(cmds: seq<C.Command>, n: nat)
  {
    forall k :: 0 <= k < |cmds| ==>
      (cmds[k].StartDiscovery? || cmds[k].SetProviderActive? || cmds[k].PermissionResults?) && cmds[k].provider < n
  }

  /** One of the controller's own commands; `granted` is what the system reports after a permission request. */
  function RunCommand<T(==)>(s: Sys<T>, c: C.Command, granted: set<P.Permission>): (r: Sys<T>)
    requires Valid(s) && ControllerCommands([c], |s.providers|)
    ensures Valid(r) && SameQuery(s, r) && Extends(s, r)
  {
    assert [c][0] == c;
    if c.StartDiscovery? then StartOne(s, c.provider, c.query, c.token, c.confirmed)
    else if c.SetProviderActive? then ReplaceProvider(s, c.provider, P.SetActive(s.providers[c.provider], c.active))
    else
      var (ps, events) := P.OnPermissionResults(s.providers[c.provider], granted);
      Absorb(ReplaceProvider(s, c.provider, ps), events)
  }

  /** The controller's own commands, in order. */
  function RunCommands<T(==)>(s: Sys<T>, cmds: seq<C.Command>, granted: set<P.Permission>): (r: Sys<T>)
    requires Valid(s) && ControllerCommands(cmds, |s.providers|)
    ensures Valid(r) && SameQuery(s, r) && Extends(s, r)
    decreases |cmds|
  {
    if |cmds| == 0 then s
    else
      assert [cmds[0]] == cmds[..1];
      RunCommands(RunCommand(s, cmds[0], granted), cmds[1..], granted)
  }

  lemma DispatchCommands(c: C.Ctl, confirmed: bool, actives: seq<bool>)
    ensures ControllerCommands(C.DispatchNow(c, confirmed, actives).commands, |actives|)
  {
  }

  // ---------------------------------------------------------------- steps

  /** The host's text watcher: a new token at once, the search only armed. */
  function TextChanged<T(==)>(s: Sys<T>, text: Meta.Text): (r: Sys<T>)
    requires Valid(s)
    ensures Valid(r) && r.providers == s.providers && r.posted == s.posted && r.host == s.host
    ensures r.ctl == C.OnTextChanged(s.ctl, text, Actives(s.providers)).ctl
  {
    Respond(s, C.OnTextChanged(s.ctl, text, Actives(s.providers)))
  }

  /** The host's editor action; the flag says whether it was handled. */
  function EditorAction<T(==)>(s: Sys<T>, actionId: int): (r: (Sys<T>, bool))
    requires Valid(s)
    ensures Valid(r.0) && Extends(s, r.0)
    ensures r.1 <==> actionId == C.IME_ACTION_DONE || actionId == C.IME_ACTION_SEARCH
    ensures !r.1 ==> r.0 == s
    ensures r.1 ==> r.0.ctl.token == s.ctl.token + 1 && r.0.ctl.confirmed && r.0.ctl.pending == None
  {
    var (rc, handled) := C.OnEditorAction(s.ctl, actionId, Actives(s.providers));
    if handled then
      DispatchCommands(C.SetCurrentQuery(s.ctl, s.ctl.query, Some(Meta.Keyboard)), true, Actives(s.providers));
      (RunCommands(Respond(s, rc), rc.commands, {}), true)
    else (Respond(s, rc), false)
  }

  /** The armed debounced dispatch runs. */
  function TimerFires<T(==)>(s: Sys<T>): (r: Sys<T>)
    requires Valid(s) && s.ctl.pending.Some?
    ensures Valid(r) && Extends(s, r)
    ensures r.ctl.query == s.ctl.query && r.ctl.token == s.ctl.token
    ensures r.ctl.pending == None && r.ctl.confirmed == s.ctl.pending.value
  {
    var rc := C.TimerFires(s.ctl, Actives(s.providers));
    DispatchCommands(s.ctl, s.ctl.pending.value, Actives(s.providers));
    RunCommands(Respond(s, rc), rc.commands, {})
  }

  /** The host's `setActive(class, active)`; `matching` are the providers of that class. */
  function SetActive<T(==)>(s: Sys<T>, matching: set<ProviderId>, active: bool): (r: Sys<T>)
    requires Valid(s)
    ensures Valid(r) && SameQuery(s, r) && Extends(s, r)
  {
    var cmds := C.SetActiveCommands(s.ctl, matching, active, Actives(s.providers), 0);
    RunCommands(s, cmds, {})
  }

  /** The host forwarding a permission request's results. */
  function PermissionsResult<T(==)>(s: Sys<T>, requestCode: int, permissionsCount: int, granted: set<P.Permission>): (r: Sys<T>)
    requires Valid(s)
    ensures Valid(r) && SameQuery(s, r) && Extends(s, r)
  {
    var needs := seq(|s.providers|, i requires 0 <= i < |s.providers| => |P.RequiredPermissions(s.providers[i].kind)| > 0);
    var cmds := C.PermissionCommands(requestCode, permissionsCount, needs);
    RunCommands(s, cmds, granted)
  }

  /** A worker of provider p's task reports an exact match for the task's query and token. */
  function WorkerNotifiesExactMatch<T(==)>(s: Sys<T>, p: nat, task: nat): (r: Sys<T>)
    requires Valid(s) && p < |s.providers|
    requires task < |s.providers[p].manager.slot.tasks| && s.providers[p].manager.listeners[task].Some?
    requires s.providers[p].manager.slot.tasks[task].completion == Slots.Pending
    ensures Valid(r) && SameQuery(s, r) && Extends(s, r)
  {
    var (q, t) := s.providers[p].manager.listeners[task].value;
    Absorb(s, [Event(p, ExactMatch(q, t))])
  }

  /** A worker of provider p's task delivers its outcome (possibly long after the task was aborted). */
  function WorkerDelivers<T(==)>(s: Sys<T>, p: nat, task: nat, outcome: Slots.Completion<seq<T>>): (r: Sys<T>)
    requires Valid(s) && p < |s.providers|
    requires task < |s.providers[p].manager.slot.tasks| && outcome != Slots.Pending
    ensures Valid(r) && SameQuery(s, r) && Extends(s, r)
    ensures r.posted == s.posted
    ensures forall i :: 0 <= i < |s.providers| && i != p ==> r.providers[i] == s.providers[i]
  {
    var (ps, events) := P.Deliver(s.providers[p], task, outcome);
    AbsorbOutcomes(ReplaceProvider(s, p, ps), events)
  }

  /** The posted broadcast: every provider, active or not, in loader order, hears the exact-match set. */
  function Broadcast<T(==)>(s: Sys<T>, query: String, token: int, providers: set<ProviderId>, from: nat): (r: Sys<T>)
    requires Valid(s) && from <= |s.providers|
    ensures Valid(r) && SameQuery(s, r) && Extends(s, r) && r.posted == s.posted
    decreases |s.providers| - from
  {
    if from == |s.providers| then s
    else
      var (ps, events) := P.OnExactMatch(s.providers[from], query, token, providers);
      Broadcast(AbsorbOutcomes(ReplaceProvider(s, from, ps), events), query, token, providers, from + 1)
  }

  function PostedBroadcastRuns<T(==)>(s: Sys<T>): (r: Sys<T>)
    requires Valid(s) && |s.posted| > 0
    ensures Valid(r) && SameQuery(s, r) && Extends(s, r)
    ensures r.posted == s.posted[1..]
  {
    var cmd := s.posted[0];
    Broadcast(s.(posted := s.posted[1..]), cmd.query, cmd.token, cmd.providers, 0)
  }

  /** The user clicks an item of provider p; `name` is the clicked item's display name. */
  function ItemClick<T(==)>(s: Sys<T>, p: nat, item: T, name: String): (r: Sys<T>)
    requires Valid(s) && p < |s.providers|
    ensures Valid(r) && SameQuery(s, r) && Extends(s, r)
  {
    var (ps, events) := P.OnItemClick(s.providers[p], item, name);
    Absorb(ReplaceProvider(s, p, ps), events)
  }

  // ---------------------------------------------------------------- properties

  function Tasks<T(==)>(s: Sys<T>, i: nat): nat
    requires i < |s.providers|
  {
    |s.providers[i].manager.slot.tasks|
  }

  /** The providers a command list addresses. */
  function Targets(cmds: seq<C.Command>): (r: set<nat>)
    requires forall k :: 0 <= k < |cmds| ==> cmds[k].StartDiscovery?
    ensures forall i :: i in r <==> exists k :: 0 <= k < |cmds| && cmds[k].provider == i
  {
    set k | 0 <= k < |cmds| :: cmds[k].provider
  }

  /**
   * Start commands for increasing providers run `startDiscovery` exactly
   * once on each addressed provider (each run, valid or not, hands one task
   * to its slot) and leave every other provider as it was.
   */
  lemma {:induction false} StartsRunOncePerTarget<T>(s: Sys<T>, cmds: seq<C.Command>, granted: set<P.Permission>)
    requires Valid(s) && ControllerCommands(cmds, |s.providers|)
    requires forall k :: 0 <= k < |cmds| ==> cmds[k].StartDiscovery?
    requires forall j, k :: 0 <= j < k < |cmds| ==> cmds[j].provider < cmds[k].provider
    ensures var r := RunCommands(s, cmds, granted);
            forall i :: 0 <= i < |s.providers| ==>
              (i in Targets(cmds) ==> Tasks(r, i) == Tasks(s, i) + 1)
              && (i !in Targets(cmds) ==> r.providers[i] == s.providers[i])
    decreases |cmds|
  {
    if |cmds| > 0 {
      var c := cmds[0];
      var s1 := StartOne(s, c.provider, c.query, c.token, c.confirmed);
      RunStartHead(s, cmds, granted);
      StartOneAddsTask(s, c.provider, c.query, c.token, c.confirmed);
      StartsTail(cmds, |s.providers|);
      StartsRunOncePerTarget(s1, cmds[1..], granted);
      TargetsSplit(cmds);
      var r := RunCommands(s1, cmds[1..], granted);
      forall i | 0 <= i < |s.providers|
        ensures (i in Targets(cmds) ==> Tasks(r, i) == Tasks(s, i) + 1)
                && (i !in Targets(cmds) ==> r.providers[i] == s.providers[i])
      {
        if i != c.provider {
          assert s1.providers[i] == s.providers[i];
        }
      }
    }
  }

  /** Dropping the first of increasing start commands leaves increasing start commands. */
  lemma StartsTail(cmds: seq<C.Command>, n: nat)
    requires |cmds| > 0 && ControllerCommands(cmds, n)
    requires forall k :: 0 <= k < |cmds| ==> cmds[k].StartDiscovery?
    requires forall j, k :: 0 <= j < k < |cmds| ==> cmds[j].provider < cmds[k].provider
    ensures ControllerCommands(cmds[1..], n)
    ensures forall k :: 0 <= k < |cmds[1..]| ==> cmds[1..][k].StartDiscovery?
    ensures forall j, k :: 0 <= j < k < |cmds[1..]| ==> cmds[1..][j].provider < cmds[1..][k].provider
  {
    assert forall k :: 0 <= k < |cmds[1..]| ==> cmds[1..][k] == cmds[k + 1];
  }

  /** A leading start command runs `startDiscovery` before the rest. */
  lemma RunStartHead<T>(s: Sys<T>, cmds: seq<C.Command>, granted: set<P.Permission>)
    requires Valid(s) && ControllerCommands(cmds, |s.providers|)
    requires |cmds| > 0 && cmds[0].StartDiscovery?
    ensures var c := cmds[0];
            RunCommands(s, cmds, granted)
            == RunCommands(StartOne(s, c.provider, c.query, c.token, c.confirmed), cmds[1..], granted)
  {
  }

  /** Each run of `startDiscovery` hands one task to the provider's slot. */
  lemma StartOneAddsTask<T>(s: Sys<T>, p: nat, query: String, token: int, confirmed: bool)
    requires Valid(s) && p < |s.providers|
    ensures Tasks(StartOne(s, p, query, token, confirmed), p) == Tasks(s, p) + 1
  {
  }

  /** The first of increasing start commands addresses a provider none of the rest does. */
  lemma TargetsSplit(cmds: seq<C.Command>)
    requires |cmds| > 0 && forall k :: 0 <= k < |cmds| ==> cmds[k].StartDiscovery?
    requires forall j, k :: 0 <= j < k < |cmds| ==> cmds[j].provider < cmds[k].provider
    ensures cmds[0].provider !in Targets(cmds[1..])
    ensures forall i :: i in Targets(cmds) <==> i == cmds[0].provider || i in Targets(cmds[1..])
  {
    var rest := cmds[1..];
    assert forall k :: 0 <= k < |rest| ==> rest[k] == cmds[k + 1];
    forall i | i in Targets(cmds) && i != cmds[0].provider
      ensures i in Targets(rest)
    {
      var k :| 0 <= k < |cmds| && cmds[k].provider == i;
      assert rest[k - 1] == cmds[k];
    }
  }

  /**
   * When the debounce timer fires, `startDiscovery` runs exactly once on
   * every provider that is active and never on an inactive one.
   */
  lemma TimerStartsEachActiveProviderOnce<T>(s: Sys<T>)
    requires Valid(s) && s.ctl.pending.Some?
    ensures var r := TimerFires(s);
            forall i :: 0 <= i < |s.providers| ==>
              (s.providers[i].active ==> Tasks(r, i) == Tasks(s, i) + 1)
              && (!s.providers[i].active ==> r.providers[i] == s.providers[i])
  {
    var actives := Actives(s.providers);
    var rc := C.TimerFires(s.ctl, actives);
    C.DispatchStartsExactlyTheActive(s.ctl, s.ctl.pending.value, actives);
    DispatchCommands(s.ctl, s.ctl.pending.value, actives);
    StartsRunOncePerTarget(Respond(s, rc), rc.commands, {});
    TargetsAreActive(s, rc.commands);
  }

  /** Start commands addressing exactly the active set address exactly the active providers. */
  lemma TargetsAreActive<T>(s: Sys<T>, cmds: seq<C.Command>)
    requires forall k :: 0 <= k < |cmds| ==> cmds[k].StartDiscovery?
    requires forall p :: p in C.ActiveSet(Actives(s.providers)) <==> exists k :: 0 <= k < |cmds| && cmds[k].provider == p
    ensures forall i :: 0 <= i < |s.providers| ==> (i in Targets(cmds) <==> s.providers[i].active)
  {
    var actives := Actives(s.providers);
    forall i | 0 <= i < |s.providers| ensures i in Targets(cmds) <==> s.providers[i].active {
      assert i in C.ActiveSet(actives) <==> actives[i];
    }
  }

  /** Two command lists run one after the other. */
  lemma {:induction false} RunCommandsAppend<T>(s: Sys<T>, a: seq<C.Command>, b: seq<C.Command>, granted: set<P.Permission>)
    requires Valid(s) && ControllerCommands(a, |s.providers|) && ControllerCommands(b, |s.providers|)
    ensures ControllerCommands(a + b, |s.providers|)
    ensures RunCommands(s, a + b, granted) == RunCommands(RunCommands(s, a, granted), b, granted)
    decreases |a|
  {
    if |a| == 0 {
      assert a + b == b;
    } else {
      assert (a + b)[0] == a[0] && (a + b)[1..] == a[1..] + b;
      assert [a[0]] == a[..1];
      RunCommandsAppend(RunCommand(s, a[0], granted), a[1..], b, granted);
    }
  }

  /** A list of one command runs that command. */
  lemma RunOne<T>(t: Sys<T>, x: C.Command, granted: set<P.Permission>)
    requires Valid(t) && ControllerCommands([x], |t.providers|)
    ensures RunCommands(t, [x], granted) == RunCommand(t, x, granted)
  {
    assert [x][1..] == [];
  }

  /** One provider's flip (and restart, when activating) sets its flag and hands one task to its slot when activated. */
  lemma FlipEffect<T>(t: Sys<T>, c: C.Ctl, p: nat, active: bool)
    requires Valid(t) && p < |t.providers|
    ensures ControllerCommands(C.FlipCommands(c, p, active), |t.providers|)
    ensures var r := RunCommands(t, C.FlipCommands(c, p, active), {});
            && r.providers[p].active == active
            && Tasks(r, p) == Tasks(t, p) + (if active then 1 else 0)
            && forall i :: 0 <= i < |t.providers| && i != p ==> r.providers[i] == t.providers[i]
  {
    if active {
      FlipOnEffect(t, c, p);
    } else {
      FlipOffEffect(t, c, p);
    }
  }

  /** Activating: the flag is set, then `startDiscovery` hands one task to the slot. */
  lemma FlipOnEffect<T>(t: Sys<T>, c: C.Ctl, p: nat)
    requires Valid(t) && p < |t.providers|
    ensures ControllerCommands(C.FlipCommands(c, p, true), |t.providers|)
    ensures var r := RunCommands(t, C.FlipCommands(c, p, true), {});
            && r.providers[p].active
            && Tasks(r, p) == Tasks(t, p) + 1
            && forall i :: 0 <= i < |t.providers| && i != p ==> r.providers[i] == t.providers[i]
  {
    var flip := C.SetProviderActive(p, true);
    var start := C.StartDiscovery(p, c.query, c.token, c.confirmed);
    assert C.FlipCommands(c, p, true) == [flip, start];
    FlagEffect(t, p, true);
    var t1 := RunCommand(t, flip, {});
    RunTwo(t, flip, start, {});
    StartOneAddsTask(t1, p, c.query, c.token, c.confirmed);
  }

  /** A list of two commands runs one, then the other. */
  lemma RunTwo<T>(t: Sys<T>, x: C.Command, y: C.Command, granted: set<P.Permission>)
    requires Valid(t) && ControllerCommands([x, y], |t.providers|)
    ensures ControllerCommands([x], |t.providers|) && ControllerCommands([y], |t.providers|)
    ensures RunCommands(t, [x, y], granted) == RunCommand(RunCommand(t, x, granted), y, granted)
  {
    assert [x, y][0] == x && [x, y][1] == y;
    assert [x, y][1..] == [y];
    RunOne(RunCommand(t, x, granted), y, granted);
  }

  /** Setting one provider's flag changes nothing else. */
  lemma FlagEffect<T>(t: Sys<T>, p: nat, active: bool)
    requires Valid(t) && p < |t.providers|
    ensures ControllerCommands([C.SetProviderActive(p, active)], |t.providers|)
    ensures var r := RunCommand(t, C.SetProviderActive(p, active), {});
            && r.providers[p].active == active
            && Tasks(r, p) == Tasks(t, p)
            && forall i :: 0 <= i < |t.providers| && i != p ==> r.providers[i] == t.providers[i]
  {
  }

  /** Deactivating: only the flag changes. */
  lemma FlipOffEffect<T>(t: Sys<T>, c: C.Ctl, p: nat)
    requires Valid(t) && p < |t.providers|
    ensures ControllerCommands(C.FlipCommands(c, p, false), |t.providers|)
    ensures var r := RunCommands(t, C.FlipCommands(c, p, false), {});
            && !r.providers[p].active
            && Tasks(r, p) == Tasks(t, p)
            && forall i :: 0 <= i < |t.providers| && i != p ==> r.providers[i] == t.providers[i]
  {
    var flip := C.SetProviderActive(p, false);
    assert C.FlipCommands(c, p, false) == [flip];
    FlagEffect(t, p, false);
    RunOne(t, flip, {});
  }

  /**
   * From provider `from` on, every matching provider whose flag differs
   * from `active` has the new flag in `r`, and one more task exactly when
   * it is activated; every other provider is as it was in `t`.
   */
  ghost predicate FlipsApplied<T>(t: Sys<T>, r: Sys<T>, matching: set<ProviderId>, active: bool, actives: seq<bool>, from: nat)
    requires |t.providers| == |actives| && |r.providers| == |actives|
  {
    forall i :: 0 <= i < |actives| ==>
      (from <= i && i in matching && actives[i] != active ==>
         r.providers[i].active == active && Tasks(r, i) == Tasks(t, i) + (if active then 1 else 0))
      && (!(from <= i && i in matching && actives[i] != active) ==> r.providers[i] == t.providers[i])
  }

  /** The effect on provider `from`, followed by the effect on the later providers. */
  lemma FlipsCompose<T>(t: Sys<T>, t1: Sys<T>, r: Sys<T>, matching: set<ProviderId>, active: bool, actives: seq<bool>, from: nat)
    requires |t.providers| == |actives| && |t1.providers| == |actives| && |r.providers| == |actives| && from < |actives|
    requires from in matching && actives[from] != active ==>
               t1.providers[from].active == active && Tasks(t1, from) == Tasks(t, from) + (if active then 1 else 0)
    requires !(from in matching && actives[from] != active) ==> t1.providers[from] == t.providers[from]
    requires forall i :: 0 <= i < |actives| && i != from ==> t1.providers[i] == t.providers[i]
    requires FlipsApplied(t1, r, matching, active, actives, from + 1)
    ensures FlipsApplied(t, r, matching, active, actives, from)
  {
    forall i | 0 <= i < |actives| && i != from
      ensures Tasks(t1, i) == Tasks(t, i)
    {
      assert t1.providers[i] == t.providers[i];
    }
  }

  /** `setActive`'s commands from provider `from` on apply exactly the flips from there. */
  lemma {:induction false} SetActiveFrom<T>(t: Sys<T>, c: C.Ctl, matching: set<ProviderId>, active: bool, actives: seq<bool>, from: nat)
    requires Valid(t) && |actives| == |t.providers| && from <= |actives|
    ensures ControllerCommands(C.SetActiveCommands(c, matching, active, actives, from), |t.providers|)
    ensures FlipsApplied(t, RunCommands(t, C.SetActiveCommands(c, matching, active, actives, from), {}),
                         matching, active, actives, from)
    decreases |actives| - from
  {
    if from < |actives| {
      var flips := from in matching && actives[from] != active;
      var here := if flips then C.FlipCommands(c, from, active) else [];
      var rest := C.SetActiveCommands(c, matching, active, actives, from + 1);
      assert C.SetActiveCommands(c, matching, active, actives, from) == here + rest;
      HereCommands(c, from, |t.providers|, active, flips, here);
      SetActiveFrom(RunCommands(t, here, {}), c, matching, active, actives, from + 1);
      SetActiveStep(t, c, matching, active, actives, from, here, rest, C.SetActiveCommands(c, matching, active, actives, from));
    }
  }

  /** The flips for provider `from`, then those already shown for the later providers. */
  lemma SetActiveStep<T>(t: Sys<T>, c: C.Ctl, matching: set<ProviderId>, active: bool, actives: seq<bool>, from: nat,
                         here: seq<C.Command>, rest: seq<C.Command>, cmds: seq<C.Command>)
    requires Valid(t) && |actives| == |t.providers| && from < |actives|
    requires here == if from in matching && actives[from] != active then C.FlipCommands(c, from, active) else []
    requires ControllerCommands(here, |t.providers|) && ControllerCommands(rest, |t.providers|)
    requires FlipsApplied(RunCommands(t, here, {}), RunCommands(RunCommands(t, here, {}), rest, {}), matching, active, actives, from + 1)
    requires cmds == here + rest
    ensures ControllerCommands(cmds, |t.providers|)
    ensures FlipsApplied(t, RunCommands(t, cmds, {}), matching, active, actives, from)
  {
    var flips := from in matching && actives[from] != active;
    var t1 := RunCommands(t, here, {});
    HereEffect(t, c, from, active, flips, here);
    RunCommandsAppend(t, here, rest, {});
    FlipsCompose(t, t1, RunCommands(t1, rest, {}), matching, active, actives, from);
  }

  /** Provider p's own commands address p and are all controller commands. */
  lemma HereCommands(c: C.Ctl, p: nat, n: nat, active: bool, flips: bool, here: seq<C.Command>)
    requires p < n
    requires here == if flips then C.FlipCommands(c, p, active) else []
    ensures ControllerCommands(here, n)
  {
    if flips {
      C.FlipCommandsShape(c, p, active);
    }
  }

  /** The commands for provider `from` alone: its flip when it differs, else nothing. */
  lemma HereEffect<T>(t: Sys<T>, c: C.Ctl, p: nat, active: bool, flips: bool, here: seq<C.Command>)
    requires Valid(t) && p < |t.providers|
    requires here == if flips then C.FlipCommands(c, p, active) else []
    ensures ControllerCommands(here, |t.providers|)
    ensures var r := RunCommands(t, here, {});
            && (flips ==> r.providers[p].active == active && Tasks(r, p) == Tasks(t, p) + (if active then 1 else 0))
            && (!flips ==> r.providers[p] == t.providers[p])
            && forall i :: 0 <= i < |t.providers| && i != p ==> r.providers[i] == t.providers[i]
  {
    if flips {
      FlipEffect(t, c, p, active);
    }
  }

  /**
   * The host's `setActive(class, active)`: exactly the providers of the
   * class whose flag differs are flipped, an activated one runs
   * `startDiscovery` once (one new task), a deactivated one runs nothing,
   * and every other provider is left as it was.
   */
  lemma SetActiveFlipsEachDiffering<T>(s: Sys<T>, matching: set<ProviderId>, active: bool)
    requires Valid(s)
    ensures var r := SetActive(s, matching, active);
            forall i :: 0 <= i < |s.providers| ==>
              (i in matching && s.providers[i].active != active ==>
                 r.providers[i].active == active && Tasks(r, i) == Tasks(s, i) + (if active then 1 else 0))
              && (!(i in matching && s.providers[i].active != active) ==> r.providers[i] == s.providers[i])
  {
    SetActiveFrom(s, s.ctl, matching, active, Actives(s.providers), 0);
  }

  /**
   * A worker delivering for a token that is no longer current leaves the
   * controller's query, token, result counts and loading flag alone, yet
   * the host hears the results.
   */
  lemma StaleDeliveryForwardedNotRecorded<T>(s: Sys<T>, p: nat, task: nat, list: seq<T>)
    requires Valid(s) && p < |s.providers|
    requires task < |s.providers[p].manager.slot.tasks|
    requires s.providers[p].manager.slot.tasks[task].completion == Slots.Pending
    requires s.providers[p].manager.listeners[task].Some?
    requires s.providers[p].manager.listeners[task].value.1 != s.ctl.token
    ensures var r := WorkerDelivers(s, p, task, Slots.Succeeded(Some(list)));
            r.ctl == s.ctl
            && r.host == s.host + [C.ProviderResults(p, s.providers[p].manager.listeners[task].value.0, list)]
  {
    var (q, t) := s.providers[p].manager.listeners[task].value;
    var (ps, events) := P.Deliver(s.providers[p], task, Slots.Succeeded(Some(list)));
    assert events == [Event(p, DiscoveryCompleted(q, t, Some(list), None))];
    var s1 := ReplaceProvider(s, p, ps);
    var st := C.OnCall(s1.ctl, events[0], Actives(s1.providers), true);
    C.StaleCompletionForwardedNotRecorded(s1.ctl, p, q, t, Some(list), None, Actives(s1.providers), true);
    assert st.ctl == s.ctl && st.host == [C.ProviderResults(p, q, list)];
    assert AbsorbOutcomes(s1, events) == AbsorbOutcomes(Record(s1, st), []);
  }
}
