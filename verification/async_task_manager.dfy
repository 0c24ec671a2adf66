/**
 * AsyncTaskManager: a slot holding at most one task.  Executing a new task
 * aborts the held one and takes its place; abort is best-effort, so an
 * aborted worker may still deliver later.  Every task is wrapped in a
 * completion source whose first success or failure wins.
 */
module AsyncTaskManager {
  import opened Wrappers

  /** A null action yields the no-op task; any other action a worker task. */
  datatype TaskKind = NoOpTask | WorkerTask

  /** The state of a task's completion source; a success may carry null (None). */
  datatype Completion<T> = Pending | Succeeded(value: Option<T>) | Failed(error: JavaException)

  /**
   * One created task: how many times `abort()` was called on it, whether
   * that requested a cancellation (workers only), and its completion.
   */
  datatype TaskRecord<T> = TaskRecord(kind: TaskKind, abortCalls: nat, cancelRequested: bool, completion: Completion<T>)

  /** The manager: the held task (by creation index) and every task created so far. */
  datatype Slot<T> = Slot(held: Option<nat>, tasks: seq<TaskRecord<T>>)

  predicate Valid<T>(s: Slot<T>)
  {
    s.held.Some? ==> s.held.value < |s.tasks|
  }

  /** A fresh manager holds no task. */
  function Empty<T>(): Slot<T>
  {
    Slot(None, [])
  }

  /** AsyncTask.abort: a worker is cancelled (best effort); a no-op task ignores it. */
  function Abort<T>(t: TaskRecord<T>): (r: TaskRecord<T>)
    ensures r.abortCalls == t.abortCalls + 1
    ensures r.kind == t.kind && r.completion == t.completion
    ensures r.cancelRequested == (t.cancelRequested || t.kind == WorkerTask)
  {
    match t.kind
    case NoOpTask => t.(abortCalls := t.abortCalls + 1)
    case WorkerTask => t.(abortCalls := t.abortCalls + 1, cancelRequested := true)
  }

  /** A newly created task; the no-op task completes with null inside `execute`. */
  function NewTask<T>(hasAction: bool): TaskRecord<T>
  {
    if hasAction then TaskRecord(WorkerTask, 0, false, Pending)
    else TaskRecord(NoOpTask, 0, false, Succeeded(None))
  }

  /**
   * `execute`: creates the task, aborts the held one if any, and holds the
   * new one.  Returns the new slot and the new task's index.
   */
  function Execute<T>(s: Slot<T>, hasAction: bool): (r: (Slot<T>, nat))
    requires Valid(s)
    ensures Valid(r.0)
    ensures r.1 == |s.tasks| && |r.0.tasks| == |s.tasks| + 1
    ensures r.0.held == Some(r.1)
    ensures r.0.tasks[r.1] == NewTask(hasAction)
    ensures r.0.tasks[r.1].abortCalls == 0 && !r.0.tasks[r.1].cancelRequested
    ensures !hasAction <==> r.0.tasks[r.1].kind == NoOpTask
    ensures !hasAction ==> r.0.tasks[r.1].completion == Succeeded(None)
    ensures hasAction ==> r.0.tasks[r.1].completion == Pending
    ensures s.held.Some? ==> r.0.tasks[s.held.value] == Abort(s.tasks[s.held.value])
    ensures forall i :: 0 <= i < |s.tasks| && Some(i) != s.held ==> r.0.tasks[i] == s.tasks[i]
  {
    var aborted := if s.held.Some? then s.tasks[s.held.value := Abort(s.tasks[s.held.value])] else s.tasks;
    var id := |s.tasks|;
    (Slot(Some(id), aborted + [NewTask(hasAction)]), id)
  }

  /**
   * A worker reporting its outcome (trySetResult / trySetException): only
   * the first report completes the task.  `fired` says whether this report
   * completed it, which is when the task's listeners run.
   */
  function Deliver<T>(s: Slot<T>, id: nat, outcome: Completion<T>): (r: (Slot<T>, bool))
    requires Valid(s) && id < |s.tasks| && outcome != Pending
    ensures Valid(r.0) && |r.0.tasks| == |s.tasks| && r.0.held == s.held
    ensures r.1 <==> s.tasks[id].completion == Pending
    ensures r.1 ==> r.0.tasks[id] == s.tasks[id].(completion := outcome)
    ensures !r.1 ==> r.0 == s
    ensures forall i :: 0 <= i < |s.tasks| && i != id ==> r.0.tasks[i] == s.tasks[i]
  {
    if s.tasks[id].completion == Pending then
      (s.(tasks := s.tasks[id := s.tasks[id].(completion := outcome)]), true)
    else (s, false)
  }

  /**
   * The previously held task gets exactly one abort; the first `execute`
   * on an empty manager aborts nothing.
   */
  lemma ExecuteAbortsExactlyThePrevious<T>(s: Slot<T>, hasAction: bool)
    requires Valid(s)
    ensures var s' := Execute(s, hasAction).0;
            forall i :: 0 <= i < |s.tasks| ==>
              s'.tasks[i].abortCalls == s.tasks[i].abortCalls + (if s.held == Some(i) then 1 else 0)
  {
  }

  /** Aborting a no-op task changes nothing but the call count, however often it is done. */
  lemma AbortNoOpIsHarmless<T>(t: TaskRecord<T>)
    requires t.kind == NoOpTask
    ensures Abort(Abort(t)).(abortCalls := t.abortCalls) == t
  {
  }

  /** A completed task stays completed with the same outcome: the first report wins. */
  lemma CompletesAtMostOnce<T>(s: Slot<T>, id: nat, first: Completion<T>, second: Completion<T>)
    requires Valid(s) && id < |s.tasks| && first != Pending && second != Pending
    requires s.tasks[id].completion == Pending
    ensures var (s1, fired1) := Deliver(s, id, first);
            var (s2, fired2) := Deliver(s1, id, second);
            fired1 && !fired2 && s2.tasks[id].completion == first
  {
  }

  /** An aborted worker can still complete: abort does not detach the callback. */
  lemma AbortedWorkerStillDelivers<T>(s: Slot<T>, outcome: Completion<T>)
    requires Valid(s) && outcome != Pending
    ensures var (s1, id) := Execute(s, true);
            var (s2, _) := Execute(s1, true);
            s2.tasks[id].cancelRequested && Deliver(s2, id, outcome).1
  {
  }
}
