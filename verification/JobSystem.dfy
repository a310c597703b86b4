/**
 The job table, the background tasks and the concurrency slots as one transition system.

 A task is a program counter between awaits; each event is one atomic step of a route, of a task,
 or of the process. Events that are not possible in a state leave it unchanged, so every sequence
 of events is a run.
 */
module JobSystem {
  import opened Options
  import opened JobTable

  /** Where a task stands. `Setup` to `Finalizing` lie between acquiring and releasing the slot. */
  datatype Pc =
    | Created                        // the task exists but has not taken its first step
    | Waiting                        // blocked on the semaphore
    | Marking                        // cancelled while waiting; about to mark the row
    | Setup                          // holds a slot; has not yet committed `executing`
    | Flipped                        // row committed as `executing`; executor not started
    | Running                        // the executor runs
    | Finalizing(outcome: Status)    // the executor is over; the outcome is not yet persisted
    | Finished                       // over; the done-callback has not evicted it yet

  datatype Task = Task(pc: Pc, cancelRequested: bool)

  datatype State = State(table: Table, nextId: nat, nextRun: nat, tasks: map<nat, Task>, free: int, cap: nat)

  datatype Event =
    // routes
    | Recommend(cluster: nat, scope: set<JobType>, suggestions: seq<Suggestion>)
    | Approve(id: nat)
    | Reject(id: nat)
    | ApproveAll(cluster: nat, tier: Option<int>)
    // `writable`: the cluster in the path accepts work; `submitted`: nothing is raised between the
    // commit that queues the rows and their submission to the runner
    | Execute(id: nat, writable: bool, submitted: bool)
    | ExecuteAll(cluster: nat, writable: bool, submitted: bool)
    | SubmitDirect(job: Job, writable: bool, submitted: bool)
    | ClearQueue(cluster: nat)
    | ClearHistory(cluster: nat)
    | CancelJob(id: nat)
    // tasks
    | Begin(id: nat)
    | Acquire(id: nat)
    | Mark(id: nat, committed: bool)
    | Flip(id: nat)
    | StartExecutor(id: nat, known: bool)
    | Succeed(id: nat)
    | Persist(id: nat, committed: bool)
    | Interrupt(id: nat, cancel: bool, applied: bool)
    | Evict(id: nat)
    // administration
    | DeleteCluster(cluster: nat)
    // process
    | StopAll
    | Restart

  predicate HoldsSlot(pc: Pc) { pc.Setup? || pc.Flipped? || pc.Running? || pc.Finalizing? }

  predicate At(s: State, id: nat, pc: Pc) { id in s.tasks && s.tasks[id].pc == pc }

  // ---------------------------------------------------------------- runner primitives

  function Submitted(tasks: map<nat, Task>, ids: set<nat>): map<nat, Task> {
    tasks + map id | id in ids && id !in tasks :: Task(Created, false)
  }

  function CancelTasks(tasks: map<nat, Task>, ids: set<nat>): map<nat, Task> {
    map id | id in tasks ::
      if id in ids && !tasks[id].pc.Finished? then tasks[id].(cancelRequested := true) else tasks[id]
  }

  function GoTo(s: State, id: nat, pc: Pc): State
    requires id in s.tasks
  {
    s.(tasks := s.tasks[id := s.tasks[id].(pc := pc)])
  }

  /** The task ends; a slot it holds is released on the way out. */
  function End(s: State, id: nat): State
    requires id in s.tasks
  {
    GoTo(s, id, Finished).(free := if HoldsSlot(s.tasks[id].pc) then s.free + 1 else s.free)
  }

  /** The first terminal writer wins. */
  function Persisted(t: Table, id: nat, outcome: Status): Table {
    if id in t && !Terminal(t[id].status) then t[id := t[id].(status := outcome)] else t
  }

  // ---------------------------------------------------------------- routes

  ghost function OnRecommend(s: State, cluster: nat, scope: set<JobType>, all: seq<Suggestion>): State {
    var ss := Scoped(all, scope);
    s.(table := Reconcile(s.table, s.nextId, cluster, scope, ss, s.nextRun),
       nextId := s.nextId + |ToInsert(s.table, cluster, scope, ss)|, nextRun := s.nextRun + 1)
  }

  /** The job is looked up by its id alone; its cluster is not compared with the one in the path. */
  function OnExecute(s: State, id: nat, writable: bool, submitted: bool): State {
    if id in s.table && s.table[id].status.Approved? && writable then
      s.(table := Move(s.table, id, Approved, Queued), tasks := Submitted(s.tasks, if submitted then {id} else {}))
    else s
  }

  function OnExecuteAll(s: State, cluster: nat, writable: bool, submitted: bool): State {
    if !writable then s
    else
      var b := EnqueueBelow(s.table, cluster, s.nextId);
      s.(table := b.table, tasks := Submitted(s.tasks, if submitted then b.ids else {}))
  }

  /** Drain, promote, reindex and relocate insert a row that is queued from the start. */
  function OnSubmitDirect(s: State, job: Job, writable: bool, submitted: bool): State {
    if !writable then s
    else
      s.(table := s.table[s.nextId := job.(status := Queued, fingerprint := None, run := s.nextRun)],
         nextId := s.nextId + 1, nextRun := s.nextRun + 1,
         tasks := Submitted(s.tasks, if submitted then {s.nextId} else {}))
  }

  function OnClearQueue(s: State, cluster: nat): State {
    s.(table := ClearApproved(s.table, cluster), tasks := CancelTasks(s.tasks, QueuedIds(s.table, cluster)))
  }

  function OnCancelJob(s: State, id: nat): State {
    if id in s.table && InFlight(s.table[id].status) then s.(tasks := CancelTasks(s.tasks, {id})) else s
  }

  // ---------------------------------------------------------------- task steps

  function OnAcquire(s: State, id: nat): State {
    if At(s, id, Waiting) && s.free > 0 then GoTo(s, id, Setup).(free := s.free - 1) else s
  }

  function OnMark(s: State, id: nat, committed: bool): State {
    if !At(s, id, Marking) then s
    else End(s, id).(table := if committed then Move(s.table, id, Queued, Cancelled) else s.table)
  }

  function OnFlip(s: State, id: nat): State {
    if !At(s, id, Setup) then s
    else if id !in s.table || !s.table[id].status.Queued? then End(s, id)
    else GoTo(s, id, Flipped).(table := Move(s.table, id, Queued, Executing))
  }

  function OnPersist(s: State, id: nat, committed: bool): State {
    if id !in s.tasks || !s.tasks[id].pc.Finalizing? then s
    else End(s, id).(table := if committed then Persisted(s.table, id, s.tasks[id].pc.outcome) else s.table)
  }

  /** A cancellation is delivered, or an exception raised, at the await the task stands at. When it
      hits a commit, `applied` says whether the database took the write. */
  function OnInterrupt(s: State, id: nat, cancel: bool, applied: bool): State {
    if id !in s.tasks || (cancel && !s.tasks[id].cancelRequested) then s
    else
      match s.tasks[id].pc
      case Created => if cancel then End(s, id) else s
      case Waiting => if cancel then GoTo(s, id, Marking) else s
      case Marking => OnMark(s, id, applied)
      case Setup => End(s, id).(table := if applied then Move(s.table, id, Queued, Executing) else s.table)
      case Flipped => End(s, id)
      case Running => GoTo(s, id, Finalizing(if cancel then Cancelled else Failed))
      case Finalizing(_) => OnPersist(s, id, applied)
      case Finished => s
  }

  /** A new process: no tasks, all slots free, interrupted rows queued and submitted again. */
  function OnRestart(s: State): State {
    s.(table := Requeue(s.table), free := s.cap, tasks := Submitted(map[], InFlightIds(s.table)))
  }

  ghost function React(s: State, e: Event): State {
    match e
    case Recommend(cluster, scope, all) => OnRecommend(s, cluster, scope, all)
    case Approve(id) => s.(table := Move(s.table, id, Pending, Approved))
    case Reject(id) => s.(table := Move(s.table, id, Pending, Rejected))
    case ApproveAll(cluster, tier) => s.(table := BulkApprove(s.table, cluster, tier))
    case Execute(id, writable, submitted) => OnExecute(s, id, writable, submitted)
    case ExecuteAll(cluster, writable, submitted) => OnExecuteAll(s, cluster, writable, submitted)
    case SubmitDirect(job, writable, submitted) => OnSubmitDirect(s, job, writable, submitted)
    case ClearQueue(cluster) => OnClearQueue(s, cluster)
    case ClearHistory(cluster) => s.(table := ClearTerminal(s.table, cluster))
    case CancelJob(id) => OnCancelJob(s, id)
    case Begin(id) => if At(s, id, Created) then GoTo(s, id, Waiting) else s
    case Acquire(id) => OnAcquire(s, id)
    case Mark(id, committed) => OnMark(s, id, committed)
    case Flip(id) => OnFlip(s, id)
    case StartExecutor(id, known) =>
      if At(s, id, Flipped) then GoTo(s, id, if known then Running else Finalizing(Failed)) else s
    case Succeed(id) => if At(s, id, Running) then GoTo(s, id, Finalizing(Completed)) else s
    case Persist(id, committed) => OnPersist(s, id, committed)
    case Interrupt(id, cancel, applied) => OnInterrupt(s, id, cancel, applied)
    case Evict(id) => if At(s, id, Finished) then s.(tasks := s.tasks - {id}) else s
    case DeleteCluster(cluster) => s.(table := WithoutCluster(s.table, cluster))
    case StopAll => s.(tasks := CancelTasks(s.tasks, s.tasks.Keys))
    case Restart => OnRestart(s)
  }

  ghost function Run(s: State, es: seq<Event>): State
    decreases |es|
  {
    if es == [] then s else Run(React(s, es[0]), es[1..])
  }

  function Initial(cap: nat): State { State(map[], 0, 0, map[], cap, cap) }
}
