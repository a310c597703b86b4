/** What every run of the job system keeps. */
module JobSafety {
  import opened Options
  import opened JobTable
  import opened JobSystem
  import opened Reconciliation
  import Batching

  // ---------------------------------------------------------------- lifecycle

  function StatusOf(s: State, id: nat): Option<Status> {
    if id in s.table then Some(s.table[id].status) else None
  }

  /** The edges of the job lifecycle, by the kind of event that may take them. */
  predicate Edge(from: Option<Status>, to: Option<Status>, e: Event) {
    if from == to then true
    else match (from, to)
      case (None, Some(b)) => (e.Recommend? && b.Pending?) || (e.SubmitDirect? && b.Queued?)
      case (Some(a), None) =>
        || (e.Recommend? && a.Pending?)
        || (e.ClearQueue? && a.Approved?)
        || (e.ClearHistory? && Terminal(a))
        || e.DeleteCluster?
      case (Some(a), Some(b)) =>
        || (a.Pending? && b.Approved? && (e.Approve? || e.ApproveAll?))
        || (a.Pending? && b.Rejected? && e.Reject?)
        || (a.Approved? && b.Queued? && (e.Execute? || e.ExecuteAll?))
        || (a.Queued? && b.Executing? && (e.Flip? || e.Interrupt?))
        || (a.Queued? && b.Cancelled? && (e.Mark? || e.Interrupt?))
        || (a.Executing? && (b.Completed? || b.Failed? || b.Cancelled?) && (e.Persist? || e.Interrupt?))
        || (a.Executing? && b.Queued? && e.Restart?)
      case (None, None) => true
  }

  // ---------------------------------------------------------------- invariant

  function Holders(s: State): set<nat> { set id | id in s.tasks && HoldsSlot(s.tasks[id].pc) }

  /** The status of a row, as far as a task's position tells. */
  predicate StatusFits(status: Status, pc: Pc) {
    match pc
    case Created => status.Queued?
    case Waiting => status.Queued?
    case Marking => status.Queued?
    case Setup => status.Queued?
    case Flipped => status.Executing?
    case Running => status.Executing?
    case Finalizing(_) => status.Executing?
    case Finished => !status.Pending? && !status.Approved?
  }

  /** What a task's position says about its row, which may be gone with its cluster. */
  predicate RowFits(s: State, id: nat)
    requires id in s.tasks
  {
    var pc := s.tasks[id].pc;
    && (id in s.table ==> StatusFits(s.table[id].status, pc))
    && (pc.Finalizing? ==> pc.outcome.Completed? || pc.outcome.Failed? || pc.outcome.Cancelled?)
  }

  predicate Inv(s: State) {
    && Below(s.table, s.nextId)
    && (forall id :: id in s.tasks ==> id < s.nextId && RowFits(s, id))
    && s.free + |Holders(s)| == s.cap && s.free >= 0
  }

  lemma InitialInv(cap: nat)
    ensures Inv(Initial(cap)) && Keyed(Initial(cap).table) && Unique(Initial(cap).table)
  {
    assert Holders(Initial(cap)) == {};
  }

  predicate RouteEvent(e: Event) {
    e.Recommend? || e.Approve? || e.Reject? || e.ApproveAll? || e.Execute? || e.ExecuteAll?
    || e.SubmitDirect? || e.ClearQueue? || e.ClearHistory? || e.CancelJob?
  }

  lemma RecommendEdge(s: State, e: Event, id: nat)
    requires Below(s.table, s.nextId) && e.Recommend?
    ensures Edge(StatusOf(s, id), StatusOf(React(s, e), id), e)
    ensures Below(React(s, e).table, React(s, e).nextId) && s.nextId <= React(s, e).nextId
    ensures id < s.nextId && id !in s.table ==> id !in React(s, e).table
  {
    ReconcileFacts(s.table, s.nextId, e.cluster, e.scope, Scoped(e.suggestions, e.scope), s.nextRun);
    if id >= s.nextId && id in React(s, e).table {
      NewRow(s.table, s.nextId, e.cluster, e.scope, e.suggestions, s.nextRun, id);
    }
  }

  lemma RouteEdge(s: State, e: Event, id: nat)
    requires Inv(s) && RouteEvent(e)
    ensures Edge(StatusOf(s, id), StatusOf(React(s, e), id), e)
    ensures Below(React(s, e).table, React(s, e).nextId) && s.nextId <= React(s, e).nextId
    ensures id < s.nextId && id !in s.table ==> id !in React(s, e).table
  {
    match e {
      case Recommend(_, _, _) => RecommendEdge(s, e, id);
      case ExecuteAll(cluster, _, _) =>
        Batching.BatchFacts(s.table, cluster, s.nextId);
      case _ =>
    }
  }

  /** Each event moves a job along an edge of its lifecycle, or not at all. */
  lemma LifecycleEdge(s: State, e: Event, id: nat)
    requires Inv(s)
    ensures Edge(StatusOf(s, id), StatusOf(React(s, e), id), e)
  {
    if RouteEvent(e) { RouteEdge(s, e, id); }
  }

  /** Routes never touch a slot: they only add tasks that have not started, for rows they queue,
      or flag tasks for cancellation. */
  lemma RouteTasks(s: State, e: Event, id: nat)
    requires Inv(s) && RouteEvent(e)
    ensures var s' := React(s, e);
            && s'.free == s.free && s'.cap == s.cap
            && (id in s.tasks ==> id in s'.tasks && s'.tasks[id].pc == s.tasks[id].pc)
            && (id in s'.tasks && id !in s.tasks ==>
                  s'.tasks[id].pc.Created? && id in s'.table && s'.table[id].status.Queued?)
  {
    if e.ExecuteAll? { Batching.BatchFacts(s.table, e.cluster, s.nextId); }
  }

  lemma SameHolders(s: State, s': State)
    requires forall id :: id in s.tasks ==> id in s'.tasks && s'.tasks[id].pc == s.tasks[id].pc
    requires forall id :: id in s'.tasks && id !in s.tasks ==> s'.tasks[id].pc.Created?
    ensures Holders(s') == Holders(s)
  {}

  lemma RouteKeepsHolders(s: State, e: Event)
    requires Inv(s) && RouteEvent(e)
    ensures Holders(React(s, e)) == Holders(s)
  {
    var s' := React(s, e);
    forall id | id in s.tasks ensures id in s'.tasks && s'.tasks[id].pc == s.tasks[id].pc { RouteTasks(s, e, id); }
    forall id | id in s'.tasks && id !in s.tasks ensures s'.tasks[id].pc.Created? { RouteTasks(s, e, id); }
    SameHolders(s, s');
  }

  lemma RouteKeepsFit(s: State, e: Event, id: nat)
    requires Inv(s) && RouteEvent(e) && id in React(s, e).tasks
    ensures id < React(s, e).nextId && RowFits(React(s, e), id)
  {
    RouteTasks(s, e, id);
    RouteEdge(s, e, id);
    if id in s.tasks {
      assert RowFits(s, id);
      assert StatusOf(s, id) == Some(Queued) ==> StatusOf(React(s, e), id) == Some(Queued);
      assert StatusOf(s, id) == Some(Executing) ==> StatusOf(React(s, e), id) == Some(Executing);
    }
  }

  lemma RouteKeepsInv(s: State, e: Event)
    requires Inv(s) && RouteEvent(e)
    ensures Inv(React(s, e))
  {
    RouteEdge(s, e, 0);
    RouteTasks(s, e, 0);
    RouteKeepsHolders(s, e);
    forall id | id in React(s, e).tasks ensures id < React(s, e).nextId && RowFits(React(s, e), id) {
      RouteKeepsFit(s, e, id);
    }
  }

  predicate TaskEvent(e: Event) { !RouteEvent(e) && !e.DeleteCluster? && !e.StopAll? && !e.Restart? }

  /** A task step concerns its own job only. */
  lemma TaskFrame(s: State, e: Event, id: nat)
    requires TaskEvent(e) && id != e.id
    ensures var s' := React(s, e);
            && s'.nextId == s.nextId && s'.cap == s.cap
            && (id in s'.tasks <==> id in s.tasks) && (id in s.tasks ==> s'.tasks[id] == s.tasks[id])
            && (id in s'.table <==> id in s.table) && (id in s.table ==> s'.table[id] == s.table[id])
  {}

  predicate Holds(s: State, id: nat) { id in s.tasks && HoldsSlot(s.tasks[id].pc) }

  /** The step's own job: row and position fit again ... */
  lemma TaskFits(s: State, e: Event)
    requires Inv(s) && TaskEvent(e)
    ensures var s' := React(s, e);
            && (e.id in s'.tasks ==> e.id in s.tasks && RowFits(s', e.id))
            && (e.id in s'.table <==> e.id in s.table)
  {
    if e.id in s.tasks { assert RowFits(s, e.id); }
  }

  /** ... and the slot count balances. */
  lemma TaskBalances(s: State, e: Event)
    requires s.free >= 0 && TaskEvent(e)
    ensures var s' := React(s, e);
            && s'.nextId == s.nextId && s'.cap == s.cap && s'.free >= 0
            && s'.free + (if Holds(s', e.id) then 1 else 0) == s.free + (if Holds(s, e.id) then 1 else 0)
  {}

  lemma TaskHolders(s: State, e: Event)
    requires TaskEvent(e)
    ensures Holders(React(s, e)) == if Holds(React(s, e), e.id) then Holders(s) + {e.id} else Holders(s) - {e.id}
  {
    var s' := React(s, e);
    forall id
      ensures id in Holders(s') <==> id in (if Holds(s', e.id) then Holders(s) + {e.id} else Holders(s) - {e.id})
    {
      if id != e.id { TaskFrame(s, e, id); }
    }
  }

  lemma TaskKeepsInv(s: State, e: Event)
    requires Inv(s) && TaskEvent(e)
    ensures Inv(React(s, e))
  {
    var s' := React(s, e);
    TaskFits(s, e);
    TaskBalances(s, e);
    TaskHolders(s, e);
    assert |Holders(s')| + (if Holds(s, e.id) then 1 else 0) == |Holders(s)| + (if Holds(s', e.id) then 1 else 0);
    forall id | id in s'.tasks ensures id < s'.nextId && RowFits(s', id) {
      if id != e.id { TaskFrame(s, e, id); assert RowFits(s, id); }
    }
    forall id | id in s'.table ensures id < s'.nextId {
      if id != e.id { TaskFrame(s, e, id); }
    }
  }

  lemma ProcessKeepsInv(s: State, e: Event)
    requires Inv(s) && (e.DeleteCluster? || e.StopAll? || e.Restart?)
    ensures Inv(React(s, e))
  {
    var s' := React(s, e);
    if !e.Restart? {
      assert Holders(s') == Holders(s);
      forall id | id in s'.tasks ensures id < s'.nextId && RowFits(s', id) { assert RowFits(s, id); }
    } else {
      assert Holders(s') == {};
    }
  }

  lemma ReactKeepsInv(s: State, e: Event)
    requires Inv(s)
    ensures Inv(React(s, e)) && React(s, e).cap == s.cap && s.nextId <= React(s, e).nextId
  {
    if RouteEvent(e) { RouteKeepsInv(s, e); RouteEdge(s, e, 0); }
    else if TaskEvent(e) { TaskKeepsInv(s, e); }
    else { ProcessKeepsInv(s, e); }
  }

  lemma {:induction false} RunKeepsInv(s: State, es: seq<Event>)
    requires Inv(s)
    ensures Inv(Run(s, es)) && Run(s, es).cap == s.cap
    decreases |es|
  {
    if es != [] {
      ReactKeepsInv(s, es[0]);
      RunKeepsInv(React(s, es[0]), es[1..]);
    }
  }

  // ---------------------------------------------------------------- concurrency cap

  function Executors(s: State): set<nat> { set id | id in s.tasks && s.tasks[id].pc.Running? }

  lemma SubsetSize(a: set<nat>, b: set<nat>)
    requires a <= b
    ensures |a| <= |b|
  {
    assert b == a + (b - a);
  }

  /** In every interleaving, free slots plus tasks between acquire and release make up the cap, so
      never more than the cap of executors run at once. */
  lemma SlotsConserved(cap: nat, es: seq<Event>)
    ensures var s := Run(Initial(cap), es);
            s.free + |Holders(s)| == cap && 0 <= s.free && |Executors(s)| <= cap
  {
    InitialInv(cap);
    RunKeepsInv(Initial(cap), es);
    SubsetSize(Executors(Run(Initial(cap), es)), Holders(Run(Initial(cap), es)));
  }

  function ExecutingRows(s: State): set<nat> { set id | id in s.table && s.table[id].status.Executing? }

  /** Rows labelled `executing` that no task with a slot stands behind. */
  function Orphans(s: State): set<nat> { ExecutingRows(s) - Holders(s) }

  /** The windows in which a row is left `executing` when its slot is released: a cancellation or
      an exception between the committed flip and the executor's start, and a terminal write that
      is interrupted or whose failure is swallowed. */
  predicate Window(s: State, e: Event) {
    match e
    case Interrupt(id, cancel, applied) =>
      && id in s.tasks && id in s.table && (cancel ==> s.tasks[id].cancelRequested)
      && ((s.tasks[id].pc.Setup? && applied) || s.tasks[id].pc.Flipped? || (s.tasks[id].pc.Finalizing? && !applied))
    case Persist(id, committed) => id in s.tasks && id in s.table && s.tasks[id].pc.Finalizing? && !committed
    case _ => false
  }

  /** A row is orphaned by exactly these windows, and a restart leaves no orphan behind. */
  lemma OrphanedIff(s: State, e: Event)
    requires Inv(s)
    ensures Orphans(React(s, e)) - Orphans(s) != {} <==> Window(s, e)
    ensures Window(s, e) ==> Orphans(React(s, e)) == Orphans(s) + {e.id}
    ensures e.Restart? ==> Orphans(React(s, e)) == {}
  {
    if RouteEvent(e) {
      RouteKeepsOrphans(s, e);
    } else if TaskEvent(e) {
      TaskOrphans(s, e);
    } else {
      ProcessOrphans(s, e);
    }
  }

  lemma ProcessOrphans(s: State, e: Event)
    requires e.DeleteCluster? || e.StopAll? || e.Restart?
    ensures Orphans(React(s, e)) <= Orphans(s) && (e.Restart? ==> Orphans(React(s, e)) == {})
  {
    var s' := React(s, e);
    if e.Restart? {
      assert ExecutingRows(s') == {};
    } else {
      assert Holders(s') == Holders(s);
      assert ExecutingRows(s') <= ExecutingRows(s);
    }
  }

  lemma RouteKeepsOrphans(s: State, e: Event)
    requires Inv(s) && RouteEvent(e)
    ensures Orphans(React(s, e)) == Orphans(s)
  {
    RouteKeepsHolders(s, e);
    forall id ensures id in ExecutingRows(s) <==> id in ExecutingRows(React(s, e)) {
      RouteEdge(s, e, id);
      assert id in ExecutingRows(s) <==> StatusOf(s, id) == Some(Executing);
      assert id in ExecutingRows(React(s, e)) <==> StatusOf(React(s, e), id) == Some(Executing);
    }
  }

  lemma OwnOrphan(s: State, e: Event)
    requires Inv(s) && TaskEvent(e)
    ensures e.id in Orphans(React(s, e)) <==> e.id in Orphans(s) || Window(s, e)
    ensures Window(s, e) ==> e.id !in Orphans(s)
  {
    if e.id in s.tasks { assert RowFits(s, e.id); }
  }

  lemma TaskOrphans(s: State, e: Event)
    requires Inv(s) && TaskEvent(e)
    ensures Orphans(React(s, e)) == if Window(s, e) then Orphans(s) + {e.id} else Orphans(s)
    ensures Window(s, e) ==> e.id !in Orphans(s)
  {
    OwnOrphan(s, e);
    forall id | id != e.id ensures id in Orphans(React(s, e)) <==> id in Orphans(s) { TaskFrame(s, e, id); }
  }

  ghost predicate NoWindow(s: State, es: seq<Event>)
    decreases |es|
  {
    es == [] || (!Window(s, es[0]) && NoWindow(React(s, es[0]), es[1..]))
  }

  lemma {:induction false} NoWindowNoOrphan(s: State, es: seq<Event>)
    requires Inv(s) && NoWindow(s, es) && Orphans(s) == {}
    ensures Inv(Run(s, es)) && Orphans(Run(s, es)) == {} && Run(s, es).cap == s.cap
    decreases |es|
  {
    if es != [] {
      OrphanedIff(s, es[0]);
      ReactKeepsInv(s, es[0]);
      NoWindowNoOrphan(React(s, es[0]), es[1..]);
    }
  }

  /** Without a fault in one of the windows, the rows labelled `executing` stay within the cap,
      each backed by a task that holds a slot. */
  lemma ExecutingRowsWithinCap(cap: nat, es: seq<Event>)
    requires NoWindow(Initial(cap), es)
    ensures var s := Run(Initial(cap), es);
            ExecutingRows(s) <= Holders(s) && |ExecutingRows(s)| <= cap
  {
    InitialInv(cap);
    assert Orphans(Initial(cap)) == {};
    NoWindowNoOrphan(Initial(cap), es);
    var s := Run(Initial(cap), es);
    forall id | id in ExecutingRows(s) ensures id in Holders(s) {
      assert id in Holders(s) || id in Orphans(s);
    }
    SubsetSize(ExecutingRows(s), Holders(s));
  }

  lemma RunStep(s: State, e: Event, rest: seq<Event>)
    ensures Run(s, [e] + rest) == Run(React(s, e), rest)
  {
    assert ([e] + rest)[1..] == rest;
  }

  /** One job through the window: submitted, given a slot, flipped, then hit by an exception. */
  function Orphaning(id: nat, job: Job): seq<Event> {
    var hit := [Interrupt(id, false, false)] + [];
    [SubmitDirect(job, true, true)] + ([Begin(id)] + ([Acquire(id)] + ([Flip(id)] + hit)))
  }

  predicate Stage(s: State, id: nat, pc: Pc, free: int, rows: set<nat>) {
    Inv(s) && At(s, id, pc) && id in s.table && s.free == free && ExecutingRows(s) == rows
  }

  lemma SubmitStage(s: State, job: Job, rest: seq<Event>) returns (s': State)
    requires Inv(s)
    ensures Run(s, [SubmitDirect(job, true, true)] + rest) == Run(s', rest)
    ensures Stage(s', s.nextId, Created, s.free, ExecutingRows(s))
  {
    s' := React(s, SubmitDirect(job, true, true));
    RunStep(s, SubmitDirect(job, true, true), rest);
    ReactKeepsInv(s, SubmitDirect(job, true, true));
    assert s.nextId !in s.tasks;
  }

  lemma BeginStage(s: State, id: nat, rest: seq<Event>) returns (s': State)
    requires Inv(s) && At(s, id, Created) && id in s.table
    ensures Run(s, [Begin(id)] + rest) == Run(s', rest)
    ensures Stage(s', id, Waiting, s.free, ExecutingRows(s))
  {
    s' := React(s, Begin(id));
    RunStep(s, Begin(id), rest);
    ReactKeepsInv(s, Begin(id));
  }

  lemma AcquireStage(s: State, id: nat, rest: seq<Event>) returns (s': State)
    requires Inv(s) && At(s, id, Waiting) && id in s.table && s.free >= 1
    ensures Run(s, [Acquire(id)] + rest) == Run(s', rest)
    ensures Stage(s', id, Setup, s.free - 1, ExecutingRows(s))
  {
    s' := React(s, Acquire(id));
    RunStep(s, Acquire(id), rest);
    ReactKeepsInv(s, Acquire(id));
  }

  lemma FlipStage(s: State, id: nat, rest: seq<Event>) returns (s': State)
    requires Inv(s) && At(s, id, Setup) && id in s.table
    ensures Run(s, [Flip(id)] + rest) == Run(s', rest)
    ensures Stage(s', id, Flipped, s.free, ExecutingRows(s) + {id})
  {
    assert RowFits(s, id);
    s' := React(s, Flip(id));
    RunStep(s, Flip(id), rest);
    ReactKeepsInv(s, Flip(id));
  }

  lemma HitStage(s: State, id: nat, rest: seq<Event>) returns (s': State)
    requires Inv(s) && At(s, id, Flipped) && id in s.table
    ensures Run(s, [Interrupt(id, false, false)] + rest) == Run(s', rest)
    ensures Stage(s', id, Finished, s.free + 1, ExecutingRows(s))
  {
    s' := React(s, Interrupt(id, false, false));
    RunStep(s, Interrupt(id, false, false), rest);
    ReactKeepsInv(s, Interrupt(id, false, false));
  }

  lemma OrphaningAddsRow(s: State, job: Job)
    requires Inv(s) && s.free >= 1
    ensures var s' := Run(s, Orphaning(s.nextId, job));
            Inv(s') && s'.free == s.free && ExecutingRows(s') == ExecutingRows(s) + {s.nextId}
  {
    var id := s.nextId;
    var hit := [Interrupt(id, false, false)] + [];
    var s1 := SubmitStage(s, job, [Begin(id)] + ([Acquire(id)] + ([Flip(id)] + hit)));
    var s2 := BeginStage(s1, id, [Acquire(id)] + ([Flip(id)] + hit));
    var s3 := AcquireStage(s2, id, [Flip(id)] + hit);
    var s4 := FlipStage(s3, id, hit);
    var s5 := HitStage(s4, id, []);
  }

  lemma {:induction false} OrphansPileUp(s: State, job: Job, n: nat) returns (es: seq<Event>)
    requires Inv(s) && s.free >= 1
    ensures |ExecutingRows(Run(s, es))| == |ExecutingRows(s)| + n
    decreases n
  {
    if n == 0 { return []; }
    var first := Orphaning(s.nextId, job);
    OrphaningAddsRow(s, job);
    assert s.nextId !in ExecutingRows(s);
    var rest := OrphansPileUp(Run(s, first), job, n - 1);
    es := first + rest;
    RunAppend(s, first, rest);
  }

  lemma {:induction false} RunAppend(s: State, a: seq<Event>, b: seq<Event>)
    ensures Run(s, a + b) == Run(Run(s, a), b)
    decreases |a|
  {
    if a == [] {
      assert a + b == b;
    } else {
      assert (a + b)[1..] == a[1..] + b;
      RunAppend(React(s, a[0]), a[1..], b);
    }
  }

  /** With faults in the setup window, the rows labelled `executing` exceed any bound. */
  lemma FaultsExceedCap(cap: nat, job: Job, n: nat)
    requires cap >= 1
    ensures exists es :: |ExecutingRows(Run(Initial(cap), es))| == n
  {
    InitialInv(cap);
    var es := OrphansPileUp(Initial(cap), job, n);
    assert ExecutingRows(Initial(cap)) == {};
  }

  /** A task cancelled before its first step never marks its row: the row stays queued although no
      task is left to run it. */
  lemma CancelBeforeFirstStep(s: State, id: nat)
    requires Inv(s) && At(s, id, Created) && id in s.table
    ensures var s' := Run(s, [CancelJob(id)] + ([Interrupt(id, true, false)] + ([Evict(id)] + [])));
            id !in s'.tasks && id in s'.table && s'.table[id].status.Queued? && s'.table == s.table && s'.free == s.free
  {
    assert RowFits(s, id);
    var s1 := React(s, CancelJob(id));
    assert s1.tasks[id] == Task(Created, true);
    var s2 := React(s1, Interrupt(id, true, false));
    assert At(s2, id, Finished);
    RunStep(s, CancelJob(id), [Interrupt(id, true, false)] + ([Evict(id)] + []));
    RunStep(s1, Interrupt(id, true, false), [Evict(id)] + []);
    RunStep(s2, Evict(id), []);
  }

  // ---------------------------------------------------------------- executor starts

  predicate Starts(s: State, e: Event, id: nat) { e == StartExecutor(id, true) && At(s, id, Flipped) }

  ghost function StartCount(s: State, es: seq<Event>, id: nat): nat
    decreases |es|
  {
    if es == [] then 0 else (if Starts(s, es[0], id) then 1 else 0) + StartCount(React(s, es[0]), es[1..], id)
  }

  /** Restarts that found the job's row `executing`. */
  ghost function RecoveryCount(s: State, es: seq<Event>, id: nat): nat
    decreases |es|
  {
    if es == [] then 0
    else
      (if es[0].Restart? && StatusOf(s, id) == Some(Executing) then 1 else 0)
      + RecoveryCount(React(s, es[0]), es[1..], id)
  }

  predicate BeforeExecuting(status: Status) { status.Pending? || status.Approved? || status.Queued? }

  /** Permissions to start that are still outstanding for a job. */
  function Tokens(s: State, id: nat): nat {
    (if id >= s.nextId || (id in s.table && BeforeExecuting(s.table[id].status)) then 1 else 0)
    + (if At(s, id, Flipped) then 1 else 0)
  }

  lemma TokensStep(s: State, e: Event, id: nat)
    requires Inv(s)
    ensures (if Starts(s, e, id) then 1 else 0) + Tokens(React(s, e), id)
            <= Tokens(s, id) + (if e.Restart? && StatusOf(s, id) == Some(Executing) then 1 else 0)
  {
    if RouteEvent(e) {
      RouteEdge(s, e, id);
      RouteTasks(s, e, id);
      assert StatusOf(s, id).None? ==> id >= s.nextId || StatusOf(React(s, e), id).None?;
    } else if TaskEvent(e) {
      if id != e.id { TaskFrame(s, e, id); } else { OwnTokens(s, e); }
    }
  }

  lemma OwnTokens(s: State, e: Event)
    requires Inv(s) && TaskEvent(e)
    ensures (if Starts(s, e, e.id) then 1 else 0) + Tokens(React(s, e), e.id) <= Tokens(s, e.id)
  {
    if e.id in s.tasks { assert RowFits(s, e.id); }
  }

  lemma {:induction false} StartsBound(s: State, es: seq<Event>, id: nat)
    requires Inv(s)
    ensures StartCount(s, es, id) + Tokens(Run(s, es), id) <= Tokens(s, id) + RecoveryCount(s, es, id)
    decreases |es|
  {
    if es != [] {
      TokensStep(s, es[0], id);
      ReactKeepsInv(s, es[0]);
      StartsBound(React(s, es[0]), es[1..], id);
    }
  }

  /** Over any run the executor of a job starts at most once, plus once for each restart that found
      the job executing. */
  lemma AtMostOneStartPerRecovery(cap: nat, es: seq<Event>, id: nat)
    ensures StartCount(Initial(cap), es, id) <= 1 + RecoveryCount(Initial(cap), es, id)
  {
    InitialInv(cap);
    StartsBound(Initial(cap), es, id);
  }

  // ---------------------------------------------------------------- terminal and backward edges

  lemma {:induction false} GoneForever(s: State, es: seq<Event>, id: nat)
    requires Inv(s) && id < s.nextId && id !in s.table
    ensures id !in Run(s, es).table
    decreases |es|
  {
    if es != [] {
      if RouteEvent(es[0]) { RouteEdge(s, es[0], id); } else { LifecycleEdge(s, es[0], id); }
      assert StatusOf(React(s, es[0]), id).None?;
      ReactKeepsInv(s, es[0]);
      GoneForever(React(s, es[0]), es[1..], id);
    }
  }

  /** A terminal row never changes status again, and once deleted its id never comes back. */
  lemma {:induction false} TerminalForever(s: State, es: seq<Event>, id: nat)
    requires Inv(s) && id in s.table && Terminal(s.table[id].status)
    ensures id in Run(s, es).table ==> Run(s, es).table[id].status == s.table[id].status
    decreases |es|
  {
    if es != [] {
      LifecycleEdge(s, es[0], id);
      ReactKeepsInv(s, es[0]);
      if id in React(s, es[0]).table {
        assert StatusOf(React(s, es[0]), id) == StatusOf(s, id);
        TerminalForever(React(s, es[0]), es[1..], id);
      } else {
        GoneForever(React(s, es[0]), es[1..], id);
      }
    }
  }

  function Rank(status: Status): nat {
    match status
    case Pending => 0
    case Approved => 1
    case Queued => 2
    case Executing => 3
    case _ => 4
  }

  /** The lifecycle only goes forward, except that a restart queues executing jobs again. */
  lemma OnlyRestartGoesBack(s: State, e: Event, id: nat)
    requires Inv(s) && id in s.table && id in React(s, e).table
    ensures var from, to := s.table[id].status, React(s, e).table[id].status;
            && (Rank(to) < Rank(from) <==> e.Restart? && from.Executing?)
            && (from != to && Rank(to) == Rank(from) ==> false)
            && (e.Restart? && from.Executing? ==> to.Queued?)
  {
    LifecycleEdge(s, e, id);
    assert Edge(Some(s.table[id].status), Some(React(s, e).table[id].status), e);
  }

  // ---------------------------------------------------------------- one live job per fingerprint

  /** A row that stays keeps the columns its fingerprint is made of. */
  lemma KeyFrame(s: State, e: Event, id: nat)
    requires Inv(s) && id in s.table && id in React(s, e).table
    ensures var a, b := s.table[id], React(s, e).table[id];
            && a.fingerprint == b.fingerprint && a.cluster == b.cluster && a.index == b.index && a.jobType == b.jobType
            && a.targetIndex == b.targetIndex
  {
    if e.Recommend? {
      RecommendFrame(s.table, s.nextId, e.cluster, e.scope, Scoped(e.suggestions, e.scope), s.nextRun, id);
    } else if e.ExecuteAll? {
      Batching.BatchFacts(s.table, e.cluster, s.nextId);
    } else if TaskEvent(e) && id != e.id {
      TaskFrame(s, e, id);
    }
  }

  /** Operator-made rows are not deduplicated: they carry no fingerprint. */
  lemma CreatedWithoutKey(s: State, e: Event, id: nat)
    requires Inv(s) && !e.Recommend? && id !in s.table && id in React(s, e).table
    ensures React(s, e).table[id].fingerprint.None?
  {
    if e.ExecuteAll? { Batching.BatchFacts(s.table, e.cluster, s.nextId); }
  }

  lemma ReactKeepsUnique(s: State, e: Event)
    requires Inv(s) && Keyed(s.table) && Unique(s.table)
    ensures Keyed(React(s, e).table) && Unique(React(s, e).table)
  {
    if e.Recommend? {
      RecommendKeepsUnique(s.table, s.nextId, e.cluster, e.scope, e.suggestions, s.nextRun);
    } else {
      var t, t' := s.table, React(s, e).table;
      forall id | id in t' && t'[id].fingerprint.Some?
        ensures id in t && t[id].fingerprint == t'[id].fingerprint
        ensures t'[id].fingerprint.value == Fingerprint(t'[id].cluster, t'[id].index, t'[id].jobType)
        ensures Live(t'[id].status) ==> Live(t[id].status)
      {
        LifecycleEdge(s, e, id);
        if id !in t { CreatedWithoutKey(s, e, id); } else { KeyFrame(s, e, id); }
      }
    }
  }

  lemma {:induction false} RunKeepsUnique(s: State, es: seq<Event>)
    requires Inv(s) && Keyed(s.table) && Unique(s.table)
    ensures Keyed(Run(s, es).table) && Unique(Run(s, es).table)
    decreases |es|
  {
    if es != [] {
      ReactKeepsUnique(s, es[0]);
      ReactKeepsInv(s, es[0]);
      RunKeepsUnique(React(s, es[0]), es[1..]);
    }
  }

  /** From an empty table, whatever routes, tasks and restarts do, no fingerprint ever has two
      live jobs. */
  lemma OneLiveJobPerFingerprint(cap: nat, es: seq<Event>, i: nat, j: nat)
    ensures var t := Run(Initial(cap), es).table;
            (i in t && j in t && t[i].fingerprint.Some? && t[i].fingerprint == t[j].fingerprint
             && Live(t[i].status) && Live(t[j].status)) ==> i == j
  {
    InitialInv(cap);
    RunKeepsUnique(Initial(cap), es);
  }
}
