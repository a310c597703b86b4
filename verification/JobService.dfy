/**
 The job runner and the routes as the program runs them: one object whose fields the methods
 update in place. Each method is one atomic segment between awaits and is proved to take the step
 that the transition system takes.
 */
module JobService {
  import opened Options
  import opened JobTable
  import opened JobSystem
  import opened Reconciliation
  import JobSafety
  import RecommendRoute
  import Batching

  lemma SubmittedOneMore(tasks: map<nat, Task>, ids: set<nat>, id: nat)
    ensures Submitted(Submitted(tasks, ids), {id}) == Submitted(tasks, ids + {id})
  {}

  lemma CancelledOneMore(tasks: map<nat, Task>, ids: set<nat>, id: nat)
    ensures CancelTasks(CancelTasks(tasks, ids), {id}) == CancelTasks(tasks, ids + {id})
  {}

  /** What every event keeps of a sound state. */
  ghost predicate Sound(s: State) { JobSafety.Inv(s) && Keyed(s.table) && Unique(s.table) }

  lemma StaysSound(s: State, e: Event)
    requires Sound(s)
    ensures Sound(React(s, e))
  {
    JobSafety.ReactKeepsInv(s, e);
    JobSafety.ReactKeepsUnique(s, e);
  }

  class Service {
    var table: Table
    var nextId: nat
    var nextRun: nat
    var tasks: map<nat, Task>
    var free: int
    const cap: nat

    ghost function Now(): State
      reads this
    {
      State(table, nextId, nextRun, tasks, free, cap)
    }

    ghost predicate Valid()
      reads this
    {
      Sound(Now())
    }

    constructor (cap: nat)
      ensures Now() == Initial(cap) && Valid()
    {
      this.cap, free := cap, cap;
      table, nextId, nextRun, tasks := map[], 0, 0, map[];
      new;
      JobSafety.InitialInv(cap);
    }

    /** What soundness means to a caller: at most the cap of executors run, slots are accounted for,
        and no fingerprint has two live jobs. */
    lemma Promises(i: nat, j: nat)
      requires Valid()
      ensures |JobSafety.Executors(Now())| <= cap && free + |JobSafety.Holders(Now())| == cap && free >= 0
      ensures (i in table && j in table && table[i].fingerprint.Some? && table[i].fingerprint == table[j].fingerprint
               && Live(table[i].status) && Live(table[j].status)) ==> i == j
    {
      JobSafety.SubsetSize(JobSafety.Executors(Now()), JobSafety.Holders(Now()));
    }

    // -------------------------------------------------------------- runner

    /** A second submission of a job in flight is a no-op. */
    method Submit(id: nat)
      modifies this`tasks
      ensures tasks == Submitted(old(tasks), {id})
    {
      if id in tasks { return; }
      tasks := tasks[id := Task(Created, false)];
    }

    method SubmitAll(ids: set<nat>)
      modifies this`tasks
      ensures tasks == Submitted(old(tasks), ids)
    {
      var todo := ids;
      assert ids - todo == {} && tasks == Submitted(tasks, {});
      while todo != {}
        invariant todo <= ids && tasks == Submitted(old(tasks), ids - todo)
        decreases |todo|
      {
        var id :| id in todo;
        SubmittedOneMore(old(tasks), ids - todo, id);
        assert (ids - todo) + {id} == ids - (todo - {id});
        todo := todo - {id};
        Submit(id);
      }
      assert ids - todo == ids;
    }

    /** Returns whether there was a task to cancel. */
    method Cancel(id: nat) returns (found: bool)
      modifies this`tasks
      ensures found == (id in old(tasks)) && tasks == CancelTasks(old(tasks), {id})
    {
      found := id in tasks;
      if found && !tasks[id].pc.Finished? { tasks := tasks[id := tasks[id].(cancelRequested := true)]; }
    }

    method CancelAll(ids: set<nat>)
      modifies this`tasks
      ensures tasks == CancelTasks(old(tasks), ids)
    {
      var todo := ids;
      assert ids - todo == {} && tasks == CancelTasks(tasks, {});
      while todo != {}
        invariant todo <= ids && tasks == CancelTasks(old(tasks), ids - todo)
        decreases |todo|
      {
        var id :| id in todo;
        CancelledOneMore(old(tasks), ids - todo, id);
        assert (ids - todo) + {id} == ids - (todo - {id});
        todo := todo - {id};
        var found := Cancel(id);
      }
      assert ids - todo == ids;
    }

    method StopAll()
      requires Valid()
      modifies this`tasks
      ensures Valid() && Now() == React(old(Now()), Event.StopAll)
    {
      StaysSound(Now(), Event.StopAll);
      CancelAll(tasks.Keys);
    }

    /** Rows left queued or executing are queued again. */
    method RequeueRows() returns (ids: set<nat>)
      requires Below(table, nextId)
      modifies this`table
      ensures table == Requeue(old(table)) && ids == InFlightIds(old(table))
    {
      ids := {};
      for id := 0 to nextId
        invariant table.Keys == old(table).Keys
        invariant forall i :: i in table ==> table[i] == if i < id then Requeue(old(table))[i] else old(table)[i]
        invariant ids == set i | i in old(table) && i < id && InFlight(old(table)[i].status)
      {
        if id in table && InFlight(table[id].status) {
          ids := ids + {id};
          if !table[id].status.Queued? { table := table[id := table[id].(status := Queued)]; }
        }
      }
    }

    /** A new process takes over the table: one commit of requeued rows, then their submission. */
    method Recover()
      requires Valid()
      modifies this
      ensures Valid() && Now() == React(old(Now()), Event.Restart)
    {
      StaysSound(Now(), Event.Restart);
      tasks, free := map[], cap;
      var ids := RequeueRows();
      SubmitAll(ids);
    }

    method Begin(id: nat)
      requires Valid()
      modifies this`tasks
      ensures Valid() && Now() == React(old(Now()), Event.Begin(id))
    {
      StaysSound(Now(), Event.Begin(id));
      if id in tasks && tasks[id].pc.Created? { tasks := tasks[id := tasks[id].(pc := Waiting)]; }
    }

    method Acquire(id: nat)
      requires Valid()
      modifies this`tasks, this`free
      ensures Valid() && Now() == React(old(Now()), Event.Acquire(id))
    {
      StaysSound(Now(), Event.Acquire(id));
      if id in tasks && tasks[id].pc.Waiting? && free > 0 {
        free := free - 1;
        tasks := tasks[id := tasks[id].(pc := Setup)];
      }
    }

    /** The task ends and releases the slot it may hold. */
    method EndTask(id: nat)
      requires id in tasks
      modifies this`tasks, this`free
      ensures Now() == End(old(Now()), id)
    {
      if HoldsSlot(tasks[id].pc) { free := free + 1; }
      tasks := tasks[id := tasks[id].(pc := Finished)];
    }

    method MarkCancelledIfQueued(id: nat, committed: bool)
      requires Valid() && id in tasks && tasks[id].pc.Marking?
      modifies this
      ensures Valid() && Now() == React(old(Now()), Event.Mark(id, committed))
    {
      StaysSound(Now(), Event.Mark(id, committed));
      MarkRow(id, committed);
    }

    method MarkRow(id: nat, committed: bool)
      requires id in tasks && tasks[id].pc.Marking?
      modifies this
      ensures Now() == OnMark(old(Now()), id, committed)
    {
      if id in table && table[id].status.Queued? && committed {
        table := table[id := table[id].(status := Cancelled)];
      }
      EndTask(id);
    }

    /** With a slot in hand: flip a still-queued row to `executing`, or give the slot back. */
    method FlipToExecuting(id: nat)
      requires Valid() && id in tasks && tasks[id].pc.Setup?
      modifies this
      ensures Valid() && Now() == React(old(Now()), Event.Flip(id))
    {
      StaysSound(Now(), Event.Flip(id));
      if id !in table || !table[id].status.Queued? {
        EndTask(id);
        return;
      }
      table := table[id := table[id].(status := Executing)];
      tasks := tasks[id := tasks[id].(pc := Flipped)];
    }

    /** Persist a terminal status unless one is already there; a failed commit is swallowed. */
    method Finalize(id: nat, committed: bool)
      requires Valid() && id in tasks && tasks[id].pc.Finalizing?
      modifies this
      ensures Valid() && Now() == React(old(Now()), Event.Persist(id, committed))
    {
      StaysSound(Now(), Event.Persist(id, committed));
      PersistRow(id, committed);
    }

    method PersistRow(id: nat, committed: bool)
      requires id in tasks && tasks[id].pc.Finalizing?
      modifies this
      ensures Now() == OnPersist(old(Now()), id, committed)
    {
      if id in table && !Terminal(table[id].status) && committed {
        table := table[id := table[id].(status := tasks[id].pc.outcome)];
      }
      EndTask(id);
    }

    /** The executor of a flipped job starts, or its type turns out to be unknown. */
    method StartExecutor(id: nat, known: bool)
      requires Valid()
      modifies this
      ensures Valid() && Now() == React(old(Now()), Event.StartExecutor(id, known))
    {
      StaysSound(Now(), Event.StartExecutor(id, known));
      if id !in tasks || !tasks[id].pc.Flipped? { return; }
      tasks := tasks[id := tasks[id].(pc := if known then Running else Finalizing(Failed))];
    }

    /** The executor returns. */
    method Succeed(id: nat)
      requires Valid()
      modifies this
      ensures Valid() && Now() == React(old(Now()), Event.Succeed(id))
    {
      StaysSound(Now(), Event.Succeed(id));
      if id in tasks && tasks[id].pc.Running? { tasks := tasks[id := tasks[id].(pc := Finalizing(Completed))]; }
    }

    /** The done-callback forgets a finished task. */
    method Evict(id: nat)
      requires Valid()
      modifies this
      ensures Valid() && Now() == React(old(Now()), Event.Evict(id))
    {
      StaysSound(Now(), Event.Evict(id));
      if id in tasks && tasks[id].pc.Finished? { tasks := tasks - {id}; }
    }

    /** A cancellation is delivered, or an exception raised, where the task stands. Only a task that
        waits for its slot, or whose executor runs, gets to say something about its row; a commit
        that is hit may have been applied. */
    method Interrupt(id: nat, cancel: bool, applied: bool)
      requires Valid()
      modifies this
      ensures Valid() && Now() == React(old(Now()), Event.Interrupt(id, cancel, applied))
    {
      StaysSound(Now(), Event.Interrupt(id, cancel, applied));
      if id !in tasks || (cancel && !tasks[id].cancelRequested) { return; }
      if HoldsSlot(tasks[id].pc) { InterruptWithSlot(id, cancel, applied); }
      else { InterruptWithoutSlot(id, cancel, applied); }
    }

    method InterruptWithoutSlot(id: nat, cancel: bool, applied: bool)
      requires id in tasks && !HoldsSlot(tasks[id].pc) && (cancel ==> tasks[id].cancelRequested)
      modifies this
      ensures Now() == OnInterrupt(old(Now()), id, cancel, applied)
    {
      match tasks[id].pc {
        case Created => if cancel { EndTask(id); }
        case Waiting => if cancel { tasks := tasks[id := tasks[id].(pc := Marking)]; }
        case Marking => MarkRow(id, applied);
        case Finished =>
      }
    }

    method InterruptWithSlot(id: nat, cancel: bool, applied: bool)
      requires id in tasks && HoldsSlot(tasks[id].pc) && (cancel ==> tasks[id].cancelRequested)
      modifies this
      ensures Now() == OnInterrupt(old(Now()), id, cancel, applied)
    {
      match tasks[id].pc {
        case Setup =>
          if applied && id in table && table[id].status.Queued? {
            table := table[id := table[id].(status := Executing)];
          }
          EndTask(id);
        case Flipped => EndTask(id);
        case Running => tasks := tasks[id := tasks[id].(pc := Finalizing(if cancel then Cancelled else Failed))];
        case Finalizing(_) => PersistRow(id, applied);
      }
    }

    // -------------------------------------------------------------- routes

    method Recommend(cluster: nat, scope: set<JobType>, suggestions: seq<Suggestion>)
      requires Valid()
      modifies this
      ensures Valid() && Now() == React(old(Now()), Event.Recommend(cluster, scope, suggestions))
    {
      StaysSound(Now(), Event.Recommend(cluster, scope, suggestions));
      table, nextId := RecommendRoute.ReconcileRows(table, nextId, cluster, scope, Scoped(suggestions, scope), nextRun);
      nextRun := nextRun + 1;
    }

    method ExecuteJob(id: nat, writable: bool, submitted: bool)
      requires Valid()
      modifies this
      ensures Valid() && Now() == React(old(Now()), Event.Execute(id, writable, submitted))
    {
      StaysSound(Now(), Event.Execute(id, writable, submitted));
      if id !in table || !table[id].status.Approved? || !writable { return; }
      table := table[id := table[id].(status := Queued)];
      if submitted { Submit(id); }
    }

    method ExecuteAll(cluster: nat, writable: bool, submitted: bool)
      requires Valid()
      modifies this
      ensures Valid() && Now() == React(old(Now()), Event.ExecuteAll(cluster, writable, submitted))
    {
      StaysSound(Now(), Event.ExecuteAll(cluster, writable, submitted));
      if !writable { return; }
      var ids := EnqueueApproved(cluster);
      if submitted { SubmitAll(ids); }
    }

    method EnqueueApproved(cluster: nat) returns (ids: set<nat>)
      requires Below(table, nextId)
      modifies this`table
      ensures table == EnqueueBelow(old(table), cluster, nextId).table
      ensures ids == EnqueueBelow(old(table), cluster, nextId).ids
    {
      var busy := BusyIndexes(table, cluster);
      ids := {};
      for id := 0 to nextId
        invariant Batch(table, busy, ids) == EnqueueBelow(old(table), cluster, id)
      {
        Batching.BatchFacts(old(table), cluster, id);
        if id in table && table[id].cluster == cluster && table[id].status.Approved? && table[id].index !in busy {
          busy := busy + {table[id].index};
          table := table[id := table[id].(status := Queued)];
          ids := ids + {id};
        }
      }
    }

    method BulkApproveJobs(cluster: nat, tier: Option<int>)
      requires Valid()
      modifies this
      ensures Valid() && Now() == React(old(Now()), Event.ApproveAll(cluster, tier))
    {
      StaysSound(Now(), Event.ApproveAll(cluster, tier));
      ApproveRows(cluster, tier);
    }

    method ApproveRows(cluster: nat, tier: Option<int>)
      requires Below(table, nextId)
      modifies this`table
      ensures table == BulkApprove(old(table), cluster, tier)
    {
      for id := 0 to nextId
        invariant table.Keys == old(table).Keys
        invariant forall i :: i in table ==>
                    table[i] == if i < id then BulkApprove(old(table), cluster, tier)[i] else old(table)[i]
      {
        if id in table && Selected(table[id], cluster, tier) {
          table := table[id := table[id].(status := Approved)];
        }
      }
      assert table == BulkApprove(old(table), cluster, tier);
    }

    method DeleteApproved(cluster: nat) returns (queued: set<nat>)
      requires Below(table, nextId)
      modifies this`table
      ensures table == ClearApproved(old(table), cluster) && queued == QueuedIds(old(table), cluster)
    {
      queued := {};
      for id := 0 to nextId
        invariant forall i :: i in table <==> i in old(table) && (i < id ==> i in ClearApproved(old(table), cluster))
        invariant forall i :: i in table ==> table[i] == old(table)[i]
        invariant queued == set i | i in old(table) && i < id && i in QueuedIds(old(table), cluster)
      {
        if id in table && table[id].cluster == cluster {
          if table[id].status.Queued? { queued := queued + {id}; }
          if table[id].status.Approved? { table := table - {id}; }
        }
      }
    }

    /** Approved rows are deleted, queued ones only have their tasks cancelled. */
    method ClearQueueOf(cluster: nat)
      requires Valid()
      modifies this
      ensures Valid() && Now() == React(old(Now()), Event.ClearQueue(cluster))
    {
      StaysSound(Now(), Event.ClearQueue(cluster));
      var queued := DeleteApproved(cluster);
      CancelAll(queued);
    }

    method ApproveJob(id: nat) returns (ok: bool)
      requires Valid()
      modifies this
      ensures ok == (id in old(table) && old(table)[id].status.Pending?)
      ensures Valid() && Now() == React(old(Now()), Event.Approve(id))
    {
      StaysSound(Now(), Event.Approve(id));
      if id !in table || !table[id].status.Pending? { return false; }
      table := table[id := table[id].(status := Approved)];
      ok := true;
    }

    method RejectJob(id: nat) returns (ok: bool)
      requires Valid()
      modifies this
      ensures ok == (id in old(table) && old(table)[id].status.Pending?)
      ensures Valid() && Now() == React(old(Now()), Event.Reject(id))
    {
      StaysSound(Now(), Event.Reject(id));
      if id !in table || !table[id].status.Pending? { return false; }
      table := table[id := table[id].(status := Rejected)];
      ok := true;
    }

    /** The row's status is left to the task, which is only asked to stop. */
    method CancelJob(id: nat) returns (ok: bool)
      requires Valid()
      modifies this
      ensures ok == (id in old(table) && InFlight(old(table)[id].status))
      ensures Valid() && Now() == React(old(Now()), Event.CancelJob(id))
    {
      StaysSound(Now(), Event.CancelJob(id));
      if id !in table || !InFlight(table[id].status) { return false; }
      var found := Cancel(id);
      ok := true;
    }

    /** Drain, promote, reindex and relocate: a run of its own, a queued row, a task. */
    method SubmitOperatorJob(job: Job, writable: bool, submitted: bool)
      requires Valid()
      modifies this
      ensures Valid() && Now() == React(old(Now()), Event.SubmitDirect(job, writable, submitted))
    {
      StaysSound(Now(), Event.SubmitDirect(job, writable, submitted));
      if !writable { return; }
      var id := nextId;
      table := table[id := job.(status := Queued, fingerprint := None, run := nextRun)];
      nextId, nextRun := nextId + 1, nextRun + 1;
      if submitted { Submit(id); }
    }

    /** One statement deletes the terminal rows of a cluster. */
    method ClearHistoryOf(cluster: nat)
      requires Valid()
      modifies this
      ensures Valid() && Now() == React(old(Now()), Event.ClearHistory(cluster))
    {
      StaysSound(Now(), Event.ClearHistory(cluster));
      table := map id | id in table && !(table[id].cluster == cluster && Terminal(table[id].status)) :: table[id];
    }

    /** Deleting a cluster deletes its rows and leaves their tasks alone. */
    method DeleteClusterJobs(cluster: nat)
      requires Valid()
      modifies this
      ensures Valid() && Now() == React(old(Now()), Event.DeleteCluster(cluster))
    {
      StaysSound(Now(), Event.DeleteCluster(cluster));
      table := map id | id in table && table[id].cluster != cluster :: table[id];
    }
  }
}
