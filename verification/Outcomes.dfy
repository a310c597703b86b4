/** How a job ends: the status that success, failure and cancellation leave in its row, and what must
    have happened before a row has it. */
module Outcomes {
  import opened Options
  import opened JobTable
  import opened JobSystem
  import opened JobSafety

  // ---------------------------------------------------------------- one job, one ending

  /** A row gets a status, its task is over, and its slot is free again; nothing else changes. */
  ghost predicate EndsWith(s: State, s': State, id: nat, status: Status)
    requires id in s.table && id in s.tasks
  {
    && s'.table == s.table[id := s.table[id].(status := status)]
    && s'.tasks.Keys == s.tasks.Keys && s'.tasks[id].pc == Finished
    && (forall i :: i in s.tasks && i != id ==> s'.tasks[i] == s.tasks[i])
    && s'.free == s.free + 1
  }

  /** An executor that returns completes its job. */
  lemma SuccessCompletes(s: State, id: nat)
    requires Inv(s) && At(s, id, Running) && id in s.table
    ensures EndsWith(s, React(React(s, Succeed(id)), Persist(id, true)), id, Completed)
  {
    assert RowFits(s, id);
  }

  /** An executor that raises fails its job ... */
  lemma FailureFails(s: State, id: nat, applied: bool)
    requires Inv(s) && At(s, id, Running) && id in s.table
    ensures EndsWith(s, React(React(s, Interrupt(id, false, applied)), Persist(id, true)), id, Failed)
  {
    assert RowFits(s, id);
  }

  /** ... and so does a job type that has no executor. */
  lemma UnknownTypeFails(s: State, id: nat)
    requires Inv(s) && At(s, id, Flipped) && id in s.table
    ensures EndsWith(s, React(React(s, StartExecutor(id, false)), Persist(id, true)), id, Failed)
  {
    assert RowFits(s, id);
  }

  /** A cancellation delivered to a running executor cancels its job. */
  lemma CancellationCancels(s: State, id: nat, applied: bool)
    requires Inv(s) && At(s, id, Running) && id in s.table && s.tasks[id].cancelRequested
    ensures EndsWith(s, React(React(s, Interrupt(id, true, applied)), Persist(id, true)), id, Cancelled)
  {
    assert RowFits(s, id);
  }

  /** A cancellation delivered while the task waits for a slot cancels the job without starting it. */
  lemma CancelledWhileWaiting(s: State, id: nat, applied: bool)
    requires Inv(s) && At(s, id, Waiting) && id in s.table && s.tasks[id].cancelRequested
    ensures var s' := React(React(s, Interrupt(id, true, applied)), Mark(id, true));
            && s'.table == s.table[id := s.table[id].(status := Cancelled)]
            && At(s', id, Finished) && s'.free == s.free
  {
    assert RowFits(s, id);
  }

  /** From the queue to the executor: only a free slot lets a task on, and the row says `executing`
      from then on. */
  lemma QueueToExecutor(s: State, id: nat)
    requires Inv(s) && At(s, id, Created) && id in s.table && s.free > 0
    ensures var waiting := React(s, Begin(id));
            var ready := React(waiting, Acquire(id));
            var flipped := React(ready, Flip(id));
            var running := React(flipped, StartExecutor(id, true));
            && At(waiting, id, Waiting) && At(ready, id, Setup) && At(flipped, id, Flipped) && At(running, id, Running)
            && waiting.table == ready.table == s.table && waiting.free == s.free
            && ready.free == flipped.free == running.free == s.free - 1
            && flipped.table == running.table == s.table[id := s.table[id].(status := Executing)]
  {
    assert RowFits(s, id);
  }

  /** Without a free slot a waiting task stays where it is. */
  lemma NoSlotNoStart(s: State, id: nat)
    requires At(s, id, Waiting) && s.free <= 0
    ensures React(s, Acquire(id)) == s
  {
  }

  /** A job that was cancelled or deleted while it waited is never executed: the slot goes back. */
  lemma GoneBeforeStart(s: State, id: nat)
    requires At(s, id, Setup) && (id in s.table ==> s.table[id].status != Queued)
    ensures var s' := React(s, Flip(id));
            s'.table == s.table && At(s', id, Finished) && s'.free == s.free + 1
  {
  }

  // ---------------------------------------------------------------- the verdict on its way to the row

  /** The verdict on a job that is over stands, whatever else happens, until its own task writes it. */
  lemma VerdictStands(s: State, e: Event, id: nat, outcome: Status)
    requires Inv(s) && At(s, id, Finalizing(outcome)) && !e.Restart? && (TaskEvent(e) ==> e.id != id)
    ensures At(React(s, e), id, Finalizing(outcome))
    ensures id in React(s, e).table ==> React(s, e).table[id].status == Executing
  {
    if RouteEvent(e) { RouteTasks(s, e, id); } else if TaskEvent(e) { TaskFrame(s, e, id); }
    ReactKeepsInv(s, e);
    assert RowFits(React(s, e), id);
  }

  /** Events that are neither a new process nor a step of this job's own task. */
  predicate Foreign(es: seq<Event>, id: nat) {
    forall e :: e in es ==> !e.Restart? && (TaskEvent(e) ==> e.id != id)
  }

  lemma {:induction false} VerdictStandsThroughout(s: State, es: seq<Event>, id: nat, outcome: Status)
    requires Inv(s) && At(s, id, Finalizing(outcome)) && Foreign(es, id)
    ensures Inv(Run(s, es)) && At(Run(s, es), id, Finalizing(outcome))
    decreases |es|
  {
    if es != [] {
      assert es[0] in es;
      VerdictStands(s, es[0], id, outcome);
      ReactKeepsInv(s, es[0]);
      VerdictStandsThroughout(React(s, es[0]), es[1..], id, outcome);
    }
  }

  /** However long the terminal write takes and whatever happens meanwhile, a job whose executor
      returned is recorded as completed if its row is still there. */
  lemma SuccessIsRecorded(s: State, es: seq<Event>, id: nat)
    requires Inv(s) && At(s, id, Running) && Foreign(es, id)
    ensures var s1 := Run(React(s, Succeed(id)), es);
            var s2 := React(s1, Persist(id, true));
            s2.table == if id in s1.table then s1.table[id := s1.table[id].(status := Completed)] else s1.table
  {
    ReactKeepsInv(s, Succeed(id));
    VerdictStandsThroughout(React(s, Succeed(id)), es, id, Completed);
    assert RowFits(Run(React(s, Succeed(id)), es), id);
  }

  // ---------------------------------------------------------------- what a terminal status proves

  /** The event that decides how a job ends. */
  predicate Decides(s: State, e: Event, id: nat, outcome: Status) {
    match outcome
    case Completed => e == Succeed(id) && At(s, id, Running)
    case Failed =>
      || (e.Interrupt? && e.id == id && !e.cancel && At(s, id, Running))
      || (e == StartExecutor(id, false) && At(s, id, Flipped))
    case Cancelled =>
      && e.Interrupt? && e.id == id && e.cancel && id in s.tasks && s.tasks[id].cancelRequested
      && (s.tasks[id].pc.Waiting? || s.tasks[id].pc.Running?)
    case Rejected => e == Reject(id) && StatusOf(s, id) == Some(Pending)
    case _ => false
  }

  ghost predicate Decided(s: State, es: seq<Event>, id: nat, outcome: Status)
    decreases |es|
  {
    es != [] && (Decides(s, es[0], id, outcome) || Decided(React(s, es[0]), es[1..], id, outcome))
  }

  /** The outcome is in the row, or on its way there. */
  predicate Claimed(s: State, id: nat, outcome: Status) {
    StatusOf(s, id) == Some(outcome) || At(s, id, Finalizing(outcome)) || (outcome.Cancelled? && At(s, id, Marking))
  }

  lemma RouteClaim(s: State, e: Event, id: nat, outcome: Status)
    requires Inv(s) && RouteEvent(e) && Terminal(outcome) && Claimed(React(s, e), id, outcome)
    ensures Claimed(s, id, outcome) || Decides(s, e, id, outcome)
  {
    RouteEdge(s, e, id);
    RouteTasks(s, e, id);
  }

  lemma OwnClaim(s: State, e: Event, outcome: Status)
    requires Inv(s) && TaskEvent(e) && Terminal(outcome) && Claimed(React(s, e), e.id, outcome)
    ensures Claimed(s, e.id, outcome) || Decides(s, e, e.id, outcome)
  {
    if e.id in s.tasks { assert RowFits(s, e.id); }
  }

  lemma ClaimStep(s: State, e: Event, id: nat, outcome: Status)
    requires Inv(s) && Terminal(outcome) && Claimed(React(s, e), id, outcome)
    ensures Claimed(s, id, outcome) || Decides(s, e, id, outcome)
  {
    if RouteEvent(e) { RouteClaim(s, e, id, outcome); }
    else if !TaskEvent(e) { }
    else if e.id == id { OwnClaim(s, e, outcome); }
    else { TaskFrame(s, e, id); }
  }

  lemma {:induction false} ClaimsAreDecided(s: State, es: seq<Event>, id: nat, outcome: Status)
    requires Inv(s) && Terminal(outcome) && Claimed(Run(s, es), id, outcome)
    ensures Claimed(s, id, outcome) || Decided(s, es, id, outcome)
    decreases |es|
  {
    if es != [] {
      ReactKeepsInv(s, es[0]);
      ClaimsAreDecided(React(s, es[0]), es[1..], id, outcome);
      if Claimed(React(s, es[0]), id, outcome) { ClaimStep(s, es[0], id, outcome); }
    }
  }

  /** In every run a row is completed only after its executor returned, failed only after its executor
      raised or was not found, cancelled only after a requested cancellation reached its waiting task or
      its executor, and rejected only by the operator while it was pending. */
  lemma NoUnearnedOutcome(cap: nat, es: seq<Event>, id: nat)
    requires id in Run(Initial(cap), es).table && Terminal(Run(Initial(cap), es).table[id].status)
    ensures Decided(Initial(cap), es, id, Run(Initial(cap), es).table[id].status)
  {
    InitialInv(cap);
    ClaimsAreDecided(Initial(cap), es, id, Run(Initial(cap), es).table[id].status);
  }

  /** Someone asks an unfinished task to stop: for its job, for the queue of its cluster, or for all. */
  predicate Asks(s: State, e: Event, id: nat) {
    && id in s.tasks && s.tasks[id].pc != Finished
    && match e
       case CancelJob(i) => i == id && (StatusOf(s, id) == Some(Queued) || StatusOf(s, id) == Some(Executing))
       case ClearQueue(cluster) => StatusOf(s, id) == Some(Queued) && s.table[id].cluster == cluster
       case StopAll => true
       case _ => false
  }

  ghost predicate Asked(s: State, es: seq<Event>, id: nat)
    decreases |es|
  {
    es != [] && (Asks(s, es[0], id) || Asked(React(s, es[0]), es[1..], id))
  }

  predicate ToldToStop(s: State, id: nat) { id in s.tasks && s.tasks[id].cancelRequested }

  lemma AskStep(s: State, e: Event, id: nat)
    requires ToldToStop(React(s, e), id)
    ensures ToldToStop(s, id) || Asks(s, e, id)
  {
  }

  lemma {:induction false} ToldAfterAsked(s: State, es: seq<Event>, id: nat)
    requires ToldToStop(Run(s, es), id)
    ensures ToldToStop(s, id) || Asked(s, es, id)
    decreases |es|
  {
    if es != [] {
      ToldAfterAsked(React(s, es[0]), es[1..], id);
      if ToldToStop(React(s, es[0]), id) { AskStep(s, es[0], id); }
    }
  }

  /** A cancellation of the job is under way or over. */
  predicate Cancelling(s: State, id: nat) { ToldToStop(s, id) || Claimed(s, id, Cancelled) }

  lemma {:induction false} CancelledAfterAsked(s: State, es: seq<Event>, id: nat)
    requires Inv(s) && Claimed(Run(s, es), id, Cancelled)
    ensures Cancelling(s, id) || Asked(s, es, id)
    decreases |es|
  {
    if es != [] {
      ReactKeepsInv(s, es[0]);
      CancelledAfterAsked(React(s, es[0]), es[1..], id);
      if ToldToStop(React(s, es[0]), id) { AskStep(s, es[0], id); }
      if Claimed(React(s, es[0]), id, Cancelled) { ClaimStep(s, es[0], id, Cancelled); }
    }
  }

  /** No job is cancelled that nobody asked to stop. */
  lemma CancelledOnlyWhenAsked(cap: nat, es: seq<Event>, id: nat)
    requires StatusOf(Run(Initial(cap), es), id) == Some(Cancelled)
    ensures Asked(Initial(cap), es, id)
  {
    InitialInv(cap);
    CancelledAfterAsked(Initial(cap), es, id);
  }
}
