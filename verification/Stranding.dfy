/** When a queued row is left without a task that would run it. */
module Stranding {
  import opened Options
  import opened JobTable
  import opened JobSystem
  import opened JobSafety
  import Batching

  predicate HasTask(s: State, id: nat) { id in s.tasks && !s.tasks[id].pc.Finished? }

  predicate Waits(s: State, id: nat) { id in s.table && s.table[id].status.Queued? }

  /** Queued rows that no unfinished task stands behind. */
  function Stranded(s: State): set<nat> { set id | id in s.table && Waits(s, id) && !HasTask(s, id) }

  /** The windows in which a queued row loses its task: a cancellation before the first step, a lost
      `cancelled` commit of a task that gave up waiting, and a lost `executing` commit. */
  predicate LosesTask(s: State, e: Event) {
    match e
    case Mark(id, committed) => At(s, id, Marking) && id in s.table && !committed
    case Interrupt(id, cancel, applied) =>
      && id in s.tasks && id in s.table && (cancel ==> s.tasks[id].cancelRequested)
      && (|| (s.tasks[id].pc.Created? && cancel)
          || (s.tasks[id].pc.Marking? && !applied)
          || (s.tasks[id].pc.Setup? && !applied))
    case _ => false
  }

  /** The rows that a route puts into the queue. */
  function Enqueued(s: State, e: Event): set<nat> {
    match e
    case Execute(id, writable, _) => if id in s.table && s.table[id].status.Approved? && writable then {id} else {}
    case ExecuteAll(cluster, writable, _) => if writable then EnqueueBelow(s.table, cluster, s.nextId).ids else {}
    case SubmitDirect(_, writable, _) => if writable then {s.nextId} else {}
    case _ => {}
  }

  predicate Submits(e: Event) {
    match e
    case Execute(_, _, submitted) => submitted
    case ExecuteAll(_, _, submitted) => submitted
    case SubmitDirect(_, _, submitted) => submitted
    case _ => true
  }

  /** The rows that an event leaves in the queue without a task: the one whose task is lost, or those
      that were committed and never submitted. */
  function StrandedBy(s: State, e: Event): set<nat> {
    if LosesTask(s, e) then {e.id} else if !Submits(e) then Enqueued(s, e) else {}
  }

  /** A route submits exactly the rows it queues, unless it fails in between. */
  lemma SubmitsWhatItQueues(s: State, e: Event, id: nat)
    requires Inv(s) && RouteEvent(e)
    ensures Waits(s, id) ==> Waits(React(s, e), id) && (id in React(s, e).tasks ==> id in s.tasks)
    ensures Waits(React(s, e), id) && !Waits(s, id) <==> id in Enqueued(s, e)
    ensures id in Enqueued(s, e) ==> id !in s.tasks && (id in React(s, e).tasks <==> Submits(e))
  {
    RouteEdge(s, e, id);
    assert Edge(StatusOf(s, id), StatusOf(React(s, e), id), e);
    if id in s.tasks { assert RowFits(s, id); }
    if e.ExecuteAll? { Batching.BatchFacts(s.table, e.cluster, s.nextId); }
  }

  lemma RouteWaiting(s: State, e: Event, id: nat)
    requires Inv(s) && RouteEvent(e)
    ensures id in Stranded(React(s, e)) <==> id in Stranded(s) || id in StrandedBy(s, e)
    ensures id in StrandedBy(s, e) ==> id !in Stranded(s)
  {
    RouteTasks(s, e, id);
    SubmitsWhatItQueues(s, e, id);
  }

  lemma OwnWaiting(s: State, e: Event)
    requires Inv(s) && TaskEvent(e)
    ensures e.id in Stranded(React(s, e)) <==> e.id in Stranded(s) || LosesTask(s, e)
    ensures LosesTask(s, e) ==> e.id !in Stranded(s)
  {
    if e.id in s.tasks { assert RowFits(s, e.id); }
  }

  lemma TaskWaiting(s: State, e: Event, id: nat)
    requires Inv(s) && TaskEvent(e)
    ensures id in Stranded(React(s, e)) <==> id in Stranded(s) || id in StrandedBy(s, e)
    ensures id in StrandedBy(s, e) ==> id !in Stranded(s)
  {
    if id == e.id { OwnWaiting(s, e); } else { TaskFrame(s, e, id); }
  }

  lemma ProcessWaiting(s: State, e: Event)
    requires e.DeleteCluster? || e.StopAll? || e.Restart?
    ensures Stranded(React(s, e)) <= Stranded(s) && (e.Restart? ==> Stranded(React(s, e)) == {})
  {
  }

  lemma RouteStrands(s: State, e: Event)
    requires Inv(s) && RouteEvent(e)
    ensures Stranded(React(s, e)) == Stranded(s) + StrandedBy(s, e) && Stranded(s) !! StrandedBy(s, e)
  {
    forall id
      ensures id in Stranded(React(s, e)) <==> id in Stranded(s) || id in StrandedBy(s, e)
      ensures id in StrandedBy(s, e) ==> id !in Stranded(s)
    {
      RouteWaiting(s, e, id);
    }
  }

  lemma TaskStrands(s: State, e: Event)
    requires Inv(s) && TaskEvent(e)
    ensures Stranded(React(s, e)) == Stranded(s) + StrandedBy(s, e) && Stranded(s) !! StrandedBy(s, e)
  {
    forall id
      ensures id in Stranded(React(s, e)) <==> id in Stranded(s) || id in StrandedBy(s, e)
      ensures id in StrandedBy(s, e) ==> id !in Stranded(s)
    {
      TaskWaiting(s, e, id);
    }
  }

  lemma NewlyStranded(before: set<nat>, after: set<nat>, more: set<nat>)
    requires after == before + more && before !! more
    ensures after - before == more
  {
  }

  /** An event newly strands exactly the rows of these windows, and a restart leaves none stranded. */
  lemma StrandedIff(s: State, e: Event)
    requires Inv(s)
    ensures Stranded(React(s, e)) - Stranded(s) == StrandedBy(s, e)
    ensures RouteEvent(e) || TaskEvent(e) ==> Stranded(React(s, e)) == Stranded(s) + StrandedBy(s, e)
    ensures e.Restart? ==> Stranded(React(s, e)) == {}
  {
    if RouteEvent(e) {
      RouteStrands(s, e);
      NewlyStranded(Stranded(s), Stranded(React(s, e)), StrandedBy(s, e));
    } else if TaskEvent(e) {
      TaskStrands(s, e);
      NewlyStranded(Stranded(s), Stranded(React(s, e)), StrandedBy(s, e));
    } else {
      ProcessWaiting(s, e);
    }
  }

  /** No event of the run falls into one of the windows. */
  ghost predicate NeverStrands(s: State, es: seq<Event>)
    decreases |es|
  {
    es == [] || (StrandedBy(s, es[0]) == {} && NeverStrands(React(s, es[0]), es[1..]))
  }

  lemma {:induction false} NeverStranded(s: State, es: seq<Event>)
    requires Inv(s) && Stranded(s) == {} && NeverStrands(s, es)
    ensures Stranded(Run(s, es)) == {}
    decreases |es|
  {
    if es != [] {
      StrandedIff(s, es[0]);
      ReactKeepsInv(s, es[0]);
      NeverStranded(React(s, es[0]), es[1..]);
    }
  }

  /** Without a fault in one of the windows, every queued row has a task that is still to run it. */
  lemma QueuedRowsHaveTasks(cap: nat, es: seq<Event>, id: nat)
    requires NeverStrands(Initial(cap), es)
    ensures var s := Run(Initial(cap), es);
            Waits(s, id) ==> HasTask(s, id) && (s.tasks[id].pc.Created? || s.tasks[id].pc.Waiting?
                                                || s.tasks[id].pc.Marking? || s.tasks[id].pc.Setup?)
  {
    var s := Run(Initial(cap), es);
    InitialInv(cap);
    assert Stranded(Initial(cap)) == {};
    NeverStranded(Initial(cap), es);
    RunKeepsInv(Initial(cap), es);
    if Waits(s, id) {
      assert id !in Stranded(s);
      assert RowFits(s, id);
    }
  }
}
