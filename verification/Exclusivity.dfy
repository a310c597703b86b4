/** Which steps of the whole system keep at most one job per index in flight: first by the index column
    of the rows, then by every index that the executors read or write. */
module Exclusivity {
  import opened Options
  import opened Names
  import opened JobTable
  import opened JobSystem
  import opened JobSafety
  import opened Batching
  import opened Stranding

  /** The two ungated ways into the queue, taken for an index that is busy already. Rows without an
      index, such as drains, count under the empty name. */
  predicate Crowds(s: State, e: Event, cluster: nat) {
    match e
    case Execute(id, writable, _) =>
      writable && Runnable(s.table, cluster, id) && s.table[id].index in BusyIndexes(s.table, cluster)
    case SubmitDirect(job, writable, _) =>
      writable && job.cluster == cluster && job.index in BusyIndexes(s.table, cluster)
    case _ => false
  }

  predicate Occupies(t: Table, cluster: nat, id: nat) {
    id in t && t[id].cluster == cluster && InFlight(t[id].status)
  }

  predicate Enqueues(e: Event) { e.Execute? || e.ExecuteAll? || e.SubmitDirect? }

  /** No other event puts a job in flight, and a job in flight keeps its index. */
  lemma NothingNewInFlight(s: State, e: Event, cluster: nat, id: nat)
    requires Inv(s) && !Enqueues(e) && Occupies(React(s, e).table, cluster, id)
    ensures Occupies(s.table, cluster, id) && React(s, e).table[id].index == s.table[id].index
  {
    LifecycleEdge(s, e, id);
    assert Edge(StatusOf(s, id), StatusOf(React(s, e), id), e);
    KeyFrame(s, e, id);
  }

  lemma OthersKeepOnePerIndex(s: State, e: Event, cluster: nat)
    requires Inv(s) && OnePerIndex(s.table, cluster) && !Enqueues(e)
    ensures OnePerIndex(React(s, e).table, cluster)
  {
    forall id | Occupies(React(s, e).table, cluster, id)
      ensures Occupies(s.table, cluster, id) && React(s, e).table[id].index == s.table[id].index
    {
      NothingNewInFlight(s, e, cluster, id);
    }
    assert forall id :: Occupies(React(s, e).table, cluster, id) ==> id in React(s, e).table;
    OnePerIndexFrom(s.table, React(s, e).table, cluster);
  }

  lemma OnePerIndexFrom(before: Table, after: Table, cluster: nat)
    requires OnePerIndex(before, cluster)
    requires forall id :: Occupies(after, cluster, id) ==>
               Occupies(before, cluster, id) && after[id].index == before[id].index
    ensures OnePerIndex(after, cluster)
  {
    forall i, j | Occupies(after, cluster, i) && Occupies(after, cluster, j) && after[i].index == after[j].index
      ensures i == j
    {
      assert Occupies(before, cluster, i) && Occupies(before, cluster, j);
    }
  }

  /** One more job in flight keeps one job per index exactly when its index was not busy. */
  lemma OneMoreInFlight(before: Table, after: Table, cluster: nat, id: nat)
    requires OnePerIndex(before, cluster) && !Occupies(before, cluster, id) && Occupies(after, cluster, id)
    requires forall i :: i != id ==> (Occupies(after, cluster, i) <==> Occupies(before, cluster, i))
    requires forall i :: i != id && Occupies(before, cluster, i) ==> i in after && after[i].index == before[i].index
    ensures OnePerIndex(after, cluster) <==> after[id].index !in BusyIndexes(before, cluster)
  {
    if after[id].index in BusyIndexes(before, cluster) {
      var i :| Occupies(before, cluster, i) && before[i].index == after[id].index;
      assert Occupies(before, cluster, i) && Occupies(after, cluster, i);
    } else {
      forall i | Occupies(before, cluster, i) ensures before[i].index != after[id].index {
        assert before[i].index in BusyIndexes(before, cluster);
      }
      forall i, j | Occupies(after, cluster, i) && Occupies(after, cluster, j) && after[i].index == after[j].index
        ensures i == j
      {
        assert i != id ==> Occupies(before, cluster, i);
        assert j != id ==> Occupies(before, cluster, j);
      }
    }
  }

  lemma ExecuteOnePerIndex(s: State, e: Event, cluster: nat)
    requires Inv(s) && OnePerIndex(s.table, cluster) && e.Execute?
    ensures OnePerIndex(React(s, e).table, cluster) <==> !Crowds(s, e, cluster)
  {
    var after := React(s, e).table;
    if e.writable && Runnable(s.table, cluster, e.id) {
      OneMoreInFlight(s.table, after, cluster, e.id);
    } else {
      OnePerIndexFrom(s.table, after, cluster);
    }
  }

  lemma SubmitOnePerIndex(s: State, e: Event, cluster: nat)
    requires Inv(s) && OnePerIndex(s.table, cluster) && e.SubmitDirect?
    ensures OnePerIndex(React(s, e).table, cluster) <==> !Crowds(s, e, cluster)
  {
    var after := React(s, e).table;
    assert s.nextId !in s.table;
    if e.writable && e.job.cluster == cluster {
      OneMoreInFlight(s.table, after, cluster, s.nextId);
    } else {
      OnePerIndexFrom(s.table, after, cluster);
    }
  }

  lemma ExecuteAllOnePerIndex(s: State, e: Event, cluster: nat)
    requires Inv(s) && OnePerIndex(s.table, cluster) && e.ExecuteAll?
    ensures OnePerIndex(React(s, e).table, cluster)
  {
    BatchFacts(s.table, e.cluster, s.nextId);
    if e.cluster == cluster {
      BatchKeepsOnePerIndex(s.table, cluster, s.nextId);
    } else {
      OnePerIndexFrom(s.table, React(s, e).table, cluster);
    }
  }

  /** At most one job per index stays at most one, over every step of a route, a task, an
      administrator or the process, exactly when the step is not one of the two ungated ways in
      taken for a busy index. */
  lemma OnePerIndexIff(s: State, e: Event, cluster: nat)
    requires Inv(s) && OnePerIndex(s.table, cluster)
    ensures OnePerIndex(React(s, e).table, cluster) <==> !Crowds(s, e, cluster)
  {
    if e.Execute? { ExecuteOnePerIndex(s, e, cluster); }
    else if e.SubmitDirect? { SubmitOnePerIndex(s, e, cluster); }
    else if e.ExecuteAll? { ExecuteAllOnePerIndex(s, e, cluster); }
    else { OthersKeepOnePerIndex(s, e, cluster); }
  }

  ghost predicate NeverCrowds(s: State, es: seq<Event>, cluster: nat)
    decreases |es|
  {
    es == [] || (!Crowds(s, es[0], cluster) && NeverCrowds(React(s, es[0]), es[1..], cluster))
  }

  lemma {:induction false} NeverCrowded(s: State, es: seq<Event>, cluster: nat)
    requires Inv(s) && OnePerIndex(s.table, cluster) && NeverCrowds(s, es, cluster)
    ensures OnePerIndex(Run(s, es).table, cluster)
    decreases |es|
  {
    if es != [] {
      OnePerIndexIff(s, es[0], cluster);
      ReactKeepsInv(s, es[0]);
      NeverCrowded(React(s, es[0]), es[1..], cluster);
    }
  }

  // ---------------------------------------------------------------- every index that is touched

  /** The indices that the executor of a job reads or writes: a resize also works on its temporary
      index, a reindex and a promotion on their target; a drain works on none in particular. */
  function Touched(job: Job): set<string> {
    match job.jobType
    case ReduceShards => {job.index, job.index + RESIZE_SUFFIX}
    case SplitShards => {job.index, job.index + RESIZE_SUFFIX}
    case PromoteIndex => {job.index} + TargetOf(job)
    case Reindex => {job.index} + TargetOf(job)
    case DrainNode => {}
    case _ => {job.index}
  }

  function TargetOf(job: Job): set<string> { if job.targetIndex.Some? then {job.targetIndex.value} else {} }

  predicate IsResize(job: Job) { job.jobType.ReduceShards? || job.jobType.SplitShards? }

  predicate Collide(a: Job, b: Job) { a.cluster == b.cluster && !(Touched(a) !! Touched(b)) }

  lemma SameWithSuffix(a: string, b: string, suffix: string)
    requires a + suffix == b + suffix
    ensures a == b
  {
    assert |a| == |b|;
    assert a == (a + suffix)[..|a|] && b == (b + suffix)[..|b|];
  }

  /** Two resizes of a cluster share an index exactly when they have the same one, or one of them
      resizes the other's temporary index. */
  lemma ResizesCollideIff(a: Job, b: Job)
    requires IsResize(a) && IsResize(b) && a.cluster == b.cluster
    ensures Collide(a, b) <==>
              a.index == b.index || a.index == b.index + RESIZE_SUFFIX || b.index == a.index + RESIZE_SUFFIX
  {
    if Collide(a, b) {
      var n :| n in Touched(a) && n in Touched(b);
      if n == a.index + RESIZE_SUFFIX && n == b.index + RESIZE_SUFFIX {
        SameWithSuffix(a.index, b.index, RESIZE_SUFFIX);
      }
    } else {
      assert a.index in Touched(a) && a.index + RESIZE_SUFFIX in Touched(a);
      assert b.index in Touched(b) && b.index + RESIZE_SUFFIX in Touched(b);
    }
  }

  /** No two jobs in flight touch a common index. */
  ghost predicate OnePerName(t: Table, cluster: nat) {
    forall i, j :: Occupies(t, cluster, i) && Occupies(t, cluster, j) && i != j ==> !Collide(t[i], t[j])
  }

  /** The row that an event queues. */
  function RowOf(s: State, e: Event, id: nat): Option<Job> {
    if e.SubmitDirect? && id == s.nextId then Some(e.job)
    else if id in s.table then Some(s.table[id]) else None
  }

  /** A queued row, by itself or with the others of its batch, meets a job that touches its indices. */
  predicate Meets(s: State, e: Event, cluster: nat, i: nat, j: nat) {
    && i in Enqueued(s, e) && RowOf(s, e, i).Some? && RowOf(s, e, i).value.cluster == cluster
    && (j in Enqueued(s, e) || Occupies(s.table, cluster, j)) && RowOf(s, e, j).Some? && i != j
    && Collide(RowOf(s, e, i).value, RowOf(s, e, j).value)
  }

  ghost predicate Collides(s: State, e: Event, cluster: nat) { exists i, j :: Meets(s, e, cluster, i, j) }

  /** A job newly in flight is one that the event queued. */
  lemma NewInFlight(s: State, e: Event, cluster: nat, id: nat)
    requires Inv(s) && Occupies(React(s, e).table, cluster, id) && id !in Enqueued(s, e)
    ensures Occupies(s.table, cluster, id)
  {
    if Enqueues(e) {
      SubmitsWhatItQueues(s, e, id);
      RouteEdge(s, e, id);
      assert StatusOf(React(s, e), id) == Some(Executing) ==> StatusOf(s, id) == Some(Executing);
      KeyFrame(s, e, id);
    } else {
      NothingNewInFlight(s, e, cluster, id);
    }
  }

  /** What an event queues is in flight afterwards. */
  lemma EnqueuedInFlight(s: State, e: Event, id: nat)
    requires Inv(s) && id in Enqueued(s, e)
    ensures Waits(React(s, e), id) && RowOf(s, e, id).Some?
  {
    SubmitsWhatItQueues(s, e, id);
    if e.ExecuteAll? { BatchFacts(s.table, e.cluster, s.nextId); }
  }

  /** A row keeps its cluster and the indices it touches. */
  lemma SameTouched(s: State, e: Event, id: nat)
    requires Inv(s) && id in React(s, e).table && RowOf(s, e, id).Some? && (id in s.table || id in Enqueued(s, e))
    ensures var before, after := RowOf(s, e, id).value, React(s, e).table[id];
            after.cluster == before.cluster && Touched(after) == Touched(before)
  {
    if id in s.table { KeyFrame(s, e, id); }
  }

  lemma InFlightAfter(s: State, e: Event, cluster: nat, id: nat)
    requires Inv(s) && Occupies(React(s, e).table, cluster, id)
    ensures RowOf(s, e, id).Some? && (id in Enqueued(s, e) || Occupies(s.table, cluster, id))
    ensures var before, after := RowOf(s, e, id).value, React(s, e).table[id];
            after.cluster == before.cluster && Touched(after) == Touched(before)
  {
    if id in Enqueued(s, e) { EnqueuedInFlight(s, e, id); } else { NewInFlight(s, e, cluster, id); }
    SameTouched(s, e, id);
  }

  /** A route takes no job out of flight. */
  lemma RouteKeepsInFlight(s: State, e: Event, cluster: nat, id: nat)
    requires Inv(s) && RouteEvent(e) && Occupies(s.table, cluster, id)
    ensures Occupies(React(s, e).table, cluster, id)
  {
    RouteEdge(s, e, id);
    assert Edge(StatusOf(s, id), StatusOf(React(s, e), id), e);
    KeyFrame(s, e, id);
  }

  lemma MeetingStays(s: State, e: Event, cluster: nat, id: nat)
    requires Inv(s) && RouteEvent(e) && RowOf(s, e, id).Some? && RowOf(s, e, id).value.cluster == cluster
    requires id in Enqueued(s, e) || Occupies(s.table, cluster, id)
    ensures Occupies(React(s, e).table, cluster, id)
    ensures Touched(React(s, e).table[id]) == Touched(RowOf(s, e, id).value)
  {
    if id in Enqueued(s, e) { EnqueuedInFlight(s, e, id); } else { RouteKeepsInFlight(s, e, cluster, id); }
    SameTouched(s, e, id);
  }

  lemma MeetingBreaks(s: State, e: Event, cluster: nat, i: nat, j: nat)
    requires Inv(s) && Meets(s, e, cluster, i, j)
    ensures !OnePerName(React(s, e).table, cluster)
  {
    var t := React(s, e).table;
    MeetingStays(s, e, cluster, i);
    MeetingStays(s, e, cluster, j);
    assert Occupies(t, cluster, i) && Occupies(t, cluster, j) && Collide(t[i], t[j]);
  }

  /** No two jobs in flight touch a common index, before and after any step of the whole system, exactly
      when the step does not queue a job that meets one. */
  lemma OnePerNameIff(s: State, e: Event, cluster: nat)
    requires Inv(s) && OnePerName(s.table, cluster)
    ensures OnePerName(React(s, e).table, cluster) <==> !Collides(s, e, cluster)
  {
    var t := React(s, e).table;
    if Collides(s, e, cluster) {
      var i, j :| Meets(s, e, cluster, i, j);
      MeetingBreaks(s, e, cluster, i, j);
    } else {
      forall i, j | Occupies(t, cluster, i) && Occupies(t, cluster, j) && i != j ensures !Collide(t[i], t[j]) {
        InFlightAfter(s, e, cluster, i);
        InFlightAfter(s, e, cluster, j);
        assert !Meets(s, e, cluster, i, j) && !Meets(s, e, cluster, j, i);
      }
    }
  }

  /** The gate of `execute_all` compares the index column only: a resize of an index and one of its
      temporary index go into the queue together. */
  lemma TemporaryIndexIsNotGated(a: Job, b: Job, cluster: nat)
    requires IsResize(a) && IsResize(b) && a.cluster == b.cluster == cluster && b.index == a.index + RESIZE_SUFFIX
    requires a.status.Approved? && b.status.Approved?
    ensures exists t: Table, n ::
              && Below(t, n) && OnePerName(t, cluster)
              && OnePerIndex(EnqueueBelow(t, cluster, n).table, cluster)
              && !OnePerName(EnqueueBelow(t, cluster, n).table, cluster)
  {
    var n := 2;
    BothQueued(a, b, cluster, n);
    assert Below(map[0 := a, 1 := b], n);
  }

  lemma BothQueued(a: Job, b: Job, cluster: nat, n: nat)
    requires IsResize(a) && IsResize(b) && a.cluster == b.cluster == cluster && b.index == a.index + RESIZE_SUFFIX
    requires a.status.Approved? && b.status.Approved? && n == 2
    ensures var t: Table := map[0 := a, 1 := b];
            var after := EnqueueBelow(t, cluster, n).table;
            && OnePerName(t, cluster) && OnePerIndex(after, cluster) && !OnePerName(after, cluster)
  {
    var t: Table := map[0 := a, 1 := b];
    assert a.index != b.index by { assert |b.index| == |a.index| + |RESIZE_SUFFIX|; }
    assert BusyIndexes(t, cluster) == {};
    var one := EnqueueBelow(t, cluster, n - 1);
    var two := EnqueueBelow(t, cluster, n);
    assert EnqueueBelow(t, cluster, 0) == Batch(t, {}, {});
    assert one.ids == {0} && one.busy == {a.index};
    assert two.ids == {0, 1};
    BatchFacts(t, cluster, n);
    BatchKeepsOnePerIndex(t, cluster, n);
    ResizesCollideIff(two.table[0], two.table[1]);
    assert Occupies(two.table, cluster, 0) && Occupies(two.table, cluster, 1);
  }

  ghost predicate NeverCollides(s: State, es: seq<Event>, cluster: nat)
    decreases |es|
  {
    es == [] || (!Collides(s, es[0], cluster) && NeverCollides(React(s, es[0]), es[1..], cluster))
  }

  lemma {:induction false} NeverCollided(s: State, es: seq<Event>, cluster: nat)
    requires Inv(s) && OnePerName(s.table, cluster) && NeverCollides(s, es, cluster)
    ensures OnePerName(Run(s, es).table, cluster)
    decreases |es|
  {
    if es != [] {
      OnePerNameIff(s, es[0], cluster);
      ReactKeepsInv(s, es[0]);
      NeverCollided(React(s, es[0]), es[1..], cluster);
    }
  }

  /** As long as no job is queued that meets another one, no two running executors ever touch a common
      index. */
  lemma NoTwoExecutorsOnOneIndex(cap: nat, es: seq<Event>, cluster: nat, i: nat, j: nat)
    requires NeverCollides(Initial(cap), es, cluster)
    ensures var s := Run(Initial(cap), es);
            (At(s, i, Running) && At(s, j, Running) && i != j && i in s.table && j in s.table
             && s.table[i].cluster == cluster && s.table[j].cluster == cluster)
            ==> Touched(s.table[i]) !! Touched(s.table[j])
  {
    var s := Run(Initial(cap), es);
    InitialInv(cap);
    NeverCollided(Initial(cap), es, cluster);
    RunKeepsInv(Initial(cap), es);
    if At(s, i, Running) && At(s, j, Running) { assert RowFits(s, i) && RowFits(s, j); }
  }
}
