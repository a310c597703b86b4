/** What the routes do to a job, read off the columns of its row alone. */
module RouteEffects {
  import opened Options
  import opened JobTable
  import opened JobSystem
  import Batching
  import Reconciliation

  // ---------------------------------------------------------------- recommend

  /** Some fresh suggestion of a selected job type has this key. */
  ghost predicate Suggested(all: seq<Suggestion>, scope: set<JobType>, cluster: nat, fp: Fingerprint) {
    exists s :: s in all && s.jobType in scope && fp == Fingerprint(cluster, s.index, s.jobType)
  }

  lemma {:induction false} SuggestedIff(all: seq<Suggestion>, scope: set<JobType>, cluster: nat, fp: Fingerprint)
    ensures fp in Latest(cluster, Scoped(all, scope)) <==> Suggested(all, scope, cluster, fp)
  {
    if all != [] {
      var init, last := all[..|all| - 1], all[|all| - 1];
      SuggestedIff(init, scope, cluster, fp);
      var rest := Scoped(init, scope);
      assert (rest + [last])[..|rest|] == rest;
      assert forall s :: s in all <==> s in init || s == last;
    }
  }

  /** No later suggestion has the key of the `k`-th one. */
  predicate LastOfItsKey(all: seq<Suggestion>, k: nat)
    requires k < |all|
  {
    forall j :: k < j < |all| ==> all[j].index != all[k].index || all[j].jobType != all[k].jobType
  }

  lemma {:induction false} LastOneWins(all: seq<Suggestion>, scope: set<JobType>, cluster: nat, k: nat)
    requires k < |all| && all[k].jobType in scope && LastOfItsKey(all, k)
    ensures var fp := Fingerprint(cluster, all[k].index, all[k].jobType);
            fp in Latest(cluster, Scoped(all, scope)) && Latest(cluster, Scoped(all, scope))[fp] == all[k]
  {
    var init, last := all[..|all| - 1], all[|all| - 1];
    var rest := Scoped(init, scope);
    assert (rest + [last])[..|rest|] == rest;
    if k < |all| - 1 {
      assert all[|all| - 1].index != all[k].index || all[|all| - 1].jobType != all[k].jobType;
      assert init[k] == all[k];
      LastOneWins(init, scope, cluster, k);
    }
  }

  /** A row of another cluster, another status or another type stays as it is; a pending row of a
      selected type survives exactly if its key is that of a fresh suggestion, as a pending row with
      the same key columns. */
  lemma RecommendRow(t: Table, nextId: nat, cluster: nat, scope: set<JobType>, all: seq<Suggestion>, run: nat, id: nat)
    requires Below(t, nextId) && id in t
    ensures var after := Reconcile(t, nextId, cluster, scope, Scoped(all, scope), run);
            if t[id].cluster != cluster || t[id].status != Pending || t[id].jobType !in scope then
              id in after && after[id] == t[id]
            else
              && (id in after <==> t[id].fingerprint.Some? && Suggested(all, scope, cluster, t[id].fingerprint.value))
              && (id in after ==> after[id] == t[id].(advice := after[id].advice, run := after[id].run))
  {
    var ss := Scoped(all, scope);
    Reconciliation.RecommendFrame(t, nextId, cluster, scope, ss, run, id);
    if t[id].fingerprint.Some? { SuggestedIff(all, scope, cluster, t[id].fingerprint.value); }
  }

  /** The last pending row of a key takes over the figures of the last suggestion with that key; earlier
      ones keep theirs. */
  lemma RecommendRefreshes(t: Table, nextId: nat, cluster: nat, scope: set<JobType>, all: seq<Suggestion>, run: nat,
                           id: nat, k: nat)
    requires Below(t, nextId) && id in t && k < |all| && LastOfItsKey(all, k)
    requires t[id].cluster == cluster && t[id].status == Pending && t[id].jobType in scope && all[k].jobType in scope
    requires t[id].fingerprint == Some(Fingerprint(cluster, all[k].index, all[k].jobType))
    ensures var after := Reconcile(t, nextId, cluster, scope, Scoped(all, scope), run);
            var last := forall i :: (&& i in t && t[i].cluster == cluster && t[i].status == Pending
                                     && t[i].jobType in scope && t[i].fingerprint == t[id].fingerprint) ==> i <= id;
            id in after && after[id] == if last then t[id].(advice := all[k].advice, run := run) else t[id]
  {
    var ss := Scoped(all, scope);
    LastOneWins(all, scope, cluster, k);
    Reconciliation.ReconcileFacts(t, nextId, cluster, scope, ss, run);
  }

  /** Some row of the cluster with a selected type has the key and one of these statuses. */
  ghost predicate Occupied(t: Table, cluster: nat, scope: set<JobType>, fp: Fingerprint) {
    exists id :: && id in t && t[id].cluster == cluster && t[id].jobType in scope && t[id].fingerprint == Some(fp)
                 && (|| t[id].status == Pending || t[id].status == Approved
                     || t[id].status == Queued || t[id].status == Executing)
  }

  lemma OccupiedIff(t: Table, cluster: nat, scope: set<JobType>, fp: Fingerprint)
    ensures Occupied(t, cluster, scope, fp)
            <==> fp in PendingFps(t, cluster, scope) || fp in ActiveFps(t, cluster, scope)
  {
    if fp in PendingFps(t, cluster, scope) {
      var id :| id in t && InScope(t[id], cluster, scope) && t[id].fingerprint == Some(fp);
    }
    if fp in ActiveFps(t, cluster, scope) {
      var id :| && id in t && t[id].cluster == cluster && Active(t[id].status)
                && t[id].jobType in scope && t[id].fingerprint == Some(fp);
    }
  }

  /** The ids that are new, and the key that each of their rows has. */
  lemma AddedRows(t: Table, kept: Table, after: Table, nextId: nat, fps: seq<Fingerprint>,
                  latest: map<Fingerprint, Suggestion>, cluster: nat, run: nat)
    requires Below(t, nextId) && Old(t, kept) && KeysMatch(latest, cluster) && forall fp :: fp in fps ==> fp in latest
    requires Reconciliation.Appended(kept, after, nextId, fps, latest, cluster, run)
    ensures forall id: nat :: id in after && id !in t <==> nextId <= id < nextId + |fps|
    ensures forall id: nat :: id in after && id !in t ==> after[id].fingerprint == Some(fps[id - nextId])
  {
  }

  predicate NoRepeats(fps: seq<Fingerprint>) { forall i, j :: 0 <= i < j < |fps| ==> fps[i] != fps[j] }

  lemma InsertedOnce(t: Table, cluster: nat, scope: set<JobType>, all: seq<Suggestion>)
    ensures NoRepeats(ToInsert(t, cluster, scope, Scoped(all, scope)))
  {
    Reconciliation.ToInsertFacts(t, cluster, scope, Scoped(all, scope));
  }

  predicate Adds(t: Table, after: Table, id: nat, fp: Fingerprint) {
    id in after && id !in t && after[id].fingerprint == Some(fp)
  }

  lemma InsertedKeys(t: Table, cluster: nat, scope: set<JobType>, all: seq<Suggestion>, fp: Fingerprint)
    ensures fp in ToInsert(t, cluster, scope, Scoped(all, scope))
            <==> Suggested(all, scope, cluster, fp) && !Occupied(t, cluster, scope, fp)
  {
    Reconciliation.ToInsertFacts(t, cluster, scope, Scoped(all, scope));
    SuggestedIff(all, scope, cluster, fp);
    OccupiedIff(t, cluster, scope, fp);
  }

  /** A list without repetitions, written down from an id on. */
  lemma AddedOnce(t: Table, after: Table, nextId: nat, fps: seq<Fingerprint>, fp: Fingerprint)
    requires NoRepeats(fps)
    requires forall id: nat :: id in after && id !in t <==> nextId <= id < nextId + |fps|
    requires forall id: nat :: id in after && id !in t ==> after[id].fingerprint == Some(fps[id - nextId])
    ensures if fp in fps then AddsOne(t, after, fp) else AddsNone(t, after, fp)
  {
    if fp in fps {
      var k :| 0 <= k < |fps| && fps[k] == fp;
      var id: nat := nextId + k;
      assert id in after && id !in t;
      assert Adds(t, after, id, fp);
    }
    forall id: nat | Adds(t, after, id, fp) ensures nextId <= id < nextId + |fps| && fps[id - nextId] == fp {}
  }

  predicate KeysMatch(latest: map<Fingerprint, Suggestion>, cluster: nat) {
    forall fp :: fp in latest ==> FingerprintOf(cluster, latest[fp]) == fp
  }

  lemma LatestKeyed(cluster: nat, ss: seq<Suggestion>)
    ensures KeysMatch(Latest(cluster, ss), cluster)
  {
    OrderIsKeys(cluster, ss);
  }

  predicate Old(t: Table, kept: Table) { forall id :: id in kept ==> id in t }

  lemma KeptIsOld(t: Table, cluster: nat, scope: set<JobType>, latest: map<Fingerprint, Suggestion>, run: nat)
    ensures Old(t, Kept(t, cluster, scope, latest, run))
  {
  }

  lemma AppendedOnce(t: Table, kept: Table, after: Table, nextId: nat, fps: seq<Fingerprint>,
                     latest: map<Fingerprint, Suggestion>, cluster: nat, run: nat, fp: Fingerprint)
    requires Below(t, nextId) && Old(t, kept) && KeysMatch(latest, cluster) && NoRepeats(fps)
    requires (forall f :: f in fps ==> f in latest)
             && Reconciliation.Appended(kept, after, nextId, fps, latest, cluster, run)
    ensures if fp in fps then AddsOne(t, after, fp) else AddsNone(t, after, fp)
  {
    AddedRows(t, kept, after, nextId, fps, latest, cluster, run);
    AddedOnce(t, after, nextId, fps, fp);
  }

  ghost predicate AddsOne(t: Table, after: Table, fp: Fingerprint) {
    && (exists id: nat :: Adds(t, after, id, fp))
    && (forall i: nat, j: nat :: Adds(t, after, i, fp) && Adds(t, after, j, fp) ==> i == j)
  }

  ghost predicate AddsNone(t: Table, after: Table, fp: Fingerprint) { forall id: nat :: !Adds(t, after, id, fp) }

  lemma InsertedAreAdded(t: Table, nextId: nat, cluster: nat, scope: set<JobType>, all: seq<Suggestion>, run: nat,
                         fp: Fingerprint)
    requires Below(t, nextId)
    ensures var after := Reconcile(t, nextId, cluster, scope, Scoped(all, scope), run);
            if fp in ToInsert(t, cluster, scope, Scoped(all, scope)) then AddsOne(t, after, fp)
            else AddsNone(t, after, fp)
  {
    var fps := ToInsert(t, cluster, scope, Scoped(all, scope));
    var after := Reconcile(t, nextId, cluster, scope, Scoped(all, scope), run);
    var latest := Latest(cluster, Scoped(all, scope));
    Reconciliation.ReconcileFacts(t, nextId, cluster, scope, Scoped(all, scope), run);
    LatestKeyed(cluster, Scoped(all, scope));
    InsertedOnce(t, cluster, scope, all);
    KeptIsOld(t, cluster, scope, latest, run);
    AppendedOnce(t, Kept(t, cluster, scope, latest, run), after, nextId, fps, latest, cluster, run, fp);
  }

  /** A row of the key is added exactly if it is suggested and no live row has it, and then one only. */
  lemma RecommendInsertsIff(t: Table, nextId: nat, cluster: nat, scope: set<JobType>, all: seq<Suggestion>, run: nat,
                            fp: Fingerprint)
    requires Below(t, nextId)
    ensures var after := Reconcile(t, nextId, cluster, scope, Scoped(all, scope), run);
            if Suggested(all, scope, cluster, fp) && !Occupied(t, cluster, scope, fp) then AddsOne(t, after, fp)
            else AddsNone(t, after, fp)
  {
    InsertedKeys(t, cluster, scope, all, fp);
    InsertedAreAdded(t, nextId, cluster, scope, all, run, fp);
  }

  /** An added row is a pending job of the cluster, made from the last suggestion with its key. */
  lemma RecommendedRow(t: Table, nextId: nat, cluster: nat, scope: set<JobType>, all: seq<Suggestion>, run: nat,
                       id: nat, k: nat)
    requires Below(t, nextId) && k < |all| && all[k].jobType in scope && LastOfItsKey(all, k) && id !in t
    requires var after := Reconcile(t, nextId, cluster, scope, Scoped(all, scope), run);
             id in after && after[id].fingerprint == Some(Fingerprint(cluster, all[k].index, all[k].jobType))
    ensures Reconcile(t, nextId, cluster, scope, Scoped(all, scope), run)[id] ==
            Job(cluster, run, all[k].index, all[k].jobType,
                Some(Fingerprint(cluster, all[k].index, all[k].jobType)), Pending, all[k].advice, None)
  {
    Reconciliation.ReconcileFacts(t, nextId, cluster, scope, Scoped(all, scope), run);
    Reconciliation.NewRow(t, nextId, cluster, scope, all, run, id);
    LastOneWins(all, scope, cluster, k);
  }

  /** A recommendation takes one new run and as many ids as it adds rows, and leaves the tasks alone. */
  lemma RecommendCounts(s: State, cluster: nat, scope: set<JobType>, all: seq<Suggestion>)
    requires Below(s.table, s.nextId)
    ensures var s' := React(s, Recommend(cluster, scope, all));
            && s'.nextRun == s.nextRun + 1 && s'.tasks == s.tasks && s'.free == s.free && s'.nextId >= s.nextId
            && forall id :: id in s'.table && id !in s.table <==> s.nextId <= id < s'.nextId
  {
    Reconciliation.ReconcileFacts(s.table, s.nextId, cluster, scope, Scoped(all, scope), s.nextRun);
  }

  // ---------------------------------------------------------------- approving and rejecting

  /** Only a pending row is approved or rejected, and no other row changes. */
  lemma ApproveAndReject(s: State, id: nat, other: nat)
    requires id in s.table && other in s.table
    ensures var approved, rejected := React(s, Approve(id)), React(s, Reject(id));
            var pending := s.table[id].status == Pending;
            && approved.table.Keys == s.table.Keys && rejected.table.Keys == s.table.Keys
            && approved.table[id] == s.table[id].(status := if pending then Approved else s.table[id].status)
            && rejected.table[id] == s.table[id].(status := if pending then Rejected else s.table[id].status)
            && (other != id ==> approved.table[other] == s.table[other] && rejected.table[other] == s.table[other])
  {
  }

  /** All pending rows of the cluster are approved, of one tier only if a tier is given. */
  lemma ApproveAllRow(s: State, cluster: nat, tier: Option<int>, id: nat)
    requires id in s.table
    ensures var t, after := s.table, React(s, ApproveAll(cluster, tier)).table;
            var chosen := && t[id].cluster == cluster && t[id].status == Pending
                          && (tier == None || tier == Some(t[id].advice.tier));
            after.Keys == t.Keys && after[id] == t[id].(status := if chosen then Approved else t[id].status)
  {
  }

  // ---------------------------------------------------------------- executing

  /** A row in the pipeline: waiting for a slot, or labelled as executing. */
  predicate Queueing(job: Job) { job.status == Queued || job.status == Executing }

  /** The single route queues an approved job, whatever else is in flight. */
  lemma ExecuteRow(s: State, id: nat, writable: bool, submitted: bool)
    requires id in s.table && id !in s.tasks
    ensures var s' := React(s, Execute(id, writable, submitted));
            if s.table[id].status == Approved && writable then
              && s'.table == s.table[id := s.table[id].(status := Queued)]
              && s'.tasks == if submitted then s.tasks[id := Task(Created, false)] else s.tasks
            else s' == s
  {
  }

  /** The batch route changes approved rows of its cluster alone, and a row stays approved exactly if
      another row of its index is in the pipeline afterwards. */
  lemma ExecuteAllRow(s: State, cluster: nat, submitted: bool, id: nat)
    requires Below(s.table, s.nextId) && id in s.table
    ensures var t, after := s.table, React(s, ExecuteAll(cluster, true, submitted)).table;
            && after.Keys == t.Keys
            && (t[id].cluster != cluster || t[id].status != Approved ==> after[id] == t[id])
            && (t[id].cluster == cluster && t[id].status == Approved ==>
                  && (after[id] == t[id] || after[id] == t[id].(status := Queued))
                  && (after[id].status == Approved <==> exists o :: Blocks(after, cluster, o, id)))
  {
    var b := EnqueueBelow(s.table, cluster, s.nextId);
    Batching.BatchFacts(s.table, cluster, s.nextId);
    if id in b.ids {
      QueuedIsAlone(s.table, cluster, s.nextId, id);
    } else if LeftBehind(b.table, cluster, id) {
      SkippedForAnother(s.table, cluster, s.nextId, id);
    }
  }

  /** Another row of the cluster with the same index is in the pipeline. */
  predicate Blocks(t: Table, cluster: nat, o: nat, id: nat) {
    id in t && o in t && o != id && t[o].cluster == cluster && Queueing(t[o]) && t[o].index == t[id].index
  }

  lemma SkippedForAnother(t: Table, cluster: nat, n: nat, id: nat)
    requires Below(t, n) && LeftBehind(EnqueueBelow(t, cluster, n).table, cluster, id)
    ensures exists o :: Blocks(EnqueueBelow(t, cluster, n).table, cluster, o, id)
  {
    var b := EnqueueBelow(t, cluster, n);
    Batching.BatchFacts(t, cluster, n);
    Batching.SkippedWereBusy(t, cluster, n);
    assert Runnable(t, cluster, id) && id !in b.ids;
    assert b.table[id].index in BusyIndexes(b.table, cluster);
    var o: nat :| && o in b.table && b.table[o].cluster == cluster && InFlight(b.table[o].status)
                  && b.table[o].index == b.table[id].index;
    assert Blocks(b.table, cluster, o, id);
  }

  predicate LeftBehind(t: Table, cluster: nat, id: nat) {
    id in t && t[id].cluster == cluster && t[id].status.Approved?
  }

  lemma {:induction false} QueuedIsAlone(t: Table, cluster: nat, n: nat, id: nat)
    requires id in EnqueueBelow(t, cluster, n).ids
    ensures var b := EnqueueBelow(t, cluster, n);
            forall o :: && o in b.table && o != id && b.table[o].cluster == cluster && Queueing(b.table[o]) ==>
              id in b.table && b.table[o].index != b.table[id].index
  {
    Batching.BatchFacts(t, cluster, n - 1);
    var before := EnqueueBelow(t, cluster, n - 1);
    if id in before.ids { QueuedIsAlone(t, cluster, n - 1, id); }
  }

  /** An operator's job gets a fresh id and a run of its own, is queued at once, and carries no key. */
  lemma SubmitDirectRow(s: State, job: Job, submitted: bool)
    requires s.nextId !in s.tasks
    ensures var s' := React(s, SubmitDirect(job, true, submitted));
            && s'.table == s.table[s.nextId := job.(status := Queued, fingerprint := None, run := s.nextRun)]
            && s'.nextId == s.nextId + 1 && s'.nextRun == s.nextRun + 1
            && s'.tasks == if submitted then s.tasks[s.nextId := Task(Created, false)] else s.tasks
  {
  }

  // ---------------------------------------------------------------- clearing and cancelling

  /** Approved rows of the cluster go; the unfinished tasks of its queued rows, and no others, are asked
      to stop. */
  lemma ClearQueueRow(s: State, cluster: nat, id: nat)
    ensures var s' := React(s, ClearQueue(cluster));
            && (id in s'.table <==>
                  id in s.table && !(s.table[id].cluster == cluster && s.table[id].status == Approved))
            && (id in s'.table ==> s'.table[id] == s.table[id])
            && s'.tasks.Keys == s.tasks.Keys
            && (id in s.tasks ==>
                  var told := && id in s.table && s.table[id].cluster == cluster && s.table[id].status == Queued
                              && s.tasks[id].pc != Finished;
                  s'.tasks[id] == s.tasks[id].(cancelRequested := told || s.tasks[id].cancelRequested))
  {
  }

  /** Completed, failed, cancelled and rejected rows of the cluster go, and nothing else. */
  lemma ClearHistoryRow(s: State, cluster: nat, id: nat)
    ensures var s' := React(s, ClearHistory(cluster));
            && (id in s'.table <==>
                  && id in s.table
                  && !(&& s.table[id].cluster == cluster
                       && (|| s.table[id].status == Completed || s.table[id].status == Failed
                           || s.table[id].status == Cancelled || s.table[id].status == Rejected)))
            && (id in s'.table ==> s'.table[id] == s.table[id]) && s'.tasks == s.tasks
  {
  }

  /** A queued or executing job's unfinished task is asked to stop; rows and other tasks stay. */
  lemma CancelJobTask(s: State, id: nat, other: nat)
    requires other in s.tasks
    ensures var s' := React(s, CancelJob(id));
            var told := && other == id && id in s.table && Queueing(s.table[id]) && s.tasks[id].pc != Finished;
            && s'.table == s.table && s'.tasks.Keys == s.tasks.Keys
            && s'.tasks[other] == s.tasks[other].(cancelRequested := told || s.tasks[other].cancelRequested)
  {
  }

  // ---------------------------------------------------------------- cluster and process

  lemma DeleteClusterRow(s: State, cluster: nat, id: nat)
    ensures var s' := React(s, DeleteCluster(cluster));
            && (id in s'.table <==> id in s.table && s.table[id].cluster != cluster)
            && (id in s'.table ==> s'.table[id] == s.table[id]) && s'.tasks == s.tasks && s'.free == s.free
  {
  }

  /** Every unfinished task is asked to stop. */
  lemma StopAllTask(s: State, id: nat)
    requires id in s.tasks
    ensures var s' := React(s, StopAll);
            && s'.table == s.table && s'.tasks.Keys == s.tasks.Keys
            && s'.tasks[id].pc == s.tasks[id].pc
            && (s'.tasks[id].cancelRequested <==> s.tasks[id].pc != Finished || s.tasks[id].cancelRequested)
  {
  }

  /** A new process puts every row of the pipeline back into the queue with a new task, and knows no
      other task. */
  lemma RestartRow(s: State, id: nat)
    ensures var s' := React(s, Restart);
            && s'.table.Keys == s.table.Keys && s'.free == s.cap
            && (id in s.table ==> s'.table[id] == if Queueing(s.table[id]) then s.table[id].(status := Queued)
                                                  else s.table[id])
            && (id in s'.tasks <==> id in s.table && Queueing(s.table[id]))
            && (id in s'.tasks ==> s'.tasks[id] == Task(Created, false))
  {
  }
}
