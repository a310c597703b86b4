/** The job rows, and what each route does to them in one transaction. */
module JobTable {
  import opened Options

  datatype Status = Pending | Approved | Queued | Executing | Completed | Failed | Cancelled | Rejected

  datatype JobType =
    | ReduceShards | SplitShards | ForceMerge | ExpungeDeletes
    | RelocateShard | DrainNode | PromoteIndex | Reindex

  /** The hashed `cluster:index:type` string, taken as injective. */
  datatype Fingerprint = Fingerprint(cluster: nat, index: string, jobType: JobType)

  /** The columns that a repeated recommendation refreshes. */
  datatype Advice = Advice(tier: int, currentShards: int, targetShards: int, replicas: int,
                           priStoreGb: real, docCount: int, savings: int)

  datatype Suggestion = Suggestion(index: string, jobType: JobType, advice: Advice)

  datatype Job = Job(cluster: nat, run: nat, index: string, jobType: JobType,
                     fingerprint: Option<Fingerprint>, status: Status, advice: Advice, targetIndex: Option<string>)

  type Table = map<nat, Job>

  predicate InFlight(status: Status) { status.Queued? || status.Executing? }

  predicate Active(status: Status) { status.Approved? || InFlight(status) }

  predicate Live(status: Status) { status.Pending? || Active(status) }

  predicate Terminal(status: Status) { !Live(status) }

  predicate Below(t: Table, bound: nat) { forall id :: id in t ==> id < bound }

  // ---------------------------------------------------------------- single rows

  function Move(t: Table, id: nat, from: Status, to: Status): Table {
    if id in t && t[id].status == from then t[id := t[id].(status := to)] else t
  }

  // ---------------------------------------------------------------- bulk routes

  predicate Selected(job: Job, cluster: nat, tier: Option<int>) {
    job.cluster == cluster && job.status.Pending? && (tier.Some? ==> job.advice.tier == tier.value)
  }

  function BulkApprove(t: Table, cluster: nat, tier: Option<int>): Table {
    map id | id in t :: if Selected(t[id], cluster, tier) then t[id].(status := Approved) else t[id]
  }

  function ClearApproved(t: Table, cluster: nat): Table {
    map id | id in t && !(t[id].cluster == cluster && t[id].status.Approved?) :: t[id]
  }

  function QueuedIds(t: Table, cluster: nat): set<nat> {
    set id | id in t && t[id].cluster == cluster && t[id].status.Queued?
  }

  function ClearTerminal(t: Table, cluster: nat): Table {
    map id | id in t && !(t[id].cluster == cluster && Terminal(t[id].status)) :: t[id]
  }

  /** Deleting a cluster deletes its job rows, whatever their status. */
  function WithoutCluster(t: Table, cluster: nat): Table {
    map id | id in t && t[id].cluster != cluster :: t[id]
  }

  /** What recovery does to the rows left behind by the previous process. */
  function Requeue(t: Table): Table {
    map id | id in t :: if InFlight(t[id].status) then t[id].(status := Queued) else t[id]
  }

  function InFlightIds(t: Table): set<nat> { set id | id in t && InFlight(t[id].status) }

  // ---------------------------------------------------------------- execute-all

  function BusyIndexes(t: Table, cluster: nat): set<string> {
    set id | id in t && t[id].cluster == cluster && InFlight(t[id].status) :: t[id].index
  }

  datatype Batch = Batch(table: Table, busy: set<string>, ids: set<nat>)

  predicate Runnable(t: Table, cluster: nat, id: nat) {
    id in t && t[id].cluster == cluster && t[id].status.Approved?
  }

  /** The approved rows below `n` in id order, each queued unless its index is already busy. */
  function EnqueueBelow(t: Table, cluster: nat, n: nat): Batch {
    if n == 0 then Batch(t, BusyIndexes(t, cluster), {})
    else
      var b := EnqueueBelow(t, cluster, n - 1);
      if Runnable(t, cluster, n - 1) && t[n - 1].index !in b.busy then
        Batch(b.table[n - 1 := t[n - 1].(status := Queued)], b.busy + {t[n - 1].index}, b.ids + {n - 1})
      else b
  }

  // ---------------------------------------------------------------- recommend

  function FingerprintOf(cluster: nat, s: Suggestion): Fingerprint { Fingerprint(cluster, s.index, s.jobType) }

  /** Only suggestions of the selected detectors' job types are reconciled. */
  function Scoped(all: seq<Suggestion>, scope: set<JobType>): seq<Suggestion> {
    if all == [] then []
    else
      var rest := Scoped(all[..|all| - 1], scope);
      var s := all[|all| - 1];
      if s.jobType in scope then rest + [s] else rest
  }

  /** The dictionary keyed by fingerprint: the last suggestion wins ... */
  function Latest(cluster: nat, ss: seq<Suggestion>): map<Fingerprint, Suggestion> {
    if ss == [] then map[]
    else
      var s := ss[|ss| - 1];
      Latest(cluster, ss[..|ss| - 1])[FingerprintOf(cluster, s) := s]
  }

  /** ... and its keys keep the order of first insertion. */
  function Order(cluster: nat, ss: seq<Suggestion>): seq<Fingerprint> {
    if ss == [] then []
    else
      var order := Order(cluster, ss[..|ss| - 1]);
      var fp := FingerprintOf(cluster, ss[|ss| - 1]);
      if fp in order then order else order + [fp]
  }

  predicate InScope(job: Job, cluster: nat, scope: set<JobType>) {
    job.cluster == cluster && job.status.Pending? && job.jobType in scope
  }

  function PendingFps(t: Table, cluster: nat, scope: set<JobType>): set<Fingerprint> {
    set id | id in t && InScope(t[id], cluster, scope) && t[id].fingerprint.Some? :: t[id].fingerprint.value
  }

  function ActiveFps(t: Table, cluster: nat, scope: set<JobType>): set<Fingerprint> {
    set id | && id in t && t[id].cluster == cluster && Active(t[id].status)
             && t[id].jobType in scope && t[id].fingerprint.Some? :: t[id].fingerprint.value
  }

  /** The row that the fingerprint dictionary ends up pointing at: the last one of its key. */
  ghost predicate Represents(t: Table, cluster: nat, scope: set<JobType>, id: nat) {
    && id in t && InScope(t[id], cluster, scope) && t[id].fingerprint.Some?
    && forall i :: i in t && InScope(t[i], cluster, scope) && t[i].fingerprint == t[id].fingerprint ==> i <= id
  }

  predicate Resolved(job: Job, cluster: nat, scope: set<JobType>, latest: map<Fingerprint, Suggestion>) {
    InScope(job, cluster, scope) && (job.fingerprint.None? || job.fingerprint.value !in latest)
  }

  /** Rows whose suggestion is gone are deleted; the others are refreshed in place. */
  ghost function Kept(t: Table, cluster: nat, scope: set<JobType>, latest: map<Fingerprint, Suggestion>,
                      run: nat): Table {
    map id | id in t && !Resolved(t[id], cluster, scope, latest) ::
      if Represents(t, cluster, scope, id) then t[id].(advice := latest[t[id].fingerprint.value].advice, run := run)
      else t[id]
  }

  /** The fingerprints to insert: neither pending nor already acted on. */
  function Missing(order: seq<Fingerprint>, pending: set<Fingerprint>, active: set<Fingerprint>): seq<Fingerprint> {
    if order == [] then []
    else
      var rest := Missing(order[..|order| - 1], pending, active);
      var fp := order[|order| - 1];
      if fp in pending || fp in active then rest else rest + [fp]
  }

  function NewJob(s: Suggestion, cluster: nat, run: nat): Job {
    Job(cluster, run, s.index, s.jobType, Some(FingerprintOf(cluster, s)), Pending, s.advice, None)
  }

  function Insert(t: Table, nextId: nat, fps: seq<Fingerprint>, latest: map<Fingerprint, Suggestion>, cluster: nat,
                  run: nat): Table
    requires forall fp :: fp in fps ==> fp in latest
  {
    if fps == [] then t
    else Insert(t, nextId, fps[..|fps| - 1], latest, cluster, run)
         [nextId + |fps| - 1 := NewJob(latest[fps[|fps| - 1]], cluster, run)]
  }

  lemma {:induction false} OrderIsKeys(cluster: nat, ss: seq<Suggestion>)
    ensures forall fp :: fp in Order(cluster, ss) <==> fp in Latest(cluster, ss)
    ensures forall i, j :: 0 <= i < j < |Order(cluster, ss)| ==> Order(cluster, ss)[i] != Order(cluster, ss)[j]
    ensures forall fp :: fp in Latest(cluster, ss) ==> FingerprintOf(cluster, Latest(cluster, ss)[fp]) == fp
  {
    if ss != [] { OrderIsKeys(cluster, ss[..|ss| - 1]); }
  }

  lemma {:induction false} MissingFacts(order: seq<Fingerprint>, pending: set<Fingerprint>, active: set<Fingerprint>)
    ensures forall fp :: fp in Missing(order, pending, active) <==> fp in order && fp !in pending && fp !in active
    ensures (forall i, j :: 0 <= i < j < |order| ==> order[i] != order[j]) ==>
              forall i, j :: 0 <= i < j < |Missing(order, pending, active)| ==>
                Missing(order, pending, active)[i] != Missing(order, pending, active)[j]
  {
    if order != [] {
      var init := order[..|order| - 1];
      MissingFacts(init, pending, active);
      assert forall fp :: fp in order <==> fp in init || fp == order[|order| - 1];
    }
  }

  /** The rows to insert for one recommendation. */
  function ToInsert(t: Table, cluster: nat, scope: set<JobType>, ss: seq<Suggestion>): (fps: seq<Fingerprint>)
    ensures forall fp :: fp in fps ==> fp in Latest(cluster, ss)
  {
    OrderIsKeys(cluster, ss);
    MissingFacts(Order(cluster, ss), PendingFps(t, cluster, scope), ActiveFps(t, cluster, scope));
    Missing(Order(cluster, ss), PendingFps(t, cluster, scope), ActiveFps(t, cluster, scope))
  }

  ghost function Reconcile(t: Table, nextId: nat, cluster: nat, scope: set<JobType>, ss: seq<Suggestion>,
                           run: nat): Table {
    Insert(Kept(t, cluster, scope, Latest(cluster, ss), run), nextId, ToInsert(t, cluster, scope, ss),
           Latest(cluster, ss), cluster, run)
  }
}
