/** What a recommendation leaves in the job table, stated without the loops that produce it. */
module Reconciliation {
  import opened Options
  import opened JobTable

  /** Rows are keyed the way `recommend` keys them; operator-made rows carry no fingerprint. */
  predicate Keyed(t: Table) {
    forall id :: id in t && t[id].fingerprint.Some? ==>
      t[id].fingerprint.value == Fingerprint(t[id].cluster, t[id].index, t[id].jobType)
  }

  /** At most one live row per fingerprint. */
  predicate Unique(t: Table) {
    forall i, j :: (i in t && j in t && t[i].fingerprint.Some? && t[i].fingerprint == t[j].fingerprint
                    && Live(t[i].status) && Live(t[j].status)) ==> i == j
  }

  /** `after` is `before` with one new row per fingerprint, numbered from `nextId` on. */
  ghost predicate Appended(before: Table, after: Table, nextId: nat, fps: seq<Fingerprint>,
                           latest: map<Fingerprint, Suggestion>, cluster: nat, run: nat)
    requires forall fp :: fp in fps ==> fp in latest
  {
    && Below(after, nextId + |fps|)
    && (forall id :: id < nextId ==> (id in after <==> id in before) && (id in before ==> after[id] == before[id]))
    && (forall id :: nextId <= id < nextId + |fps| ==>
          id in after && after[id] == NewJob(latest[fps[id - nextId]], cluster, run))
  }

  lemma {:induction false} InsertFacts(t: Table, nextId: nat, fps: seq<Fingerprint>,
                                       latest: map<Fingerprint, Suggestion>, cluster: nat, run: nat)
    requires Below(t, nextId) && forall fp :: fp in fps ==> fp in latest
    ensures Appended(t, Insert(t, nextId, fps, latest, cluster, run), nextId, fps, latest, cluster, run)
  {
    if fps != [] {
      InsertFacts(t, nextId, fps[..|fps| - 1], latest, cluster, run);
    }
  }

  lemma ToInsertFacts(t: Table, cluster: nat, scope: set<JobType>, ss: seq<Suggestion>)
    ensures var fps := ToInsert(t, cluster, scope, ss);
            && (forall fp :: fp in fps <==>
                  && fp in Latest(cluster, ss)
                  && fp !in PendingFps(t, cluster, scope) && fp !in ActiveFps(t, cluster, scope))
            && (forall i, j :: 0 <= i < j < |fps| ==> fps[i] != fps[j])
  {
    OrderIsKeys(cluster, ss);
    MissingFacts(Order(cluster, ss), PendingFps(t, cluster, scope), ActiveFps(t, cluster, scope));
  }

  /** Old rows end as `Kept` has them, new rows follow from `nextId` on. */
  lemma ReconcileFacts(t: Table, nextId: nat, cluster: nat, scope: set<JobType>, ss: seq<Suggestion>, run: nat)
    requires Below(t, nextId)
    ensures Appended(Kept(t, cluster, scope, Latest(cluster, ss), run), Reconcile(t, nextId, cluster, scope, ss, run),
                     nextId, ToInsert(t, cluster, scope, ss), Latest(cluster, ss), cluster, run)
  {
    InsertFacts(Kept(t, cluster, scope, Latest(cluster, ss), run), nextId, ToInsert(t, cluster, scope, ss),
                Latest(cluster, ss), cluster, run);
  }

  /** A row with a new id is the `id - nextId`-th inserted suggestion. */
  lemma NewRow(t: Table, nextId: nat, cluster: nat, scope: set<JobType>, all: seq<Suggestion>, run: nat, id: nat)
    requires Below(t, nextId)
    requires nextId <= id < nextId + |ToInsert(t, cluster, scope, Scoped(all, scope))|
    ensures id in Reconcile(t, nextId, cluster, scope, Scoped(all, scope), run)
    ensures var ss := Scoped(all, scope);
            var fps := ToInsert(t, cluster, scope, ss);
            var job := Reconcile(t, nextId, cluster, scope, ss, run)[id];
            && job == NewJob(Latest(cluster, ss)[fps[id - nextId]], cluster, run)
            && job.fingerprint == Some(fps[id - nextId])
            && job.fingerprint == Some(Fingerprint(job.cluster, job.index, job.jobType))
            && InScope(job, cluster, scope)
  {
    var ss := Scoped(all, scope);
    ReconcileFacts(t, nextId, cluster, scope, ss, run);
    OrderIsKeys(cluster, ss);
    LatestInScope(cluster, scope, all);
  }

  /** Nothing outside the pending rows of the selected types is touched, and a surviving pending
      row keeps its id, key and status. */
  lemma RecommendFrame(t: Table, nextId: nat, cluster: nat, scope: set<JobType>, ss: seq<Suggestion>, run: nat, id: nat)
    requires Below(t, nextId) && id in t
    ensures var after := Reconcile(t, nextId, cluster, scope, ss, run);
            && (!InScope(t[id], cluster, scope) ==> id in after && after[id] == t[id])
            && (InScope(t[id], cluster, scope) ==>
                  && (id in after <==> t[id].fingerprint.Some? && t[id].fingerprint.value in Latest(cluster, ss))
                  && (id in after ==> after[id] == t[id].(advice := after[id].advice, run := after[id].run)))
  {
    ReconcileFacts(t, nextId, cluster, scope, ss, run);
  }

  lemma {:induction false} LatestInScope(cluster: nat, scope: set<JobType>, all: seq<Suggestion>)
    ensures forall fp :: fp in Latest(cluster, Scoped(all, scope)) ==> fp.cluster == cluster && fp.jobType in scope
  {
    if all != [] {
      LatestInScope(cluster, scope, all[..|all| - 1]);
      var s := all[|all| - 1];
      var rest := Scoped(all[..|all| - 1], scope);
      if s.jobType in scope { assert (rest + [s])[..|rest + [s]| - 1] == rest; }
    }
  }

  /** The pending rows of the selected types are exactly the fresh suggestions minus those the
      operator already acted on: one row each, carrying the fresh advice and the new run. */
  lemma RecommendExact(t: Table, nextId: nat, cluster: nat, scope: set<JobType>, all: seq<Suggestion>, run: nat,
                       fp: Fingerprint)
    requires Below(t, nextId) && Keyed(t) && Unique(t)
    ensures var ss := Scoped(all, scope);
            var after := Reconcile(t, nextId, cluster, scope, ss, run);
            && (fp in PendingFps(after, cluster, scope) <==>
                  fp in Latest(cluster, ss) && fp !in ActiveFps(t, cluster, scope))
            && (forall id :: id in after && InScope(after[id], cluster, scope) && after[id].fingerprint == Some(fp) ==>
                  && fp in Latest(cluster, ss)
                  && after[id].advice == Latest(cluster, ss)[fp].advice && after[id].run == run)
            && Keyed(after) && Unique(after)
  {
    var ss := Scoped(all, scope);
    var after := Reconcile(t, nextId, cluster, scope, ss, run);
    if fp in Latest(cluster, ss) && fp !in ActiveFps(t, cluster, scope) {
      FirstCovers(t, nextId, cluster, scope, all, run, fp);
      ActiveUnchanged(t, nextId, cluster, scope, all, run, fp);
    }
    forall id | id in after && InScope(after[id], cluster, scope) && after[id].fingerprint == Some(fp)
      ensures && fp in Latest(cluster, ss) && after[id].advice == Latest(cluster, ss)[fp].advice
              && after[id].run == run && fp !in ActiveFps(t, cluster, scope)
    {
      PendingIsFresh(t, nextId, cluster, scope, all, run, id);
    }
    RecommendKeepsUnique(t, nextId, cluster, scope, all, run);
  }

  lemma ActiveUnchanged(t: Table, nextId: nat, cluster: nat, scope: set<JobType>, all: seq<Suggestion>, run: nat,
                        fp: Fingerprint)
    requires Below(t, nextId)
    ensures fp in ActiveFps(Reconcile(t, nextId, cluster, scope, Scoped(all, scope), run), cluster, scope)
            <==> fp in ActiveFps(t, cluster, scope)
  {
    var after := Reconcile(t, nextId, cluster, scope, Scoped(all, scope), run);
    ReconcileFacts(t, nextId, cluster, scope, Scoped(all, scope), run);
    if fp in ActiveFps(t, cluster, scope) {
      var id :| && id in t && t[id].cluster == cluster && Active(t[id].status)
                && t[id].jobType in scope && t[id].fingerprint == Some(fp);
      assert id in after && after[id] == t[id];
    }
    if fp in ActiveFps(after, cluster, scope) {
      var id :| && id in after && after[id].cluster == cluster && Active(after[id].status)
                && after[id].jobType in scope && after[id].fingerprint == Some(fp);
      if id >= nextId { NewRow(t, nextId, cluster, scope, all, run, id); }
      assert id in t && t[id] == after[id];
    }
  }

  lemma PendingIsFresh(t: Table, nextId: nat, cluster: nat, scope: set<JobType>, all: seq<Suggestion>, run: nat,
                       id: nat)
    requires Below(t, nextId) && Unique(t)
    requires var after := Reconcile(t, nextId, cluster, scope, Scoped(all, scope), run);
             id in after && InScope(after[id], cluster, scope) && after[id].fingerprint.Some?
    ensures var latest := Latest(cluster, Scoped(all, scope));
            var job := Reconcile(t, nextId, cluster, scope, Scoped(all, scope), run)[id];
            && job.fingerprint.value in latest && job.fingerprint.value !in ActiveFps(t, cluster, scope)
            && job.advice == latest[job.fingerprint.value].advice && job.run == run
  {
    var ss := Scoped(all, scope);
    ReconcileFacts(t, nextId, cluster, scope, ss, run);
    ToInsertFacts(t, cluster, scope, ss);
    if id >= nextId {
      NewRow(t, nextId, cluster, scope, all, run, id);
    } else {
      assert Represents(t, cluster, scope, id);
    }
  }

  lemma RecommendKeepsUnique(t: Table, nextId: nat, cluster: nat, scope: set<JobType>, all: seq<Suggestion>, run: nat)
    requires Below(t, nextId) && Keyed(t) && Unique(t)
    ensures Keyed(Reconcile(t, nextId, cluster, scope, Scoped(all, scope), run))
    ensures Unique(Reconcile(t, nextId, cluster, scope, Scoped(all, scope), run))
  {
    var after := Reconcile(t, nextId, cluster, scope, Scoped(all, scope), run);
    ReconcileFacts(t, nextId, cluster, scope, Scoped(all, scope), run);
    forall id | id in after && after[id].fingerprint.Some?
      ensures after[id].fingerprint.value == Fingerprint(after[id].cluster, after[id].index, after[id].jobType)
    {
      if id >= nextId { NewRow(t, nextId, cluster, scope, all, run, id); }
    }
    forall i, j | && i in after && j in after
                  && after[i].fingerprint.Some? && after[i].fingerprint == after[j].fingerprint
                  && Live(after[i].status) && Live(after[j].status)
      ensures i == j
    {
      NoTwin(t, nextId, cluster, scope, all, run, i, j);
      NoTwin(t, nextId, cluster, scope, all, run, j, i);
      if i >= nextId && j >= nextId {
        ToInsertFacts(t, cluster, scope, Scoped(all, scope));
        NewRow(t, nextId, cluster, scope, all, run, i);
        NewRow(t, nextId, cluster, scope, all, run, j);
      }
    }
  }

  /** A freshly inserted row has no older live row of its key. */
  lemma NoTwin(t: Table, nextId: nat, cluster: nat, scope: set<JobType>, all: seq<Suggestion>, run: nat, i: nat, j: nat)
    requires Below(t, nextId) && Keyed(t)
    requires var after := Reconcile(t, nextId, cluster, scope, Scoped(all, scope), run);
             && i in after && j in after && after[i].fingerprint.Some? && after[i].fingerprint == after[j].fingerprint
             && Live(after[i].status)
    ensures i >= nextId || j < nextId
  {
    ReconcileFacts(t, nextId, cluster, scope, Scoped(all, scope), run);
    ToInsertFacts(t, cluster, scope, Scoped(all, scope));
    if j >= nextId {
      NewRow(t, nextId, cluster, scope, all, run, j);
      if i in t { LiveIsKnown(t, cluster, scope, i); }
    }
  }

  lemma LiveIsKnown(t: Table, cluster: nat, scope: set<JobType>, i: nat)
    requires Keyed(t) && i in t && t[i].fingerprint.Some? && Live(t[i].status)
    ensures t[i].fingerprint.value.cluster == cluster && t[i].fingerprint.value.jobType in scope ==>
              t[i].fingerprint.value in PendingFps(t, cluster, scope) + ActiveFps(t, cluster, scope)
  {}

  predicate SameButRun(a: Job, b: Job) { b == a.(run := b.run) }

  lemma NothingToInsertTwice(t: Table, nextId: nat, cluster: nat, scope: set<JobType>, all: seq<Suggestion>, run: nat)
    requires Below(t, nextId)
    ensures var ss := Scoped(all, scope);
            ToInsert(Reconcile(t, nextId, cluster, scope, ss, run), cluster, scope, ss) == []
  {
    var ss := Scoped(all, scope);
    var once := Reconcile(t, nextId, cluster, scope, ss, run);
    var fps := ToInsert(once, cluster, scope, ss);
    assert |fps| > 0 ==> fps[0] in fps;
    ToInsertFacts(once, cluster, scope, ss);
    forall fp | fp in Latest(cluster, ss)
      ensures fp in PendingFps(once, cluster, scope) || fp in ActiveFps(once, cluster, scope)
    {
      FirstCovers(t, nextId, cluster, scope, all, run, fp);
    }
  }

  /** Recommending again on the same analysis changes nothing but the run that rows point to. */
  lemma RecommendIdempotent(t: Table, nextId: nat, cluster: nat, scope: set<JobType>, all: seq<Suggestion>, run: nat,
                            run2: nat)
    requires Below(t, nextId)
    ensures var ss := Scoped(all, scope);
            var once := Reconcile(t, nextId, cluster, scope, ss, run);
            var nextId2 := nextId + |ToInsert(t, cluster, scope, ss)|;
            var twice := Reconcile(once, nextId2, cluster, scope, ss, run2);
            && ToInsert(once, cluster, scope, ss) == []
            && twice.Keys == once.Keys
            && forall id :: id in once ==> SameButRun(once[id], twice[id])
  {
    var ss := Scoped(all, scope);
    var once := Reconcile(t, nextId, cluster, scope, ss, run);
    NothingToInsertTwice(t, nextId, cluster, scope, all, run);
    var twice := Kept(once, cluster, scope, Latest(cluster, ss), run2);
    forall id | id in once
      ensures id in twice && SameButRun(once[id], twice[id])
    {
      SecondKeeps(t, nextId, cluster, scope, all, run, id);
    }
    assert twice.Keys == once.Keys;
  }

  lemma FirstCovers(t: Table, nextId: nat, cluster: nat, scope: set<JobType>, all: seq<Suggestion>, run: nat,
                    fp: Fingerprint)
    requires Below(t, nextId) && fp in Latest(cluster, Scoped(all, scope))
    ensures var once := Reconcile(t, nextId, cluster, scope, Scoped(all, scope), run);
            fp in PendingFps(once, cluster, scope) || fp in ActiveFps(once, cluster, scope)
  {
    ToInsertFacts(t, cluster, scope, Scoped(all, scope));
    if fp in ActiveFps(t, cluster, scope) {
      ActiveUnchanged(t, nextId, cluster, scope, all, run, fp);
    } else if fp in PendingFps(t, cluster, scope) {
      StillPending(t, nextId, cluster, scope, all, run, fp);
    } else {
      NowPending(t, nextId, cluster, scope, all, run, fp);
    }
  }

  lemma StillPending(t: Table, nextId: nat, cluster: nat, scope: set<JobType>, all: seq<Suggestion>, run: nat,
                     fp: Fingerprint)
    requires Below(t, nextId) && fp in Latest(cluster, Scoped(all, scope)) && fp in PendingFps(t, cluster, scope)
    ensures fp in PendingFps(Reconcile(t, nextId, cluster, scope, Scoped(all, scope), run), cluster, scope)
  {
    ReconcileFacts(t, nextId, cluster, scope, Scoped(all, scope), run);
    var once := Reconcile(t, nextId, cluster, scope, Scoped(all, scope), run);
    var id :| id in t && InScope(t[id], cluster, scope) && t[id].fingerprint == Some(fp);
    PendingRow(once, cluster, scope, id, fp);
  }

  lemma PendingRow(t: Table, cluster: nat, scope: set<JobType>, id: nat, fp: Fingerprint)
    requires id in t && InScope(t[id], cluster, scope) && t[id].fingerprint == Some(fp)
    ensures fp in PendingFps(t, cluster, scope)
  {
  }

  lemma NowPending(t: Table, nextId: nat, cluster: nat, scope: set<JobType>, all: seq<Suggestion>, run: nat,
                   fp: Fingerprint)
    requires Below(t, nextId) && fp in ToInsert(t, cluster, scope, Scoped(all, scope))
    ensures fp in PendingFps(Reconcile(t, nextId, cluster, scope, Scoped(all, scope), run), cluster, scope)
  {
    var fps := ToInsert(t, cluster, scope, Scoped(all, scope));
    var k :| 0 <= k < |fps| && fps[k] == fp;
    NewRow(t, nextId, cluster, scope, all, run, nextId + k);
    PendingRow(Reconcile(t, nextId, cluster, scope, Scoped(all, scope), run), cluster, scope, nextId + k, fp);
  }

  /** After one recommendation no row is resolved, and each representative carries fresh advice. */
  lemma SecondKeeps(t: Table, nextId: nat, cluster: nat, scope: set<JobType>, all: seq<Suggestion>, run: nat, id: nat)
    requires Below(t, nextId)
    requires id in Reconcile(t, nextId, cluster, scope, Scoped(all, scope), run)
    ensures var latest := Latest(cluster, Scoped(all, scope));
            var once := Reconcile(t, nextId, cluster, scope, Scoped(all, scope), run);
            && !Resolved(once[id], cluster, scope, latest)
            && (Represents(once, cluster, scope, id) ==> once[id].advice == latest[once[id].fingerprint.value].advice)
  {
    var ss := Scoped(all, scope);
    var latest := Latest(cluster, ss);
    var once := Reconcile(t, nextId, cluster, scope, ss, run);
    var fps := ToInsert(t, cluster, scope, ss);
    ReconcileFacts(t, nextId, cluster, scope, ss, run);
    OrderIsKeys(cluster, ss);
    if id >= nextId {
      assert once[id] == NewJob(latest[fps[id - nextId]], cluster, run);
    } else if Represents(once, cluster, scope, id) {
      assert t[id].fingerprint == once[id].fingerprint;
      forall i | i in t && InScope(t[i], cluster, scope) && t[i].fingerprint == t[id].fingerprint ensures i <= id {
        assert i in once && once[i].fingerprint == once[id].fingerprint;
      }
      assert Represents(t, cluster, scope, id);
    }
  }
}
