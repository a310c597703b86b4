/** The recommend route from end to end: from the listed rows of a cluster to the pending jobs. */
module Recommendation {
  import opened Options
  import opened Analyzer
  import opened Analysis
  import opened Recommender
  import opened JobTable
  import opened Reconciliation

  lemma {:induction false} ScopedMember(ss: seq<JobTable.Suggestion>, scope: set<JobTable.JobType>,
                                        s: JobTable.Suggestion)
    ensures s in Scoped(ss, scope) <==> s in ss && s.jobType in scope
  {
    if ss != [] {
      ScopedMember(ss[..|ss| - 1], scope, s);
      assert s in ss <==> s in ss[..|ss| - 1] || s == ss[|ss| - 1];
    }
  }

  lemma {:induction false} LatestMember(cluster: nat, ss: seq<JobTable.Suggestion>, fp: Fingerprint)
    ensures fp in Latest(cluster, ss) ==>
              Latest(cluster, ss)[fp] in ss && FingerprintOf(cluster, Latest(cluster, ss)[fp]) == fp
    ensures forall s :: s in ss && FingerprintOf(cluster, s) == fp ==> fp in Latest(cluster, ss)
  {
    if ss != [] {
      LatestMember(cluster, ss[..|ss| - 1], fp);
      assert forall s :: s in ss <==> s in ss[..|ss| - 1] || s == ss[|ss| - 1];
    }
  }

  /** The analyser finds an opportunity of the kind for a visible index of the name. */
  ghost predicate Advised(rows: seq<IndexRow>, shards: seq<ShardRow>, cfg: Settings, name: string, kind: Kind,
                          o: Opportunity)
    requires cfg.idealMax > 0.0
  {
    Named(rows, name) && !Hidden(name) && o in Opportunities(Described(rows, shards, name), cfg) && o.kind == kind
  }

  lemma AdvisedIsFresh(rows: seq<IndexRow>, shards: seq<ShardRow>, cfg: Settings, name: string, kind: Kind,
                       o: Opportunity)
    requires cfg.idealMax > 0.0 && JobOf(kind).Some? && Advised(rows, shards, cfg, name, kind, o)
    ensures var s := Suggest(Described(rows, shards, name), o);
            && s.Some? && s.value in Fresh(rows, shards, cfg)
            && s.value.index == name && s.value.jobType == JobOf(kind).value
  {
    var idx := Described(rows, shards, name);
    SuggestFacts(idx, o);
    FreshExact(rows, shards, cfg, Suggest(idx, o).value);
  }

  lemma ReasonFor(idx: Index, opps: seq<Opportunity>, s: JobTable.Suggestion) returns (o: Opportunity)
    requires exists o :: o in opps && Suggest(idx, o) == Some(s)
    ensures o in opps && Suggest(idx, o) == Some(s) && JobOf(o.kind) == Some(s.jobType)
  {
    o :| o in opps && Suggest(idx, o) == Some(s);
    SuggestFacts(idx, o);
  }

  lemma OneKindPerType(a: Kind, b: Kind)
    requires JobOf(a) == JobOf(b) && JobOf(a).Some?
    ensures a == b
  {
  }

  lemma FreshIsAdvised(rows: seq<IndexRow>, shards: seq<ShardRow>, cfg: Settings, kind: Kind,
                       s: JobTable.Suggestion) returns (o: Opportunity)
    requires cfg.idealMax > 0.0 && s in Fresh(rows, shards, cfg) && JobOf(kind) == Some(s.jobType)
    ensures Advised(rows, shards, cfg, s.index, kind, o) && Suggest(Described(rows, shards, s.index), o) == Some(s)
  {
    FreshExact(rows, shards, cfg, s);
    var idx := Described(rows, shards, s.index);
    o := ReasonFor(idx, Opportunities(idx, cfg), s);
    OneKindPerType(kind, o.kind);
  }

  /** After a recommendation, an index has a pending job of a type exactly when a selected detector
      finds the opportunity and no job of that type for the index is approved or in flight. */
  lemma PendingIffAdvised(t: Table, nextId: nat, cluster: nat, detectors: set<Kind>, rows: seq<IndexRow>,
                          shards: seq<ShardRow>,
                          cfg: Settings, run: nat, name: string, kind: Kind)
    requires cfg.idealMax > 0.0 && Below(t, nextId) && Keyed(t) && Unique(t) && JobOf(kind).Some? && kind in detectors
    ensures var scope := JobTypes(detectors);
            var after := Reconcile(t, nextId, cluster, scope, Scoped(Fresh(rows, shards, cfg), scope), run);
            var fp := Fingerprint(cluster, name, JobOf(kind).value);
            fp in PendingFps(after, cluster, scope) <==>
              (exists o :: Advised(rows, shards, cfg, name, kind, o)) && fp !in ActiveFps(t, cluster, scope)
  {
    var scope := JobTypes(detectors);
    var fp := Fingerprint(cluster, name, JobOf(kind).value);
    RecommendExact(t, nextId, cluster, scope, Fresh(rows, shards, cfg), run, fp);
    KeyIffAdvised(cluster, detectors, rows, shards, cfg, name, kind);
  }

  lemma KeyIffAdvised(cluster: nat, detectors: set<Kind>, rows: seq<IndexRow>, shards: seq<ShardRow>, cfg: Settings,
                      name: string, kind: Kind)
    requires cfg.idealMax > 0.0 && JobOf(kind).Some? && kind in detectors
    ensures var latest := Latest(cluster, Scoped(Fresh(rows, shards, cfg), JobTypes(detectors)));
            Fingerprint(cluster, name, JobOf(kind).value) in latest
            <==> exists o :: Advised(rows, shards, cfg, name, kind, o)
  {
    var scope, all := JobTypes(detectors), Fresh(rows, shards, cfg);
    var fp := Fingerprint(cluster, name, JobOf(kind).value);
    LatestMember(cluster, Scoped(all, scope), fp);
    KindInScope(kind, detectors);
    if fp in Latest(cluster, Scoped(all, scope)) {
      var s := Latest(cluster, Scoped(all, scope))[fp];
      ScopedMember(all, scope, s);
      var o := FreshIsAdvised(rows, shards, cfg, kind, s);
    }
    if o :| Advised(rows, shards, cfg, name, kind, o) {
      AdvisedIsFresh(rows, shards, cfg, name, kind, o);
      ScopedMember(all, scope, Suggest(Described(rows, shards, name), o).value);
    }
  }

  /** That pending job carries the opportunity's figures and points to the new run. */
  lemma PendingCarriesAdvice(t: Table, nextId: nat, cluster: nat, detectors: set<Kind>, rows: seq<IndexRow>,
                             shards: seq<ShardRow>,
                             cfg: Settings, run: nat, id: nat, kind: Kind) returns (o: Opportunity)
    requires cfg.idealMax > 0.0 && Below(t, nextId) && Keyed(t) && Unique(t) && kind in detectors
    requires var scope := JobTypes(detectors);
             var after := Reconcile(t, nextId, cluster, scope, Scoped(Fresh(rows, shards, cfg), scope), run);
             id in after && InScope(after[id], cluster, scope) && after[id].fingerprint.Some?
             && JobOf(kind) == Some(after[id].fingerprint.value.jobType)
    ensures var scope := JobTypes(detectors);
            var job := Reconcile(t, nextId, cluster, scope, Scoped(Fresh(rows, shards, cfg), scope), run)[id];
            var name := job.fingerprint.value.index;
            && Advised(rows, shards, cfg, name, kind, o) && job.run == run
            && Suggest(Described(rows, shards, name), o)
               == Some(JobTable.Suggestion(name, JobOf(kind).value, job.advice))
  {
    var scope, all := JobTypes(detectors), Fresh(rows, shards, cfg);
    var job := Reconcile(t, nextId, cluster, scope, Scoped(all, scope), run)[id];
    var fp := job.fingerprint.value;
    RecommendExact(t, nextId, cluster, scope, all, run, fp);
    LatestMember(cluster, Scoped(all, scope), fp);
    var s := Latest(cluster, Scoped(all, scope))[fp];
    ScopedMember(all, scope, s);
    o := FreshIsAdvised(rows, shards, cfg, kind, s);
  }
}
