/** From analyses to suggested jobs, and the part of the recommend route that prepares them. */
module Recommender {
  import opened Options
  import opened Analyzer
  import opened Analysis
  import JobTable
  import ShardFactors

  type JobType = JobTable.JobType
  type Suggestion = JobTable.Suggestion

  /** The job type and tier of an opportunity; an imbalance is advice without a job. */
  function Classify(kind: Kind, sizeGb: real): Option<(JobType, int)> {
    match kind
    case DeletedDocs => Some((JobTable.ExpungeDeletes, 2))
    case Fragmented => Some((JobTable.ForceMerge, 2))
    case OverSharded => Some((JobTable.ReduceShards, if sizeGb < 0.5 then 3 else 4))
    case UnderSharded => Some((JobTable.SplitShards, 4))
    case Imbalanced => None
  }

  /** The table from detectors to job types that the route keeps on its own. */
  function JobOf(kind: Kind): Option<JobType> {
    match kind
    case OverSharded => Some(JobTable.ReduceShards)
    case UnderSharded => Some(JobTable.SplitShards)
    case Fragmented => Some(JobTable.ForceMerge)
    case DeletedDocs => Some(JobTable.ExpungeDeletes)
    case Imbalanced => None
  }

  function Suggest(idx: Index, o: Opportunity): Option<Suggestion> {
    var c := Classify(o.kind, idx.sizeGb);
    if c.None? then None
    else Some(JobTable.Suggestion(idx.name, c.value.0,
                                  JobTable.Advice(c.value.1, idx.primaries, o.target, idx.replicas, idx.sizeGb,
                                                  idx.docs, o.wasted)))
  }

  /** The suggestions of one report, in order. */
  function FromReport(idx: Index, opps: seq<Opportunity>): seq<Suggestion> {
    if opps == [] then []
    else
      var rest := FromReport(idx, opps[..|opps| - 1]);
      var s := Suggest(idx, opps[|opps| - 1]);
      if s.None? then rest else rest + [s.value]
  }

  function FromReports(reports: seq<Report>): seq<Suggestion> {
    if reports == [] then []
    else
      var r := reports[|reports| - 1];
      FromReports(reports[..|reports| - 1]) + FromReport(r.index, r.opportunities)
  }

  method GenerateJobs(reports: seq<Report>) returns (jobs: seq<Suggestion>)
    ensures jobs == FromReports(reports)
  {
    jobs := [];
    for i := 0 to |reports|
      invariant jobs == FromReports(reports[..i])
    {
      assert reports[..i + 1][..i] == reports[..i];
      var idx, opps := reports[i].index, reports[i].opportunities;
      ghost var before := jobs;
      for j := 0 to |opps|
        invariant jobs == before + FromReport(idx, opps[..j])
      {
        assert opps[..j + 1][..j] == opps[..j];
        var s := Suggest(idx, opps[j]);
        if s.None? { continue; }
        jobs := jobs + [s.value];
      }
      assert opps[..|opps|] == opps;
    }
    assert reports[..|reports|] == reports;
  }

  // ---------------------------------------------------------------- which suggestions there are

  lemma {:induction false} FromReportExact(idx: Index, opps: seq<Opportunity>, s: Suggestion)
    ensures s in FromReport(idx, opps) <==> exists o :: o in opps && Suggest(idx, o) == Some(s)
  {
    if opps != [] {
      var init, last := opps[..|opps| - 1], opps[|opps| - 1];
      FromReportExact(idx, init, s);
      assert forall o :: o in opps <==> o in init || o == last;
    }
  }

  lemma {:induction false} FromReportsExact(reports: seq<Report>, s: Suggestion)
    ensures s in FromReports(reports) <==> exists r :: r in reports && s in FromReport(r.index, r.opportunities)
  {
    if reports != [] {
      var init, last := reports[..|reports| - 1], reports[|reports| - 1];
      FromReportsExact(init, s);
      assert forall r :: r in reports <==> r in init || r == last;
    }
  }

  /** No two suggestions share an index and a job type, hence a fingerprint. */
  predicate Separate(ss: seq<Suggestion>) {
    forall i, j :: 0 <= i < j < |ss| ==> ss[i].index != ss[j].index || ss[i].jobType != ss[j].jobType
  }

  predicate KindsDiffer(opps: seq<Opportunity>) {
    forall i, j :: 0 <= i < j < |opps| ==> opps[i].kind != opps[j].kind
  }

  predicate NamesDiffer(reports: seq<Report>) {
    forall i, j :: 0 <= i < j < |reports| ==> reports[i].index.name != reports[j].index.name
  }

  lemma SuggestFacts(idx: Index, o: Opportunity)
    ensures Suggest(idx, o).Some? <==> JobOf(o.kind).Some?
    ensures Suggest(idx, o).Some? ==>
              Suggest(idx, o).value.index == idx.name && JobOf(o.kind) == Some(Suggest(idx, o).value.jobType)
  {
  }

  lemma {:induction false} FromReportSeparate(idx: Index, opps: seq<Opportunity>)
    requires KindsDiffer(opps)
    ensures Separate(FromReport(idx, opps)) && forall s :: s in FromReport(idx, opps) ==> s.index == idx.name
    ensures forall s :: s in FromReport(idx, opps) ==> exists o :: o in opps && JobOf(o.kind) == Some(s.jobType)
  {
    if opps != [] {
      var init, last := opps[..|opps| - 1], opps[|opps| - 1];
      FromReportSeparate(idx, init);
      SuggestFacts(idx, last);
      assert forall o :: o in init ==> o.kind != last.kind;
      forall s | s in FromReport(idx, init) ensures exists o :: o in opps && JobOf(o.kind) == Some(s.jobType) {
        var o :| o in init && JobOf(o.kind) == Some(s.jobType);
        assert o in opps;
      }
    }
  }

  lemma {:induction false} FromReportsSeparate(reports: seq<Report>)
    requires NamesDiffer(reports) && forall r :: r in reports ==> KindsDiffer(r.opportunities)
    ensures Separate(FromReports(reports))
    ensures forall s :: s in FromReports(reports) ==> exists r :: r in reports && r.index.name == s.index
  {
    if reports != [] {
      var init, last := reports[..|reports| - 1], reports[|reports| - 1];
      FromReportsSeparate(init);
      FromReportSeparate(last.index, last.opportunities);
      forall s | s in FromReports(reports) ensures exists r :: r in reports && r.index.name == s.index {
        if s in FromReports(init) {
          var r :| r in init && r.index.name == s.index;
          assert r in reports;
        } else {
          assert last in reports;
        }
      }
    }
  }

  /** With separate keys the dictionary of suggestions loses none of them. */
  lemma {:induction false} SeparateLosesNone(cluster: nat, ss: seq<Suggestion>, s: Suggestion)
    requires Separate(ss) && s in ss
    ensures var latest := JobTable.Latest(cluster, ss);
            var fp := JobTable.FingerprintOf(cluster, s);
            fp in latest && latest[fp] == s
  {
    var init, last := ss[..|ss| - 1], ss[|ss| - 1];
    if s != last {
      assert s in init;
      var i :| 0 <= i < |init| && init[i] == s;
      assert ss[i] == s;
      SeparateLosesNone(cluster, init, s);
    }
  }

  // ---------------------------------------------------------------- detectors in scope

  function Chosen(opps: seq<Opportunity>, detectors: set<Kind>): seq<Opportunity> {
    if opps == [] then []
    else
      var rest := Chosen(opps[..|opps| - 1], detectors);
      var o := opps[|opps| - 1];
      if o.kind in detectors then rest + [o] else rest
  }

  function ChosenReports(reports: seq<Report>, detectors: set<Kind>): seq<Report> {
    if reports == [] then []
    else
      var r := reports[|reports| - 1];
      ChosenReports(reports[..|reports| - 1], detectors) + [Report(r.index, Chosen(r.opportunities, detectors))]
  }

  function JobTypes(detectors: set<Kind>): set<JobType> {
    set k | k in detectors && JobOf(k).Some? :: JobOf(k).value
  }

  lemma ScopedConcat(a: seq<Suggestion>, b: seq<Suggestion>, scope: set<JobType>)
    ensures JobTable.Scoped(a + b, scope) == JobTable.Scoped(a, scope) + JobTable.Scoped(b, scope)
  {
    if b == [] {
      assert a + b == a;
    } else {
      assert (a + b)[..|a + b| - 1] == a + b[..|b| - 1];
      ScopedConcat(a, b[..|b| - 1], scope);
    }
  }

  lemma KindInScope(kind: Kind, detectors: set<Kind>)
    requires JobOf(kind).Some?
    ensures JobOf(kind).value in JobTypes(detectors) <==> kind in detectors
  {
  }

  lemma {:induction false} ChosenIsScoped(idx: Index, opps: seq<Opportunity>, detectors: set<Kind>)
    ensures FromReport(idx, Chosen(opps, detectors)) == JobTable.Scoped(FromReport(idx, opps), JobTypes(detectors))
  {
    if opps != [] {
      var init, last := opps[..|opps| - 1], opps[|opps| - 1];
      ChosenIsScoped(idx, init, detectors);
      SuggestFacts(idx, last);
      var rest := Chosen(init, detectors);
      assert (rest + [last])[..|rest|] == rest;
      if JobOf(last.kind).Some? {
        KindInScope(last.kind, detectors);
        var all := FromReport(idx, init);
        var s := Suggest(idx, last).value;
        assert (all + [s])[..|all|] == all;
      }
    }
  }

  /** Dropping the opportunities of other detectors before the jobs are generated is the same as
      keeping, afterwards, only the job types of the chosen detectors. */
  lemma {:induction false} DetectorScopeIsJobTypeScope(reports: seq<Report>, detectors: set<Kind>)
    ensures FromReports(ChosenReports(reports, detectors)) == JobTable.Scoped(FromReports(reports), JobTypes(detectors))
  {
    if reports != [] {
      var init, last := reports[..|reports| - 1], reports[|reports| - 1];
      DetectorScopeIsJobTypeScope(init, detectors);
      ChosenIsScoped(last.index, last.opportunities, detectors);
      ScopedConcat(FromReports(init), FromReport(last.index, last.opportunities), JobTypes(detectors));
      var chosen := Report(last.index, Chosen(last.opportunities, detectors));
      var before := ChosenReports(init, detectors);
      assert (before + [chosen])[..|before|] == before;
    }
  }

  // ---------------------------------------------------------------- the fresh suggestions

  /** The suggestions for the whole cluster. */
  function Fresh(rows: seq<IndexRow>, shards: seq<ShardRow>, cfg: Settings): seq<Suggestion>
    requires cfg.idealMax > 0.0
  {
    FromReports(Reports(rows, shards, cfg, false, FirstNames(rows)))
  }

  method FreshSuggestions(rows: seq<IndexRow>, shards: seq<ShardRow>, cfg: Settings) returns (ss: seq<Suggestion>)
    requires cfg.idealMax > 0.0
    ensures ss == Fresh(rows, shards, cfg)
  {
    var reports := AnalyzeAll(rows, shards, cfg, false);
    ss := GenerateJobs(reports);
  }

  /** A suggestion is made for every opportunity with a job type of every visible index, no other. */
  lemma FreshExact(rows: seq<IndexRow>, shards: seq<ShardRow>, cfg: Settings, s: Suggestion)
    requires cfg.idealMax > 0.0
    ensures s in Fresh(rows, shards, cfg) <==>
      && Named(rows, s.index) && !Hidden(s.index)
      && var idx := Described(rows, shards, s.index);
         exists o :: o in Opportunities(idx, cfg) && Suggest(idx, o) == Some(s)
  {
    FirstNamesExact(rows);
    ReportsExact(rows, shards, cfg, false, FirstNames(rows));
    SuggestedIff(rows, shards, cfg, Reports(rows, shards, cfg, false, FirstNames(rows)), s);
  }

  /** No two of them share a fingerprint. */
  lemma FreshSeparate(rows: seq<IndexRow>, shards: seq<ShardRow>, cfg: Settings)
    requires cfg.idealMax > 0.0
    ensures Separate(Fresh(rows, shards, cfg))
  {
    var reports := Reports(rows, shards, cfg, false, FirstNames(rows));
    FirstNamesExact(rows);
    ReportsExact(rows, shards, cfg, false, FirstNames(rows));
    forall r | r in reports ensures KindsDiffer(r.opportunities) {
      forall i, j | 0 <= i < j < |r.opportunities| ensures r.opportunities[i].kind != r.opportunities[j].kind {
        OpportunitiesDiffer(r.index, cfg, i, j);
      }
    }
    FromReportsSeparate(reports);
  }

  lemma SuggestedIff(rows: seq<IndexRow>, shards: seq<ShardRow>, cfg: Settings, reports: seq<Report>, s: Suggestion)
    requires cfg.idealMax > 0.0 && forall r :: r in reports ==>
               Named(rows, r.index.name) && r == ReportOf(rows, shards, cfg, r.index.name) && !Hidden(r.index.name)
    requires forall n :: Named(rows, n) && !Hidden(n) ==> ReportOf(rows, shards, cfg, n) in reports
    ensures s in FromReports(reports) <==>
      && Named(rows, s.index) && !Hidden(s.index)
      && var idx := Described(rows, shards, s.index);
         exists o :: o in Opportunities(idx, cfg) && Suggest(idx, o) == Some(s)
  {
    FromReportsExact(reports, s);
    if s in FromReports(reports) {
      var r :| r in reports && s in FromReport(r.index, r.opportunities);
      FromReportExact(r.index, r.opportunities, s);
      var o :| o in r.opportunities && Suggest(r.index, o) == Some(s);
      SuggestFacts(r.index, o);
    }
    if Named(rows, s.index) && !Hidden(s.index) {
      var r := ReportOf(rows, shards, cfg, s.index);
      FromReportExact(r.index, r.opportunities, s);
    }
  }

  /** Every suggested resize gets past the executor's guards: a shrink to the largest proper divisor
      up to its target, which saves what was promised, and a split to the least multiple that
      reaches its target, which brings the mean shard under the ideal maximum. */
  lemma SuggestedResizesAreExecutable(idx: Index, cfg: Settings, o: Opportunity, s: Suggestion)
    requires cfg.idealMax > 0.0 && cfg.tinyLimit >= 1 && idx.primaries >= 1 && idx.replicas >= 0 && idx.sizeGb >= 0.0
    requires o in Opportunities(idx, cfg) && Suggest(idx, o) == Some(s)
    ensures s.advice.currentShards == idx.primaries
    ensures s.jobType.ReduceShards? ==>
              var n := ShardFactors.LargestFactor(s.advice.currentShards, s.advice.targetShards);
              && s.advice.currentShards > 1 && 1 <= n < s.advice.currentShards
              && s.advice.targetShards < s.advice.currentShards
              && (s.advice.currentShards - n) * (1 + s.advice.replicas) >= s.advice.savings
    ensures s.jobType.SplitShards? ==>
              var n := ShardFactors.SmallestMultiple(s.advice.currentShards, s.advice.targetShards);
              n > s.advice.currentShards && s.advice.priStoreGb / (n as real) < cfg.idealMax
  {
    FoundByItsDetector(DetectOverSharded(idx, cfg), DetectUnderSharded(idx, cfg), DetectFragmented(idx, cfg),
                       DetectDeletedDocs(idx), DetectImbalanced(idx), o);
    if s.jobType.ReduceShards? { AdvisedShrinkIsExecutable(idx, cfg); }
    if s.jobType.SplitShards? { AdvisedSplitIsExecutable(idx, cfg, 1); }
  }

  lemma FoundByItsDetector(over: Option<Opportunity>, under: Option<Opportunity>, fragmented: Option<Opportunity>,
                           deleted: Option<Opportunity>, imbalanced: Option<Opportunity>, o: Opportunity)
    requires over.Some? ==> over.value.kind == OverSharded
    requires under.Some? ==> under.value.kind == UnderSharded
    requires fragmented.Some? ==> fragmented.value.kind == Fragmented
    requires deleted.Some? ==> deleted.value.kind == DeletedDocs
    requires imbalanced.Some? ==> imbalanced.value.kind == Imbalanced
    requires o in Collect(over, under, fragmented, deleted, imbalanced)
    ensures o.kind == OverSharded ==> over == Some(o)
    ensures o.kind == UnderSharded ==> under == Some(o)
  {
    var a := Add([], over);
    var b := Add(a, under);
    var c := Add(b, fragmented);
    var d := Add(c, deleted);
    assert o in Add(d, imbalanced);
  }
}
