/** Runs of the whole system in which nothing fails towards the executor, and which lose the documents. */
module ResizeLosses {
  import opened Options
  import opened JobTable
  import opened JobSystem
  import opened JobSafety
  import opened Exclusivity
  import opened ResizeProtocol
  import opened ResizeRecovery
  import opened ResizeRestart
  import opened Reconciliation
  import ResizeSafety

  /** Every answer is truthful and without a fault, and nothing is left behind. */
  predicate Faultless(ms: seq<Moment>) {
    forall i :: 0 <= i < |ms| ==> !ms[i].LeftBehind? && (ms[i].Reply? ==> !ms[i].answer.fault && ms[i].answer.sees)
  }

  predicate WithoutRestart(ms: seq<Moment>) { forall i :: 0 <= i < |ms| && ms[i].Jobs? ==> !ms[i].event.Restart? }

  /** The operator does nothing but execute one job. */
  predicate OnlyExecutes(ms: seq<Moment>, id: nat) {
    forall i :: 0 <= i < |ms| && ms[i].Jobs? ==>
      TaskEvent(ms[i].event) || ms[i].event.Restart? || ms[i].event == Execute(id, true, true)
  }

  /** The job system is sound, and every resize of the index is known. */
  predicate Sane(s: Joint, site: Site) {
    JobSafety.Inv(s.jobs) && Keyed(s.jobs.table) && Unique(s.jobs.table) && Members(s.jobs.table, site) <= s.team
  }

  lemma JobStep(s: Joint, e: JobSystem.Event, target: nat, site: Site)
    requires Sane(s, site) && Possible(s, e)
    ensures var t := Happen(s, Jobs(e, target), site);
            && Sane(t, site) && t.jobs == React(s.jobs, e) && s.team <= t.team
            && t.life.config.source == s.life.config.source && t.life.config.temp == s.life.config.temp
  {
    ReactKeepsInv(s.jobs, e);
    ReactKeepsUnique(s.jobs, e);
  }

  /** The run leads from one state to the other. */
  ghost predicate Leads(s: Joint, ms: seq<Moment>, t: Joint, site: Site) { Unfold(s, ms, site) == t && Faultless(ms) }

  lemma LeadsOn(s: Joint, a: seq<Moment>, t: Joint, b: seq<Moment>, u: Joint, site: Site)
    requires Leads(s, a, t, site) && Leads(t, b, u, site)
    ensures Leads(s, a + b, u, site)
  {
    UnfoldAppend(s, a, b, site);
  }

  lemma OneJobLeads(s: Joint, e: JobSystem.Event, target: nat, site: Site)
    ensures Leads(s, [Jobs(e, target)], Happen(s, Jobs(e, target), site), site)
  {
    UnfoldStep(s, Jobs(e, target), [], site);
    assert [Jobs(e, target)] + [] == [Jobs(e, target)];
  }

  lemma {:induction false} RepliesFaultless(script: seq<Answer>)
    requires forall i :: 0 <= i < |script| ==> !script[i].fault && script[i].sees
    ensures Faultless(Replies(script)) && forall i :: 0 <= i < |Replies(script)| ==> Replies(script)[i].Reply?
    decreases |script|
  {
    if script != [] { RepliesFaultless(script[1..]); }
  }

  // ---------------------------------------------------------------- up to the recreated source

  /** An approved resize that can be executed at once. */
  predicate Executable(s: Joint, id: nat, site: Site) {
    && Sane(s, site) && StatusOf(s.jobs, id) == Some(Approved) && s.jobs.free >= 1 && WorksOn(s.jobs.table[id], site)
  }

  lemma ExecuteIsReady(s: Joint, id: nat, site: Site)
    requires Executable(s, id, site)
    ensures var t := Happen(s, Jobs(Execute(id, true, true), 0), site);
            && Ready(t, id) && Sane(t, site)
            && t.life.config.source == s.life.config.source && t.life.config.temp == s.life.config.temp
  {
    JobStep(s, Execute(id, true, true), 0, site);
    assert id !in s.jobs.tasks;
    assert id in Members(s.jobs.table, site);
  }

  /** Ten truthful answers copy, verify and delete; the eleventh recreates the source. */
  lemma RecreatedEmpty(target: nat, source: Index, n: nat, whole: Docs)
    requires source.docs == whole && n == 10
    ensures RunScript(target, Start(Some(source), None), ResizeSafety.Truthful(n, whole) + [ResizeSafety.Honest(whole)])
            == Config(StartReindex, Some(Index(map[], target)), Some(Index(whole, target)))
  {
    var c := Start(Some(source), None);
    var ok := ResizeSafety.Honest(whole);
    RunScriptAppend(target, c, ResizeSafety.Truthful(n, whole), [ok]);
    ResizeSafety.CopyThenDrop(target, c, n, whole);
    assert [ok] + [] == [ok];
    ResizeSafety.RunSteps(target, Config(CreateSource, None, Some(Index(whole, target))), ok, []);
  }

  lemma {:induction false} RunScriptAppend(target: nat, c: Config, a: seq<Answer>, b: seq<Answer>)
    ensures RunScript(target, c, a + b) == RunScript(target, RunScript(target, c, a), b)
    decreases |a|
  {
    if a == [] {
      assert a + b == b;
    } else {
      assert (a + b)[1..] == a[1..] + b;
      RunScriptAppend(target, Advance(target, c, a[0]), a[1..], b);
    }
  }

  lemma LaunchKeepsSane(s: Joint, id: nat, target: nat, site: Site)
    requires Sane(s, site)
    ensures Sane(Unfold(s, Launch(id, target), site), site)
  {
    var started := [Jobs(StartExecutor(id, true), target)] + [];
    var flipped := [Jobs(Flip(id), 0)] + started;
    JobStep(s, Begin(id), 0, site);
    UnfoldStep(s, Jobs(Begin(id), 0), [Jobs(Acquire(id), 0)] + flipped, site);
    var s1 := Happen(s, Jobs(Begin(id), 0), site);
    JobStep(s1, Acquire(id), 0, site);
    UnfoldStep(s1, Jobs(Acquire(id), 0), flipped, site);
    var s2 := Happen(s1, Jobs(Acquire(id), 0), site);
    JobStep(s2, Flip(id), 0, site);
    UnfoldStep(s2, Jobs(Flip(id), 0), started, site);
    var s3 := Happen(s2, Jobs(Flip(id), 0), site);
    JobStep(s3, StartExecutor(id, true), target, site);
    UnfoldStep(s3, Jobs(StartExecutor(id, true), target), [], site);
  }

  /** A ready resize is launched and gets these answers. */
  lemma Execution(s: Joint, id: nat, target: nat, script: seq<Answer>, site: Site) returns (t: Joint)
    requires Ready(s, id) && Sane(s, site)
    requires forall i :: 0 <= i < |script| ==> !script[i].fault && script[i].sees
    ensures Leads(s, Launch(id, target) + Replies(script), t, site) && Sane(t, site) && Standing(t.jobs, id, Running)
    ensures id in t.team
    ensures t.life.config == RunScript(target, Start(s.life.config.source, s.life.config.temp), script)
  {
    var running := LaunchStarts(s, id, target, site);
    LaunchKeepsSane(s, id, target, site);
    RepliesAdvance(running, script, site);
    RepliesFaultless(script);
    t := Unfold(running, Replies(script), site);
    LeadsOn(s, Launch(id, target), running, Replies(script), t, site);
  }

  // ---------------------------------------------------------------- killed and restarted

  predicate Permitted(ms: seq<Moment>, id: nat) { Faultless(ms) && OnlyExecutes(ms, id) }

  lemma PermittedAppend(a: seq<Moment>, b: seq<Moment>, id: nat)
    requires Permitted(a, id) && Permitted(b, id)
    ensures Permitted(a + b, id)
  {
  }

  lemma ExecutionPermitted(id: nat, target: nat, script: seq<Answer>)
    requires forall i :: 0 <= i < |script| ==> !script[i].fault && script[i].sees
    ensures Permitted(Launch(id, target) + Replies(script), id)
  {
    RepliesFaultless(script);
    assert Permitted(Launch(id, target), id);
    PermittedAppend(Launch(id, target), Replies(script), id);
  }

  lemma HolderMeansCap(s: State, id: nat)
    requires JobSafety.Inv(s) && At(s, id, Running)
    ensures s.cap >= 1
  {
    assert id in Holders(s);
  }

  lemma RunningIsExecuting(s: State, id: nat)
    requires Standing(s, id, Running)
    ensures StatusOf(s, id) == Some(Executing)
  {
    assert RowFits(s, id);
  }

  lemma RestartLoses(s: Joint, id: nat, site: Site, n: nat, whole: Docs) returns (ms: seq<Moment>)
    requires Standing(s.jobs, id, Running) && id in s.team && n == 3
    requires ResizeSafety.SourceIncomplete(s.life.config, whole) && s.life.config.temp.Some?
    ensures Permitted(ms, id) && !Whole(Unfold(s, ms, site).life.config, whole)
  {
    HolderMeansCap(s.jobs, id);
    RunningIsExecuting(s.jobs, id);
    RestartIsReady(s, id, site);
    var rerun := Rerun(id, 1, n, whole);
    ms := [Jobs(Restart, 0)] + rerun;
    UnfoldStep(s, Jobs(Restart, 0), rerun, site);
    RerunLoses(Happen(s, Jobs(Restart, 0), site), id, 1, site, n, whole);
    ResizeSafety.TruthfulSees(n, whole);
    ExecutionPermitted(id, 1, ResizeSafety.Truthful(n, whole));
    PermittedAppend([Jobs(Restart, 0)], rerun, id);
  }

  lemma UpToRecreate(source: Index, n: nat, whole: Docs) returns (script: seq<Answer>)
    requires source.docs == whole && n == 10
    ensures RunScript(1, Start(Some(source), None), script)
            == Config(StartReindex, Some(Index(map[], 1)), Some(Index(whole, 1)))
    ensures forall i :: 0 <= i < |script| ==> !script[i].fault && script[i].sees
  {
    script := ResizeSafety.Truthful(n, whole) + [ResizeSafety.Honest(whole)];
    RecreatedEmpty(1, source, n, whole);
    ResizeSafety.TruthfulSees(n, whole);
  }

  /** Execute an approved resize and give its executor these answers. */
  lemma ExecutedRun(s: Joint, id: nat, script: seq<Answer>, site: Site) returns (ms: seq<Moment>, t: Joint)
    requires Executable(s, id, site)
    requires forall i :: 0 <= i < |script| ==> !script[i].fault && script[i].sees
    ensures Unfold(s, ms, site) == t && Permitted(ms, id) && WithoutRestart(ms)
    ensures Sane(t, site) && Standing(t.jobs, id, Running) && id in t.team
    ensures t.life.config == RunScript(1, Start(s.life.config.source, s.life.config.temp), script)
  {
    var e := Jobs(Execute(id, true, true), 0);
    ExecuteIsReady(s, id, site);
    var rest := Launch(id, 1) + Replies(script);
    t := Execution(Happen(s, e, site), id, 1, script, site);
    UnfoldStep(s, e, rest, site);
    ms := [e] + rest;
    ExecutedPermitted(id, script);
  }

  lemma ExecutedPermitted(id: nat, script: seq<Answer>)
    requires forall i :: 0 <= i < |script| ==> !script[i].fault && script[i].sees
    ensures var ms := [Jobs(Execute(id, true, true), 0)] + (Launch(id, 1) + Replies(script));
            Permitted(ms, id) && WithoutRestart(ms)
  {
    var first := [Jobs(Execute(id, true, true), 0)];
    ExecutionPermitted(id, 1, script);
    ExecutionWithoutRestart(id, 1, script);
    PermittedAppend(first, Launch(id, 1) + Replies(script), id);
    WithoutRestartAppend(first, Launch(id, 1) + Replies(script));
  }

  lemma WithoutRestartAppend(a: seq<Moment>, b: seq<Moment>)
    requires WithoutRestart(a) && WithoutRestart(b)
    ensures WithoutRestart(a + b)
  {
  }

  lemma ExecutionWithoutRestart(id: nat, target: nat, script: seq<Answer>)
    requires forall i :: 0 <= i < |script| ==> !script[i].fault && script[i].sees
    ensures WithoutRestart(Launch(id, target) + Replies(script))
  {
    RepliesFaultless(script);
    WithoutRestartAppend(Launch(id, target), Replies(script));
  }

  /** The operator only executes the job; every answer is truthful and nothing fails; the process is
      killed after the recreate, and the restarted executor deletes the only full copy. */
  lemma KilledResizeLoses(s: Joint, id: nat, site: Site, whole: Docs)
    requires Executable(s, id, site)
    requires ResizeProtocol.Holds(s.life.config.source, whole) && s.life.config.temp.None? && whole != map[]
    ensures exists ms ::
              Faultless(ms) && OnlyExecutes(ms, id) && !Whole(Unfold(s, ms, site).life.config, whole)
  {
    var script := UpToRecreate(s.life.config.source.value, 10, whole);
    var before, killed := ExecutedRun(s, id, script, site);
    var after := RestartLoses(killed, id, site, 3, whole);
    UnfoldAppend(s, before, after, site);
    PermittedAppend(before, after, id);
    assert Permitted(before + after, id);
  }

  // ---------------------------------------------------------------- failed and recommended again

  lemma {:induction false} GoneStaysGone(s: Joint, ms: seq<Moment>, id: nat, site: Site)
    requires JobSafety.Inv(s.jobs) && id < s.jobs.nextId && id !in s.jobs.table
    ensures id !in Unfold(s, ms, site).jobs.table
    decreases |ms|
  {
    if ms != [] {
      if ms[0].Jobs? {
        ReactKeepsInv(s.jobs, ms[0].event);
        if id in React(s.jobs, ms[0].event).table { RowNotReborn(s.jobs, ms[0].event, id); }
      }
      GoneStaysGone(Happen(s, ms[0], site), ms[1..], id, site);
    }
  }

  /** Over any run a row that is still there keeps its fingerprint. */
  lemma {:induction false} FingerprintStays(s: Joint, ms: seq<Moment>, id: nat, site: Site)
    requires JobSafety.Inv(s.jobs) && id in s.jobs.table && id in Unfold(s, ms, site).jobs.table
    ensures Unfold(s, ms, site).jobs.table[id].fingerprint == s.jobs.table[id].fingerprint
    decreases |ms|
  {
    if ms != [] {
      var t := Happen(s, ms[0], site);
      if ms[0].Jobs? { ReactKeepsInv(s.jobs, ms[0].event); }
      if id !in t.jobs.table {
        GoneStaysGone(t, ms[1..], id, site);
      } else {
        if ms[0].Jobs? && Possible(s, ms[0].event) { KeyFrame(s.jobs, ms[0].event, id); }
        FingerprintStays(t, ms[1..], id, site);
      }
    }
  }

  /** A reindex task that is reported complete and has carried nothing over. */
  const SHORT := Answer(false, true, true, {})

  /** After the recreate the reindex-back ends short; the counts differ, and both indices are kept. */
  lemma ShortReindex(source: Index, whole: Docs) returns (script: seq<Answer>)
    requires source.docs == whole && whole != map[]
    ensures RunScript(1, Start(Some(source), None), script)
            == Config(Stopped, Some(Index(map[], 1)), Some(Index(whole, 1)))
    ensures forall i :: 0 <= i < |script| ==> !script[i].fault && script[i].sees
  {
    var first := UpToRecreate(source, 10, whole);
    var c := Config(StartReindex, Some(Index(map[], 1)), Some(Index(whole, 1)));
    var rest := [SHORT] + ([SHORT] + ([SHORT] + ([SHORT] + ([SHORT] + []))));
    script := first + rest;
    RunScriptAppend(1, Start(Some(source), None), first, rest);
    StopsShort(c, whole);
  }

  lemma NothingCarriedOver(c: Config, whole: Docs)
    requires c == Config(StartReindex, Some(Index(map[], 1)), Some(Index(whole, 1)))
    ensures Advance(1, c, SHORT) == Goto(c, Poll) && Advance(1, Goto(c, Poll), SHORT) == Goto(c, AwaitReplacement)
  {
    assert Portion(whole, {}) == map[];
  }

  lemma CountsDiffer(c: Config, whole: Docs)
    requires c == Config(AwaitReplacement, Some(Index(map[], 1)), Some(Index(whole, 1))) && whole != map[]
    ensures RunScript(1, c, [SHORT] + ([SHORT] + ([SHORT] + []))) == Goto(c, Stopped)
  {
    ResizeSafety.RunSteps(1, c, SHORT, [SHORT] + ([SHORT] + []));
    ResizeSafety.RunSteps(1, Goto(c, CountReplacement), SHORT, [SHORT] + []);
    ResizeSafety.RunSteps(1, Goto(c, CountTemp(0)), SHORT, []);
  }

  lemma StopsShort(c: Config, whole: Docs)
    requires c == Config(StartReindex, Some(Index(map[], 1)), Some(Index(whole, 1))) && whole != map[]
    ensures RunScript(1, c, [SHORT] + ([SHORT] + ([SHORT] + ([SHORT] + ([SHORT] + []))))) == Goto(c, Stopped)
  {
    var c1 := Goto(c, Poll);
    var c2 := Goto(c, AwaitReplacement);
    NothingCarriedOver(c, whole);
    ResizeSafety.RunSteps(1, c, SHORT, [SHORT] + ([SHORT] + ([SHORT] + ([SHORT] + []))));
    ResizeSafety.RunSteps(1, c1, SHORT, [SHORT] + ([SHORT] + ([SHORT] + [])));
    CountsDiffer(c2, whole);
  }

  /** Two steps of the job system. */
  lemma TwoSteps(s: Joint, e: JobSystem.Event, f: JobSystem.Event, site: Site) returns (ms: seq<Moment>, t: Joint)
    requires Sane(s, site) && !e.Succeed? && !f.Succeed? && !e.Restart? && !f.Restart?
    ensures Unfold(s, ms, site) == t && Faultless(ms) && WithoutRestart(ms)
    ensures Sane(t, site) && t.jobs == React(React(s.jobs, e), f) && s.team <= t.team
    ensures t.life.config.source == s.life.config.source && t.life.config.temp == s.life.config.temp
  {
    JobStep(s, e, 0, site);
    var u := Happen(s, Jobs(e, 0), site);
    JobStep(u, f, 0, site);
    t := Happen(u, Jobs(f, 0), site);
    ms := [Jobs(e, 0)] + ([Jobs(f, 0)] + []);
    UnfoldStep(s, Jobs(e, 0), [Jobs(f, 0)] + [], site);
    UnfoldStep(u, Jobs(f, 0), [], site);
  }

  /** The executor raises, and the failure is persisted. */
  lemma FailStep(s: State, id: nat)
    requires Standing(s, id, Running)
    ensures var t := React(React(s, Interrupt(id, false, true)), Persist(id, true));
            t.free >= 1 && t.table == s.table[id := s.table[id].(status := Failed)] && t.nextId == s.nextId
  {
    assert RowFits(s, id);
  }

  /** No job of the key is live. */
  predicate NoneLive(t: Table, fp: Fingerprint) {
    forall id :: id in t && t[id].fingerprint == Some(fp) ==> !Live(t[id].status)
  }

  function Again(site: Site, advice: Advice): JobSystem.Event {
    Recommend(site.cluster, {ReduceShards}, [Suggestion(site.index, ReduceShards, advice)])
  }

  function KeyAt(site: Site): Fingerprint { Fingerprint(site.cluster, site.index, ReduceShards) }

  lemma OneSuggestion(cluster: nat, s: Suggestion, scope: set<JobType>)
    requires s.jobType in scope
    ensures Scoped([s], scope) == [s] && FingerprintOf(cluster, s) in Latest(cluster, [s])
  {
    assert [s][..0] == [];
    assert Scoped([], scope) == [] && Latest(cluster, []) == map[];
  }

  /** A recommendation inserts the job again once it is no longer live. */
  lemma RecommendedAgain(s: State, site: Site, advice: Advice) returns (id: nat)
    requires JobSafety.Inv(s) && Keyed(s.table) && Unique(s.table) && NoneLive(s.table, KeyAt(site))
    ensures var t := React(s, Again(site, advice));
            id in t.table && t.table[id].status.Pending? && WorksOn(t.table[id], site)
  {
    var scope := {ReduceShards};
    var suggestion := Suggestion(site.index, ReduceShards, advice);
    var fp := KeyAt(site);
    OneSuggestion(site.cluster, suggestion, scope);
    assert fp !in ActiveFps(s.table, site.cluster, scope);
    RecommendExact(s.table, s.nextId, site.cluster, scope, [suggestion], s.nextRun, fp);
    var t := React(s, Again(site, advice)).table;
    assert fp in PendingFps(t, site.cluster, scope);
    id :| id in t && InScope(t[id], site.cluster, scope) && t[id].fingerprint == Some(fp);
  }

  /** The failed job's row was the only live one of its key. */
  lemma NoneLiveAfterFailure(t: Table, id: nat, fp: Fingerprint)
    requires Unique(t) && id in t && t[id].fingerprint == Some(fp) && Live(t[id].status)
    ensures NoneLive(t[id := t[id].(status := Failed)], fp)
  {
  }

  /** The job fails, is recommended again, and is approved. */
  lemma FailedAndApproved(s: Joint, id: nat, site: Site, advice: Advice) returns (ms: seq<Moment>, t: Joint, again: nat)
    requires Sane(s, site) && Standing(s.jobs, id, Running) && s.jobs.table[id].fingerprint == Some(KeyAt(site))
    ensures Unfold(s, ms, site) == t && Faultless(ms) && WithoutRestart(ms) && Executable(t, again, site)
    ensures t.life.config.source == s.life.config.source && t.life.config.temp == s.life.config.temp
  {
    assert RowFits(s.jobs, id);
    FailStep(s.jobs, id);
    NoneLiveAfterFailure(s.jobs.table, id, KeyAt(site));
    var failing, failed := TwoSteps(s, Interrupt(id, false, true), Persist(id, true), site);
    again := RecommendedAgain(failed.jobs, site, advice);
    var approving;
    approving, t := TwoSteps(failed, Again(site, advice), Approve(again), site);
    ms := failing + approving;
    UnfoldAppend(s, failing, approving, site);
  }

  /** There is no restart, and nothing fails towards the executor: a reindex ends short, its job is marked
      failed, the operator executes the same recommendation once more, and the only full copy is gone. */
  lemma FailedThenRecommendedLoses(s: Joint, id: nat, site: Site, advice: Advice, whole: Docs)
    requires Executable(s, id, site) && s.jobs.table[id].fingerprint == Some(KeyAt(site))
    requires ResizeProtocol.Holds(s.life.config.source, whole) && s.life.config.temp.None? && whole != map[]
    ensures exists ms ::
              Faultless(ms) && WithoutRestart(ms) && !Whole(Unfold(s, ms, site).life.config, whole)
  {
    var script := ShortReindex(s.life.config.source.value, whole);
    var first, stopped := ExecutedRun(s, id, script, site);
    FingerprintStays(s, first, id, site);
    var second, approved, again := FailedAndApproved(stopped, id, site, advice);
    var third := ExecutedAgain(approved, again, site, 3, whole);
    UnfoldAppend(s, first, second, site);
    UnfoldAppend(s, first + second, third, site);
    assert Faultless(first + second + third) && WithoutRestart(first + second + third);
  }

  lemma ExecutedAgain(s: Joint, id: nat, site: Site, n: nat, whole: Docs) returns (ms: seq<Moment>)
    requires Executable(s, id, site) && n == 3
    requires ResizeSafety.SourceIncomplete(s.life.config, whole) && s.life.config.temp.Some?
    ensures Faultless(ms) && WithoutRestart(ms) && !Whole(Unfold(s, ms, site).life.config, whole)
  {
    var t;
    ResizeSafety.TruthfulSees(n, whole);
    ms, t := ExecutedRun(s, id, ResizeSafety.Truthful(n, whole), site);
    ResizeSafety.IncompleteSourceLoses(1, s.life.config.source, s.life.config.temp, whole);
  }
}
