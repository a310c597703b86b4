/**
 The resizes of one index from end to end: the job system starts and stops executors, each executor
 runs one attempt of the protocol on the same two indices, and restarts, failures and new
 recommendations bring further attempts.
 */
module ResizeRecovery {
  import opened Options
  import opened JobTable
  import opened JobSystem
  import opened JobSafety
  import opened Exclusivity
  import opened ResizeProtocol
  import ResizeSafety
  import Reconciliation
  import Stranding

  /** The index that is resized. */
  datatype Site = Site(cluster: nat, index: string)

  predicate WorksOn(job: Job, site: Site) { IsResize(job) && job.cluster == site.cluster && job.index == site.index }

  function Members(t: Table, site: Site): set<nat> { set id | id in t && WorksOn(t[id], site) }

  /** The jobs, the indices with the attempt at hand, and every job that ever was a resize of the index:
      a task outlives its row when the cluster is deleted. */
  datatype Joint = Joint(jobs: State, life: ResizeSafety.Life, team: set<nat>)

  /** A step of the job system (with the shard count of the attempt it may start), an answer to the
      executor that is running, or a left-behind reindex that goes on writing. */
  datatype Moment = Jobs(event: JobSystem.Event, target: nat) | Reply(answer: Answer) | LeftBehind(docs: Docs)

  /** Some resize of the index is being executed. */
  predicate Busy(jobs: State, team: set<nat>) { exists id :: id in team && At(jobs, id, Running) }

  predicate StartsMember(s: Joint, e: JobSystem.Event) { e.StartExecutor? && e.id in s.team && Starts(s.jobs, e, e.id) }

  /** An executor returns only from a finished attempt. */
  predicate Possible(s: Joint, e: JobSystem.Event) { e.Succeed? && e.id in s.team ==> s.life.config.pc.Done? }

  /** An attempt begins with its executor and ends with it, wherever it stands. */
  function Attempt(life: ResizeSafety.Life, target: nat, starts: bool, ran: bool, runs: bool): ResizeSafety.Life {
    if starts then ResizeSafety.Life(target, Start(life.config.source, life.config.temp))
    else if ran && !runs && !life.config.pc.Done? then life.(config := Goto(life.config, Stopped))
    else life
  }

  ghost function Happen(s: Joint, m: Moment, site: Site): Joint {
    match m
    case Jobs(e, target) =>
      if !Possible(s, e) then s
      else
        var jobs := React(s.jobs, e);
        Joint(jobs, Attempt(s.life, target, StartsMember(s, e), Busy(s.jobs, s.team), Busy(jobs, s.team)),
              s.team + Members(jobs.table, site))
    case Reply(a) =>
      if Busy(s.jobs, s.team) then s.(life := ResizeSafety.React(s.life, ResizeSafety.Await(a))) else s
    case LeftBehind(docs) => s.(life := ResizeSafety.React(s.life, ResizeSafety.LeftBehind(docs)))
  }

  ghost function Unfold(s: Joint, ms: seq<Moment>, site: Site): Joint
    decreases |ms|
  {
    if ms == [] then s else Unfold(Happen(s, ms[0], site), ms[1..], site)
  }

  // ---------------------------------------------------------------- the gate at every start

  /** No attempt begins while the source counts short, ... */
  predicate Gated(s: Joint, m: Moment) {
    m.Jobs? && StartsMember(s, m.event) ==> !ResizeSafety.CountsShort(s.life.config)
  }

  /** ... none while another one is under way, ... */
  predicate Alone(s: Joint, m: Moment) { m.Jobs? && StartsMember(s, m.event) ==> !Busy(s.jobs, s.team) }

  /** ... and what is left behind writes documents of the original. */
  predicate Calm(s: Joint, m: Moment, whole: Docs) {
    m.LeftBehind? ==> ResizeSafety.Harmless(s.life.config, m.docs, whole)
  }

  ghost predicate Orderly(s: Joint, ms: seq<Moment>, site: Site, whole: Docs)
    decreases |ms|
  {
    ms == [] ||
    (&& Gated(s, ms[0]) && Alone(s, ms[0]) && Calm(s, ms[0], whole)
     && Orderly(Happen(s, ms[0], site), ms[1..], site, whole))
  }

  lemma AttemptKeepsInv(life: ResizeSafety.Life, target: nat, starts: bool, ran: bool, runs: bool, whole: Docs)
    requires ResizeProtocol.Inv(life.config, whole) && (starts ==> !ResizeSafety.CountsShort(life.config))
    ensures ResizeProtocol.Inv(Attempt(life, target, starts, ran, runs).config, whole)
  {
    ResizeSafety.CountsTellIncomplete(life.config, whole);
  }

  lemma HappenKeepsInv(s: Joint, m: Moment, site: Site, whole: Docs)
    requires ResizeProtocol.Inv(s.life.config, whole) && Gated(s, m) && Calm(s, m, whole)
    ensures ResizeProtocol.Inv(Happen(s, m, site).life.config, whole)
  {
    match m {
      case Jobs(e, target) =>
        var jobs := React(s.jobs, e);
        AttemptKeepsInv(s.life, target, StartsMember(s, e), Busy(s.jobs, s.team), Busy(jobs, s.team), whole);
      case Reply(a) => AdvanceKeepsInv(s.life.target, s.life.config, a, whole);
      case LeftBehind(docs) => ResizeSafety.LeftBehindKeepsInv(s.life, docs, whole);
    }
  }

  /** Whatever routes, resizes of the index, the cluster and restarts do, its documents survive as long as
      every attempt begins alone and on a source that does not count short. Executors of other kinds and
      resizes of other indices do not touch the two indices here. */
  lemma {:induction false} GatedRunsKeepDocuments(s: Joint, ms: seq<Moment>, site: Site, whole: Docs)
    requires ResizeProtocol.Inv(s.life.config, whole) && Orderly(s, ms, site, whole)
    ensures ResizeProtocol.Inv(Unfold(s, ms, site).life.config, whole) && Whole(Unfold(s, ms, site).life.config, whole)
    decreases |ms|
  {
    if ms != [] {
      HappenKeepsInv(s, ms[0], site, whole);
      GatedRunsKeepDocuments(Happen(s, ms[0], site), ms[1..], site, whole);
    }
  }

  // ---------------------------------------------------------------- one start

  function Replies(script: seq<Answer>): seq<Moment>
    decreases |script|
  {
    if script == [] then [] else [Reply(script[0])] + Replies(script[1..])
  }

  lemma UnfoldStep(s: Joint, m: Moment, rest: seq<Moment>, site: Site)
    ensures Unfold(s, [m] + rest, site) == Unfold(Happen(s, m, site), rest, site)
  {
    assert ([m] + rest)[1..] == rest;
  }

  lemma {:induction false} RepliesAdvance(s: Joint, script: seq<Answer>, site: Site)
    requires Busy(s.jobs, s.team)
    ensures Unfold(s, Replies(script), site)
            == s.(life := s.life.(config := RunScript(s.life.target, s.life.config, script)))
    decreases |script|
  {
    if script != [] {
      UnfoldStep(s, Reply(script[0]), Replies(script[1..]), site);
      RepliesAdvance(Happen(s, Reply(script[0]), site), script[1..], site);
    }
  }

  lemma StartIsBusy(s: Joint, id: nat, target: nat, site: Site)
    requires id in s.team && At(s.jobs, id, Flipped)
    ensures var t := Happen(s, Jobs(StartExecutor(id, true), target), site);
            && Busy(t.jobs, t.team) && At(t.jobs, id, Running)
            && t.life == ResizeSafety.Life(target, Start(s.life.config.source, s.life.config.temp))
  {
  }

  /** The gate is exact: what the executor does after one start can lose the documents if and only if the
      source counts short at that start. */
  lemma StartGateIff(s: Joint, id: nat, target: nat, site: Site, whole: Docs)
    requires ResizeProtocol.Inv(s.life.config, whole) && id in s.team && At(s.jobs, id, Flipped)
    ensures var t := Happen(s, Jobs(StartExecutor(id, true), target), site);
            (forall script :: Whole(Unfold(t, Replies(script), site).life.config, whole))
            <==> !ResizeSafety.CountsShort(s.life.config)
  {
    var t := Happen(s, Jobs(StartExecutor(id, true), target), site);
    StartIsBusy(s, id, target, site);
    var c := Start(s.life.config.source, s.life.config.temp);
    ResizeSafety.RestartSafeIff(target, s.life.config, whole);
    if ResizeSafety.CountsShort(s.life.config) {
      var script :| !Whole(RunScript(target, c, script), whole);
      RepliesAdvance(t, script, site);
    } else {
      forall script ensures Whole(Unfold(t, Replies(script), site).life.config, whole) {
        RepliesAdvance(t, script, site);
        assert Whole(RunScript(target, c, script), whole);
      }
    }
  }

  // ---------------------------------------------------------------- attempts that are alone

  /** What the job system keeps about the resizes of the index: their rows stay resizes of it, and their
      tasks have rows. */
  predicate MemberInv(s: State, id: nat, site: Site) {
    && id < s.nextId && (id in s.table ==> WorksOn(s.table[id], site))
    && (Stranding.HasTask(s, id) ==> id in s.table)
  }

  ghost predicate TeamInv(s: Joint, site: Site) {
    && JobSafety.Inv(s.jobs) && OnePerName(s.jobs.table, site.cluster) && Members(s.jobs.table, site) <= s.team
    && forall id :: id in s.team ==> MemberInv(s.jobs, id, site)
  }

  /** No job is queued that meets another one, and the cluster is not deleted. */
  ghost predicate Tame(s: Joint, m: Moment, site: Site) {
    m.Jobs? ==> !Collides(s.jobs, m.event, site.cluster) && m.event != DeleteCluster(site.cluster)
  }

  lemma MemberInFlight(s: Joint, id: nat, site: Site)
    requires TeamInv(s, site) && id in s.team && (At(s.jobs, id, Flipped) || At(s.jobs, id, Running))
    ensures Occupies(s.jobs.table, site.cluster, id) && site.index in Touched(s.jobs.table[id])
  {
    assert MemberInv(s.jobs, id, site) && Stranding.HasTask(s.jobs, id);
    assert RowFits(s.jobs, id);
  }

  lemma OneMemberInFlight(s: Joint, i: nat, j: nat, site: Site)
    requires TeamInv(s, site) && i in s.team && j in s.team
    requires At(s.jobs, i, Flipped) || At(s.jobs, i, Running)
    requires At(s.jobs, j, Flipped) || At(s.jobs, j, Running)
    ensures i == j
  {
    var t := s.jobs.table;
    MemberInFlight(s, i, site);
    MemberInFlight(s, j, site);
    assert Collide(t[i], t[j]);
  }

  lemma TameIsAlone(s: Joint, m: Moment, site: Site)
    requires TeamInv(s, site)
    ensures Alone(s, m)
  {
    if m.Jobs? && StartsMember(s, m.event) {
      forall j | j in s.team && At(s.jobs, j, Running) ensures j == m.event.id {
        OneMemberInFlight(s, m.event.id, j, site);
      }
    }
  }

  /** A task is there already, or is created for a row in the queue. */
  lemma TaskOrigin(s: State, e: JobSystem.Event, id: nat)
    requires JobSafety.Inv(s) && Stranding.HasTask(React(s, e), id)
    ensures Stranding.HasTask(s, id) || (RouteEvent(e) && id in React(s, e).table) || (e.Restart? && id in s.table)
  {
    if RouteEvent(e) {
      RouteTasks(s, e, id);
    } else if TaskEvent(e) && id != e.id {
      TaskFrame(s, e, id);
    }
  }

  /** A row with a task goes with its cluster only. */
  lemma RowStays(s: State, e: JobSystem.Event, id: nat)
    requires JobSafety.Inv(s) && Stranding.HasTask(s, id) && id in s.table && e != DeleteCluster(s.table[id].cluster)
    ensures id in React(s, e).table
  {
    assert RowFits(s, id);
    if !e.DeleteCluster? {
      LifecycleEdge(s, e, id);
      assert Edge(StatusOf(s, id), StatusOf(React(s, e), id), e);
    }
  }

  lemma RowNotReborn(s: State, e: JobSystem.Event, id: nat)
    requires JobSafety.Inv(s) && id < s.nextId && id in React(s, e).table
    ensures id in s.table
  {
    if RouteEvent(e) { RouteEdge(s, e, id); } else { LifecycleEdge(s, e, id); }
    assert Edge(StatusOf(s, id), StatusOf(React(s, e), id), e);
  }

  lemma MemberStays(s: State, e: JobSystem.Event, id: nat, site: Site)
    requires JobSafety.Inv(s) && MemberInv(s, id, site) && e != DeleteCluster(site.cluster)
    ensures MemberInv(React(s, e), id, site)
  {
    ReactKeepsInv(s, e);
    if id in React(s, e).table {
      RowNotReborn(s, e, id);
      KeyFrame(s, e, id);
    } else if Stranding.HasTask(React(s, e), id) {
      TaskOrigin(s, e, id);
      if Stranding.HasTask(s, id) { RowStays(s, e, id); }
    }
  }

  lemma HappenKeepsTeam(s: Joint, m: Moment, site: Site)
    requires TeamInv(s, site) && Tame(s, m, site)
    ensures TeamInv(Happen(s, m, site), site)
  {
    if m.Jobs? && Possible(s, m.event) {
      var jobs := React(s.jobs, m.event);
      ReactKeepsInv(s.jobs, m.event);
      OnePerNameIff(s.jobs, m.event, site.cluster);
      forall id | id in s.team + Members(jobs.table, site) ensures MemberInv(jobs, id, site) {
        if id in s.team { MemberStays(s.jobs, m.event, id, site); }
      }
    }
  }

  ghost predicate AlwaysTame(s: Joint, ms: seq<Moment>, site: Site)
    decreases |ms|
  {
    ms == [] || (Tame(s, ms[0], site) && AlwaysTame(Happen(s, ms[0], site), ms[1..], site))
  }

  /** The gate on the counts alone, at every start. */
  ghost predicate AlwaysGated(s: Joint, ms: seq<Moment>, site: Site, whole: Docs)
    decreases |ms|
  {
    ms == [] ||
    (Gated(s, ms[0]) && Calm(s, ms[0], whole) && AlwaysGated(Happen(s, ms[0], site), ms[1..], site, whole))
  }

  lemma {:induction false} TameIsOrderly(s: Joint, ms: seq<Moment>, site: Site, whole: Docs)
    requires TeamInv(s, site) && AlwaysTame(s, ms, site) && AlwaysGated(s, ms, site, whole)
    ensures Orderly(s, ms, site, whole)
    decreases |ms|
  {
    if ms != [] {
      TameIsAlone(s, ms[0], site);
      HappenKeepsTeam(s, ms[0], site);
      TameIsOrderly(Happen(s, ms[0], site), ms[1..], site, whole);
    }
  }

  /** From an empty job table and a safe start, over any run in which no job is queued that meets another
      one: two counts checked at the start of every resize are enough to keep the documents. */
  lemma ResizedIndexSurvives(cap: nat, target: nat, source: Option<Index>, temp: Option<Index>,
                             ms: seq<Moment>, site: Site, whole: Docs)
    requires SafeStart(source, temp, whole)
    requires var s := Joint(Initial(cap), ResizeSafety.Life(target, Config(Stopped, source, temp)), {});
             AlwaysTame(s, ms, site) && AlwaysGated(s, ms, site, whole)
    ensures var s := Joint(Initial(cap), ResizeSafety.Life(target, Config(Stopped, source, temp)), {});
            Whole(Unfold(s, ms, site).life.config, whole)
  {
    var s := Joint(Initial(cap), ResizeSafety.Life(target, Config(Stopped, source, temp)), {});
    InitialInv(cap);
    TameIsOrderly(s, ms, site, whole);
    GatedRunsKeepDocuments(s, ms, site, whole);
  }
}
