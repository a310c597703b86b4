/** Restarts and repeated recommendations of a resize: which of them bring the loss about. */
module ResizeRestart {
  import opened Options
  import opened JobTable
  import opened JobSystem
  import opened JobSafety
  import opened Exclusivity
  import opened ResizeProtocol
  import opened ResizeRecovery
  import ResizeSafety
  import Reconciliation
  import Stranding

  // ---------------------------------------------------------------- from the queue to the executor

  lemma {:induction false} UnfoldAppend(s: Joint, a: seq<Moment>, b: seq<Moment>, site: Site)
    ensures Unfold(s, a + b, site) == Unfold(Unfold(s, a, site), b, site)
    decreases |a|
  {
    if a == [] {
      assert a + b == b;
    } else {
      assert (a + b)[1..] == a[1..] + b;
      UnfoldAppend(Happen(s, a[0], site), a[1..], b, site);
    }
  }

  predicate Standing(s: State, id: nat, pc: JobSystem.Pc) { JobSafety.Inv(s) && At(s, id, pc) && id in s.table }

  /** A member with a fresh task, and a free slot. */
  predicate Ready(s: Joint, id: nat) { Standing(s.jobs, id, Created) && s.jobs.free >= 1 && id in s.team }

  lemma BeginStands(s: State, id: nat)
    requires Standing(s, id, Created)
    ensures Standing(React(s, Begin(id)), id, Waiting) && React(s, Begin(id)).free == s.free
  {
    ReactKeepsInv(s, Begin(id));
  }

  lemma AcquireStands(s: State, id: nat)
    requires Standing(s, id, Waiting) && s.free >= 1
    ensures Standing(React(s, Acquire(id)), id, Setup)
  {
    ReactKeepsInv(s, Acquire(id));
  }

  lemma FlipStands(s: State, id: nat)
    requires Standing(s, id, Setup)
    ensures Standing(React(s, Flip(id)), id, Flipped)
  {
    assert RowFits(s, id);
    ReactKeepsInv(s, Flip(id));
  }

  predicate Quiet(e: JobSystem.Event) { e.Begin? || e.Acquire? || e.Flip? }

  lemma QuietKeepsBusy(s: State, e: JobSystem.Event, team: set<nat>)
    requires Quiet(e)
    ensures Busy(React(s, e), team) <==> Busy(s, team)
  {
    forall id ensures At(React(s, e), id, Running) <==> At(s, id, Running) { if id != e.id { TaskFrame(s, e, id); } }
  }

  /** A step on the way to the executor does not touch the indices. */
  lemma QuietStep(s: Joint, e: JobSystem.Event, target: nat, rest: seq<Moment>, site: Site) returns (t: Joint)
    requires Quiet(e)
    ensures Unfold(s, [Jobs(e, target)] + rest, site) == Unfold(t, rest, site) && t.jobs == React(s.jobs, e)
    ensures t.life == s.life && s.team <= t.team
  {
    UnfoldStep(s, Jobs(e, target), rest, site);
    QuietKeepsBusy(s.jobs, e, s.team);
    t := Happen(s, Jobs(e, target), site);
  }

  function Launch(id: nat, target: nat): seq<Moment> {
    var started := [Jobs(StartExecutor(id, true), target)] + [];
    [Jobs(Begin(id), 0)] + ([Jobs(Acquire(id), 0)] + ([Jobs(Flip(id), 0)] + started))
  }

  predicate Underway(s: Joint, id: nat, pc: JobSystem.Pc, life: ResizeSafety.Life) {
    Standing(s.jobs, id, pc) && id in s.team && s.life == life
  }

  lemma BeginStep(s: Joint, id: nat, rest: seq<Moment>, site: Site) returns (t: Joint)
    requires Ready(s, id)
    ensures Unfold(s, [Jobs(Begin(id), 0)] + rest, site) == Unfold(t, rest, site)
    ensures Underway(t, id, Waiting, s.life) && t.jobs.free >= 1
  {
    BeginStands(s.jobs, id);
    t := QuietStep(s, Begin(id), 0, rest, site);
  }

  lemma AcquireStep(s: Joint, id: nat, life: ResizeSafety.Life, rest: seq<Moment>, site: Site) returns (t: Joint)
    requires Underway(s, id, Waiting, life) && s.jobs.free >= 1
    ensures Unfold(s, [Jobs(Acquire(id), 0)] + rest, site) == Unfold(t, rest, site)
    ensures Underway(t, id, Setup, life)
  {
    AcquireStands(s.jobs, id);
    t := QuietStep(s, Acquire(id), 0, rest, site);
  }

  lemma FlipStep(s: Joint, id: nat, life: ResizeSafety.Life, rest: seq<Moment>, site: Site) returns (t: Joint)
    requires Underway(s, id, Setup, life)
    ensures Unfold(s, [Jobs(Flip(id), 0)] + rest, site) == Unfold(t, rest, site)
    ensures Underway(t, id, Flipped, life)
  {
    FlipStands(s.jobs, id);
    t := QuietStep(s, Flip(id), 0, rest, site);
  }

  lemma StartStep(s: Joint, id: nat, life: ResizeSafety.Life, target: nat, site: Site) returns (t: Joint)
    requires Underway(s, id, Flipped, life)
    ensures Unfold(s, [Jobs(StartExecutor(id, true), target)] + [], site) == t
    ensures Busy(t.jobs, t.team)
    ensures Underway(t, id, Running, ResizeSafety.Life(target, Start(life.config.source, life.config.temp)))
  {
    ReactKeepsInv(s.jobs, StartExecutor(id, true));
    UnfoldStep(s, Jobs(StartExecutor(id, true), target), [], site);
    StartIsBusy(s, id, target, site);
    t := Happen(s, Jobs(StartExecutor(id, true), target), site);
  }

  lemma LaunchStarts(s: Joint, id: nat, target: nat, site: Site) returns (t: Joint)
    requires Ready(s, id)
    ensures Unfold(s, Launch(id, target), site) == t && Busy(t.jobs, t.team)
    ensures Underway(t, id, Running, ResizeSafety.Life(target, Start(s.life.config.source, s.life.config.temp)))
  {
    var started := [Jobs(StartExecutor(id, true), target)] + [];
    var flipped := [Jobs(Flip(id), 0)] + started;
    var s1 := BeginStep(s, id, [Jobs(Acquire(id), 0)] + flipped, site);
    var s2 := AcquireStep(s1, id, s.life, flipped, site);
    var s3 := FlipStep(s2, id, s.life, started, site);
    t := StartStep(s3, id, s.life, target, site);
  }

  /** The executor starts and gets truthful answers. */
  function Rerun(id: nat, target: nat, n: nat, whole: Docs): seq<Moment> {
    Launch(id, target) + Replies(ResizeSafety.Truthful(n, whole))
  }

  lemma RerunLoses(s: Joint, id: nat, target: nat, site: Site, n: nat, whole: Docs)
    requires Ready(s, id) && n == 3
    requires ResizeSafety.SourceIncomplete(s.life.config, whole) && s.life.config.temp.Some?
    ensures !Whole(Unfold(s, Rerun(id, target, n, whole), site).life.config, whole)
  {
    var t := LaunchStarts(s, id, target, site);
    UnfoldAppend(s, Launch(id, target), Replies(ResizeSafety.Truthful(n, whole)), site);
    RepliesAdvance(t, ResizeSafety.Truthful(n, whole), site);
    ResizeSafety.IncompleteSourceLoses(target, s.life.config.source, s.life.config.temp, whole);
  }

  // ---------------------------------------------------------------- after a restart

  /** No operator, no administrator and no further restart, and nothing left behind brings a missing source
      back: the runner is on its own. */
  predicate Unattended(s: Joint, m: Moment, whole: Docs) {
    match m
    case Jobs(e, _) => TaskEvent(e)
    case Reply(_) => true
    case LeftBehind(docs) => Submap(docs, whole) && s.life.config.source.Some?
  }

  ghost predicate AlwaysUnattended(s: Joint, ms: seq<Moment>, site: Site, whole: Docs)
    decreases |ms|
  {
    ms == [] || (Unattended(s, ms[0], whole) && AlwaysUnattended(Happen(s, ms[0], site), ms[1..], site, whole))
  }

  /** One member only has a task, and as long as it may start the source is not incomplete. */
  ghost predicate SoleInv(s: Joint, id: nat, site: Site, whole: Docs) {
    && TeamInv(s, site) && ResizeProtocol.Inv(s.life.config, whole)
    && (forall j :: j in s.team && j != id ==> !Stranding.HasTask(s.jobs, j))
    && (Tokens(s.jobs, id) > 0 ==> !ResizeSafety.SourceIncomplete(s.life.config, whole))
  }

  lemma RunningHasNoToken(s: State, id: nat)
    requires JobSafety.Inv(s) && At(s, id, Running)
    ensures Tokens(s, id) == 0
  {
    assert RowFits(s, id);
  }

  /** A start uses up the token, and without a restart no new one is issued. */
  lemma TokenNeeded(s: State, e: JobSystem.Event, id: nat)
    requires JobSafety.Inv(s) && !e.Restart?
    ensures Starts(s, e, id) ==> Tokens(s, id) > 0
    ensures Tokens(React(s, e), id) > 0 ==> !Starts(s, e, id) && Tokens(s, id) > 0
  {
    TokensStep(s, e, id);
    if At(s, id, Flipped) { assert RowFits(s, id); }
  }

  lemma UnattendedIsTame(s: Joint, m: Moment, site: Site, whole: Docs)
    requires Unattended(s, m, whole)
    ensures Tame(s, m, site) && Calm(s, m, whole)
  {
  }

  /** Only the sole member can start, and only while the source is not incomplete. */
  lemma SoleIsGated(s: Joint, m: Moment, id: nat, site: Site, whole: Docs)
    requires SoleInv(s, id, site, whole) && Unattended(s, m, whole)
    ensures Gated(s, m) && (m.Jobs? && StartsMember(s, m.event) ==> m.event.id == id)
  {
    if m.Jobs? && StartsMember(s, m.event) {
      assert Stranding.HasTask(s.jobs, m.event.id);
      TokenNeeded(s.jobs, m.event, id);
      ResizeSafety.CountsTellIncomplete(s.life.config, whole);
    }
  }

  lemma SoleStaysComplete(s: Joint, m: Moment, id: nat, site: Site, whole: Docs)
    requires SoleInv(s, id, site, whole) && Unattended(s, m, whole) && Tokens(Happen(s, m, site).jobs, id) > 0
    ensures !ResizeSafety.SourceIncomplete(Happen(s, m, site).life.config, whole)
  {
    match m {
      case Jobs(e, _) => TokenNeeded(s.jobs, e, id);
      case Reply(a) =>
        if Busy(s.jobs, s.team) {
          var j :| j in s.team && At(s.jobs, j, Running);
          assert Stranding.HasTask(s.jobs, j);
          RunningHasNoToken(s.jobs, id);
        }
      case LeftBehind(docs) => ResizeSafety.WrittenStays(s.life.config.source, docs, whole);
    }
  }

  lemma SoleStaysSole(s: Joint, m: Moment, id: nat, site: Site, whole: Docs, j: nat)
    requires SoleInv(s, id, site, whole) && Unattended(s, m, whole) && j != id && j in Happen(s, m, site).team
    ensures !Stranding.HasTask(Happen(s, m, site).jobs, j)
  {
    if m.Jobs? && Possible(s, m.event) {
      if j != m.event.id { TaskFrame(s.jobs, m.event, j); }
      if j !in s.team {
        RowNotNew(s.jobs, m.event, j, site);
      }
    }
  }

  /** A task's step makes no row a resize of the index. */
  lemma RowNotNew(s: State, e: JobSystem.Event, j: nat, site: Site)
    requires JobSafety.Inv(s) && TaskEvent(e) && j in Members(React(s, e).table, site)
    ensures j in Members(s.table, site)
  {
    if j != e.id { TaskFrame(s, e, j); } else { TaskFits(s, e); }
    KeyFrame(s, e, j);
  }

  lemma SoleStays(s: Joint, m: Moment, id: nat, site: Site, whole: Docs)
    requires SoleInv(s, id, site, whole) && Unattended(s, m, whole)
    ensures SoleInv(Happen(s, m, site), id, site, whole)
  {
    var t := Happen(s, m, site);
    UnattendedIsTame(s, m, site, whole);
    SoleIsGated(s, m, id, site, whole);
    HappenKeepsTeam(s, m, site);
    HappenKeepsInv(s, m, site, whole);
    forall j | j in t.team && j != id ensures !Stranding.HasTask(t.jobs, j) { SoleStaysSole(s, m, id, site, whole, j); }
    if Tokens(t.jobs, id) > 0 { SoleStaysComplete(s, m, id, site, whole); }
  }

  lemma {:induction false} SoleSurvives(s: Joint, ms: seq<Moment>, id: nat, site: Site, whole: Docs)
    requires SoleInv(s, id, site, whole) && AlwaysUnattended(s, ms, site, whole)
    ensures Whole(Unfold(s, ms, site).life.config, whole)
    decreases |ms|
  {
    if ms != [] {
      SoleStays(s, ms[0], id, site, whole);
      SoleSurvives(Happen(s, ms[0], site), ms[1..], id, site, whole);
    }
  }

  /** A restart gets an executing job ready again, and leaves the indices alone. */
  lemma RestartIsReady(s: Joint, id: nat, site: Site)
    requires JobSafety.Inv(s.jobs) && StatusOf(s.jobs, id) == Some(Executing) && s.jobs.cap >= 1 && id in s.team
    ensures var t := Happen(s, Jobs(Restart, 0), site);
            && Ready(t, id)
            && t.life.config.source == s.life.config.source && t.life.config.temp == s.life.config.temp
  {
    ReactKeepsInv(s.jobs, Restart);
  }

  /** After a restart the executing member is the only one with a task. */
  lemma RestartIsSole(s: Joint, id: nat, site: Site, whole: Docs)
    requires TeamInv(s, site) && ResizeProtocol.Inv(s.life.config, whole) && id in s.team
    requires StatusOf(s.jobs, id) == Some(Executing) && !ResizeSafety.SourceIncomplete(s.life.config, whole)
    ensures SoleInv(Happen(s, Jobs(Restart, 0), site), id, site, whole)
  {
    var t := Happen(s, Jobs(Restart, 0), site);
    assert MemberInv(s.jobs, id, site);
    HappenKeepsTeam(s, Jobs(Restart, 0), site);
    forall j | j in t.team && j != id ensures !Stranding.HasTask(t.jobs, j) { OthersAtRest(s, id, j, site); }
  }

  lemma OthersAtRest(s: Joint, id: nat, j: nat, site: Site)
    requires TeamInv(s, site) && id in s.team && StatusOf(s.jobs, id) == Some(Executing)
    requires j in Happen(s, Jobs(Restart, 0), site).team && j != id
    ensures !Stranding.HasTask(Happen(s, Jobs(Restart, 0), site).jobs, j)
  {
    var t := s.jobs.table;
    assert MemberInv(s.jobs, id, site) && Occupies(t, site.cluster, id);
    if j in t {
      assert j in s.team ==> MemberInv(s.jobs, j, site);
      if WorksOn(t[j], site) { assert Occupies(t, site.cluster, j) ==> Collide(t[id], t[j]); }
    }
  }

  lemma {:induction false} RepliesUnattended(s: Joint, script: seq<Answer>, site: Site, whole: Docs)
    ensures AlwaysUnattended(s, Replies(script), site, whole)
    decreases |script|
  {
    if script != [] {
      var rest := Replies(script[1..]);
      assert ([Reply(script[0])] + rest)[1..] == rest;
      RepliesUnattended(Happen(s, Reply(script[0]), site), script[1..], site, whole);
    }
  }

  lemma UnattendedCons(s: Joint, m: Moment, rest: seq<Moment>, site: Site, whole: Docs)
    requires Unattended(s, m, whole) && AlwaysUnattended(Happen(s, m, site), rest, site, whole)
    ensures AlwaysUnattended(s, [m] + rest, site, whole)
  {
    assert ([m] + rest)[1..] == rest;
  }

  lemma {:induction false} UnattendedAppend(s: Joint, a: seq<Moment>, b: seq<Moment>, site: Site, whole: Docs)
    requires forall i :: 0 <= i < |a| ==> a[i].Jobs? && TaskEvent(a[i].event)
    requires AlwaysUnattended(Unfold(s, a, site), b, site, whole)
    ensures AlwaysUnattended(s, a + b, site, whole)
    decreases |a|
  {
    if a == [] {
      assert a + b == b;
    } else {
      assert a + b == [a[0]] + (a[1..] + b);
      UnattendedAppend(Happen(s, a[0], site), a[1..], b, site, whole);
      UnattendedCons(s, a[0], a[1..] + b, site, whole);
    }
  }

  lemma RerunUnattended(s: Joint, id: nat, target: nat, n: nat, site: Site, whole: Docs)
    ensures AlwaysUnattended(s, Rerun(id, target, n, whole), site, whole)
  {
    RepliesUnattended(Unfold(s, Launch(id, target), site), ResizeSafety.Truthful(n, whole), site, whole);
    UnattendedAppend(s, Launch(id, target), Replies(ResizeSafety.Truthful(n, whole)), site, whole);
  }

  /** Whatever the runner does on its own keeps the documents. */
  ghost predicate LeftAloneKeeps(s: Joint, site: Site, whole: Docs) {
    forall ms :: AlwaysUnattended(s, ms, site, whole) ==> Whole(Unfold(s, ms, site).life.config, whole)
  }

  /** A restart that finds a resize executing, when no other job in flight touches its indices: what the
      runner does of its own accord afterwards can lose the documents if and only if the source counts
      short. */
  lemma RestartGateIff(s: Joint, id: nat, site: Site, whole: Docs)
    requires TeamInv(s, site) && ResizeProtocol.Inv(s.life.config, whole) && s.jobs.cap >= 1
    requires id in s.team && StatusOf(s.jobs, id) == Some(Executing)
    ensures LeftAloneKeeps(Happen(s, Jobs(Restart, 0), site), site, whole)
            <==> !ResizeSafety.CountsShort(s.life.config)
  {
    var t := Happen(s, Jobs(Restart, 0), site);
    ResizeSafety.CountsTellIncomplete(s.life.config, whole);
    if ResizeSafety.CountsShort(s.life.config) {
      RestartIsReady(s, id, site);
      LosesWhenLeftAlone(t, id, site, 3, whole);
    } else {
      RestartIsSole(s, id, site, whole);
      forall ms | AlwaysUnattended(t, ms, site, whole) ensures Whole(Unfold(t, ms, site).life.config, whole) {
        SoleSurvives(t, ms, id, site, whole);
      }
    }
  }

  lemma LosesWhenLeftAlone(t: Joint, id: nat, site: Site, n: nat, whole: Docs)
    requires Ready(t, id) && n == 3
    requires ResizeSafety.SourceIncomplete(t.life.config, whole) && t.life.config.temp.Some?
    ensures !LeftAloneKeeps(t, site, whole)
  {
    RerunUnattended(t, id, 1, n, site, whole);
    RerunLoses(t, id, 1, site, n, whole);
  }
}
