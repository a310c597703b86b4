/**
 When the resize protocol keeps the documents: exactly from which states one attempt is safe,
 what a success means, and what happens over any number of attempts.
 */
module ResizeSafety {
  import opened Options
  import opened ResizeProtocol

  lemma RunSteps(target: nat, c: Config, a: Answer, rest: seq<Answer>)
    ensures RunScript(target, c, [a] + rest) == RunScript(target, Advance(target, c, a), rest)
  {
    assert ([a] + rest)[1..] == rest;
  }

  // ---------------------------------------------------------------- one attempt

  /** An incomplete source is taken for the truth, and the full temporary copy for stale. */
  lemma IncompleteSourceLoses(target: nat, source: Option<Index>, temp: Option<Index>, whole: Docs)
    requires source.Some? && source.value.docs != whole && temp.Some?
    ensures !Whole(RunScript(target, Start(source, temp), Truthful(3, whole)), whole)
  {
    var ok := Honest(whole);
    var c0 := Start(source, temp);
    var c1 := Advance(target, c0, ok);
    var c2 := Advance(target, c1, ok);
    var c3 := Advance(target, c2, ok);
    TruthfulRun(target, c0, 3, whole);
    TruthfulRun(target, c1, 2, whole);
    TruthfulRun(target, c2, 1, whole);
    TruthfulRun(target, c3, 0, whole);
  }

  /** A source probed as missing is overwritten with what a foreign temporary index holds. */
  lemma ForeignTempLoses(target: nat, source: Option<Index>, temp: Option<Index>, whole: Docs)
    requires Holds(source, whole) && temp.Some? && !Submap(temp.value.docs, whole)
    ensures exists script :: !Whole(RunScript(target, Start(source, temp), script), whole)
  {
    var unseen := Answer(false, false, false, {});
    var seen := Answer(false, false, true, temp.value.docs.Keys);
    var c0 := Start(source, temp);
    var c1 := Advance(target, c0, unseen);
    var c2 := Advance(target, c1, seen);
    var c3 := Advance(target, c2, seen);
    var c4 := Advance(target, c3, seen);
    RunSteps(target, c3, seen, []);
    RunSteps(target, c2, seen, [seen]);
    RunSteps(target, c1, seen, [seen, seen]);
    RunSteps(target, c0, unseen, [seen, seen, seen]);
    assert [seen] + [] == [seen] && [seen] + [seen] == [seen, seen] && [seen] + [seen, seen] == [seen, seen, seen];
    assert Portion(temp.value.docs, seen.portion) == temp.value.docs;
    assert c4.source.value.docs == whole + temp.value.docs;
    var k :| k in temp.value.docs && (k !in whole || temp.value.docs[k] != whole[k]);
    assert k in c4.source.value.docs && c4.source.value.docs[k] == temp.value.docs[k];
    assert !Whole(RunScript(target, c0, [unseen] + [seen, seen, seen]), whole);
  }

  /** One attempt, stopped after any number of answers of any kind, never loses the documents
      exactly when the caller-checkable start condition holds. */
  lemma OneAttemptSafeIff(target: nat, source: Option<Index>, temp: Option<Index>, whole: Docs)
    requires Whole(Start(source, temp), whole)
    ensures (forall script :: Whole(RunScript(target, Start(source, temp), script), whole))
            <==> SafeStart(source, temp, whole)
  {
    if SafeStart(source, temp, whole) {
      forall script ensures Whole(RunScript(target, Start(source, temp), script), whole) {
        RunKeepsInv(target, Start(source, temp), script, whole);
      }
    } else if source.value.docs != whole {
      IncompleteSourceLoses(target, source, temp, whole);
    } else {
      ForeignTempLoses(target, source, temp, whole);
    }
  }

  /** Success means: the source is complete and the temporary index is gone. */
  lemma SuccessIsComplete(target: nat, source: Option<Index>, temp: Option<Index>, script: seq<Answer>, whole: Docs)
    requires SafeStart(source, temp, whole)
    requires RunScript(target, Start(source, temp), script).pc.Done?
    ensures var end := RunScript(target, Start(source, temp), script);
            Holds(end.source, whole) && end.temp.None?
  {
    RunKeepsInv(target, Start(source, temp), script, whole);
  }

  /** The shard count on the way: recreated with the target, or, if the first probe missed an
      existing source, never recreated at all. */
  predicate ShardsInv(c: Config, target: nat, probed: bool, before: Option<Index>) {
    match c.pc
    case ProbeSource => false
    case ProbeTemp(seen) => c.source == before && (seen <==> probed && before.Some?)
    case Stopped => true
    case Done => c.source.Some? && Recreated(c, target, probed, before)
    case GuardProbe => Recreated(c, target, probed, before)
    case CreateSource => Recreated(c, target, probed, before)
    case StartReindex => Recreated(c, target, probed, before)
    case Poll => Recreated(c, target, probed, before)
    case AwaitReplacement => Recreated(c, target, probed, before)
    case CountReplacement => Recreated(c, target, probed, before)
    case CountTemp(_) => c.source.Some? && Recreated(c, target, probed, before)
    case DropTemp => c.source.Some? && Recreated(c, target, probed, before)
    case _ => probed
  }

  predicate Recreated(c: Config, target: nat, probed: bool, before: Option<Index>) {
    if !probed && before.Some? then c.source.Some? && c.source.value.shards == before.value.shards
    else c.source.Some? ==> c.source.value.shards == target
  }

  lemma {:induction false} RunKeepsShardsInv(target: nat, c: Config, script: seq<Answer>, probed: bool,
                                             before: Option<Index>)
    requires ShardsInv(c, target, probed, before)
    ensures ShardsInv(RunScript(target, c, script), target, probed, before)
    decreases |script|
  {
    if script != [] {
      RunKeepsShardsInv(target, Advance(target, c, script[0]), script[1..], probed, before);
    }
  }

  /** A successful attempt leaves the source with the target shard count, unless its very first probe
      missed an existing source: then it "succeeds" without resizing anything. */
  lemma SuccessIsResized(target: nat, source: Option<Index>, temp: Option<Index>, script: seq<Answer>)
    requires RunScript(target, Start(source, temp), script).pc.Done?
    ensures var end := RunScript(target, Start(source, temp), script);
            && script != [] && end.source.Some?
            && end.source.value.shards == if script[0].sees || source.None? then target else source.value.shards
  {
    var c1 := Advance(target, Start(source, temp), script[0]);
    RunKeepsShardsInv(target, c1, script[1..], script[0].sees, source);
  }

  /** The exception is real: a stale but full temporary index and one missed probe. */
  lemma MissedProbeSkipsResize(target: nat, whole: Docs, shards: nat, tempShards: nat)
    ensures exists script ::
              RunScript(target, Start(Some(Index(whole, shards)), Some(Index(whole, tempShards))), script)
              == Config(Done, Some(Index(whole, shards)), None)
  {
    var unseen := Answer(false, false, false, {});
    var c0 := Start(Some(Index(whole, shards)), Some(Index(whole, tempShards)));
    var c1 := Advance(target, c0, unseen);
    var ok := Honest(whole);
    assert whole + Portion(whole, whole.Keys) == whole;
    var n := 9;
    TruthfulRun(target, c1, n, whole);
    GuardToDone(target, Advance(target, c1, ok), n - 1, whole);
    RunSteps(target, c0, unseen, Truthful(9, whole));
    assert RunScript(target, c0, [unseen] + Truthful(9, whole)) == Config(Done, Some(Index(whole, shards)), None);
  }

  /** On the way after a missed first probe: the source stays as it was, and only a full temporary
      index gets past the final counts. */
  predicate MissedInv(c: Config, temp: Option<Index>, whole: Docs) {
    match c.pc
    case ProbeTemp(seen) => !seen && Holds(c.source, whole) && c.temp == temp
    case GuardProbe => Holds(c.source, whole) && c.temp == temp
    case CreateSource => Holds(c.source, whole) && c.temp == temp
    case StartReindex => Holds(c.source, whole) && c.temp == temp
    case Poll => Holds(c.source, whole) && c.temp == temp
    case AwaitReplacement => Holds(c.source, whole) && c.temp == temp
    case CountReplacement => Holds(c.source, whole) && c.temp == temp
    case CountTemp(n) => n == |whole| && c.temp == temp
    case DropTemp => Holds(temp, whole)
    case Done => Holds(temp, whole)
    case Stopped => true
    case _ => false
  }

  lemma MissedStep(target: nat, c: Config, a: Answer, temp: Option<Index>, whole: Docs)
    requires Within(temp, whole) && MissedInv(c, temp, whole)
    ensures MissedInv(Advance(target, c, a), temp, whole)
  {
    if c.pc.StartReindex? || c.pc.Poll? { OverlayStays(c.source, c.temp, a.portion, target, whole); }
    if temp.Some? { SmallerMap(temp.value.docs, whole); }
  }

  lemma {:induction false} MissedRun(target: nat, c: Config, script: seq<Answer>, temp: Option<Index>, whole: Docs)
    requires Within(temp, whole) && MissedInv(c, temp, whole)
    ensures MissedInv(RunScript(target, c, script), temp, whole)
    decreases |script|
  {
    if script != [] {
      MissedStep(target, c, script[0], temp, whole);
      MissedRun(target, Advance(target, c, script[0]), script[1..], temp, whole);
    }
  }

  /** Every success resizes. */
  ghost predicate AlwaysResizes(target: nat, source: Option<Index>, temp: Option<Index>) {
    forall script ::
      var end := RunScript(target, Start(source, temp), script);
      end.pc.Done? ==> end.source.Some? && end.source.value.shards == target
  }

  lemma NoFullTempResizes(target: nat, source: Option<Index>, temp: Option<Index>, whole: Docs, script: seq<Answer>)
    requires SafeStart(source, temp, whole) && source.Some? && !Holds(temp, whole)
    requires RunScript(target, Start(source, temp), script).pc.Done?
    ensures script != [] && script[0].sees
  {
    if script != [] && !script[0].sees {
      MissedRun(target, Advance(target, Start(source, temp), script[0]), script[1..], temp, whole);
    }
  }

  /** From a safe start every success resizes exactly when there is no source to be missed, or it has
      the target count already, or no full temporary index stands beside it. */
  lemma AlwaysResizesIff(target: nat, source: Option<Index>, temp: Option<Index>, whole: Docs)
    requires SafeStart(source, temp, whole)
    ensures AlwaysResizes(target, source, temp)
            <==> source.None? || source.value.shards == target || !Holds(temp, whole)
  {
    if source.None? || source.value.shards == target || !Holds(temp, whole) {
      forall script | RunScript(target, Start(source, temp), script).pc.Done?
        ensures var end := RunScript(target, Start(source, temp), script);
                end.source.Some? && end.source.value.shards == target
      {
        SuccessIsResized(target, source, temp, script);
        if source.Some? && !Holds(temp, whole) { NoFullTempResizes(target, source, temp, whole, script); }
      }
    } else {
      MissedProbeSkipsResize(target, whole, source.value.shards, temp.value.shards);
    }
  }

  // ---------------------------------------------------------------- honest answers

  /** No fault, nothing hidden, everything carried over. */
  function Honest(whole: Docs): Answer { Answer(false, true, true, whole.Keys) }

  function Truthful(n: nat, whole: Docs): seq<Answer> {
    if n == 0 then [] else [Honest(whole)] + Truthful(n - 1, whole)
  }

  lemma TruthfulRun(target: nat, c: Config, n: nat, whole: Docs)
    ensures RunScript(target, c, Truthful(n, whole)) ==
            if n == 0 then c else RunScript(target, Advance(target, c, Honest(whole)), Truthful(n - 1, whole))
  {
    if n > 0 { RunSteps(target, c, Honest(whole), Truthful(n - 1, whole)); }
  }

  lemma {:induction false} DoneStays(target: nat, c: Config, n: nat, whole: Docs)
    requires c.pc.Done?
    ensures RunScript(target, c, Truthful(n, whole)) == c
  {
    TruthfulRun(target, c, n, whole);
    if n > 0 { DoneStays(target, c, n - 1, whole); }
  }

  lemma VerifiedToDone(target: nat, c: Config, n: nat, whole: Docs)
    requires c.pc.CountReplacement? && Holds(c.source, whole) && Holds(c.temp, whole)
    requires n >= 3
    ensures RunScript(target, c, Truthful(n, whole)) == Config(Done, c.source, None)
  {
    var ok := Honest(whole);
    var c1 := Config(CountTemp(|whole|), c.source, c.temp);
    var c2 := Config(DropTemp, c.source, c.temp);
    assert Advance(target, c, ok) == c1 && Advance(target, c1, ok) == c2;
    TruthfulRun(target, c, n, whole);
    TruthfulRun(target, c1, n - 1, whole);
    TruthfulRun(target, c2, n - 2, whole);
    DoneStays(target, Config(Done, c.source, None), n - 3, whole);
  }

  lemma FullOverlay(to: Option<Index>, from: Option<Index>, shards: nat, whole: Docs)
    requires to.Some? && Submap(to.value.docs, whole) && Holds(from, whole)
    ensures Overlay(to, from, whole.Keys, shards) == Some(Index(whole, to.value.shards))
  {
    assert to.value.docs + Portion(whole, whole.Keys) == whole;
  }

  lemma ReindexToDone(target: nat, c: Config, n: nat, whole: Docs)
    requires c.pc.StartReindex? && Holds(c.temp, whole) && c.source.Some? && Submap(c.source.value.docs, whole)
    requires n >= 6
    ensures RunScript(target, c, Truthful(n, whole)) == Config(Done, Some(Index(whole, c.source.value.shards)), None)
  {
    var ok := Honest(whole);
    FullOverlay(c.source, c.temp, target, whole);
    var c1 := Advance(target, c, ok);
    FullOverlay(c1.source, c1.temp, target, whole);
    var c2 := Advance(target, c1, ok);
    TruthfulRun(target, c, n, whole);
    TruthfulRun(target, c1, n - 1, whole);
    TruthfulRun(target, c2, n - 2, whole);
    VerifiedToDone(target, Advance(target, c2, ok), n - 3, whole);
  }

  lemma GuardToDone(target: nat, c: Config, n: nat, whole: Docs)
    requires c.pc.GuardProbe? && Holds(c.temp, whole) && (c.source.Some? ==> Submap(c.source.value.docs, whole))
    requires n >= 8
    ensures RunScript(target, c, Truthful(n, whole)) ==
            Config(Done, Some(Index(whole, if c.source.Some? then c.source.value.shards else target)), None)
  {
    var ok := Honest(whole);
    var c1 := Advance(target, c, ok);
    TruthfulRun(target, c, n, whole);
    if c.source.Some? {
      ReindexToDone(target, c1, n - 1, whole);
    } else {
      TruthfulRun(target, c1, n - 1, whole);
      ReindexToDone(target, Advance(target, c1, ok), n - 2, whole);
    }
  }

  lemma PrepareToVerify(target: nat, c: Config, n: nat, whole: Docs)
    requires c.pc.Prepare? && Holds(c.source, whole) && c.temp.None?
    requires n >= 4
    ensures RunScript(target, c, Truthful(n, whole)) ==
            RunScript(target, Config(CountCopy, c.source, Some(Index(whole, target))), Truthful(n - 4, whole))
  {
    var ok := Honest(whole);
    assert Portion(whole, whole.Keys) == whole;
    var c1 := Advance(target, c, ok);
    var c2 := Advance(target, c1, ok);
    var c3 := Advance(target, c2, ok);
    TruthfulRun(target, c, n, whole);
    TruthfulRun(target, c1, n - 1, whole);
    TruthfulRun(target, c2, n - 2, whole);
    TruthfulRun(target, c3, n - 3, whole);
  }

  /** From copying to the point where only the verified copy is left. */
  lemma PrepareToGuard(target: nat, c: Config, n: nat, whole: Docs)
    requires c.pc.Prepare? && Holds(c.source, whole) && c.temp.None?
    requires n >= 7
    ensures RunScript(target, c, Truthful(n, whole)) ==
            RunScript(target, Config(GuardProbe, None, Some(Index(whole, target))), Truthful(n - 7, whole))
  {
    var ok := Honest(whole);
    PrepareToVerify(target, c, n, whole);
    var c4 := Config(CountCopy, c.source, Some(Index(whole, target)));
    var c5 := Advance(target, c4, ok);
    var c6 := Advance(target, c5, ok);
    TruthfulRun(target, c4, n - 4, whole);
    TruthfulRun(target, c5, n - 5, whole);
    TruthfulRun(target, c6, n - 6, whole);
  }

  /** The guarantee is not vacuous: from every safe start, a faultless run with truthful probes
      resizes the source and cleans up, also when it resumes or finds a stale temporary index. */
  lemma HonestAttemptSucceeds(target: nat, source: Option<Index>, temp: Option<Index>, n: nat, whole: Docs)
    requires SafeStart(source, temp, whole) && n >= 18
    ensures RunScript(target, Start(source, temp), Truthful(n, whole)) == Config(Done, Some(Index(whole, target)), None)
  {
    var ok := Honest(whole);
    var c0 := Start(source, temp);
    var c1 := Advance(target, c0, ok);
    var c2 := Advance(target, c1, ok);
    var copied := Config(GuardProbe, None, Some(Index(whole, target)));
    TruthfulRun(target, c0, n, whole);
    TruthfulRun(target, c1, n - 1, whole);
    if source.None? {
      GuardToDone(target, c2, n - 2, whole);
    } else if temp.None? {
      PrepareToGuard(target, c2, n - 2, whole);
      GuardToDone(target, copied, n - 9, whole);
    } else {
      TruthfulRun(target, c2, n - 2, whole);
      PrepareToGuard(target, Advance(target, c2, ok), n - 3, whole);
      GuardToDone(target, copied, n - 10, whole);
    }
  }

  // ---------------------------------------------------------------- any number of attempts

  /** The life of one index name: answers to the attempt at hand, a reindex task that an earlier
      attempt left behind and that goes on writing documents into the source at any time, and a new
      attempt with its own target, which may come at any point (the process was killed). */
  datatype Event = Await(answer: Answer) | LeftBehind(docs: Docs) | Restart(target: nat)

  datatype Life = Life(target: nat, config: Config)

  /** A write to a missing index creates it, with whatever shards. */
  function Written(to: Option<Index>, docs: Docs): Option<Index> {
    if to.None? then Some(Index(docs, 1)) else Some(to.value.(docs := to.value.docs + docs))
  }

  function React(l: Life, e: Event): Life {
    match e
    case Await(a) => l.(config := Advance(l.target, l.config, a))
    case LeftBehind(docs) => l.(config := l.config.(source := Written(l.config.source, docs)))
    case Restart(target) => Life(target, Start(l.config.source, l.config.temp))
  }

  function Live(l: Life, es: seq<Event>): Life
    decreases |es|
  {
    if es == [] then l else Live(React(l, es[0]), es[1..])
  }

  predicate SourceIncomplete(c: Config, whole: Docs) { c.source.Some? && c.source.value.docs != whole }

  /** What two counts show: both indices exist, and the source has fewer documents. */
  predicate CountsShort(c: Config) {
    c.source.Some? && c.temp.Some? && |c.source.value.docs| < |c.temp.value.docs|
  }

  /** Without knowing the original, the two counts tell an incomplete source, at every step of every
      history that kept the invariant. */
  lemma CountsTellIncomplete(c: Config, whole: Docs)
    requires Inv(c, whole)
    ensures SourceIncomplete(c, whole) <==> CountsShort(c)
  {
    if c.source.Some? { SmallerMap(c.source.value.docs, whole); }
    if c.temp.Some? { SmallerMap(c.temp.value.docs, whole); }
  }

  predicate Probing(pc: Pc) { pc.ProbeSource? || pc.ProbeTemp? }

  /** A left-behind task writes documents of the original, and does not bring a missing source back
      while an attempt looks for it. */
  predicate Harmless(c: Config, docs: Docs, whole: Docs) {
    Submap(docs, whole) && (Probing(c.pc) ==> c.source.Some?)
  }

  /** No new attempt begins while the source counts fewer documents than the temporary index. */
  predicate CleanRestarts(l: Life, es: seq<Event>, whole: Docs)
    decreases |es|
  {
    es == [] ||
    (&& (es[0].Restart? ==> !CountsShort(l.config))
     && (es[0].LeftBehind? ==> Harmless(l.config, es[0].docs, whole))
     && CleanRestarts(React(l, es[0]), es[1..], whole))
  }

  lemma WrittenStays(to: Option<Index>, docs: Docs, whole: Docs)
    requires Within(to, whole) && Submap(docs, whole)
    ensures Within(Written(to, docs), whole) && (Holds(to, whole) ==> Holds(Written(to, docs), whole))
    ensures to.Some? ==> |to.value.docs| <= |Written(to, docs).value.docs|
  {
    if to.Some? {
      if Holds(to, whole) { assert to.value.docs + docs == whole; }
      SmallerMap(to.value.docs, to.value.docs + docs);
    }
  }

  /** Writing any part of the original into the source keeps the invariant, wherever the attempt at
      hand stands. */
  lemma LeftBehindKeepsInv(l: Life, docs: Docs, whole: Docs)
    requires Inv(l.config, whole) && Harmless(l.config, docs, whole)
    ensures Inv(React(l, LeftBehind(docs)).config, whole)
  {
    WrittenStays(l.config.source, docs, whole);
  }

  lemma {:induction false} LifeKeepsInv(l: Life, es: seq<Event>, whole: Docs)
    requires Inv(l.config, whole) && CleanRestarts(l, es, whole)
    ensures Inv(Live(l, es).config, whole)
    decreases |es|
  {
    if es != [] {
      match es[0] {
        case Await(a) => AdvanceKeepsInv(l.target, l.config, a, whole);
        case LeftBehind(docs) => LeftBehindKeepsInv(l, docs, whole);
        case Restart(_) => CountsTellIncomplete(l.config, whole);
      }
      LifeKeepsInv(React(l, es[0]), es[1..], whole);
    }
  }

  /** The proviso on missing sources is needed: a task that brings back a part of the source just as an
      attempt is about to resume makes the attempt delete the only full copy. */
  lemma LateCreationLoses(target: nat, tempShards: nat, whole: Docs)
    requires whole != map[]
    ensures var l := Life(target, Start(None, Some(Index(whole, tempShards))));
            exists script ::
              && (forall i :: 0 <= i < |script| ==> script[i] == Honest(whole))
              && !Whole(Live(l, [LeftBehind(map[])] + Awaits(script)).config, whole)
  {
    var l := Life(target, Start(None, Some(Index(whole, tempShards))));
    var script := Truthful(3, whole);
    var created := React(l, LeftBehind(map[]));
    TruthfulSees(3, whole);
    assert ([LeftBehind(map[])] + Awaits(script))[1..] == Awaits(script);
    assert Awaits(script) + [] == Awaits(script);
    LiveAwaits(created, script, []);
    IncompleteSourceLoses(target, created.config.source, created.config.temp, whole);
  }

  /** Any number of failed attempts and re-runs: the documents survive at every step as long as
      no attempt begins on a source that counts short. */
  lemma ManyAttemptsSafe(target: nat, source: Option<Index>, temp: Option<Index>, es: seq<Event>, whole: Docs)
    requires SafeStart(source, temp, whole)
    requires CleanRestarts(Life(target, Start(source, temp)), es, whole)
    ensures Whole(Live(Life(target, Start(source, temp)), es).config, whole)
  {
    LifeKeepsInv(Life(target, Start(source, temp)), es, whole);
  }

  /** The side condition is exact: after any history that kept the invariant, one more attempt is
      safe whatever happens exactly when the source does not count short. */
  lemma RestartSafeIff(target: nat, c: Config, whole: Docs)
    requires Inv(c, whole)
    ensures (forall script :: Whole(RunScript(target, Start(c.source, c.temp), script), whole)) <==> !CountsShort(c)
  {
    OneAttemptSafeIff(target, c.source, c.temp, whole);
    CountsTellIncomplete(c, whole);
  }

  function Awaits(script: seq<Answer>): seq<Event>
    decreases |script|
  {
    if script == [] then [] else [Await(script[0])] + Awaits(script[1..])
  }

  lemma {:induction false} LiveAwaits(l: Life, script: seq<Answer>, es: seq<Event>)
    ensures Live(l, Awaits(script) + es) == Live(l.(config := RunScript(l.target, l.config, script)), es)
    decreases |script|
  {
    if script == [] {
      assert Awaits(script) + es == es;
    } else {
      var l' := React(l, Await(script[0]));
      assert (Awaits(script) + es)[1..] == Awaits(script[1..]) + es;
      LiveAwaits(l', script[1..], es);
    }
  }

  /** The process dies right after the source was recreated, and the job is run again. */
  function CrashThenRerun(target: nat, n: nat, whole: Docs): seq<Event> {
    Awaits(Truthful(n, whole)) +
    (Awaits([Answer(true, true, true, {})]) + ([Restart(target)] + (Awaits(Truthful(3, whole)) + [])))
  }

  lemma CrashThenRerunLoses(target: nat, shards: nat, n: nat, whole: Docs)
    requires whole != map[] && n == 10
    ensures var l := Life(target, Start(Some(Index(whole, shards)), None));
            !Whole(Live(l, CrashThenRerun(target, n, whole)).config, whole)
  {
    var crash := Answer(true, true, true, {});
    var full := Some(Index(whole, target));
    var l := Life(target, Start(Some(Index(whole, shards)), None));
    var recreated := Life(target, Config(CreateSource, None, full));
    var died := Life(target, Config(Stopped, Some(Index(map[], target)), full));
    var rerun := Awaits(Truthful(3, whole)) + [];
    CopyThenDrop(target, l.config, n, whole);
    LiveAwaits(l, Truthful(n, whole), Awaits([crash]) + ([Restart(target)] + rerun));
    RunSteps(target, recreated.config, crash, []);
    assert [crash] + [] == [crash];
    LiveAwaits(recreated, [crash], [Restart(target)] + rerun);
    assert ([Restart(target)] + rerun)[1..] == rerun;
    var again := Life(target, Start(died.config.source, died.config.temp));
    LiveAwaits(again, Truthful(3, whole), []);
    IncompleteSourceLoses(target, died.config.source, died.config.temp, whole);
  }

  /** The bad state is reachable: every probe tells the truth, only the last answer of the first
      attempt is a fault, and still the re-run destroys the only full copy. */
  lemma CrashAfterRecreateLoses(target: nat, shards: nat, whole: Docs)
    requires whole != map[]
    ensures exists es: seq<Event> ::
              && (forall i :: 0 <= i < |es| && es[i].Await? ==> es[i].answer.sees)
              && !Whole(Live(Life(target, Start(Some(Index(whole, shards)), None)), es).config, whole)
  {
    var n := 10;
    var es := CrashThenRerun(target, n, whole);
    AwaitsSee(Truthful(n, whole));
    AwaitsSee([Answer(true, true, true, {})]);
    AwaitsSee(Truthful(3, whole));
    TruthfulSees(n, whole);
    TruthfulSees(3, whole);
    assert forall i :: 0 <= i < |es| && es[i].Await? ==> es[i].answer.sees;
    CrashThenRerunLoses(target, shards, n, whole);
  }

  lemma CopyThenDrop(target: nat, c: Config, n: nat, whole: Docs)
    requires c.pc.ProbeSource? && Holds(c.source, whole) && c.temp.None? && n == 10
    ensures RunScript(target, c, Truthful(n, whole)) == Config(CreateSource, None, Some(Index(whole, target)))
  {
    var c1 := Advance(target, c, Honest(whole));
    var copied := Config(GuardProbe, None, Some(Index(whole, target)));
    TruthfulRun(target, c, n, whole);
    TruthfulRun(target, c1, n - 1, whole);
    PrepareToGuard(target, Advance(target, c1, Honest(whole)), n - 2, whole);
    TruthfulRun(target, copied, n - 9, whole);
  }

  lemma {:induction false} AwaitsSee(script: seq<Answer>)
    ensures |Awaits(script)| == |script|
    ensures forall i :: 0 <= i < |script| ==> Awaits(script)[i] == Await(script[i])
    decreases |script|
  {
    if script != [] { AwaitsSee(script[1..]); }
  }

  lemma {:induction false} TruthfulSees(n: nat, whole: Docs)
    ensures |Truthful(n, whole)| == n && forall i :: 0 <= i < n ==> Truthful(n, whole)[i] == Honest(whole)
  {
    if n > 0 { TruthfulSees(n - 1, whole); }
  }
}
