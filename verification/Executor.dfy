/**
 The resize executors as they run: one request after another against a cluster whose indices they
 change in place, proved against the protocol.
 */
module Executor {
  import opened Options
  import opened Names
  import opened ResizeProtocol
  import ResizeSafety
  import ShardFactors

  /** No index but `a` and `b` differs. */
  ghost predicate SameExcept(before: map<string, Index>, after: map<string, Index>, a: string, b: string) {
    forall n :: n != a && n != b ==> (n in before <==> n in after) && (n in before ==> before[n] == after[n])
  }

  /** The cluster seen through its client: each request takes the next answer of the script and
      returns `ok == false` when the await raised, was cancelled, or never came back. */
  class Elasticsearch {
    var indices: map<string, Index>
    var answers: seq<Answer>

    constructor (indices: map<string, Index>, answers: seq<Answer>)
      ensures this.indices == indices && this.answers == answers
    {
      this.indices, this.answers := indices, answers;
    }

    ghost function Find(name: string): Option<Index>
      reads this
    {
      if name in indices then Some(indices[name]) else None
    }

    /** A request that touches no document: settings, health, node table. */
    method Settle() returns (ok: bool)
      modifies this`answers
      ensures if old(answers) == [] then !ok && answers == []
              else answers == old(answers)[1..] && ok == !old(answers)[0].fault
    {
      if answers == [] { return false; }
      ok, answers := !answers[0].fault, answers[1..];
    }

    method Exists(name: string) returns (ok: bool, seen: bool)
      modifies this`answers
      ensures if old(answers) == [] then !ok && answers == []
              else && answers == old(answers)[1..] && ok == !old(answers)[0].fault
                   && seen == (old(answers)[0].sees && Find(name).Some?)
    {
      seen := answers != [] && answers[0].sees && name in indices;
      ok := Settle();
    }

    method Count(name: string) returns (ok: bool, count: nat)
      modifies this`answers
      ensures if old(answers) == [] then !ok && answers == []
              else && answers == old(answers)[1..] && ok == (!old(answers)[0].fault && Find(name).Some?)
                   && (ok ==> count == |Find(name).value.docs|)
    {
      count := if name in indices then |indices[name].docs| else 0;
      ok := Settle();
      ok := ok && name in indices;
    }

    method DeleteIndex(name: string) returns (ok: bool)
      modifies this
      ensures if old(answers) == [] then !ok && answers == [] && indices == old(indices)
              else && answers == old(answers)[1..] && ok == (!old(answers)[0].fault && name in old(indices))
                   && indices == if old(answers)[0].fault && !old(answers)[0].applied then old(indices)
                                 else old(indices) - {name}
    {
      if answers == [] { return false; }
      var a := answers[0];
      ok, answers := !a.fault && name in indices, answers[1..];
      if !a.fault || a.applied { indices := indices - {name}; }
    }

    /** `_split` and `_shrink`: a new index with some of the source's documents. */
    method CopyIndex(source: string, target: string, shards: nat) returns (ok: bool)
      modifies this
      ensures if old(answers) == [] then !ok && answers == [] && indices == old(indices)
              else && answers == old(answers)[1..]
                   && var a := old(answers)[0];
                      if source !in old(indices) || target in old(indices) || (a.fault && !a.applied)
                      then !ok && indices == old(indices)
                      else && ok == !a.fault
                           && var copy := Index(Portion(old(indices)[source].docs, a.portion), shards);
                              indices == old(indices)[target := copy]
    {
      if answers == [] { return false; }
      var a := answers[0];
      answers := answers[1..];
      if source !in indices || target in indices || (a.fault && !a.applied) { return false; }
      indices := indices[target := Index(Portion(indices[source].docs, a.portion), shards)];
      ok := !a.fault;
    }

    method CreateIndex(name: string, shards: nat) returns (ok: bool)
      modifies this
      ensures if old(answers) == [] then !ok && answers == [] && indices == old(indices)
              else && answers == old(answers)[1..]
                   && var a := old(answers)[0];
                      if name in old(indices) || (a.fault && !a.applied) then !ok && indices == old(indices)
                      else ok == !a.fault && indices == old(indices)[name := Index(map[], shards)]
    {
      if answers == [] { return false; }
      var a := answers[0];
      answers := answers[1..];
      if name in indices || (a.fault && !a.applied) { return false; }
      indices := indices[name := Index(map[], shards)];
      ok := !a.fault;
    }

    /** What a reindex task has written to `dest` by now. */
    method CarryOver(source: string, dest: string, shards: nat, portion: set<string>)
      modifies this`indices
      ensures Find(dest) == Overlay(old(Find(dest)), old(Find(source)), portion, shards)
      ensures SameExcept(old(indices), indices, dest, dest)
    {
      if source in indices {
        var carried := Portion(indices[source].docs, portion);
        indices := indices[dest := if dest in indices then indices[dest].(docs := indices[dest].docs + carried)
                                   else Index(carried, shards)];
      }
    }

    method StartReindex(source: string, dest: string, shards: nat) returns (ok: bool)
      requires source != dest
      modifies this
      ensures SameExcept(old(indices), indices, dest, dest)
      ensures if old(answers) == [] then !ok && answers == [] && Find(dest) == old(Find(dest))
              else && answers == old(answers)[1..]
                   && var a := old(answers)[0];
                      if old(Find(source)).None? || (a.fault && !a.applied) then !ok && Find(dest) == old(Find(dest))
                      else && ok == !a.fault
                           && Find(dest) == Overlay(old(Find(dest)), old(Find(source)), a.portion, shards)
    {
      if answers == [] { return false; }
      var a := answers[0];
      answers := answers[1..];
      if source !in indices || (a.fault && !a.applied) { return false; }
      CarryOver(source, dest, shards, a.portion);
      ok := !a.fault;
    }

    /** One look at the reindex task, which goes on copying whether or not the answer arrives. */
    method GetTask(source: string, dest: string, shards: nat) returns (ok: bool, completed: bool)
      requires source != dest
      modifies this
      ensures SameExcept(old(indices), indices, dest, dest)
      ensures if old(answers) == [] then !ok && answers == [] && Find(dest) == old(Find(dest))
              else && answers == old(answers)[1..]
                   && var a := old(answers)[0];
                      ok == !a.fault && completed == a.sees
                      && Find(dest) == Overlay(old(Find(dest)), old(Find(source)), a.portion, shards)
    {
      if answers == [] { return false, false; }
      var a := answers[0];
      answers := answers[1..];
      CarryOver(source, dest, shards, a.portion);
      ok, completed := !a.fault, a.sees;
    }
  }

  /** What a caller can tell about a configuration once the attempt is over. */
  ghost predicate EndsAs(end: Config, source: Option<Index>, temp: Option<Index>, done: bool) {
    end.source == source && end.temp == temp && end.pc.Done? == done
  }

  lemma {:induction false} Absorbed(target: nat, c: Config, script: seq<Answer>)
    requires c.pc.Done? || c.pc.Stopped?
    ensures RunScript(target, c, script) == c
    decreases |script|
  {
    if script != [] { Absorbed(target, c, script[1..]); }
  }

  /** The protocol after the next answer; a killed process stays where it is. */
  ghost function Next(target: nat, c: Config, script: seq<Answer>): Config {
    if script == [] then c else Advance(target, c, script[0])
  }

  lemma NextRuns(target: nat, c: Config, script: seq<Answer>)
    ensures RunScript(target, c, script) ==
            RunScript(target, Next(target, c, script), if script == [] then [] else script[1..])
  {}

  /** The guarded copy: write block, copy, wait, and scaffolding taken down again. */
  method CopySource(es: Elasticsearch, source: string, temp: string, target: nat) returns (copied: bool)
    requires source != temp
    modifies es
    ensures SameExcept(old(es.indices), es.indices, source, temp)
    ensures var end := RunScript(target, Config(Prepare, old(es.Find(source)), old(es.Find(temp))), old(es.answers));
            if copied then end == RunScript(target, Config(CountCopy, es.Find(source), es.Find(temp)), es.answers)
            else EndsAs(end, es.Find(source), es.Find(temp), false)
  {
    ghost var c := Config(Prepare, es.Find(source), es.Find(temp));
    NextRuns(target, c, es.answers);
    c := Next(target, c, es.answers);
    var ok := es.Settle();
    if ok {
      NextRuns(target, c, es.answers);
      c := Next(target, c, es.answers);
      ok := es.CopyIndex(source, temp, target);
      assert c.source == es.Find(source) && c.temp == es.Find(temp);
      if ok {
        NextRuns(target, c, es.answers);
        c := Next(target, c, es.answers);
        ok := es.Settle();
      }
    }
    NextRuns(target, c, es.answers);
    c := Next(target, c, es.answers);
    copied := es.Settle();
    copied := copied && ok;
    if c.pc.Stopped? { Absorbed(target, c, es.answers); }
  }

  /** Recreate the source unless it is seen to exist, and start the reindex task. */
  method RecreateSource(es: Elasticsearch, source: string, temp: string, target: nat) returns (ok: bool)
    requires source != temp
    modifies es
    ensures SameExcept(old(es.indices), es.indices, source, temp)
    ensures var end := RunScript(target, Config(GuardProbe, old(es.Find(source)), old(es.Find(temp))), old(es.answers));
            if ok then end == RunScript(target, Config(StartReindex, es.Find(source), es.Find(temp)), es.answers)
            else EndsAs(end, es.Find(source), es.Find(temp), false)
  {
    ghost var c := Config(GuardProbe, es.Find(source), es.Find(temp));
    NextRuns(target, c, es.answers);
    c := Next(target, c, es.answers);
    var present;
    ok, present := es.Exists(source);
    if ok && !present {
      NextRuns(target, c, es.answers);
      c := Next(target, c, es.answers);
      ok := es.CreateIndex(source, target);
    }
    if c.pc.Stopped? { Absorbed(target, c, es.answers); }
  }

  /** Recreate the source, reindex the temporary index back into it, verify, drop the temporary. */
  method ReindexTempIntoSource(es: Elasticsearch, source: string, temp: string, target: nat) returns (done: bool)
    requires source != temp
    modifies es
    ensures SameExcept(old(es.indices), es.indices, source, temp)
    ensures EndsAs(RunScript(target, Config(GuardProbe, old(es.Find(source)), old(es.Find(temp))), old(es.answers)),
                   es.Find(source), es.Find(temp), done)
  {
    var ok := RecreateSource(es, source, temp, target);
    if !ok { return false; }
    ghost var c := Config(StartReindex, es.Find(source), es.Find(temp));
    NextRuns(target, c, es.answers);
    c := Next(target, c, es.answers);
    ok := es.StartReindex(temp, source, target);
    if !ok {
      if c.pc.Stopped? { Absorbed(target, c, es.answers); }
      return false;
    }
    ok := PollReindex(es, source, temp, target);
    if !ok { return false; }
    done := VerifyReplacement(es, source, temp, target);
  }

  /** The polling loop looks only at whether the task is reported complete, not at how it ended. */
  method PollReindex(es: Elasticsearch, source: string, temp: string, target: nat) returns (ok: bool)
    requires source != temp
    modifies es
    ensures SameExcept(old(es.indices), es.indices, source, temp)
    ensures var end := RunScript(target, Config(Poll, old(es.Find(source)), old(es.Find(temp))), old(es.answers));
            if ok then end == RunScript(target, Config(AwaitReplacement, es.Find(source), es.Find(temp)), es.answers)
            else EndsAs(end, es.Find(source), es.Find(temp), false)
  {
    ghost var c0 := Config(Poll, es.Find(source), es.Find(temp));
    ghost var start := es.answers;
    while true
      invariant SameExcept(old(es.indices), es.indices, source, temp)
      invariant RunScript(target, c0, start)
                == RunScript(target, Config(Poll, es.Find(source), es.Find(temp)), es.answers)
      decreases |es.answers|
    {
      ghost var c := Config(Poll, es.Find(source), es.Find(temp));
      NextRuns(target, c, es.answers);
      c := Next(target, c, es.answers);
      var completed;
      ok, completed := es.GetTask(temp, source, target);
      if !ok {
        if c.pc.Stopped? { Absorbed(target, c, es.answers); }
        return;
      }
      if completed { return; }
    }
  }

  method VerifyReplacement(es: Elasticsearch, source: string, temp: string, target: nat) returns (done: bool)
    requires source != temp
    modifies es
    ensures SameExcept(old(es.indices), es.indices, source, temp)
    ensures EndsAs(RunScript(target, Config(AwaitReplacement, old(es.Find(source)), old(es.Find(temp))),
                             old(es.answers)),
                   es.Find(source), es.Find(temp), done)
  {
    var same := CountsAgree(es, source, temp, target);
    if !same { return false; }
    ghost var c := Config(DropTemp, es.Find(source), es.Find(temp));
    NextRuns(target, c, es.answers);
    c := Next(target, c, es.answers);
    done := es.DeleteIndex(temp);
    if c.pc.Stopped? || c.pc.Done? { Absorbed(target, c, es.answers); }
  }

  method CountsAgree(es: Elasticsearch, source: string, temp: string, target: nat) returns (same: bool)
    requires source != temp
    modifies es`answers
    ensures var end := RunScript(target, Config(AwaitReplacement, old(es.Find(source)), old(es.Find(temp))),
                                 old(es.answers));
            if same then end == RunScript(target, Config(DropTemp, es.Find(source), es.Find(temp)), es.answers)
            else EndsAs(end, es.Find(source), es.Find(temp), false)
  {
    ghost var c := Config(AwaitReplacement, es.Find(source), es.Find(temp));
    NextRuns(target, c, es.answers);
    c := Next(target, c, es.answers);
    same := es.Settle();
    if same {
      var replacementCount, tempCount;
      NextRuns(target, c, es.answers);
      c := Next(target, c, es.answers);
      same, replacementCount := es.Count(source);
      if same {
        NextRuns(target, c, es.answers);
        c := Next(target, c, es.answers);
        same, tempCount := es.Count(temp);
        same := same && replacementCount == tempCount;
      }
    }
    if c.pc.Stopped? { Absorbed(target, c, es.answers); }
  }

  /** Compare the copy with the original; only a copy of equal size replaces it. */
  method VerifyThenReplace(es: Elasticsearch, source: string, temp: string, target: nat) returns (done: bool)
    requires source != temp
    modifies es
    ensures SameExcept(old(es.indices), es.indices, source, temp)
    ensures EndsAs(RunScript(target, Config(CountCopy, old(es.Find(source)), old(es.Find(temp))), old(es.answers)),
                   es.Find(source), es.Find(temp), done)
  {
    ghost var c := Config(CountCopy, es.Find(source), es.Find(temp));
    NextRuns(target, c, es.answers);
    c := Next(target, c, es.answers);
    var sourceCount;
    var ok, tempCount := es.Count(temp);
    if ok {
      NextRuns(target, c, es.answers);
      c := Next(target, c, es.answers);
      ok, sourceCount := es.Count(source);
      if ok {
        NextRuns(target, c, es.answers);
        c := Next(target, c, es.answers);
        if tempCount != sourceCount {
          ok := es.DeleteIndex(temp);
          ok := false;
        } else {
          ok := es.DeleteIndex(source);
        }
      }
    }
    if !ok {
      if c.pc.Stopped? { Absorbed(target, c, es.answers); }
      return false;
    }
    done := ReindexTempIntoSource(es, source, temp, target);
  }

  /** The shard count a finished attempt leaves: the target, unless the first probe (answered by `first`)
      missed an existing source. */
  function FinalShards(before: Option<Index>, first: Answer, target: nat): nat {
    if first.sees || before.None? then target else before.value.shards
  }

  /** The whole attempt, resume guard first. Whatever the cluster answers and wherever the script
      ends, the indices are left exactly as the protocol says, so a safe start keeps every document
      and success means a complete source; no other index is touched. */
  method ResizeInPlace(es: Elasticsearch, source: string, target: nat) returns (done: bool)
    modifies es
    ensures SameExcept(old(es.indices), es.indices, source, source + RESIZE_SUFFIX)
    ensures EndsAs(RunScript(target, Start(old(es.Find(source)), old(es.Find(source + RESIZE_SUFFIX))),
                             old(es.answers)),
                   es.Find(source), es.Find(source + RESIZE_SUFFIX), done)
    ensures done ==> && old(es.answers) != [] && es.Find(source).Some?
                     && es.Find(source).value.shards == FinalShards(old(es.Find(source)), old(es.answers)[0], target)
    ensures forall whole :: SafeStart(old(es.Find(source)), old(es.Find(source + RESIZE_SUFFIX)), whole) ==>
              && (Holds(es.Find(source), whole) || Holds(es.Find(source + RESIZE_SUFFIX), whole))
              && (done ==> Holds(es.Find(source), whole) && es.Find(source + RESIZE_SUFFIX).None?)
  {
    var temp := source + RESIZE_SUFFIX;
    assert |temp| > |source|;
    done := AttemptResize(es, source, temp, target);
    if done { ResizeSafety.SuccessIsResized(target, old(es.Find(source)), old(es.Find(temp)), old(es.answers)); }
    forall whole | SafeStart(old(es.Find(source)), old(es.Find(temp)), whole)
      ensures Holds(es.Find(source), whole) || Holds(es.Find(temp), whole)
      ensures done ==> Holds(es.Find(source), whole) && es.Find(temp).None?
    {
      RunKeepsInv(target, Start(old(es.Find(source)), old(es.Find(temp))), old(es.answers), whole);
    }
  }

  method AttemptResize(es: Elasticsearch, source: string, temp: string, target: nat) returns (done: bool)
    requires source != temp
    modifies es
    ensures SameExcept(old(es.indices), es.indices, source, temp)
    ensures EndsAs(RunScript(target, Start(old(es.Find(source)), old(es.Find(temp))), old(es.answers)),
                   es.Find(source), es.Find(temp), done)
  {
    ghost var c := Start(es.Find(source), es.Find(temp));
    NextRuns(target, c, es.answers);
    c := Next(target, c, es.answers);
    var tempSeen;
    var ok, sourceSeen := es.Exists(source);
    if ok {
      NextRuns(target, c, es.answers);
      c := Next(target, c, es.answers);
      ok, tempSeen := es.Exists(temp);
      if ok && !sourceSeen && tempSeen {
        done := ReindexTempIntoSource(es, source, temp, target);
        return;
      }
      ok := ok && sourceSeen;
      if ok && tempSeen {
        NextRuns(target, c, es.answers);
        c := Next(target, c, es.answers);
        ok := es.DeleteIndex(temp);
      }
    }
    if !ok {
      if c.pc.Stopped? { Absorbed(target, c, es.answers); }
      return false;
    }
    var copied := CopySource(es, source, temp, target);
    if !copied { return false; }
    done := VerifyThenReplace(es, source, temp, target);
  }

  /** The fields of a job row that the resize executors read and write. */
  class ResizeJob {
    const index: string
    const currentShards: nat
    var targetShards: int

    constructor (index: string, currentShards: nat, targetShards: int)
      ensures this.index == index && this.currentShards == currentShards && this.targetShards == targetShards
    {
      this.index, this.currentShards, this.targetShards := index, currentShards, targetShards;
    }
  }

  /** The attempt was carried out as the protocol says, on the answers that came; honest answers and
      a safe start finish it. */
  ghost predicate CarriedOut(target: nat, source: Option<Index>, temp: Option<Index>, answers: seq<Answer>,
                             newSource: Option<Index>, newTemp: Option<Index>, done: bool) {
    && EndsAs(RunScript(target, Start(source, temp), answers), newSource, newTemp, done)
    && forall whole, n ::
         SafeStart(source, temp, whole) && n >= 18 && answers == ResizeSafety.Truthful(n, whole) ==>
         done && newSource == Some(Index(whole, target)) && newTemp == None
  }

  lemma HonestIsCarriedOut(target: nat, source: Option<Index>, temp: Option<Index>, answers: seq<Answer>,
                           newSource: Option<Index>, newTemp: Option<Index>, done: bool)
    requires EndsAs(RunScript(target, Start(source, temp), answers), newSource, newTemp, done)
    ensures CarriedOut(target, source, temp, answers, newSource, newTemp, done)
  {
    forall whole, n | SafeStart(source, temp, whole) && n >= 18 && answers == ResizeSafety.Truthful(n, whole)
      ensures done && newSource == Some(Index(whole, target)) && newTemp == None
    {
      ResizeSafety.HonestAttemptSucceeds(target, source, temp, n, whole);
    }
  }

  /** Shrink in place. A refused request sends nothing to the cluster, any other is carried out with the
      snapped divisor; only a finished one rewrites the job's target to it. */
  method ExecuteReduceShards(es: Elasticsearch, job: ResizeJob) returns (done: bool)
    requires (job as object) != es
    modifies es, job
    ensures job.currentShards <= 1 || old(job.targetShards) >= job.currentShards
            ==> !done && es.indices == old(es.indices) && es.answers == old(es.answers)
    ensures job.currentShards > 1 && old(job.targetShards) < job.currentShards
            ==> CarriedOut(ShardFactors.LargestFactor(job.currentShards, old(job.targetShards)),
                           old(es.Find(job.index)), old(es.Find(job.index + RESIZE_SUFFIX)), old(es.answers),
                           es.Find(job.index), es.Find(job.index + RESIZE_SUFFIX), done)
    ensures done ==> && job.targetShards == ShardFactors.LargestFactor(job.currentShards, old(job.targetShards))
                     && 1 <= job.targetShards < job.currentShards
    ensures done ==> && old(es.answers) != [] && es.Find(job.index).Some?
                     && es.Find(job.index).value.shards
                        == FinalShards(old(es.Find(job.index)), old(es.answers)[0], job.targetShards)
    ensures !done ==> job.targetShards == old(job.targetShards)
    ensures SameExcept(old(es.indices), es.indices, job.index, job.index + RESIZE_SUFFIX)
    ensures forall whole :: SafeStart(old(es.Find(job.index)), old(es.Find(job.index + RESIZE_SUFFIX)), whole) ==>
              && (Holds(es.Find(job.index), whole) || Holds(es.Find(job.index + RESIZE_SUFFIX), whole))
              && (done ==> Holds(es.Find(job.index), whole) && es.Find(job.index + RESIZE_SUFFIX).None?)
  {
    var current := job.currentShards;
    if current <= 1 || job.targetShards >= current { return false; }
    ghost var source, temp := es.Find(job.index), es.Find(job.index + RESIZE_SUFFIX);
    var target := ShardFactors.LargestFactorLe(current, job.targetShards);
    ShardFactors.LargestFactorIsGreatestDivisor(current, job.targetShards);
    if target >= current || target < 1 { return false; }
    done := ResizeInPlace(es, job.index, target);
    HonestIsCarriedOut(target, source, temp, old(es.answers), es.Find(job.index), es.Find(job.index + RESIZE_SUFFIX),
                       done);
    if done { job.targetShards := target; }
  }

  /** Split in place, with the request raised to the next multiple of the current count. */
  method ExecuteSplitShards(es: Elasticsearch, job: ResizeJob) returns (done: bool)
    requires (job as object) != es
    modifies es, job
    ensures job.currentShards == 0 || old(job.targetShards) <= job.currentShards
            ==> !done && es.indices == old(es.indices) && es.answers == old(es.answers)
    ensures job.currentShards > 0 && old(job.targetShards) > job.currentShards
            ==> CarriedOut(ShardFactors.SmallestMultiple(job.currentShards, old(job.targetShards)),
                           old(es.Find(job.index)), old(es.Find(job.index + RESIZE_SUFFIX)), old(es.answers),
                           es.Find(job.index), es.Find(job.index + RESIZE_SUFFIX), done)
    ensures done ==> && job.currentShards > 0 && job.targetShards > job.currentShards
                     && job.targetShards == ShardFactors.SmallestMultiple(job.currentShards, old(job.targetShards))
    ensures done ==> && old(es.answers) != [] && es.Find(job.index).Some?
                     && es.Find(job.index).value.shards
                        == FinalShards(old(es.Find(job.index)), old(es.answers)[0], job.targetShards)
    ensures !done ==> job.targetShards == old(job.targetShards)
    ensures SameExcept(old(es.indices), es.indices, job.index, job.index + RESIZE_SUFFIX)
    ensures forall whole :: SafeStart(old(es.Find(job.index)), old(es.Find(job.index + RESIZE_SUFFIX)), whole) ==>
              && (Holds(es.Find(job.index), whole) || Holds(es.Find(job.index + RESIZE_SUFFIX), whole))
              && (done ==> Holds(es.Find(job.index), whole) && es.Find(job.index + RESIZE_SUFFIX).None?)
  {
    var current := job.currentShards;
    if current == 0 { return false; }  // dividing by the current count raises
    var target := ShardFactors.SmallestMultiple(current, job.targetShards);
    if target <= current { return false; }
    ghost var source, temp := es.Find(job.index), es.Find(job.index + RESIZE_SUFFIX);
    done := ResizeInPlace(es, job.index, target);
    HonestIsCarriedOut(target, source, temp, old(es.answers), es.Find(job.index), es.Find(job.index + RESIZE_SUFFIX),
                       done);
    if done { job.targetShards := target; }
  }
}
