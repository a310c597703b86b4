/**
 The in-place resize of an Elasticsearch index as a protocol: copy to a temporary index, verify,
 delete the original, recreate it, reindex back, verify, delete the temporary index.

 One step of the protocol is one awaited request. The environment is a script of answers: what a
 probe gets to see, which documents a copy or a reindex carries over, whether a request fails,
 and whether a failed request took effect anyway. A script that runs out is a killed process, so
 "at every step" and "for every script" say the same thing.
 */
module ResizeProtocol {
  import opened Options

  type Docs = map<string, string>

  datatype Index = Index(docs: Docs, shards: nat)

  /** The environment's answer to one awaited request.
      `fault`: the await raises or is cancelled; `applied`: a faulting request took effect anyway.
      `sees`: a probe may report an existing index, a polled task is reported complete.
      `portion`: the document ids a copy or a reindex has carried over by then. */
  datatype Answer = Answer(fault: bool, applied: bool, sees: bool, portion: set<string>)

  /** Where the executor stands: the request it is about to await. */
  datatype Pc =
    | ProbeSource
    | ProbeTemp(sourceSeen: bool)
    | DropStale
    | Prepare
    | Copy
    | AwaitCopy
    | Restore(copied: bool)
    | CountCopy
    | CountOriginal(copyCount: nat)
    | DropBadCopy
    | DropSource
    | GuardProbe
    | CreateSource
    | StartReindex
    | Poll
    | AwaitReplacement
    | CountReplacement
    | CountTemp(replacementCount: nat)
    | DropTemp
    | Done
    | Stopped

  datatype Config = Config(pc: Pc, source: Option<Index>, temp: Option<Index>)

  function Portion(docs: Docs, keys: set<string>): Docs {
    map k | k in docs && k in keys :: docs[k]
  }

  /** Reindexing part of `from` into `to`; a missing destination is created on the fly. */
  function Overlay(to: Option<Index>, from: Option<Index>, keys: set<string>, shards: nat): Option<Index> {
    if from.None? then to
    else if to.None? then Some(Index(Portion(from.value.docs, keys), shards))
    else Some(to.value.(docs := to.value.docs + Portion(from.value.docs, keys)))
  }

  function Goto(c: Config, pc: Pc): Config { c.(pc := pc) }

  /** One awaited request of the executor, answered by `a`. */
  function Advance(target: nat, c: Config, a: Answer): Config {
    match c.pc
    case ProbeSource =>
      if a.fault then Goto(c, Stopped) else Goto(c, ProbeTemp(a.sees && c.source.Some?))
    case ProbeTemp(sourceSeen) =>
      if a.fault then Goto(c, Stopped)
      else
        var tempSeen := a.sees && c.temp.Some?;
        if sourceSeen then Goto(c, if tempSeen then DropStale else Prepare)
        else Goto(c, if tempSeen then GuardProbe else Stopped)
    case DropStale => Deleting(c, a, false, Prepare)
    case Prepare => Goto(c, if a.fault then Restore(false) else Copy)
    case Copy =>
      if c.source.None? || c.temp.Some? || (a.fault && !a.applied) then Goto(c, Restore(false))
      else
        var copy := Index(Portion(c.source.value.docs, a.portion), target);
        Config(if a.fault then Restore(false) else AwaitCopy, c.source, Some(copy))
    case AwaitCopy => Goto(c, Restore(!a.fault))
    case Restore(copied) => Goto(c, if copied && !a.fault then CountCopy else Stopped)
    case CountCopy =>
      if a.fault || c.temp.None? then Goto(c, Stopped) else Goto(c, CountOriginal(|c.temp.value.docs|))
    case CountOriginal(n) =>
      if a.fault || c.source.None? then Goto(c, Stopped)
      else Goto(c, if n != |c.source.value.docs| then DropBadCopy else DropSource)
    case DropBadCopy => Deleting(c, a, false, Stopped)
    case DropSource => Deleting(c, a, true, GuardProbe)
    case GuardProbe =>
      if a.fault then Goto(c, Stopped)
      else Goto(c, if a.sees && c.source.Some? then StartReindex else CreateSource)
    case CreateSource =>
      if c.source.Some? || (a.fault && !a.applied) then Goto(c, Stopped)
      else Config(if a.fault then Stopped else StartReindex, Some(Index(map[], target)), c.temp)
    case StartReindex =>
      if c.temp.None? || (a.fault && !a.applied) then Goto(c, Stopped)
      else Config(if a.fault then Stopped else Poll, Overlay(c.source, c.temp, a.portion, target), c.temp)
    case Poll =>
      Config(if a.fault then Stopped else if a.sees then AwaitReplacement else Poll,
             Overlay(c.source, c.temp, a.portion, target), c.temp)
    case AwaitReplacement => Goto(c, if a.fault then Stopped else CountReplacement)
    case CountReplacement =>
      if a.fault || c.source.None? then Goto(c, Stopped) else Goto(c, CountTemp(|c.source.value.docs|))
    case CountTemp(n) =>
      if a.fault || c.temp.None? || n != |c.temp.value.docs| then Goto(c, Stopped) else Goto(c, DropTemp)
    case DropTemp => Deleting(c, a, false, Done)
    case Done => c
    case Stopped => c
  }

  /** Deleting the source or the temporary index; deleting a missing index is an error. */
  function Deleting(c: Config, a: Answer, isSource: bool, next: Pc): Config {
    if a.fault && !a.applied then Goto(c, Stopped)
    else if isSource then
      Config(if a.fault || c.source.None? then Stopped else next, None, c.temp)
    else
      Config(if a.fault || c.temp.None? then Stopped else next, c.source, None)
  }

  /** The configuration after the answers of `script`, which may end anywhere. */
  function RunScript(target: nat, c: Config, script: seq<Answer>): Config
    decreases |script|
  {
    if script == [] then c else RunScript(target, Advance(target, c, script[0]), script[1..])
  }

  function Start(source: Option<Index>, temp: Option<Index>): Config {
    Config(ProbeSource, source, temp)
  }

  // ---------------------------------------------------------------- what is to be preserved

  predicate Holds(i: Option<Index>, whole: Docs) { i.Some? && i.value.docs == whole }

  /** The whole original document map lives in the source or in the temporary index. */
  predicate Whole(c: Config, whole: Docs) { Holds(c.source, whole) || Holds(c.temp, whole) }

  predicate Submap(a: Docs, b: Docs) { a.Keys <= b.Keys && forall k :: k in a ==> a[k] == b[k] }

  predicate Within(i: Option<Index>, whole: Docs) { i.Some? ==> Submap(i.value.docs, whole) }

  /** A start from which nothing can be lost: an existing source is complete, and an existing
      temporary index beside it holds nothing else than documents of the source. */
  predicate SafeStart(source: Option<Index>, temp: Option<Index>, whole: Docs) {
    if source.Some? then source.value.docs == whole && Within(temp, whole) else Holds(temp, whole)
  }

  /** The protocol's invariant, by program point. */
  predicate Inv(c: Config, whole: Docs) {
    && Within(c.source, whole) && Within(c.temp, whole) && Whole(c, whole)
    && match c.pc
       case ProbeSource => SafeStart(c.source, c.temp, whole)
       case ProbeTemp(seen) => SafeStart(c.source, c.temp, whole) && (seen ==> c.source.Some?)
       case DropStale => Holds(c.source, whole)
       case Prepare => Holds(c.source, whole)
       case Copy => Holds(c.source, whole)
       case AwaitCopy => Holds(c.source, whole)
       case Restore(_) => Holds(c.source, whole)
       case CountCopy => Holds(c.source, whole)
       case CountOriginal(n) => Holds(c.source, whole) && c.temp.Some? && n == |c.temp.value.docs|
       case DropBadCopy => Holds(c.source, whole)
       case DropSource => Holds(c.source, whole) && Holds(c.temp, whole)
       case CountTemp(n) => c.source.Some? && n <= |c.source.value.docs|
       case DropTemp => Holds(c.source, whole)
       case Done => Holds(c.source, whole) && c.temp.None?
       case _ => true
  }

  lemma SmallerMap(a: Docs, b: Docs)
    requires Submap(a, b)
    ensures |a| <= |b| && (|a| == |b| ==> a == b)
  {
    assert |b.Keys| == |a.Keys| + |b.Keys - a.Keys| by {
      assert b.Keys == a.Keys + (b.Keys - a.Keys);
    }
    if |a| == |b| {
      assert b.Keys - a.Keys == {};
      assert a.Keys == b.Keys;
    }
  }

  lemma OverlayStays(to: Option<Index>, from: Option<Index>, keys: set<string>, shards: nat, whole: Docs)
    requires Within(to, whole) && Within(from, whole)
    ensures Within(Overlay(to, from, keys, shards), whole)
    ensures Holds(to, whole) ==> Holds(Overlay(to, from, keys, shards), whole)
  {
    if from.Some? && Holds(to, whole) {
      assert to.value.docs + Portion(from.value.docs, keys) == whole;
    }
  }

  lemma PortionStays(docs: Docs, keys: set<string>, whole: Docs)
    requires Submap(docs, whole)
    ensures Submap(Portion(docs, keys), whole)
  {}

  predicate BeforeDrop(pc: Pc) {
    pc.ProbeSource? || pc.ProbeTemp? || pc.DropStale? || pc.Prepare? || pc.Copy? || pc.AwaitCopy? || pc.Restore?
  }

  lemma CopyKeepsInv(target: nat, c: Config, a: Answer, whole: Docs)
    requires Inv(c, whole) && BeforeDrop(c.pc)
    ensures Inv(Advance(target, c, a), whole)
  {
    if c.source.Some? { PortionStays(c.source.value.docs, a.portion, whole); }
  }

  lemma ReindexKeepsInv(target: nat, c: Config, a: Answer, whole: Docs)
    requires Inv(c, whole) && (c.pc.StartReindex? || c.pc.Poll?)
    ensures Inv(Advance(target, c, a), whole)
  {
    OverlayStays(c.source, c.temp, a.portion, target, whole);
  }

  lemma VerifyKeepsInv(target: nat, c: Config, a: Answer, whole: Docs)
    requires Inv(c, whole) && !BeforeDrop(c.pc) && !c.pc.StartReindex? && !c.pc.Poll?
    ensures Inv(Advance(target, c, a), whole)
  {
    if c.temp.Some? { SmallerMap(c.temp.value.docs, whole); }
    if c.source.Some? { SmallerMap(c.source.value.docs, whole); }
  }

  lemma AdvanceKeepsInv(target: nat, c: Config, a: Answer, whole: Docs)
    requires Inv(c, whole)
    ensures Inv(Advance(target, c, a), whole)
  {
    if BeforeDrop(c.pc) { CopyKeepsInv(target, c, a, whole); }
    else if c.pc.StartReindex? || c.pc.Poll? { ReindexKeepsInv(target, c, a, whole); }
    else { VerifyKeepsInv(target, c, a, whole); }
  }

  lemma {:induction false} RunKeepsInv(target: nat, c: Config, script: seq<Answer>, whole: Docs)
    requires Inv(c, whole)
    ensures Inv(RunScript(target, c, script), whole)
    decreases |script|
  {
    if script != [] {
      AdvanceKeepsInv(target, c, script[0], whole);
      RunKeepsInv(target, Advance(target, c, script[0]), script[1..], whole);
    }
  }
}
