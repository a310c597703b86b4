/** What decides how a resize attempt goes on: a fault ends it, and the two comparisons of document
    counts choose which of the two indices goes. */
module ResizeVerdicts {
  import opened Options
  import opened ResizeProtocol
  import opened ResizeSafety

  /** Only taking down the write block may still be awaited. */
  predicate GivenUp(pc: Pc) { pc.Stopped? || pc == Restore(false) }

  lemma {:induction false} GivenUpStays(target: nat, c: Config, script: seq<Answer>)
    requires GivenUp(c.pc)
    ensures var end := RunScript(target, c, script);
            GivenUp(end.pc) && end.source == c.source && end.temp == c.temp
    decreases |script|
  {
    if script != [] { GivenUpStays(target, Advance(target, c, script[0]), script[1..]); }
  }

  /** After a fault the attempt neither finishes nor touches an index again, whatever is answered. */
  lemma FaultIsTheEnd(target: nat, c: Config, a: Answer, rest: seq<Answer>)
    requires a.fault && !c.pc.Done?
    ensures var hit, end := Advance(target, c, a), RunScript(target, Advance(target, c, a), rest);
            GivenUp(end.pc) && end.source == hit.source && end.temp == hit.temp
  {
    GivenUpStays(target, Advance(target, c, a), rest);
  }

  /** A request that never took effect leaves both indices to the fault that hit it. */
  lemma FaultWithoutEffect(target: nat, c: Config, a: Answer)
    requires a.fault && !a.applied && !c.pc.Poll?
    ensures Advance(target, c, a).source == c.source && Advance(target, c, a).temp == c.temp
  {
  }

  predicate NeedsSource(pc: Pc) { pc.Copy? || pc.CountOriginal? || pc.DropSource? || pc.CountReplacement? }

  predicate NeedsTemp(pc: Pc) {
    pc.DropStale? || pc.CountCopy? || pc.DropBadCopy? || pc.StartReindex? || pc.CountTemp? || pc.DropTemp?
  }

  /** Copying, counting, reindexing or deleting an index that is not there is an error, and so is making
      one that is there; it ends the attempt and changes nothing. */
  lemma WrongIndexIsTheEnd(target: nat, c: Config, a: Answer)
    requires || (c.source.None? && NeedsSource(c.pc)) || (c.temp.None? && NeedsTemp(c.pc))
             || (c.temp.Some? && c.pc.Copy?) || (c.source.Some? && c.pc.CreateSource?)
    ensures var next := Advance(target, c, a);
            GivenUp(next.pc) && next.source == c.source && next.temp == c.temp
  {
  }

  /** A request that took effect although it faulted leaves the indices as if it had not faulted. */
  lemma FaultWithEffect(target: nat, c: Config, a: Answer)
    requires a.fault && a.applied
    ensures var faultless := Advance(target, c, a.(fault := false));
            Advance(target, c, a).source == faultless.source && Advance(target, c, a).temp == faultless.temp
  {
  }

  /** An attempt that finishes met no fault on the way. */
  lemma {:induction false} SuccessIsFaultless(target: nat, c: Config, script: seq<Answer>, k: nat)
    requires k < |script| && RunScript(target, c, script).pc.Done? && script[k].fault
    ensures RunScript(target, c, script[..k]).pc.Done?
    decreases |script|
  {
    var next := Advance(target, c, script[0]);
    if c.pc.Done? {
      DoneForGood(target, c, script[..k]);
    } else if k == 0 {
      FaultIsTheEnd(target, c, script[0], script[1..]);
    } else {
      SuccessIsFaultless(target, next, script[1..], k - 1);
      assert script[..k][1..] == script[1..][..k - 1];
    }
  }

  lemma {:induction false} DoneForGood(target: nat, c: Config, script: seq<Answer>)
    requires c.pc.Done?
    ensures RunScript(target, c, script) == c
    decreases |script|
  {
    if script != [] { DoneForGood(target, c, script[1..]); }
  }

  /** Faultless answers that hide nothing, whatever they carry over. */
  predicate Clear(script: seq<Answer>) { forall i :: 0 <= i < |script| ==> !script[i].fault && script[i].sees }

  lemma Unroll(target: nat, c: Config, script: seq<Answer>) returns (next: Config, rest: seq<Answer>)
    requires script != [] && Clear(script)
    ensures rest == script[1..] && next == Advance(target, c, script[0])
    ensures RunScript(target, c, script) == RunScript(target, next, rest)
    ensures Clear(rest)
  {
    next, rest := Advance(target, c, script[0]), script[1..];
  }

  /** Where the two probes lead: a resumed attempt goes straight to the reindex, a fresh one first gets
      rid of a stale copy, and without any index there is nothing to resize. */
  lemma ProbesDecide(target: nat, source: Option<Index>, temp: Option<Index>, script: seq<Answer>)
    requires Clear(script) && |script| == 2
    ensures RunScript(target, Start(source, temp), script) ==
            Config(if source.Some? then (if temp.Some? then DropStale else Prepare)
                   else if temp.Some? then GuardProbe else Stopped, source, temp)
  {
    var c1, rest1 := Unroll(target, Start(source, temp), script);
    var c2, rest2 := Unroll(target, c1, rest1);
  }

  /** The copy has the target count and what was carried over of the original, which stays as it is. */
  lemma CopyIsTaken(target: nat, source: Index, script: seq<Answer>)
    requires Clear(script) && |script| == 4
    ensures RunScript(target, Config(Prepare, Some(source), None), script) ==
            Config(CountCopy, Some(source), Some(Index(Portion(source.docs, script[1].portion), target)))
  {
    var c1, rest1 := Unroll(target, Config(Prepare, Some(source), None), script);
    var c2, rest2 := Unroll(target, c1, rest1);
    var c3, rest3 := Unroll(target, c2, rest2);
    var c4, rest4 := Unroll(target, c3, rest3);
    assert rest1[0] == script[1];
  }

  /** The copy is compared with the original: of equal size, the original goes and the copy takes its
      place; otherwise the copy goes, the original stays, and the attempt is over. */
  lemma ComparisonDecides(target: nat, source: Index, temp: Index, script: seq<Answer>)
    requires Clear(script) && |script| == 3
    ensures RunScript(target, Config(CountCopy, Some(source), Some(temp)), script) ==
            if |source.docs| == |temp.docs| then Config(GuardProbe, None, Some(temp))
            else Config(Stopped, Some(source), None)
  {
    var c1, rest1 := Unroll(target, Config(CountCopy, Some(source), Some(temp)), script);
    var c2, rest2 := Unroll(target, c1, rest1);
    var c3, rest3 := Unroll(target, c2, rest2);
  }

  /** The replacement is compared with the copy: of equal size, the copy goes and the attempt is done;
      otherwise both stay. */
  lemma ReplacementDecides(target: nat, source: Index, temp: Index, script: seq<Answer>)
    requires Clear(script) && |script| == 4
    ensures RunScript(target, Config(AwaitReplacement, Some(source), Some(temp)), script) ==
            if |source.docs| == |temp.docs| then Config(Done, Some(source), None)
            else Config(Stopped, Some(source), Some(temp))
  {
    var c1, rest1 := Unroll(target, Config(AwaitReplacement, Some(source), Some(temp)), script);
    var c2, rest2 := Unroll(target, c1, rest1);
    var c3, rest3 := Unroll(target, c2, rest2);
    if c3.pc.Stopped? { GivenUpStays(target, c3, rest3); }
    else { var c4, rest4 := Unroll(target, c3, rest3); }
  }

  /** A recreated source starts empty with the target count and takes in exactly what the reindex has
      carried over by the time it is reported complete. */
  lemma RecreateAndFill(target: nat, temp: Index, script: seq<Answer>)
    requires Clear(script) && |script| == 4
    ensures RunScript(target, Config(GuardProbe, None, Some(temp)), script) ==
            Config(AwaitReplacement,
                   Some(Index(Portion(temp.docs, script[2].portion) + Portion(temp.docs, script[3].portion), target)),
                   Some(temp))
  {
    var c1, rest1 := Unroll(target, Config(GuardProbe, None, Some(temp)), script);
    var c2, rest2 := Unroll(target, c1, rest1);
    var c3, rest3 := Unroll(target, c2, rest2);
    var c4, rest4 := Unroll(target, c3, rest3);
    assert rest2[0] == script[2] && rest3[0] == script[3];
    assert map[] + Portion(temp.docs, script[2].portion) == Portion(temp.docs, script[2].portion);
  }
}
