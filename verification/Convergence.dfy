/** Analyse an index, run the resize that is advised, analyse again: when does this stop?
    The index keeps its size, and its documents stay evenly spread over the primaries. */
module Convergence {
  import opened Options
  import opened Analyzer
  import opened ShardFactors

  predicate Sensible(cfg: Settings) { cfg.idealMax > 0.0 && cfg.tinyLimit >= 1 }

  /** One advised resize takes the index from `count` primaries to `next`. */
  predicate Step(cfg: Settings, sizeGb: real, count: nat, next: nat)
    requires Sensible(cfg) && count >= 1
  {
    var over := DetectOverSharded(EvenIndex(sizeGb, count), cfg);
    var under := DetectUnderSharded(EvenIndex(sizeGb, count), cfg);
    || (over.Some? && next == LargestFactor(count, over.value.target))
    || (under.Some? && next == SmallestMultiple(count, under.value.target))
  }

  ghost function Steps(cfg: Settings, sizeGb: real): iset<(nat, nat)>
    requires Sensible(cfg)
  {
    iset a: nat, b: nat | a >= 1 && b >= 1 && Step(cfg, sizeGb, a, b) :: (a, b)
  }

  /** Every member of the sequence leads to the next one. */
  ghost predicate Chain(steps: iset<(nat, nat)>, counts: seq<nat>) {
    |counts| >= 2 ==> (counts[0], counts[1]) in steps && Chain(steps, counts[1..])
  }

  /** The primary counts an index goes through, oldest first. */
  ghost predicate Resizes(cfg: Settings, sizeGb: real, counts: seq<nat>)
    requires Sensible(cfg)
  {
    counts != [] && counts[0] >= 1 && Chain(Steps(cfg, sizeGb), counts)
  }

  predicate Tiny(cfg: Settings, sizeGb: real, count: nat) { sizeGb < cfg.tinyMax && count > cfg.tinyLimit }

  predicate Sparse(cfg: Settings, sizeGb: real, count: nat)
    requires Sensible(cfg)
  {
    sizeGb < count as real * cfg.idealMin && IdealCount(sizeGb, cfg) < count
  }

  predicate Dense(cfg: Settings, sizeGb: real, count: nat) { sizeGb > count as real * cfg.idealMax }

  /** A step in terms of the size alone: three rules, without the per-shard statistics. */
  lemma StepRules(cfg: Settings, sizeGb: real, count: nat, next: nat)
    requires Sensible(cfg) && count >= 1 && sizeGb >= 0.0
    ensures Step(cfg, sizeGb, count, next) <==>
      || (Tiny(cfg, sizeGb, count) && next == 1)
      || (!Tiny(cfg, sizeGb, count) && Sparse(cfg, sizeGb, count)
          && next == LargestFactor(count, IdealCount(sizeGb, cfg)))
      || (Dense(cfg, sizeGb, count) && next == SmallestMultiple(count, IdealCount(sizeGb, cfg)))
  {
    ShrinkRules(cfg, sizeGb, count);
    SplitRule(cfg, sizeGb, count);
    if count > 1 { LargestFactorIsGreatestDivisor(count, 1); }
  }

  lemma ShrinkRules(cfg: Settings, sizeGb: real, count: nat)
    requires Sensible(cfg) && count >= 1 && sizeGb >= 0.0
    ensures var over := DetectOverSharded(EvenIndex(sizeGb, count), cfg);
            && (over.Some? <==> Tiny(cfg, sizeGb, count) || Sparse(cfg, sizeGb, count))
            && (over.Some? ==> over.value.target == if Tiny(cfg, sizeGb, count) then 1 else IdealCount(sizeGb, cfg))
  {
    var idx := EvenIndex(sizeGb, count);
    EvenIndexFacts(sizeGb, count);
    IdealCountBounds(sizeGb, cfg);
    MeanBelow(sizeGb, count, cfg.idealMin);
    assert Mean(idx.shards) < cfg.idealMin <==> sizeGb < count as real * cfg.idealMin;
  }

  lemma SplitRule(cfg: Settings, sizeGb: real, count: nat)
    requires Sensible(cfg) && count >= 1 && sizeGb >= 0.0
    ensures var under := DetectUnderSharded(EvenIndex(sizeGb, count), cfg);
            && (under.Some? <==> Dense(cfg, sizeGb, count))
            && (under.Some? ==> under.value.target == IdealCount(sizeGb, cfg) > count)
  {
    var idx := EvenIndex(sizeGb, count);
    EvenIndexFacts(sizeGb, count);
    MeanBelow(sizeGb, count, cfg.idealMax);
    assert Largest(idx.shards) > cfg.idealMax <==> Dense(cfg, sizeGb, count);
    if IdealCount(sizeGb, cfg) <= count { IdealCountCovers(sizeGb, count, cfg); }
  }

  // ---------------------------------------------------------------- what can follow what

  lemma AfterTiny(cfg: Settings, sizeGb: real)
    requires Sensible(cfg) && sizeGb >= 0.0
    ensures !Tiny(cfg, sizeGb, 1) && !Sparse(cfg, sizeGb, 1)
    ensures Dense(cfg, sizeGb, 1) ==> SmallestMultiple(1, IdealCount(sizeGb, cfg)) == IdealCount(sizeGb, cfg)
  {
    IdealCountBounds(sizeGb, cfg);
    SmallestMultipleIsLeast(1, IdealCount(sizeGb, cfg), IdealCount(sizeGb, cfg));
  }

  /** Snapping down from `count` and back up to the same ideal never exceeds `count`. */
  lemma AfterSparse(cfg: Settings, sizeGb: real, count: nat)
    requires Sensible(cfg) && sizeGb >= 0.0 && !Tiny(cfg, sizeGb, count) && Sparse(cfg, sizeGb, count)
    ensures var q := IdealCount(sizeGb, cfg);
            var f := LargestFactor(count, q);
            && 1 <= f <= q && !Tiny(cfg, sizeGb, f) && !Sparse(cfg, sizeGb, f)
            && SmallestMultiple(f, q) <= count
  {
    var q := IdealCount(sizeGb, cfg);
    IdealCountBounds(sizeGb, cfg);
    LargestFactorIsGreatestDivisor(count, q);
    var f := LargestFactor(count, q);
    assert f * (count / f) == count;
    SmallestMultipleIsLeast(f, q, count / f);
    if count / f < 1 { MulOrder(f, count / f, 0); }
  }

  lemma AfterSplit(cfg: Settings, sizeGb: real, count: nat)
    requires Sensible(cfg) && count >= 1 && sizeGb >= 0.0 && Dense(cfg, sizeGb, count)
    ensures var q := IdealCount(sizeGb, cfg);
            var m := SmallestMultiple(count, q);
            && count < q <= m < count + q && !Dense(cfg, sizeGb, m)
            && (2.0 * cfg.idealMin <= cfg.idealMax ==> !Sparse(cfg, sizeGb, m))
  {
    var q := IdealCount(sizeGb, cfg);
    SplitRule(cfg, sizeGb, count);
    SmallestMultipleIsLeast(count, q, 1);
    SplitLanding(cfg, sizeGb, count, SmallestMultiple(count, q));
  }

  lemma SplitLanding(cfg: Settings, sizeGb: real, count: nat, m: nat)
    requires Sensible(cfg) && sizeGb >= 0.0 && Dense(cfg, sizeGb, count)
    requires IdealCount(sizeGb, cfg) <= m < count + IdealCount(sizeGb, cfg)
    ensures !Dense(cfg, sizeGb, m) && (2.0 * cfg.idealMin <= cfg.idealMax ==> !Sparse(cfg, sizeGb, m))
  {
    IdealCountCovers(sizeGb, m, cfg);
    if 2.0 * cfg.idealMin <= cfg.idealMax {
      IdealCountBounds(sizeGb, cfg);
      HalfFull(sizeGb, count as real, (IdealCount(sizeGb, cfg) - 1) as real, m as real, cfg.idealMin, cfg.idealMax);
    }
  }

  lemma HalfFull(sizeGb: real, a: real, b: real, n: real, low: real, high: real)
    requires sizeGb >= a * high && sizeGb >= b * high && 0.0 <= n <= a + b && 2.0 * low <= high && high > 0.0
    ensures sizeGb >= n * low
  {
    RealMulLe(n, a + b, high);
    RealMulLe(2.0 * low, high, n);
    assert (a + b) * high == a * high + b * high;
    assert 2.0 * low * n == 2.0 * (n * low) && high * n == n * high;
  }

  /** Below the tiny bound, the ideal count stays below any count whose room reaches that bound. */
  lemma TinyIdeal(cfg: Settings, sizeGb: real, n: nat)
    requires Sensible(cfg) && 0.0 <= sizeGb < cfg.tinyMax <= n as real * cfg.idealMax
    ensures IdealCount(sizeGb, cfg) <= n
  {
    if IdealCount(sizeGb, cfg) > n { RoomWithin(n, sizeGb, cfg); }
  }

  // ---------------------------------------------------------------- the loop stops

  predicate Converging(cfg: Settings)
    requires Sensible(cfg)
  {
    2.0 * cfg.idealMin <= cfg.idealMax && cfg.tinyMax <= cfg.tinyLimit as real * cfg.idealMax
  }

  /** After a shrink only a split can follow. */
  lemma SplitFollowsShrink(cfg: Settings, sizeGb: real, a: nat, b: nat, c: nat)
    requires Sensible(cfg) && sizeGb >= 0.0 && a >= 1 && b >= 1
    requires Step(cfg, sizeGb, a, b) && Step(cfg, sizeGb, b, c) && !Dense(cfg, sizeGb, a)
    ensures Dense(cfg, sizeGb, b) && c == SmallestMultiple(b, IdealCount(sizeGb, cfg))
    ensures Tiny(cfg, sizeGb, a) ==> c == IdealCount(sizeGb, cfg)
    ensures !Tiny(cfg, sizeGb, a) ==> c <= a
  {
    StepRules(cfg, sizeGb, a, b);
    StepRules(cfg, sizeGb, b, c);
    AfterTiny(cfg, sizeGb);
    if !Tiny(cfg, sizeGb, a) { AfterSparse(cfg, sizeGb, a); }
  }

  lemma SparseIsNotDense(cfg: Settings, sizeGb: real, count: nat)
    requires Sensible(cfg) && count >= 1 && sizeGb >= 0.0
    ensures !(Sparse(cfg, sizeGb, count) && Dense(cfg, sizeGb, count))
  {
    SplitRule(cfg, sizeGb, count);
  }

  lemma ShrinkLeavesTiny(cfg: Settings, sizeGb: real, a: nat, c: nat)
    requires Sensible(cfg) && Converging(cfg) && sizeGb >= 0.0
    requires if Tiny(cfg, sizeGb, a) then c == IdealCount(sizeGb, cfg) else c <= a
    ensures !Tiny(cfg, sizeGb, c)
  {
    if sizeGb < cfg.tinyMax { TinyIdeal(cfg, sizeGb, cfg.tinyLimit); }
  }

  /** A shrink followed by a split leaves nothing to do. */
  lemma ShrinkSplitEnds(cfg: Settings, sizeGb: real, a: nat, b: nat, c: nat, d: nat)
    requires Sensible(cfg) && Converging(cfg) && sizeGb >= 0.0 && a >= 1 && b >= 1 && c >= 1
    requires Step(cfg, sizeGb, a, b) && Step(cfg, sizeGb, b, c) && !Dense(cfg, sizeGb, a)
    ensures !Step(cfg, sizeGb, c, d)
  {
    SplitFollowsShrink(cfg, sizeGb, a, b, c);
    AfterSplit(cfg, sizeGb, b);
    ShrinkLeavesTiny(cfg, sizeGb, a, c);
    StepRules(cfg, sizeGb, c, d);
  }

  lemma SplitLeavesTiny(cfg: Settings, sizeGb: real, a: nat, b: nat)
    requires Sensible(cfg) && sizeGb >= 0.0 && cfg.tinyMax <= (cfg.tinyLimit / 2 + 1) as real * cfg.idealMax
    requires a < IdealCount(sizeGb, cfg) && b < a + IdealCount(sizeGb, cfg)
    ensures !Tiny(cfg, sizeGb, b)
  {
    if sizeGb < cfg.tinyMax { TinyIdeal(cfg, sizeGb, cfg.tinyLimit / 2 + 1); }
  }

  /** When the tiny limit leaves room, a split on its own leaves nothing to do. */
  lemma SplitEnds(cfg: Settings, sizeGb: real, a: nat, b: nat, c: nat)
    requires Sensible(cfg) && sizeGb >= 0.0 && a >= 1 && b >= 1
    requires 2.0 * cfg.idealMin <= cfg.idealMax && cfg.tinyMax <= (cfg.tinyLimit / 2 + 1) as real * cfg.idealMax
    requires Step(cfg, sizeGb, a, b) && Dense(cfg, sizeGb, a) && !Tiny(cfg, sizeGb, a)
    ensures !Step(cfg, sizeGb, b, c)
  {
    StepRules(cfg, sizeGb, a, b);
    SparseIsNotDense(cfg, sizeGb, a);
    AfterSplit(cfg, sizeGb, a);
    SplitLeavesTiny(cfg, sizeGb, a, b);
    StepRules(cfg, sizeGb, b, c);
  }

  lemma {:induction false} ChainStep(steps: iset<(nat, nat)>, counts: seq<nat>, i: nat)
    requires Chain(steps, counts) && i + 1 < |counts|
    ensures (counts[i], counts[i + 1]) in steps
  {
    if i > 0 { ChainStep(steps, counts[1..], i - 1); }
  }

  lemma ResizesStep(cfg: Settings, sizeGb: real, counts: seq<nat>, i: nat)
    requires Sensible(cfg) && sizeGb >= 0.0 && Resizes(cfg, sizeGb, counts) && i + 1 < |counts|
    ensures counts[i] >= 1 && counts[i + 1] >= 1 && Step(cfg, sizeGb, counts[i], counts[i + 1])
  {
    ChainStep(Steps(cfg, sizeGb), counts, i);
  }

  lemma DenseIsNotTiny(cfg: Settings, sizeGb: real, count: nat)
    requires Sensible(cfg) && cfg.tinyMax <= cfg.tinyLimit as real * cfg.idealMax && Dense(cfg, sizeGb, count)
    ensures !Tiny(cfg, sizeGb, count)
  {
    if count > cfg.tinyLimit { RealMulLe(cfg.tinyLimit as real, count as real, cfg.idealMax); }
  }

  lemma SplitIsNotDense(cfg: Settings, sizeGb: real, a: nat, b: nat)
    requires Sensible(cfg) && sizeGb >= 0.0 && a >= 1
    requires Step(cfg, sizeGb, a, b) && Dense(cfg, sizeGb, a) && !Tiny(cfg, sizeGb, a)
    ensures !Dense(cfg, sizeGb, b)
  {
    StepRules(cfg, sizeGb, a, b);
    SparseIsNotDense(cfg, sizeGb, a);
    AfterSplit(cfg, sizeGb, a);
  }

  lemma AtMostThreeResizes(cfg: Settings, sizeGb: real, counts: seq<nat>)
    requires Sensible(cfg) && Converging(cfg) && sizeGb >= 0.0 && Resizes(cfg, sizeGb, counts)
    ensures |counts| <= 4
  {
    if |counts| > 4 {
      ResizesStep(cfg, sizeGb, counts, 0);
      ResizesStep(cfg, sizeGb, counts, 1);
      ResizesStep(cfg, sizeGb, counts, 2);
      ResizesStep(cfg, sizeGb, counts, 3);
      if Dense(cfg, sizeGb, counts[0]) {
        DenseIsNotTiny(cfg, sizeGb, counts[0]);
        SplitIsNotDense(cfg, sizeGb, counts[0], counts[1]);
        ShrinkSplitEnds(cfg, sizeGb, counts[1], counts[2], counts[3], counts[4]);
      } else {
        ShrinkSplitEnds(cfg, sizeGb, counts[0], counts[1], counts[2], counts[3]);
      }
    }
  }

  /** Room for the shards of one split below the tiny limit. */
  predicate Roomy(cfg: Settings)
    requires Sensible(cfg)
  {
    2.0 * cfg.idealMin <= cfg.idealMax && cfg.tinyMax <= (cfg.tinyLimit / 2 + 1) as real * cfg.idealMax
  }

  lemma RoomyConverges(cfg: Settings)
    requires Sensible(cfg) && Roomy(cfg)
    ensures Converging(cfg)
  {
    RealMulLe((cfg.tinyLimit / 2 + 1) as real, cfg.tinyLimit as real, cfg.idealMax);
  }

  lemma AtMostTwoResizes(cfg: Settings, sizeGb: real, counts: seq<nat>)
    requires Sensible(cfg) && Roomy(cfg) && sizeGb >= 0.0 && Resizes(cfg, sizeGb, counts)
    ensures |counts| <= 3
  {
    if |counts| > 3 {
      RoomyConverges(cfg);
      ResizesStep(cfg, sizeGb, counts, 0);
      ResizesStep(cfg, sizeGb, counts, 1);
      ResizesStep(cfg, sizeGb, counts, 2);
      if Dense(cfg, sizeGb, counts[0]) {
        DenseIsNotTiny(cfg, sizeGb, counts[0]);
        SplitEnds(cfg, sizeGb, counts[0], counts[1], counts[2]);
      } else {
        ShrinkSplitEnds(cfg, sizeGb, counts[0], counts[1], counts[2], counts[3]);
      }
    }
  }

  // ---------------------------------------------------------------- the loop does not stop

  function Alternate(a: nat, b: nat, n: nat): seq<nat>
    decreases n
  {
    if n == 0 then [] else [a] + Alternate(b, a, n - 1)
  }

  lemma {:induction false} AlternateChain(steps: iset<(nat, nat)>, a: nat, b: nat, n: nat)
    requires n >= 1 && (a, b) in steps && (b, a) in steps
    ensures |Alternate(a, b, n)| == n && Alternate(a, b, n)[0] == a && Chain(steps, Alternate(a, b, n))
    decreases n
  {
    if n > 1 {
      AlternateChain(steps, b, a, n - 1);
      assert Alternate(a, b, n)[1..] == Alternate(b, a, n - 1);
    }
  }

  lemma AlternateResizes(cfg: Settings, sizeGb: real, a: nat, b: nat, n: nat)
    requires Sensible(cfg) && a >= 1 && b >= 1 && n >= 1
    requires Step(cfg, sizeGb, a, b) && Step(cfg, sizeGb, b, a)
    ensures |Alternate(a, b, n)| == n && Resizes(cfg, sizeGb, Alternate(a, b, n))
  {
    AlternateChain(Steps(cfg, sizeGb), a, b, n);
  }

  lemma DoubleIsNext(a: nat)
    requires a >= 1
    ensures SmallestMultiple(a, a + 1) == 2 * a
  {
    SmallestMultipleIsLeast(a, a + 1, 2);
    var m := SmallestMultiple(a, a + 1);
    if m < 2 * a { DivModUnique(m, a, 1, m - a); }
  }

  lemma HalfIsFactor(a: nat)
    requires a >= 2
    ensures LargestFactor(2 * a, a + 1) == a
  {
    LargestFactorIsGreatestDivisor(2 * a, a + 1);
    DivModUnique(2 * a, a, 2, 0);
    DivModUnique(2 * a, a + 1, 1, a - 1);
  }

  /** A count whose room is at least a given size. */
  lemma EnoughRoom(bound: real, cfg: Settings) returns (a: nat)
    requires cfg.idealMax > 0.0
    ensures a >= 2 && bound <= a as real * cfg.idealMax
  {
    if bound <= 0.0 {
      a := 2;
      RealMulLe(0.0, a as real, cfg.idealMax);
    } else {
      a := Max(2, IdealCount(bound, cfg));
      IdealCountBounds(bound, cfg);
      IdealCountCovers(bound, a, cfg);
    }
  }

  /** A size just above the room of `n` shards, and below a given cap. */
  lemma JustAbove(cfg: Settings, n: nat, cap: real) returns (sizeGb: real)
    requires Sensible(cfg) && n as real * cfg.idealMax < cap
    ensures 0.0 <= sizeGb < cap && Dense(cfg, sizeGb, n) && IdealCount(sizeGb, cfg) == n + 1
  {
    var full := n as real * cfg.idealMax;
    var next := (n + 1) as real * cfg.idealMax;
    assert next == full + cfg.idealMax by { assert (n + 1) as real == n as real + 1.0; }
    RealMulLe(0.0, n as real, cfg.idealMax);
    sizeGb := (full + if next < cap then next else cap) / 2.0;
    IdealCountIs(sizeGb, n, cfg);
  }

  lemma HalvingSteps(cfg: Settings, sizeGb: real, a: nat, double: nat)
    requires Sensible(cfg) && a >= 2 && double == 2 * a && sizeGb >= 0.0 && sizeGb >= cfg.tinyMax
    requires Dense(cfg, sizeGb, a) && IdealCount(sizeGb, cfg) == a + 1 && sizeGb < double as real * cfg.idealMin
    ensures Step(cfg, sizeGb, double, a) && Step(cfg, sizeGb, a, double)
  {
    StepRules(cfg, sizeGb, double, a);
    StepRules(cfg, sizeGb, a, double);
    HalfIsFactor(a);
    DoubleIsNext(a);
  }

  lemma DoubledRoom(a: nat, low: real, high: real)
    requires a >= 1 && 2.0 * low > high
    ensures a as real * high < (2 * a) as real * low
  {
    var n := a as real;
    RealMulLt(high, 2.0 * low, n);
    assert (2 * a) as real == 2.0 * n;
    assert 2.0 * low * n == 2.0 * n * low && high * n == n * high;
  }

  /** When halving can leave shards too big, an index alternates between a count and its double. */
  lemma HalvesForever(cfg: Settings) returns (sizeGb: real, a: nat)
    requires Sensible(cfg) && 2.0 * cfg.idealMin > cfg.idealMax
    ensures sizeGb >= 0.0 && a >= 1 && Step(cfg, sizeGb, 2 * a, a) && Step(cfg, sizeGb, a, 2 * a)
  {
    a := EnoughRoom(cfg.tinyMax, cfg);
    DoubledRoom(a, cfg.idealMin, cfg.idealMax);
    sizeGb := JustAbove(cfg, a, (2 * a) as real * cfg.idealMin);
    HalvingSteps(cfg, sizeGb, a, 2 * a);
  }

  /** A tiny index that is too big for the tiny limit goes from one shard to its ideal and back. */
  lemma TinyForever(cfg: Settings) returns (sizeGb: real, a: nat)
    requires Sensible(cfg) && cfg.tinyMax > cfg.tinyLimit as real * cfg.idealMax
    ensures sizeGb >= 0.0 && a >= 1 && Step(cfg, sizeGb, 1, a) && Step(cfg, sizeGb, a, 1)
  {
    sizeGb := JustAbove(cfg, cfg.tinyLimit, cfg.tinyMax);
    a := cfg.tinyLimit + 1;
    DenserStill(cfg, sizeGb, 1, cfg.tinyLimit);
    TinySteps(cfg, sizeGb, a);
  }

  lemma DenserStill(cfg: Settings, sizeGb: real, a: nat, b: nat)
    requires Sensible(cfg) && a <= b && Dense(cfg, sizeGb, b)
    ensures Dense(cfg, sizeGb, a)
  {
    RealMulLe(a as real, b as real, cfg.idealMax);
  }

  lemma TinySteps(cfg: Settings, sizeGb: real, a: nat)
    requires Sensible(cfg) && 0.0 <= sizeGb && Tiny(cfg, sizeGb, a) && Dense(cfg, sizeGb, 1)
    requires IdealCount(sizeGb, cfg) == a
    ensures Step(cfg, sizeGb, 1, a) && Step(cfg, sizeGb, a, 1)
  {
    AfterTiny(cfg, sizeGb);
    StepRules(cfg, sizeGb, 1, a);
    StepRules(cfg, sizeGb, a, 1);
  }

  /** Outside the two conditions the loop never settles: there are runs of every length. */
  lemma EndlessResizes(cfg: Settings, n: nat) returns (sizeGb: real, counts: seq<nat>)
    requires Sensible(cfg) && !Converging(cfg) && n >= 1
    ensures sizeGb >= 0.0 && |counts| == n && Resizes(cfg, sizeGb, counts)
  {
    var a: nat;
    if 2.0 * cfg.idealMin > cfg.idealMax {
      sizeGb, a := HalvesForever(cfg);
      AlternateResizes(cfg, sizeGb, a, 2 * a, n);
      counts := Alternate(a, 2 * a, n);
    } else {
      sizeGb, a := TinyForever(cfg);
      AlternateResizes(cfg, sizeGb, 1, a, n);
      counts := Alternate(1, a, n);
    }
  }

  /** A split that overshoots the tiny limit is undone and redone: three resizes. */
  lemma SplitCollapseSplit(cfg: Settings) returns (sizeGb: real, counts: seq<nat>)
    requires Sensible(cfg) && Converging(cfg) && !Roomy(cfg)
    ensures sizeGb >= 0.0 && |counts| == 4 && Resizes(cfg, sizeGb, counts)
  {
    var p: nat := cfg.tinyLimit / 2 + 1;
    sizeGb := JustAbove(cfg, p, cfg.tinyMax);
    if p == cfg.tinyLimit { assert Roomy(cfg); }
    CollapseSteps(cfg, sizeGb, p);
    counts := [p, 2 * p, 1, p + 1];
    ChainOfFour(Steps(cfg, sizeGb), p, 2 * p, 1, p + 1);
  }

  lemma CollapseSteps(cfg: Settings, sizeGb: real, p: nat)
    requires Sensible(cfg) && 1 <= p <= cfg.tinyLimit < 2 * p && 0.0 <= sizeGb < cfg.tinyMax
    requires Dense(cfg, sizeGb, p) && IdealCount(sizeGb, cfg) == p + 1
    ensures Step(cfg, sizeGb, p, 2 * p) && Step(cfg, sizeGb, 2 * p, 1) && Step(cfg, sizeGb, 1, p + 1)
  {
    AfterTiny(cfg, sizeGb);
    DoubleIsNext(p);
    DenserStill(cfg, sizeGb, 1, p);
    StepRules(cfg, sizeGb, p, 2 * p);
    StepRules(cfg, sizeGb, 2 * p, 1);
    StepRules(cfg, sizeGb, 1, p + 1);
  }

  lemma ChainCons(steps: iset<(nat, nat)>, a: nat, rest: seq<nat>)
    requires rest != [] && (a, rest[0]) in steps && Chain(steps, rest)
    ensures Chain(steps, [a] + rest)
  {
    assert ([a] + rest)[1..] == rest;
  }

  lemma ChainOfFour(steps: iset<(nat, nat)>, a: nat, b: nat, c: nat, d: nat)
    requires (a, b) in steps && (b, c) in steps && (c, d) in steps
    ensures Chain(steps, [a, b, c, d])
  {
    ChainCons(steps, c, [d]);
    ChainCons(steps, b, [c] + [d]);
    ChainCons(steps, a, [b] + ([c] + [d]));
    assert [a, b, c, d] == [a] + ([b] + ([c] + [d]));
  }

  // ---------------------------------------------------------------- main results

  /** However an index starts, at most `bound` resizes are advised in a row. */
  ghost predicate SettlesWithin(cfg: Settings, bound: nat)
    requires Sensible(cfg)
  {
    forall sizeGb: real, counts: seq<nat> :: sizeGb >= 0.0 && Resizes(cfg, sizeGb, counts) ==> |counts| <= bound + 1
  }

  lemma ConvergingSettles(cfg: Settings)
    requires Sensible(cfg) && Converging(cfg)
    ensures forall bound: nat :: bound >= 3 || (bound == 2 && Roomy(cfg)) ==> SettlesWithin(cfg, bound)
  {
    forall sizeGb: real, counts: seq<nat> | sizeGb >= 0.0 && Resizes(cfg, sizeGb, counts)
      ensures |counts| <= 4 && (Roomy(cfg) ==> |counts| <= 3)
    {
      AtMostThreeResizes(cfg, sizeGb, counts);
      if Roomy(cfg) { AtMostTwoResizes(cfg, sizeGb, counts); }
    }
  }

  lemma LongRun(cfg: Settings, bound: nat, sizeGb: real, counts: seq<nat>)
    requires Sensible(cfg) && sizeGb >= 0.0 && Resizes(cfg, sizeGb, counts) && |counts| > bound + 1
    ensures !SettlesWithin(cfg, bound)
  {
  }

  /** Every index settles, from every size and count, exactly when halving cannot leave shards too
      big and no index within the tiny bound needs more shards than the tiny limit. Three resizes
      are then enough, and otherwise no number is. */
  lemma ConvergesIff(cfg: Settings, bound: nat)
    requires Sensible(cfg) && bound >= 3
    ensures SettlesWithin(cfg, bound) <==> Converging(cfg)
  {
    if Converging(cfg) { ConvergingSettles(cfg); } else { Unsettled(cfg, bound); }
  }

  lemma Unsettled(cfg: Settings, bound: nat)
    requires Sensible(cfg) && !Converging(cfg)
    ensures !SettlesWithin(cfg, bound)
  {
    var sizeGb, counts := EndlessResizes(cfg, bound + 2);
    LongRun(cfg, bound, sizeGb, counts);
  }

  /** Two resizes are enough exactly when, in addition, one split stays within the tiny limit. */
  lemma TwoResizesIff(cfg: Settings)
    requires Sensible(cfg)
    ensures SettlesWithin(cfg, 2) <==> Roomy(cfg)
  {
    if Roomy(cfg) {
      RoomyConverges(cfg);
      ConvergingSettles(cfg);
    } else if Converging(cfg) {
      NeedsThree(cfg);
    } else {
      Unsettled(cfg, 2);
    }
  }

  lemma NeedsThree(cfg: Settings)
    requires Sensible(cfg) && Converging(cfg) && !Roomy(cfg)
    ensures !SettlesWithin(cfg, 2)
  {
    var sizeGb, counts := SplitCollapseSplit(cfg);
    LongRun(cfg, 2, sizeGb, counts);
  }

  /** A run that cannot be extended ends where neither resize is advised. */
  lemma SettledIff(cfg: Settings, sizeGb: real, count: nat)
    requires Sensible(cfg) && count >= 1 && sizeGb >= 0.0
    ensures (forall next: nat :: (count, next) !in Steps(cfg, sizeGb))
            <==> (&& DetectOverSharded(EvenIndex(sizeGb, count), cfg).None?
                  && DetectUnderSharded(EvenIndex(sizeGb, count), cfg).None?)
  {
    var over := DetectOverSharded(EvenIndex(sizeGb, count), cfg);
    var under := DetectUnderSharded(EvenIndex(sizeGb, count), cfg);
    if over.Some? {
      ShrinkRules(cfg, sizeGb, count);
      IdealCountBounds(sizeGb, cfg);
      LargestFactorIsGreatestDivisor(count, over.value.target);
      assert (count, LargestFactor(count, over.value.target)) in Steps(cfg, sizeGb);
    }
    if under.Some? {
      SmallestMultipleIsLeast(count, under.value.target, 1);
      assert (count, SmallestMultiple(count, under.value.target)) in Steps(cfg, sizeGb);
    }
  }

  const DEFAULTS := Settings(10.0, 50.0, 10, 1, 1.0)

  /** The shipped thresholds settle every index in at most two resizes. */
  lemma DefaultsSettle(sizeGb: real, counts: seq<nat>)
    requires sizeGb >= 0.0 && Resizes(DEFAULTS, sizeGb, counts)
    ensures |counts| <= 3
  {
    AtMostTwoResizes(DEFAULTS, sizeGb, counts);
  }
}
