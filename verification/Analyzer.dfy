/** Shard-count opportunities of an index, with sizes as exact reals in gigabytes. */
module Analyzer {
  import opened Options
  import ShardFactors

  datatype Settings = Settings(idealMin: real, idealMax: real, maxSegments: int, tinyLimit: int, tinyMax: real)

  datatype Primary = Primary(gb: real, segments: int)

  datatype Index = Index(name: string, open: bool, primaries: int, replicas: int, docs: int, deleted: int,
                         sizeGb: real, shards: seq<Primary>)

  datatype Kind = OverSharded | UnderSharded | Fragmented | DeletedDocs | Imbalanced

  datatype Opportunity = Opportunity(kind: Kind, wasted: int, target: int)

  // ---------------------------------------------------------------- shard statistics

  function Sum(shards: seq<Primary>): real {
    if shards == [] then 0.0 else Sum(shards[..|shards| - 1]) + shards[|shards| - 1].gb
  }

  function Mean(shards: seq<Primary>): real {
    if shards == [] then 0.0 else Sum(shards) / (|shards| as real)
  }

  function Largest(shards: seq<Primary>): real {
    if shards == [] then 0.0
    else if |shards| == 1 then shards[0].gb
    else
      var rest := Largest(shards[..|shards| - 1]);
      if shards[|shards| - 1].gb > rest then shards[|shards| - 1].gb else rest
  }

  function MostSegments(shards: seq<Primary>): int {
    if shards == [] then 0
    else if |shards| == 1 then shards[0].segments
    else
      var rest := MostSegments(shards[..|shards| - 1]);
      if shards[|shards| - 1].segments > rest then shards[|shards| - 1].segments else rest
  }

  function SquaredDeviation(shards: seq<Primary>, mean: real): real {
    if shards == [] then 0.0
    else
      SquaredDeviation(shards[..|shards| - 1], mean) + Square(shards[|shards| - 1].gb - mean)
  }

  function Square(x: real): real { x * x }

  /** Coefficient of variation above 0.3, compared without the square root. */
  predicate Uneven(shards: seq<Primary>) {
    && |shards| > 1 && Sum(shards) > 0.0
    && Varies(|shards| as real, Mean(shards), SquaredDeviation(shards, Mean(shards)))
  }

  predicate Varies(n: real, mean: real, deviation: real)
    requires n > 0.0
  {
    deviation / n > 0.09 * mean * mean
  }

  /** Conversion to an integer drops the fraction. */
  function Truncate(x: real): int { if x >= 0.0 then x.Floor else -((-x).Floor) }

  function IdealCount(sizeGb: real, cfg: Settings): int
    requires cfg.idealMax > 0.0
  {
    Truncate(sizeGb / cfg.idealMax) + 1
  }

  function Max(a: int, b: int): int { if a > b then a else b }

  // ---------------------------------------------------------------- detectors

  function DetectOverSharded(idx: Index, cfg: Settings): (found: Option<Opportunity>)
    requires cfg.idealMax > 0.0
    ensures found.Some? ==> found.value.kind == Kind.OverSharded
  {
    if idx.sizeGb < cfg.tinyMax && idx.primaries > cfg.tinyLimit then
      Some(Opportunity(Kind.OverSharded, (idx.primaries - 1) * (1 + idx.replicas), 1))
    else if Mean(idx.shards) < cfg.idealMin && idx.primaries > 1 then
      var ideal := Max(1, IdealCount(idx.sizeGb, cfg));
      if ideal < idx.primaries
      then Some(Opportunity(Kind.OverSharded, (idx.primaries - ideal) * (1 + idx.replicas), ideal)) else None
    else None
  }

  function DetectUnderSharded(idx: Index, cfg: Settings): (found: Option<Opportunity>)
    requires cfg.idealMax > 0.0
    ensures found.Some? ==> found.value.kind == Kind.UnderSharded
  {
    if Largest(idx.shards) > cfg.idealMax then
      var ideal := Max(idx.primaries, IdealCount(idx.sizeGb, cfg));
      if ideal > idx.primaries then Some(Opportunity(Kind.UnderSharded, 0, ideal)) else None
    else None
  }

  function DetectFragmented(idx: Index, cfg: Settings): (found: Option<Opportunity>)
    ensures found.Some? ==> found.value.kind == Fragmented
  {
    if MostSegments(idx.shards) > cfg.maxSegments && idx.open then Some(Opportunity(Fragmented, 0, idx.primaries))
    else None
  }

  function DetectDeletedDocs(idx: Index): (found: Option<Opportunity>)
    ensures found.Some? ==> found.value.kind == Kind.DeletedDocs
  {
    if HasDeletedDocs(idx) && idx.open then Some(Opportunity(Kind.DeletedDocs, 0, idx.primaries)) else None
  }

  function DetectImbalanced(idx: Index): (found: Option<Opportunity>)
    ensures found.Some? ==> found.value.kind == Imbalanced
  {
    if Uneven(idx.shards) && idx.primaries > 1 then Some(Opportunity(Imbalanced, 0, idx.primaries)) else None
  }

  function Add(opps: seq<Opportunity>, found: Option<Opportunity>): seq<Opportunity> {
    if found.None? then opps else opps + [found.value]
  }

  function Collect(over: Option<Opportunity>, under: Option<Opportunity>, fragmented: Option<Opportunity>,
                   deleted: Option<Opportunity>, imbalanced: Option<Opportunity>): seq<Opportunity> {
    Add(Add(Add(Add(Add([], over), under), fragmented), deleted), imbalanced)
  }

  /** All opportunities of one index, in the order the detectors run. */
  function Opportunities(idx: Index, cfg: Settings): seq<Opportunity>
    requires cfg.idealMax > 0.0
  {
    Collect(DetectOverSharded(idx, cfg), DetectUnderSharded(idx, cfg), DetectFragmented(idx, cfg),
            DetectDeletedDocs(idx), DetectImbalanced(idx))
  }

  predicate HasDeletedDocs(idx: Index) {
    var total := idx.docs + idx.deleted;
    total > 0 && idx.deleted as real / total as real >= 0.2
  }

  // ---------------------------------------------------------------- floor division

  lemma RealMulLe(a: real, b: real, c: real)
    requires a <= b && c >= 0.0
    ensures a * c <= b * c
  {
    assert b * c - a * c == (b - a) * c;
  }

  lemma RealMulLt(a: real, b: real, c: real)
    requires a < b && c > 0.0
    ensures a * c < b * c
  {
    assert b * c - a * c == (b - a) * c;
  }

  /** The ideal count is the least number of shards that keeps the mean strictly under the maximum. */
  lemma IdealCountBounds(sizeGb: real, cfg: Settings)
    requires cfg.idealMax > 0.0 && sizeGb >= 0.0
    ensures var q := IdealCount(sizeGb, cfg);
            q >= 1 && (q - 1) as real * cfg.idealMax <= sizeGb < q as real * cfg.idealMax
  {
    var d := sizeGb / cfg.idealMax;
    DivisionUndone(sizeGb, cfg.idealMax);
    NonNegative(d, cfg.idealMax, sizeGb);
    var q := IdealCount(sizeGb, cfg);
    assert q as real == d.Floor as real + 1.0 && (q - 1) as real == d.Floor as real;
    Sandwich((q - 1) as real, d, q as real, cfg.idealMax, sizeGb);
  }

  lemma NonNegative(d: real, c: real, product: real)
    requires c > 0.0 && product >= 0.0 && d * c == product
    ensures d >= 0.0
  {
    if d < 0.0 { RealMulLt(d, 0.0, c); }
  }

  lemma Sandwich(low: real, d: real, high: real, c: real, product: real)
    requires low <= d < high && c > 0.0 && d * c == product
    ensures low * c <= product < high * c
  {
    RealMulLe(low, d, c);
    RealMulLt(d, high, c);
  }

  lemma BelowProduct(a: real, b: real, c: real, value: real)
    requires a <= b && c > 0.0 && value < a * c
    ensures value < b * c
  {
    RealMulLe(a, b, c);
  }

  lemma IdealCountCovers(sizeGb: real, n: int, cfg: Settings)
    requires cfg.idealMax > 0.0 && sizeGb >= 0.0 && n >= IdealCount(sizeGb, cfg)
    ensures n >= 1 && sizeGb < n as real * cfg.idealMax && sizeGb / (n as real) < cfg.idealMax
  {
    IdealCountBounds(sizeGb, cfg);
    BelowProduct(IdealCount(sizeGb, cfg) as real, n as real, cfg.idealMax, sizeGb);
    MeanBelow(sizeGb, n, cfg.idealMax);
  }

  /** The bounds determine the ideal count. */
  lemma IdealCountIs(sizeGb: real, n: int, cfg: Settings)
    requires cfg.idealMax > 0.0 && n >= 0
    requires n as real * cfg.idealMax <= sizeGb < (n + 1) as real * cfg.idealMax
    ensures IdealCount(sizeGb, cfg) == n + 1
  {
    RealMulLe(0.0, n as real, cfg.idealMax);
    var q := IdealCount(sizeGb, cfg);
    if q > n + 1 { RoomWithin(n + 1, sizeGb, cfg); }
    if q <= n { IdealCountCovers(sizeGb, n, cfg); }
  }

  lemma DivisionUndone(a: real, b: real)
    requires b > 0.0
    ensures (a / b) * b == a
  {
  }

  lemma {:induction false} LargestIsMaximum(shards: seq<Primary>)
    requires shards != []
    ensures forall s :: s in shards ==> s.gb <= Largest(shards)
    ensures exists s :: s in shards && s.gb == Largest(shards)
  {
    var last := shards[|shards| - 1];
    if |shards| > 1 {
      LargestIsMaximum(shards[..|shards| - 1]);
      assert forall s :: s in shards ==> s in shards[..|shards| - 1] || s == last;
    }
    assert last in shards;
  }

  // ---------------------------------------------------------------- what the advice is good for

  /** A reduction that is advised gets past the executor's guard: the snapped count is the largest
      proper divisor up to the target, and saves at least the estimated shards. */
  lemma AdvisedShrinkIsExecutable(idx: Index, cfg: Settings)
    requires cfg.idealMax > 0.0 && cfg.tinyLimit >= 1 && idx.primaries >= 1 && idx.replicas >= 0
    requires DetectOverSharded(idx, cfg).Some?
    ensures var o := DetectOverSharded(idx, cfg).value;
            var f := ShardFactors.LargestFactor(idx.primaries, o.target);
            && idx.primaries > 1 && 1 <= o.target < idx.primaries
            && 1 <= f < idx.primaries && f <= o.target && idx.primaries % f == 0
            && (forall d :: 1 <= d < idx.primaries && d <= o.target && idx.primaries % d == 0 ==> d <= f)
            && (idx.primaries - f) * (1 + idx.replicas) >= o.wasted
  {
    var o := DetectOverSharded(idx, cfg).value;
    ShardFactors.LargestFactorIsGreatestDivisor(idx.primaries, o.target);
    var f := ShardFactors.LargestFactor(idx.primaries, o.target);
    assert o.wasted == (idx.primaries - o.target) * (1 + idx.replicas);
    ShardFactors.MulOrder(1 + idx.replicas, idx.primaries - o.target, idx.primaries - f);
  }

  /** A split that is advised gets past its guard: the snapped count is the least multiple that
      reaches the target, and brings the mean shard under the ideal maximum. */
  lemma AdvisedSplitIsExecutable(idx: Index, cfg: Settings, k: nat)
    requires cfg.idealMax > 0.0 && idx.primaries >= 1 && idx.sizeGb >= 0.0
    requires DetectUnderSharded(idx, cfg).Some?
    ensures var o := DetectUnderSharded(idx, cfg).value;
            var m := ShardFactors.SmallestMultiple(idx.primaries, o.target);
            && m > idx.primaries && m >= o.target && m % idx.primaries == 0
            && (k >= 1 && idx.primaries * k >= o.target ==> m <= idx.primaries * k)
            && idx.sizeGb / (m as real) < cfg.idealMax
  {
    var o := DetectUnderSharded(idx, cfg).value;
    var m := ShardFactors.SmallestMultiple(idx.primaries, o.target);
    ShardFactors.SmallestMultipleIsLeast(idx.primaries, o.target, k);
    IdealCountCovers(idx.sizeGb, m, cfg);
  }

  /** Comparing a mean with a threshold, without the division. */
  lemma MeanBelow(sizeGb: real, n: int, threshold: real)
    requires n >= 1
    ensures sizeGb / (n as real) < threshold <==> sizeGb < n as real * threshold
    ensures sizeGb / (n as real) > threshold <==> sizeGb > n as real * threshold
  {
    var mean := sizeGb / (n as real);
    assert mean * (n as real) == sizeGb;
    assert threshold * (n as real) == n as real * threshold;
    if mean < threshold { RealMulLt(mean, threshold, n as real); }
    if threshold < mean { RealMulLt(threshold, mean, n as real); }
  }

  /** Both a shrink and a split for one index: only the tiny-index rule can clash with the split. */
  lemma BothNeedsTinyRule(idx: Index, cfg: Settings)
    requires cfg.idealMax > 0.0 && cfg.tinyLimit >= 1 && idx.primaries >= 1 && idx.sizeGb >= 0.0
    requires DetectOverSharded(idx, cfg).Some? && DetectUnderSharded(idx, cfg).Some?
    ensures (cfg.tinyLimit + 1) as real * cfg.idealMax < cfg.tinyMax
  {
    assert IdealCount(idx.sizeGb, cfg) > idx.primaries;
    assert idx.sizeGb < cfg.tinyMax && idx.primaries > cfg.tinyLimit;
    RoomWithin(cfg.tinyLimit + 1, idx.sizeGb, cfg);
  }

  lemma RoomWithin(n: int, sizeGb: real, cfg: Settings)
    requires cfg.idealMax > 0.0 && sizeGb >= 0.0 && n < IdealCount(sizeGb, cfg)
    ensures n as real * cfg.idealMax <= sizeGb
  {
    IdealCountBounds(sizeGb, cfg);
    RealMulLe(n as real, (IdealCount(sizeGb, cfg) - 1) as real, cfg.idealMax);
  }

  function Copies(n: nat, gb: real): seq<Primary> {
    if n == 0 then [] else Copies(n - 1, gb) + [Primary(gb, 1)]
  }

  lemma {:induction false} CopiesFacts(n: nat, gb: real)
    ensures |Copies(n, gb)| == n && forall i :: 0 <= i < n ==> Copies(n, gb)[i] == Primary(gb, 1)
  {
    if n > 0 { CopiesFacts(n - 1, gb); }
  }

  lemma {:induction false} SumOfEqual(shards: seq<Primary>, gb: real)
    requires forall s :: s in shards ==> s.gb == gb
    ensures Sum(shards) == |shards| as real * gb
  {
    if shards != [] {
      SumOfEqual(shards[..|shards| - 1], gb);
      OneMore(|shards|, gb);
    }
  }

  lemma OneMore(n: int, gb: real)
    ensures n as real * gb == (n - 1) as real * gb + gb
  {
    assert n as real == (n - 1) as real + 1.0;
  }

  lemma {:induction false} LargestOfEqual(shards: seq<Primary>, gb: real)
    requires shards != [] && forall s :: s in shards ==> s.gb == gb
    ensures Largest(shards) == gb
  {
    if |shards| > 1 { LargestOfEqual(shards[..|shards| - 1], gb); }
  }

  /** An index of `count` equal primaries that add up to its size. */
  function EvenIndex(sizeGb: real, count: nat): Index
    requires count >= 1
  {
    Index("even", true, count, 0, 0, 0, sizeGb, Copies(count, sizeGb / (count as real)))
  }

  lemma EvenIndexFacts(sizeGb: real, count: nat)
    requires count >= 1
    ensures var idx := EvenIndex(sizeGb, count);
            && |idx.shards| == count && Sum(idx.shards) == sizeGb
            && Mean(idx.shards) == sizeGb / (count as real) && Largest(idx.shards) == sizeGb / (count as real)
  {
    var each := sizeGb / (count as real);
    CopiesFacts(count, each);
    var shards := Copies(count, each);
    SumOfEqual(shards, each);
    LargestOfEqual(shards, each);
    DivisionUndone(sizeGb, count as real);
    assert count as real * each == each * count as real;
  }

  /** Shrink and split are never advised together, for any index, exactly when the tiny-index bound
      does not exceed the room of one shard more than the tiny limit. */
  lemma NeverBothIff(cfg: Settings)
    requires cfg.idealMax > 0.0 && cfg.tinyLimit >= 1
    ensures (forall idx: Index :: idx.primaries >= 1 && idx.sizeGb >= 0.0 ==>
               DetectOverSharded(idx, cfg).None? || DetectUnderSharded(idx, cfg).None?)
            <==> cfg.tinyMax <= (cfg.tinyLimit + 1) as real * cfg.idealMax
  {
    var room := (cfg.tinyLimit + 1) as real * cfg.idealMax;
    if cfg.tinyMax <= room {
      forall idx: Index | idx.primaries >= 1 && idx.sizeGb >= 0.0
        ensures DetectOverSharded(idx, cfg).None? || DetectUnderSharded(idx, cfg).None?
      {
        if DetectOverSharded(idx, cfg).Some? && DetectUnderSharded(idx, cfg).Some? { BothNeedsTinyRule(idx, cfg); }
      }
    } else {
      var size := (room + cfg.tinyMax) / 2.0;
      var count := cfg.tinyLimit + 1;
      var idx := EvenIndex(size, count);
      EvenIndexFacts(size, count);
      RealMulLe(0.0, count as real, cfg.idealMax);
      IdealCountBounds(size, cfg);
      MeanBelow(size, count, cfg.idealMax);
      var q := IdealCount(size, cfg);
      if q <= count { RealMulLe(q as real, count as real, cfg.idealMax); }
      assert DetectOverSharded(idx, cfg).Some? && DetectUnderSharded(idx, cfg).Some?;
      assert idx.primaries >= 1 && idx.sizeGb >= 0.0;
    }
  }
}
