/** What the analysis of an index finds, in terms of its figures alone: no mean, no maximum, no ideal
    count, no division. */
module Findings {
  import opened Options
  import opened Analyzer
  import opened Analysis
  import Recommender
  import JobTable

  // ---------------------------------------------------------------- the figures

  /** The least positive number of shards with room for the size. */
  predicate LeastRoom(sizeGb: real, n: int, cfg: Settings) {
    n >= 1 && sizeGb < n as real * cfg.idealMax && (n > 1 ==> (n - 1) as real * cfg.idealMax <= sizeGb)
  }

  predicate Tiny(idx: Index, cfg: Settings) { idx.primaries > cfg.tinyLimit && idx.sizeGb < cfg.tinyMax }

  /** The shards are small on average, and one shard fewer still has room for the whole index. */
  predicate Sparse(idx: Index, cfg: Settings) {
    && idx.primaries > 1 && idx.sizeGb < (idx.primaries - 1) as real * cfg.idealMax
    && (if idx.shards == [] then 0.0 < cfg.idealMin else Sum(idx.shards) < |idx.shards| as real * cfg.idealMin)
  }

  function SumOfSquares(shards: seq<Primary>): real {
    if shards == [] then 0.0
    else SumOfSquares(shards[..|shards| - 1]) + Square(shards[|shards| - 1].gb)
  }

  /** The mean square exceeds the square of the mean by more than nine percent. */
  predicate SquaresApart(n: real, total: real, squares: real) { n * squares > 1.09 * Square(total) }

  /** Exactly when each opportunity is found, and with which figures. */
  ghost predicate Finds(idx: Index, cfg: Settings, o: Opportunity) {
    match o.kind
    case OverSharded =>
      && (Tiny(idx, cfg) || Sparse(idx, cfg))
      && (if Tiny(idx, cfg) then o.target == 1 else LeastRoom(idx.sizeGb, o.target, cfg))
      && o.wasted == (idx.primaries - o.target) * (1 + idx.replicas)
    case UnderSharded =>
      && (exists s :: s in idx.shards && s.gb > cfg.idealMax)
      && idx.sizeGb >= idx.primaries as real * cfg.idealMax
      && LeastRoom(idx.sizeGb, o.target, cfg) && o.wasted == 0
    case Fragmented =>
      && idx.open
      && (if idx.shards == [] then 0 > cfg.maxSegments
          else exists s :: s in idx.shards && s.segments > cfg.maxSegments)
      && o.target == idx.primaries && o.wasted == 0
    case DeletedDocs =>
      && idx.open && idx.docs + idx.deleted > 0 && 4 * idx.deleted >= idx.docs
      && o.target == idx.primaries && o.wasted == 0
    case Imbalanced =>
      && idx.primaries > 1 && |idx.shards| > 1 && Sum(idx.shards) > 0.0
      && SquaresApart(|idx.shards| as real, Sum(idx.shards), SumOfSquares(idx.shards))
      && o.target == idx.primaries && o.wasted == 0
  }

  // ---------------------------------------------------------------- the detectors

  /** The clipped ideal count is the least one with room, for any size. */
  lemma IdealIsLeastRoom(sizeGb: real, cfg: Settings, n: int)
    requires cfg.idealMax > 0.0
    ensures LeastRoom(sizeGb, n, cfg) <==> n == Max(1, IdealCount(sizeGb, cfg))
  {
    if sizeGb >= 0.0 {
      IdealCountBounds(sizeGb, cfg);
      if LeastRoom(sizeGb, n, cfg) { IdealCountIs(sizeGb, n - 1, cfg); }
    } else {
      NegativeSize(sizeGb, cfg);
      if n > 1 { RealMulLe(0.0, (n - 1) as real, cfg.idealMax); }
    }
  }

  lemma NegativeSize(sizeGb: real, cfg: Settings)
    requires cfg.idealMax > 0.0 && sizeGb < 0.0
    ensures IdealCount(sizeGb, cfg) <= 1
  {
    var d := sizeGb / cfg.idealMax;
    DivisionUndone(sizeGb, cfg.idealMax);
    if d >= 0.0 { RealMulLe(0.0, d, cfg.idealMax); }
  }

  lemma AtLeastProduct(a: real, b: real, c: real, value: real)
    requires a <= b && c > 0.0 && value >= b * c
    ensures !(value < a * c)
  {
    RealMulLe(a, b, c);
  }

  lemma RoomIff(sizeGb: real, n: int, cfg: Settings)
    requires cfg.idealMax > 0.0 && n >= 1
    ensures sizeGb < n as real * cfg.idealMax <==> Max(1, IdealCount(sizeGb, cfg)) <= n
  {
    var q := Max(1, IdealCount(sizeGb, cfg));
    IdealIsLeastRoom(sizeGb, cfg, q);
    if q <= n {
      BelowProduct(q as real, n as real, cfg.idealMax, sizeGb);
    } else {
      AtLeastProduct(n as real, (q - 1) as real, cfg.idealMax, sizeGb);
    }
  }

  lemma MeanBelowIff(shards: seq<Primary>, threshold: real)
    ensures Mean(shards) < threshold <==>
            if shards == [] then 0.0 < threshold else Sum(shards) < |shards| as real * threshold
  {
    if shards != [] { MeanBelow(Sum(shards), |shards|, threshold); }
  }

  lemma OverShardedIff(idx: Index, cfg: Settings, o: Opportunity)
    requires cfg.idealMax > 0.0
    ensures DetectOverSharded(idx, cfg) == Some(o) <==> o.kind.OverSharded? && Finds(idx, cfg, o)
  {
    MeanBelowIff(idx.shards, cfg.idealMin);
    IdealIsLeastRoom(idx.sizeGb, cfg, o.target);
    if idx.primaries > 1 { RoomIff(idx.sizeGb, idx.primaries - 1, cfg); }
  }

  lemma LargestAboveIff(shards: seq<Primary>, threshold: real)
    requires threshold >= 0.0
    ensures Largest(shards) > threshold <==> exists s :: s in shards && s.gb > threshold
  {
    if shards != [] { LargestIsMaximum(shards); }
  }

  lemma UnderShardedIff(idx: Index, cfg: Settings, o: Opportunity)
    requires cfg.idealMax > 0.0 && idx.primaries >= 0 && idx.sizeGb >= 0.0
    ensures DetectUnderSharded(idx, cfg) == Some(o) <==> o.kind.UnderSharded? && Finds(idx, cfg, o)
  {
    LargestAboveIff(idx.shards, cfg.idealMax);
    IdealIsLeastRoom(idx.sizeGb, cfg, o.target);
    IdealCountBounds(idx.sizeGb, cfg);
    if idx.primaries >= 1 { RoomIff(idx.sizeGb, idx.primaries, cfg); }
  }

  lemma {:induction false} MostSegmentsIsMaximum(shards: seq<Primary>)
    requires shards != []
    ensures forall s :: s in shards ==> s.segments <= MostSegments(shards)
    ensures exists s :: s in shards && s.segments == MostSegments(shards)
  {
    var last := shards[|shards| - 1];
    if |shards| > 1 {
      MostSegmentsIsMaximum(shards[..|shards| - 1]);
      assert forall s :: s in shards ==> s in shards[..|shards| - 1] || s == last;
    }
    assert last in shards;
  }

  lemma FragmentedIff(idx: Index, cfg: Settings, o: Opportunity)
    ensures DetectFragmented(idx, cfg) == Some(o) <==> o.kind.Fragmented? && Finds(idx, cfg, o)
  {
    if idx.shards != [] { MostSegmentsIsMaximum(idx.shards); }
  }

  lemma DeletedDocsIff(idx: Index, cfg: Settings, o: Opportunity)
    ensures DetectDeletedDocs(idx) == Some(o) <==> o.kind.DeletedDocs? && Finds(idx, cfg, o)
  {
    var total := idx.docs + idx.deleted;
    if total > 0 {
      var ratio := idx.deleted as real / total as real;
      assert ratio * total as real == idx.deleted as real;
      if ratio >= 0.2 { RealMulLe(0.2, ratio, total as real); } else { RealMulLt(ratio, 0.2, total as real); }
    }
  }

  /** Squared deviations of `n` numbers from a point, by their sum and the sum of their squares. */
  function Around(n: real, sum: real, squares: real, m: real): real { squares - 2.0 * m * sum + n * Square(m) }

  lemma AroundOneMore(n: real, sum: real, squares: real, gb: real, m: real)
    ensures Around(n + 1.0, sum + gb, squares + Square(gb), m) == Around(n, sum, squares, m) + Square(gb - m)
  {
    assert Square(gb - m) == Square(gb) - 2.0 * m * gb + Square(m);
    assert 2.0 * m * (sum + gb) == 2.0 * m * sum + 2.0 * m * gb;
    assert (n + 1.0) * Square(m) == n * Square(m) + Square(m);
  }

  lemma {:induction false} DeviationFromPoint(shards: seq<Primary>, m: real)
    ensures SquaredDeviation(shards, m) == Around(|shards| as real, Sum(shards), SumOfSquares(shards), m)
  {
    if shards != [] {
      var init, gb := shards[..|shards| - 1], shards[|shards| - 1].gb;
      DeviationFromPoint(init, m);
      AroundOneMore(|init| as real, Sum(init), SumOfSquares(init), gb, m);
      assert |shards| as real == |init| as real + 1.0;
    }
  }

  /** Around the mean, `n` times the deviation needs only the two sums. */
  lemma AroundMean(n: real, total: real, squares: real, m: real)
    requires m * n == total
    ensures n * Around(n, total, squares, m) == n * squares - Square(total)
  {
    assert n * (n * Square(m)) == Square(total) by { assert Square(total) == (m * n) * (m * n); }
    assert n * (2.0 * m * total) == 2.0 * Square(total) by { assert n * (2.0 * m * total) == 2.0 * ((m * n) * total); }
    assert n * Around(n, total, squares, m) == n * squares - n * (2.0 * m * total) + n * (n * Square(m));
  }

  lemma RatioAboveIff(n: real, total: real, m: real, deviation: real)
    requires n > 0.0 && m * n == total
    ensures Varies(n, m, deviation) <==> n * deviation > 0.09 * Square(total)
  {
    var variance := deviation / n;
    var bound := 0.09 * m * m;
    assert variance * n == deviation;
    assert n * deviation == variance * (n * n);
    assert 0.09 * Square(total) == bound * (n * n) by { assert (m * n) * (m * n) == (m * m) * (n * n); }
    assert n * n > 0.0;
    if variance > bound { RealMulLt(bound, variance, n * n); } else { RealMulLe(variance, bound, n * n); }
  }

  lemma VariationIff(n: real, total: real, squares: real, m: real)
    requires n > 0.0 && m * n == total
    ensures Varies(n, m, Around(n, total, squares, m)) <==> SquaresApart(n, total, squares)
  {
    AroundMean(n, total, squares, m);
    RatioAboveIff(n, total, m, Around(n, total, squares, m));
  }

  lemma UnevenIff(shards: seq<Primary>)
    ensures Uneven(shards) <==>
            && |shards| > 1 && Sum(shards) > 0.0
            && SquaresApart(|shards| as real, Sum(shards), SumOfSquares(shards))
  {
    if |shards| > 1 {
      var m := Mean(shards);
      DivisionUndone(Sum(shards), |shards| as real);
      DeviationFromPoint(shards, m);
      VariationIff(|shards| as real, Sum(shards), SumOfSquares(shards), m);
    }
  }

  lemma ImbalancedIff(idx: Index, cfg: Settings, o: Opportunity)
    ensures DetectImbalanced(idx) == Some(o) <==> o.kind.Imbalanced? && Finds(idx, cfg, o)
  {
    UnevenIff(idx.shards);
  }

  // ---------------------------------------------------------------- the whole analysis

  lemma InAdd(opps: seq<Opportunity>, found: Option<Opportunity>, o: Opportunity)
    ensures o in Analyzer.Add(opps, found) <==> o in opps || found == Some(o)
  {
  }

  lemma InCollect(over: Option<Opportunity>, under: Option<Opportunity>, fragmented: Option<Opportunity>,
                  deleted: Option<Opportunity>, imbalanced: Option<Opportunity>, o: Opportunity)
    ensures o in Collect(over, under, fragmented, deleted, imbalanced) <==>
            over == Some(o) || under == Some(o) || fragmented == Some(o) || deleted == Some(o) || imbalanced == Some(o)
  {
    var a := Analyzer.Add([], over);
    var b := Analyzer.Add(a, under);
    var c := Analyzer.Add(b, fragmented);
    var d := Analyzer.Add(c, deleted);
    InAdd([], over, o);
    InAdd(a, under, o);
    InAdd(b, fragmented, o);
    InAdd(c, deleted, o);
    InAdd(d, imbalanced, o);
  }

  /** An index is reported with an opportunity exactly when its figures say so. */
  lemma FoundIff(idx: Index, cfg: Settings, o: Opportunity)
    requires cfg.idealMax > 0.0 && idx.primaries >= 0 && idx.sizeGb >= 0.0
    ensures o in Opportunities(idx, cfg) <==> Finds(idx, cfg, o)
  {
    InCollect(DetectOverSharded(idx, cfg), DetectUnderSharded(idx, cfg), DetectFragmented(idx, cfg),
              DetectDeletedDocs(idx), DetectImbalanced(idx), o);
    OverShardedIff(idx, cfg, o);
    UnderShardedIff(idx, cfg, o);
    FragmentedIff(idx, cfg, o);
    DeletedDocsIff(idx, cfg, o);
    ImbalancedIff(idx, cfg, o);
  }

  // ---------------------------------------------------------------- from figures to jobs

  /** The opportunity behind a suggestion. */
  function Behind(s: JobTable.Suggestion): Option<Opportunity> {
    match s.jobType
    case ReduceShards => Some(Opportunity(OverSharded, s.advice.savings, s.advice.targetShards))
    case SplitShards => Some(Opportunity(UnderSharded, s.advice.savings, s.advice.targetShards))
    case ForceMerge => Some(Opportunity(Fragmented, s.advice.savings, s.advice.targetShards))
    case ExpungeDeletes => Some(Opportunity(DeletedDocs, s.advice.savings, s.advice.targetShards))
    case _ => None
  }

  /** The tier of a job: how far-reaching it is, and a small shrink less than a big one. */
  function TierOf(jobType: JobTable.JobType, sizeGb: real): int {
    if jobType.ReduceShards? && sizeGb < 0.5 then 3
    else if jobType.ReduceShards? || jobType.SplitShards? then 4
    else 2
  }

  predicate CarriesFigures(s: JobTable.Suggestion, idx: Index) {
    && s.index == idx.name && s.advice.tier == TierOf(s.jobType, idx.sizeGb)
    && s.advice.currentShards == idx.primaries && s.advice.replicas == idx.replicas
    && s.advice.priStoreGb == idx.sizeGb && s.advice.docCount == idx.docs
  }

  lemma SuggestIff(idx: Index, o: Opportunity, s: JobTable.Suggestion)
    ensures Recommender.Suggest(idx, o) == Some(s) <==> Behind(s) == Some(o) && CarriesFigures(s, idx)
  {
  }

  /** A job is suggested exactly when the figures of a visible index call for it, with those figures. */
  lemma SuggestedIff(rows: seq<IndexRow>, shards: seq<ShardRow>, cfg: Settings, s: JobTable.Suggestion)
    requires cfg.idealMax > 0.0
    requires Named(rows, s.index) ==>
               var idx := Described(rows, shards, s.index); idx.primaries >= 0 && idx.sizeGb >= 0.0
    ensures s in Recommender.Fresh(rows, shards, cfg) <==>
            && Named(rows, s.index) && !Hidden(s.index)
            && var idx := Described(rows, shards, s.index);
               CarriesFigures(s, idx) && Behind(s).Some? && Finds(idx, cfg, Behind(s).value)
  {
    Recommender.FreshExact(rows, shards, cfg, s);
    if Named(rows, s.index) {
      var idx := Described(rows, shards, s.index);
      forall o ensures Recommender.Suggest(idx, o) == Some(s) <==> Behind(s) == Some(o) && CarriesFigures(s, idx) {
        SuggestIff(idx, o, s);
      }
      if Behind(s).Some? { FoundIff(idx, cfg, Behind(s).value); }
    }
  }
}
