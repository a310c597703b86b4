/** Snapping a requested shard count to one that Elasticsearch accepts: `_shrink` needs a proper
    divisor of the current count, `_split` a multiple of it. */
module ShardFactors {

  /** The first divisor of `current` met when counting down from `n`. */
  function FactorFrom(current: int, n: int): (factor: int)
    ensures factor >= 1
    decreases n
  {
    if n < 1 then 1 else if current % n == 0 then n else FactorFrom(current, n - 1)
  }

  function Min(a: int, b: int): int { if a < b then a else b }

  function LargestFactor(current: int, target: int): nat { FactorFrom(current, Min(target, current - 1)) }

  method LargestFactorLe(current: int, target: int) returns (factor: int)
    ensures factor == LargestFactor(current, target)
  {
    var n := Min(target, current - 1);
    while n > 0
      invariant FactorFrom(current, n) == LargestFactor(current, target)
      decreases n
    {
      if current % n == 0 { return n; }
      n := n - 1;
    }
    return 1;
  }

  lemma {:induction false} FactorFromIsLargest(current: int, n: int)
    requires n >= 1
    ensures 1 <= FactorFrom(current, n) <= n && current % FactorFrom(current, n) == 0
    ensures forall d :: FactorFrom(current, n) < d <= n ==> current % d != 0
  {
    if current % n != 0 && n > 1 { FactorFromIsLargest(current, n - 1); }
  }

  /** Whenever the executor's guard lets a reduction through, the snapped count is the greatest
      proper divisor that does not exceed the request; a request below one is answered with one. */
  lemma LargestFactorIsGreatestDivisor(current: int, target: int)
    requires current > 1
    ensures var f := LargestFactor(current, target);
            && 1 <= f < current && (if target < 1 then f == 1 else f <= target) && current % f == 0
            && forall d :: 1 <= d < current && d <= target && current % d == 0 ==> d <= f
  {
    if target >= 1 { FactorFromIsLargest(current, Min(target, current - 1)); }
  }

  function SmallestMultiple(current: nat, targetMin: int): (multiple: int)
    requires current > 0 || targetMin <= current
    ensures multiple >= current && multiple >= targetMin
  {
    if targetMin <= current then current
    else
      CeilDivision(current, targetMin);
      var times := -(-targetMin / current);
      current * times
  }

  lemma CeilDivision(current: int, targetMin: int)
    requires current > 0
    ensures var times := -(-targetMin / current);
            current * times >= targetMin && current * (times - 1) < targetMin
  {
    var q := -targetMin / current;
    assert current * q <= -targetMin < current * q + current;
    assert current * -q == -(current * q);
    assert current * (-q - 1) == -(current * q) - current;
  }

  /** The snapped split count is the least positive multiple that reaches the request. */
  lemma SmallestMultipleIsLeast(current: nat, targetMin: int, k: nat)
    requires current > 0
    ensures var m := SmallestMultiple(current, targetMin);
            && m >= targetMin && m >= current && m % current == 0
            && (m == current || m - current < targetMin)
            && (k >= 1 && current * k >= targetMin ==> m <= current * k)
  {
    var m := SmallestMultiple(current, targetMin);
    if targetMin <= current {
      MulOrder(current, 1, k);
      DivModUnique(current, current, 1, 0);
    } else {
      CeilDivision(current, targetMin);
      var times := -(-targetMin / current);
      MulOrder(current, 1, times);
      assert current * (times - 1) == m - current;
      DivModUnique(m, current, times, 0);
      if k < times { MulOrder(current, k, times - 1); } else { MulOrder(current, times, k); }
    }
  }

  lemma {:induction false} MulAtLeast(d: int, k: int)
    requires d > 0 && k >= 1
    ensures d * k >= d
  {
    if k > 1 {
      MulAtLeast(d, k - 1);
      assert d * k == d * (k - 1) + d;
    }
  }

  lemma MulGrows(d: int, a: int, b: int)
    requires d > 0 && a < b
    ensures d * a + d <= d * b
  {
    MulAtLeast(d, b - a);
    assert d * (b - a) == d * b - d * a;
  }

  lemma MulOrder(d: int, a: int, b: int)
    requires d > 0
    ensures a <= b <==> d * a <= d * b
    ensures a < b ==> d * a + d <= d * b
  {
    if a < b { MulGrows(d, a, b); }
    if b < a { MulGrows(d, b, a); }
  }

  lemma DivModUnique(n: int, d: int, q: int, r: int)
    requires d > 0 && n == d * q + r && 0 <= r < d
    ensures n / d == q && n % d == r
  {
    var q' := n / d;
    assert n == d * q' + n % d;
    MulOrder(d, q, q');
    MulOrder(d, q', q);
  }
}
