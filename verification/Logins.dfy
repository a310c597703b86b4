/**
 Logins that overlap: each consults the throttle when it begins and records its verdict when it
 ends, and between the two anything may happen to this key or to others.
 */
module Logins {
  import opened Throttle = LoginThrottle

  /** Attempts are told apart by a number. */
  datatype Step = Begin(attempt: nat, key: string, at: real) | End(attempt: nat, at: real, verdict: Verdict)

  /** The throttle's history, and the attempts that were let through and are not over. */
  datatype State = State(history: seq<Event>, open: map<nat, string>)

  datatype Limits = Limits(maxFailures: nat, window: real)

  function Take(s: State, step: Step, limits: Limits): State {
    match step
    case Begin(attempt, key, at) =>
      if attempt in s.open then s
      else
        var blocked := InWindowNow(s.history, key, at, limits.window) >= limits.maxFailures;
        State(s.history + [Checked(key, at)], if blocked then s.open else s.open[attempt := key])
    case End(attempt, at, verdict) =>
      if attempt !in s.open then s
      else State(s.history + Closing(s.open[attempt], at, verdict), s.open - {attempt})
  }

  function After(steps: seq<Step>, limits: Limits): State {
    if steps == [] then State([], map[]) else Take(After(steps[..|steps| - 1], limits), steps[|steps| - 1], limits)
  }

  /** The clock never goes back, whatever keys the steps are for. */
  predicate Ticking(steps: seq<Step>, now: real) {
    steps == [] || (steps[|steps| - 1].at <= now && Ticking(steps[..|steps| - 1], steps[|steps| - 1].at))
  }

  function OpenFor(s: State, key: string): set<nat> { set a | a in s.open && s.open[a] == key }

  /** Never more than `c` attempts of the key are open; nothing is asked of other keys. */
  predicate AtMostOpen(steps: seq<Step>, limits: Limits, key: string, c: nat) {
    |OpenFor(After(steps, limits), key)| <= c && (steps == [] || AtMostOpen(steps[..|steps| - 1], limits, key, c))
  }

  // ---------------------------------------------------------------- the bound

  /** The failures of a key in the closed window from `low` on. */
  function FailuresFrom(steps: seq<Step>, limits: Limits, key: string, low: real): nat {
    FailuresIn(After(steps, limits).history, key, low, low + limits.window)
  }

  /** Failures in the window that ends now, and attempts that may still add to them. */
  function Pressure(s: State, key: string, now: real, limits: Limits): nat {
    InWindowNow(s.history, key, now, limits.window) + |OpenFor(s, key)|
  }

  predicate Bounded(s: State, key: string, now: real, limits: Limits, c: nat) {
    && Paced(LogAfter(s.history, key), now, limits.maxFailures + c, limits.window)
    && Pressure(s, key, now, limits) <= limits.maxFailures + c
  }

  lemma OpenedOne(s: State, attempt: nat, key: string, k: string)
    requires attempt !in s.open
    ensures OpenFor(s.(open := s.open[attempt := k]), key)
            == if k == key then OpenFor(s, key) + {attempt} else OpenFor(s, key)
  {
  }

  lemma ClosedOne(s: State, attempt: nat, key: string)
    requires attempt in s.open
    ensures var after := s.(open := s.open - {attempt});
            OpenFor(after, key) == if s.open[attempt] == key then OpenFor(s, key) - {attempt} else OpenFor(s, key)
    ensures s.open[attempt] == key ==> attempt in OpenFor(s, key)
  {
  }

  lemma BoundedLater(s: State, key: string, now: real, later: real, limits: Limits, c: nat)
    requires Bounded(s, key, now, limits, c) && now <= later
    ensures Bounded(s, key, later, limits, c)
  {
    PacedLater(LogAfter(s.history, key), now, later, limits.maxFailures + c, limits.window);
    LaterCutoffKeepsFewer(LogAfter(s.history, key), now - limits.window, later - limits.window);
  }

  lemma BeginKeepsBounded(s: State, step: Step, key: string, limits: Limits, c: nat)
    requires step.Begin? && Bounded(s, key, step.at, limits, c)
    requires |OpenFor(Take(s, step, limits), key)| <= c + 1
    ensures Bounded(Take(s, step, limits), key, step.at, limits, c)
  {
    if step.attempt !in s.open {
      LogSnoc(s.history, Checked(step.key, step.at), key);
      OpenedOne(s, step.attempt, key, step.key);
    }
  }

  /** An open attempt that fails turns from one that may add into one that has added. */
  lemma OneMoreFailed(times: seq<real>, now: real, limit: nat, window: real, open: nat)
    requires Paced(times, now, limit, window) && open >= 1 && |Recent(times, now - window)| + open <= limit
    ensures Paced(times + [now], now, limit, window) && |Recent(times + [now], now - window)| + (open - 1) <= limit
  {
    RecentSnoc(times, now, now - window);
    var longer := times + [now];
    assert longer[..|longer| - 1] == times && longer[|longer| - 1] == now;
  }

  lemma EndKeepsBounded(s: State, step: Step, key: string, limits: Limits, c: nat)
    requires step.End? && step.attempt in s.open && s.open[step.attempt] == key && Bounded(s, key, step.at, limits, c)
    ensures Bounded(Take(s, step, limits), key, step.at, limits, c)
  {
    ClosedOne(s, step.attempt, key);
    var open := |OpenFor(s, key)|;
    assert |OpenFor(Take(s, step, limits), key)| == open - 1;
    match step.verdict {
      case WrongCredentials =>
        LogSnoc(s.history, Failed(key, step.at), key);
        OneMoreFailed(LogAfter(s.history, key), step.at, limits.maxFailures + c, limits.window, open);
      case Deactivated =>
        assert s.history + [] == s.history;
      case Accepted =>
        LogSnoc(s.history, Cleared(key), key);
    }
  }

  lemma OtherKeepsBounded(s: State, step: Step, key: string, limits: Limits, c: nat)
    requires step.End? && (step.attempt in s.open ==> s.open[step.attempt] != key)
    requires Bounded(s, key, step.at, limits, c)
    ensures Bounded(Take(s, step, limits), key, step.at, limits, c)
  {
    if step.attempt in s.open {
      var k := s.open[step.attempt];
      ClosedOne(s, step.attempt, key);
      match step.verdict {
        case WrongCredentials => LogSnoc(s.history, Failed(k, step.at), key);
        case Deactivated => assert s.history + [] == s.history;
        case Accepted => LogSnoc(s.history, Cleared(k), key);
      }
    }
  }

  lemma TakeKeepsBounded(s: State, step: Step, key: string, limits: Limits, c: nat)
    requires Bounded(s, key, step.at, limits, c) && |OpenFor(Take(s, step, limits), key)| <= c + 1
    ensures Bounded(Take(s, step, limits), key, step.at, limits, c)
  {
    if step.Begin? { BeginKeepsBounded(s, step, key, limits, c); }
    else if step.attempt in s.open && s.open[step.attempt] == key { EndKeepsBounded(s, step, key, limits, c); }
    else { OtherKeepsBounded(s, step, key, limits, c); }
  }

  /** Every recorded failure closes a window with at most the permitted number and one more for each
      further attempt that may be open. */
  lemma {:induction false} LoginsArePaced(steps: seq<Step>, now: real, limits: Limits, key: string, c: nat, others: nat)
    requires Ticking(steps, now) && c == others + 1 && AtMostOpen(steps, limits, key, c)
    ensures Bounded(After(steps, limits), key, now, limits, others)
  {
    if steps != [] {
      var init, step := steps[..|steps| - 1], steps[|steps| - 1];
      LoginsArePaced(init, step.at, limits, key, c, others);
      TakeKeepsBounded(After(init, limits), step, key, limits, others);
      BoundedLater(After(steps, limits), key, step.at, now, limits, others);
    }
  }

  lemma BoundedWindow(s: State, key: string, now: real, limits: Limits, c: nat, low: real)
    requires Bounded(s, key, now, limits, c)
    ensures FailuresIn(s.history, key, low, low + limits.window) <= limits.maxFailures + c
  {
    PacedEverywhere(LogAfter(s.history, key), now, limits.maxFailures + c, limits.window, low);
  }

  /** With at most `c` attempts of a key open at a time, and logins of other keys in between as they
      please, no closed window of the configured length holds more than the permitted number of the
      key's failures since its last reset plus the `c - 1` other attempts. */
  lemma OverlapBound(steps: seq<Step>, now: real, limits: Limits, key: string, c: nat, low: real)
    requires Ticking(steps, now) && c >= 1 && AtMostOpen(steps, limits, key, c)
    ensures FailuresFrom(steps, limits, key, low) <= limits.maxFailures + c - 1
  {
    LoginsArePaced(steps, now, limits, key, c, c - 1);
    BoundedWindow(After(steps, limits), key, now, limits, c - 1, low);
  }

  /** Attempts of one key in turn: no window holds more than the permitted number. */
  lemma NoCrowdedWindow(steps: seq<Step>, now: real, limits: Limits, key: string, low: real)
    requires Ticking(steps, now) && AtMostOpen(steps, limits, key, 1)
    ensures FailuresFrom(steps, limits, key, low) <= limits.maxFailures
  {
    OverlapBound(steps, now, limits, key, 1, low);
  }

  // ---------------------------------------------------------------- the route

  lemma {:induction false} TickingIsTimely(steps: seq<Step>, now: real, limits: Limits)
    requires Ticking(steps, now)
    ensures Timely(After(steps, limits).history, now)
  {
    if steps != [] {
      var init, step := steps[..|steps| - 1], steps[|steps| - 1];
      var before := After(init, limits);
      TickingIsTimely(init, step.at, limits);
      var after := After(steps, limits).history;
      if after != before.history {
        var e := if step.Begin? then Checked(step.key, step.at)
                 else Closing(before.open[step.attempt], step.at, step.verdict)[0];
        assert after == before.history + [e];
        assert after[..|after| - 1] == before.history;
      }
      TimelyLater(after, step.at, now);
    }
  }

  lemma {:induction false} TimelyLater(history: seq<Event>, now: real, later: real)
    requires Timely(history, now) && now <= later
    ensures Timely(history, later)
  {
    if history != [] && history[|history| - 1].Cleared? { TimelyLater(history[..|history| - 1], now, later); }
  }

  /** The login route: other requests may come between the two halves of one. */
  class LoginRoute {
    const throttle: LoginThrottle
    ghost var steps: seq<Step>

    ghost function Settings(): Limits { Limits(throttle.maxFailures, throttle.window) }

    ghost predicate Valid()
      reads this, throttle
    {
      throttle.Valid() && throttle.history == After(steps, Settings()).history
    }

    constructor (maxFailures: nat, window: real)
      ensures Valid() && fresh(throttle) && steps == [] && Settings() == Limits(maxFailures, window)
    {
      throttle := new LoginThrottle(maxFailures, window);
      steps := [];
    }

    /** Up to the look-up of the user: refused, or open until its end. */
    method BeginLogin(attempt: nat, key: string, now: real) returns (refused: bool)
      requires Valid() && Ticking(steps, now) && attempt !in After(steps, Settings()).open
      modifies this, throttle
      ensures Valid() && steps == old(steps) + [Begin(attempt, key, now)]
      ensures refused <==> attempt !in After(steps, Settings()).open
    {
      TickingIsTimely(steps, now, Settings());
      refused := throttle.Check(key, now);
      steps := steps + [Begin(attempt, key, now)];
      assert steps[..|steps| - 1] == old(steps);
    }

    /** After the look-up: the verdict is recorded. */
    method EndLogin(attempt: nat, key: string, now: real, verdict: Verdict)
      requires Valid() && attempt in After(steps, Settings()).open && After(steps, Settings()).open[attempt] == key
      modifies this, throttle
      ensures Valid() && steps == old(steps) + [End(attempt, now, verdict)]
    {
      throttle.Close(key, now, verdict);
      steps := steps + [End(attempt, now, verdict)];
      assert steps[..|steps| - 1] == old(steps);
    }
  }

  // ---------------------------------------------------------------- the bound is attained

  /** Everything happens at time zero: how many failures there are and which attempts are open. */
  predicate Stage(steps: seq<Step>, limits: Limits, key: string, c: nat, failures: nat, low: nat, high: nat) {
    var s := After(steps, limits);
    && Ticking(steps, 0.0) && AtMostOpen(steps, limits, key, c)
    && |LogAfter(s.history, key)| == failures && AllZero(LogAfter(s.history, key))
    && low <= high && Spans(s, key, low, high)
  }

  predicate Spans(s: State, key: string, low: nat, high: nat) {
    && (forall a :: a in s.open ==> low <= a < high && s.open[a] == key)
    && (forall a :: low <= a < high ==> a in s.open)
  }

  predicate AllZero(times: seq<real>) { forall i :: 0 <= i < |times| ==> times[i] == 0.0 }

  lemma {:induction false} ZeroWithin(times: seq<real>, window: real)
    requires AllZero(times) && window >= 0.0
    ensures Recent(times, 0.0 - window) == times && Within(times, 0.0, 0.0 + window) == times
  {
    if times != [] { ZeroWithin(times[..|times| - 1], window); }
  }

  lemma SpanSize(s: State, key: string, low: nat, high: nat)
    requires low <= high && Spans(s, key, low, high)
    ensures |OpenFor(s, key)| == high - low
    decreases high - low
  {
    if low == high {
      assert OpenFor(s, key) == {};
    } else {
      var t := s.(open := s.open - {low});
      SpanSize(t, key, low + 1, high);
      ClosedOne(s, low, key);
    }
  }

  /** One more attempt is let through while the failures are below the limit. */
  lemma OneMoreBegins(steps: seq<Step>, limits: Limits, key: string, c: nat, failures: nat, low: nat, high: nat)
    returns (more: seq<Step>)
    requires Stage(steps, limits, key, c, failures, low, high) && limits.window >= 0.0
    requires failures < limits.maxFailures && high - low < c
    ensures Stage(more, limits, key, c, failures, low, high + 1)
  {
    var step := Begin(high, key, 0.0);
    var s := After(steps, limits);
    more := steps + [step];
    assert more[..|more| - 1] == steps && more[|more| - 1] == step;
    ZeroWithin(LogAfter(s.history, key), limits.window);
    LogSnoc(s.history, Checked(key, 0.0), key);
    var t := Take(s, step, limits);
    SpanSize(t, key, low, high + 1);
  }

  /** The oldest open attempt fails. */
  lemma OneMoreFails(steps: seq<Step>, limits: Limits, key: string, c: nat, failures: nat, low: nat, high: nat)
    returns (more: seq<Step>)
    requires Stage(steps, limits, key, c, failures, low, high) && low < high
    ensures Stage(more, limits, key, c, failures + 1, low + 1, high)
  {
    var step := End(low, 0.0, WrongCredentials);
    var s := After(steps, limits);
    more := steps + [step];
    assert more[..|more| - 1] == steps && more[|more| - 1] == step;
    LogSnoc(s.history, Failed(key, 0.0), key);
    var t := Take(s, step, limits);
    SpanSize(s, key, low, high);
    SpanSize(t, key, low + 1, high);
  }

  lemma {:induction false} InTurn(limits: Limits, key: string, c: nat, n: nat) returns (steps: seq<Step>)
    requires limits.window >= 0.0 && c >= 1 && n <= limits.maxFailures
    ensures Stage(steps, limits, key, c, n, n, n)
    decreases n
  {
    if n == 0 {
      steps := [];
      assert OpenFor(After([], limits), key) == {};
    } else {
      steps := InTurn(limits, key, c, n - 1);
      steps := OneMoreBegins(steps, limits, key, c, n - 1, n - 1, n - 1);
      steps := OneMoreFails(steps, limits, key, c, n - 1, n - 1, n);
    }
  }

  lemma {:induction false} AllBegin(steps: seq<Step>, limits: Limits, key: string, c: nat, failures: nat, low: nat,
                                    n: nat)
    returns (more: seq<Step>)
    requires Stage(steps, limits, key, c, failures, low, low) && limits.window >= 0.0 && failures < limits.maxFailures
    requires n <= c
    ensures Stage(more, limits, key, c, failures, low, low + n)
    decreases n
  {
    if n == 0 { return steps; }
    more := AllBegin(steps, limits, key, c, failures, low, n - 1);
    more := OneMoreBegins(more, limits, key, c, failures, low, low + n - 1);
  }

  lemma {:induction false} AllFail(steps: seq<Step>, limits: Limits, key: string, c: nat, failures: nat, low: nat,
                                   high: nat)
    returns (more: seq<Step>)
    requires Stage(steps, limits, key, c, failures, low, high)
    ensures Stage(more, limits, key, c, failures + (high - low), high, high)
    decreases high - low
  {
    if low == high { return steps; }
    more := OneMoreFails(steps, limits, key, c, failures, low, high);
    more := AllFail(more, limits, key, c, failures + 1, low + 1, high);
  }

  /** One failure short of the limit, then `c` attempts that all begin before any of them ends. */
  lemma Crowded(limits: Limits, key: string, c: nat) returns (steps: seq<Step>)
    requires limits.window >= 0.0 && limits.maxFailures >= 1 && c >= 1
    ensures Ticking(steps, 0.0) && AtMostOpen(steps, limits, key, c)
    ensures FailuresFrom(steps, limits, key, 0.0) == limits.maxFailures + c - 1
  {
    var m: nat := limits.maxFailures - 1;
    steps := InTurn(limits, key, c, m);
    steps := AllBegin(steps, limits, key, c, m, m, c);
    steps := AllFail(steps, limits, key, c, m, m, m + c);
    ZeroWithin(LogAfter(After(steps, limits).history, key), limits.window);
  }

  ghost predicate NeverExceeds(limits: Limits, key: string, c: nat, bound: nat) {
    forall steps, now, low :: Ticking(steps, now) && AtMostOpen(steps, limits, key, c) ==>
      FailuresFrom(steps, limits, key, low) <= bound
  }

  /** The bound is exact: over all runs with at most `c` open attempts of a key, a number bounds the
      failures of every window if and only if it is at least `maxFailures + c - 1`. */
  lemma OverlapBoundIff(limits: Limits, key: string, c: nat, bound: nat)
    requires limits.window >= 0.0 && limits.maxFailures >= 1 && c >= 1
    ensures NeverExceeds(limits, key, c, bound) <==> limits.maxFailures + c - 1 <= bound
  {
    if limits.maxFailures + c - 1 <= bound {
      forall steps, now, low | Ticking(steps, now) && AtMostOpen(steps, limits, key, c)
        ensures FailuresFrom(steps, limits, key, low) <= bound
      {
        OverlapBound(steps, now, limits, key, c, low);
      }
    } else {
      var steps := Crowded(limits, key, c);
      assert Ticking(steps, 0.0);
    }
  }
}
