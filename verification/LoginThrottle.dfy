/** Failed logins per key in a sliding window: the pruned lists against the full log. */
module LoginThrottle {

  /** What happens to the throttle; times are read from a monotonic clock. */
  datatype Event = Checked(key: string, at: real) | Failed(key: string, at: real) | Cleared(key: string)

  type Fails = map<string, seq<real>>

  /** Reading a missing key yields an empty list. */
  function Get(fails: Fails, key: string): seq<real> { if key in fails then fails[key] else [] }

  function Recent(times: seq<real>, cutoff: real): seq<real> {
    if times == [] then []
    else
      var rest := Recent(times[..|times| - 1], cutoff);
      var t := times[|times| - 1];
      if t >= cutoff then rest + [t] else rest
  }

  /** The stored lists after a history: every check prunes its key. */
  function FailsAfter(history: seq<Event>, window: real): Fails {
    if history == [] then map[]
    else
      var before := FailsAfter(history[..|history| - 1], window);
      match history[|history| - 1]
      case Checked(key, at) => before[key := Recent(Get(before, key), at - window)]
      case Failed(key, at) => before[key := Get(before, key) + [at]]
      case Cleared(key) => before - {key}
  }

  /** Every failure of a key since its last reset; nothing is ever forgotten. */
  function LogAfter(history: seq<Event>, key: string): seq<real> {
    if history == [] then []
    else
      var before := LogAfter(history[..|history| - 1], key);
      var e := history[|history| - 1];
      if e.key != key || e.Checked? then before else if e.Failed? then before + [e.at] else []
  }

  /** The clock never went back and now reads `now`. */
  predicate Timely(history: seq<Event>, now: real) {
    history == [] ||
    var init := history[..|history| - 1];
    var e := history[|history| - 1];
    if e.Cleared? then Timely(init, now) else e.at <= now && Timely(init, e.at)
  }

  /** Pruning twice is pruning at the later cutoff: only an earlier cutoff would notice. */
  lemma {:induction false} RecentTwice(times: seq<real>, a: real, b: real)
    ensures Recent(Recent(times, a), b) == Recent(times, if a > b then a else b)
  {
    if times != [] {
      var init, t := times[..|times| - 1], times[|times| - 1];
      RecentTwice(init, a, b);
      assert (Recent(init, a) + [t])[..|Recent(init, a)|] == Recent(init, a);
    }
  }

  lemma RecentSnoc(times: seq<real>, t: real, cutoff: real)
    ensures Recent(times + [t], cutoff) == if t >= cutoff then Recent(times, cutoff) + [t] else Recent(times, cutoff)
  {
    assert (times + [t])[..|times|] == times;
  }

  /** From the present window on, the pruned list and the full log hold the same failures. */
  lemma {:induction false} PrunedListIsEnough(history: seq<Event>, window: real, now: real, key: string, cutoff: real)
    requires Timely(history, now) && cutoff >= now - window
    ensures Recent(Get(FailsAfter(history, window), key), cutoff) == Recent(LogAfter(history, key), cutoff)
  {
    if history != [] {
      var init, e := history[..|history| - 1], history[|history| - 1];
      var stored := Get(FailsAfter(init, window), key);
      PrunedListIsEnough(init, window, if e.Cleared? then now else e.at, key, cutoff);
      if e.key == key && e.Checked? { RecentTwice(stored, e.at - window, cutoff); }
      if e.key == key && e.Failed? {
        RecentSnoc(stored, e.at, cutoff);
        RecentSnoc(LogAfter(init, key), e.at, cutoff);
      }
    }
  }

  /** How many failures the full log has in the window that ends now. */
  function InWindowNow(history: seq<Event>, key: string, now: real, window: real): nat {
    |Recent(LogAfter(history, key), now - window)|
  }

  class LoginThrottle {
    const maxFailures: nat
    const window: real
    var fails: Fails
    ghost var history: seq<Event>

    ghost predicate Valid()
      reads this
    {
      fails == FailsAfter(history, window)
    }

    constructor (maxFailures: nat, window: real)
      ensures Valid() && history == [] && this.maxFailures == maxFailures && this.window == window
    {
      this.maxFailures, this.window, fails, history := maxFailures, window, map[], [];
    }

    /** The list of one key, pruned in the store as well as in the answer. */
    method PruneKey(key: string, now: real) returns (recent: seq<real>)
      requires Valid()
      modifies this
      ensures Valid() && history == old(history) + [Checked(key, now)]
      ensures Timely(old(history), now) ==> recent == Recent(LogAfter(old(history), key), now - window)
    {
      recent := Recent(Get(fails, key), now - window);
      fails := fails[key := recent];
      history := history + [Checked(key, now)];
      assert history[..|history| - 1] == old(history);
      if Timely(old(history), now) { PrunedListIsEnough(old(history), window, now, key, now - window); }
    }

    /** Decides as the full log since the last reset would. */
    method Check(key: string, now: real) returns (blocked: bool)
      requires Valid()
      modifies this
      ensures Valid() && history == old(history) + [Checked(key, now)]
      ensures Timely(old(history), now) ==> (blocked <==> InWindowNow(old(history), key, now, window) >= maxFailures)
    {
      var recent := PruneKey(key, now);
      blocked := |recent| >= maxFailures;
    }

    method RecordFailure(key: string, now: real)
      requires Valid()
      modifies this
      ensures Valid() && history == old(history) + [Failed(key, now)]
    {
      fails := fails[key := Get(fails, key) + [now]];
      history := history + [Failed(key, now)];
      assert history[..|history| - 1] == old(history);
    }

    method Reset(key: string)
      requires Valid()
      modifies this
      ensures Valid() && history == old(history) + [Cleared(key)]
    {
      fails := fails - {key};
      history := history + [Cleared(key)];
      assert history[..|history| - 1] == old(history);
    }

    /** One login request: refused when locked out, otherwise judged by the credentials. */
    method Login(a: Attempt) returns (blocked: bool)
      requires Valid() && Timely(history, a.begin)
      modifies this
      ensures Valid() && history == old(history) + EventsOf(a, blocked)
      ensures blocked <==> Locked(old(history), a, maxFailures, window)
    {
      blocked := Check(a.key, a.begin);
      ghost var checked := history;
      if !blocked { Close(a.key, a.end, a.verdict); }
      assert history == checked + (if blocked then [] else Closing(a.key, a.end, a.verdict));
      EventsInTurn(old(history), a, blocked);
    }

    /** The end of a login that was let through. */
    method Close(key: string, now: real, verdict: Verdict)
      requires Valid()
      modifies this
      ensures Valid() && history == old(history) + Closing(key, now, verdict)
    {
      match verdict {
        case WrongCredentials => RecordFailure(key, now);
        case Deactivated => assert Closing(key, now, verdict) == [];
        case Accepted => Reset(key);
      }
    }
  }

  // ---------------------------------------------------------------- one login

  /** `Deactivated` stands for every way out that records nothing, a raised error included. */
  datatype Verdict = WrongCredentials | Deactivated | Accepted

  /** One login: the throttle is consulted at `begin`, the failure is recorded at `end`. */
  datatype Attempt = Attempt(key: string, begin: real, end: real, verdict: Verdict)

  predicate Locked(history: seq<Event>, a: Attempt, maxFailures: nat, window: real) {
    InWindowNow(history, a.key, a.begin, window) >= maxFailures
  }

  function EventsOf(a: Attempt, blocked: bool): seq<Event> {
    [Checked(a.key, a.begin)] + (if blocked then [] else Closing(a.key, a.end, a.verdict))
  }

  lemma EventsInTurn(history: seq<Event>, a: Attempt, blocked: bool)
    ensures history + EventsOf(a, blocked) ==
            (history + [Checked(a.key, a.begin)]) + (if blocked then [] else Closing(a.key, a.end, a.verdict))
  {
  }

  /** What a login that was let through does to the throttle in the end. */
  function Closing(key: string, at: real, verdict: Verdict): seq<Event> {
    match verdict
    case WrongCredentials => [Failed(key, at)]
    case Deactivated => []
    case Accepted => [Cleared(key)]
  }

  function Within(times: seq<real>, low: real, high: real): seq<real> {
    if times == [] then []
    else
      var rest := Within(times[..|times| - 1], low, high);
      var t := times[|times| - 1];
      if low <= t <= high then rest + [t] else rest
  }

  /** The failures of a key since its last reset that lie in a closed window. */
  function FailuresIn(history: seq<Event>, key: string, low: real, high: real): nat {
    |Within(LogAfter(history, key), low, high)|
  }

  /** Times in order up to `now`, each with at most `limit` entries in the window that it closes. */
  predicate Paced(times: seq<real>, now: real, limit: nat, window: real) {
    times == [] ||
    var t := times[|times| - 1];
    t <= now && Paced(times[..|times| - 1], t, limit, window) && |Recent(times, t - window)| <= limit
  }

  lemma {:induction false} LaterCutoffKeepsFewer(times: seq<real>, a: real, b: real)
    requires a <= b
    ensures |Recent(times, b)| <= |Recent(times, a)|
  {
    if times != [] { LaterCutoffKeepsFewer(times[..|times| - 1], a, b); }
  }

  lemma {:induction false} OpenEnd(times: seq<real>, now: real, limit: nat, window: real, low: real, high: real)
    requires Paced(times, now, limit, window) && now <= high
    ensures Within(times, low, high) == Recent(times, low)
  {
    if times != [] { OpenEnd(times[..|times| - 1], times[|times| - 1], limit, window, low, high); }
  }

  /** A paced log crowds no closed window, wherever it lies. */
  lemma {:induction false} PacedEverywhere(times: seq<real>, now: real, limit: nat, window: real, low: real)
    requires Paced(times, now, limit, window)
    ensures |Within(times, low, low + window)| <= limit
  {
    if times != [] {
      var t := times[|times| - 1];
      if t <= low + window {
        OpenEnd(times, t, limit, window, low, low + window);
        LaterCutoffKeepsFewer(times, t - window, low);
      } else {
        PacedEverywhere(times[..|times| - 1], t, limit, window, low);
      }
    }
  }

  lemma PacedLater(times: seq<real>, now: real, later: real, limit: nat, window: real)
    requires Paced(times, now, limit, window) && now <= later
    ensures Paced(times, later, limit, window)
  {
  }

  lemma LogSnoc(history: seq<Event>, e: Event, key: string)
    ensures LogAfter(history + [e], key) ==
            if e.key != key || e.Checked? then LogAfter(history, key)
            else if e.Failed? then LogAfter(history, key) + [e.at]
            else []
  {
    assert (history + [e])[..|history|] == history;
  }
}
