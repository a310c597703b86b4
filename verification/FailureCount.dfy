/** The throttle's decision counted on the bare history of events: no lists, no pruning. */
module FailureCount {
  import opened LoginThrottle

  /** The failures of a key that are no older than `cutoff` and that no later reset has cleared. */
  ghost function Failures(history: seq<Event>, key: string, cutoff: real): set<nat> {
    set i: nat | && i < |history| && history[i].Failed? && history[i].key == key && history[i].at >= cutoff
                 && forall j :: i < j < |history| ==> history[j] != Cleared(key)
  }

  lemma FailuresSnoc(history: seq<Event>, e: Event, key: string, cutoff: real)
    ensures Failures(history + [e], key, cutoff) ==
            if e == Cleared(key) then {}
            else if e.Failed? && e.key == key && e.at >= cutoff then Failures(history, key, cutoff) + {|history|}
            else Failures(history, key, cutoff)
  {
    var more := history + [e];
    assert more[|history|] == e;
    assert forall i :: 0 <= i < |history| ==> more[i] == history[i];
  }

  /** The recent part of the log has as many entries as the history has such failures. */
  lemma {:induction false} LogCountsFailures(history: seq<Event>, key: string, cutoff: real)
    ensures |Recent(LogAfter(history, key), cutoff)| == |Failures(history, key, cutoff)|
  {
    if history != [] {
      var init, e := history[..|history| - 1], history[|history| - 1];
      LogCountsFailures(init, key, cutoff);
      FailuresSnoc(init, e, key, cutoff);
      assert init + [e] == history;
      if e.Failed? && e.key == key { RecentSnoc(LogAfter(init, key), e.at, cutoff); }
    }
  }

  /** A login is refused exactly if its key has at least the permitted number of uncleared failures no
      older than the window. */
  lemma LockedIff(history: seq<Event>, a: Attempt, maxFailures: nat, window: real)
    ensures Locked(history, a, maxFailures, window) <==> |Failures(history, a.key, a.begin - window)| >= maxFailures
  {
    LogCountsFailures(history, a.key, a.begin - window);
  }

  /** What a login leaves behind: wrong credentials one failure more, a success none at all for its key,
      a refusal or a deactivated account nothing new; other keys keep theirs. */
  lemma LoginLeaves(history: seq<Event>, a: Attempt, blocked: bool, key: string, cutoff: real)
    ensures var before, after := Failures(history, key, cutoff), Failures(history + EventsOf(a, blocked), key, cutoff);
            if key != a.key || blocked || a.verdict == Deactivated then after == before
            else if a.verdict == Accepted then after == {}
            else after == before + (if a.end >= cutoff then {|history| + 1} else {})
  {
    var checked := history + [Checked(a.key, a.begin)];
    FailuresSnoc(history, Checked(a.key, a.begin), key, cutoff);
    EventsInTurn(history, a, blocked);
    FailuresSnoc(checked, Failed(a.key, a.end), key, cutoff);
    FailuresSnoc(checked, Cleared(a.key), key, cutoff);
    assert checked + [] == checked;
  }
}
