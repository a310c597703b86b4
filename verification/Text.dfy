/** Splitting a string on a separator and joining it again, as `str.split(sep)` and `sep.join`. */
module Text {

  /** Leftmost, non-overlapping occurrences of a non-empty separator. */
  function Split(s: string, sep: string): (parts: seq<string>)
    requires sep != []
    ensures parts != []
    decreases |s|
  {
    if |s| < |sep| then [s]
    else if s[..|sep|] == sep then [""] + Split(s[|sep|..], sep)
    else
      var rest := Split(s[1..], sep);
      [[s[0]] + rest[0]] + rest[1..]
  }

  function Join(parts: seq<string>, sep: string): string
    decreases |parts|
  {
    if parts == [] then ""
    else if |parts| == 1 then parts[0]
    else parts[0] + sep + Join(parts[1..], sep)
  }

  lemma JoinCons(first: string, rest: seq<string>, sep: string)
    requires rest != []
    ensures Join([first] + rest, sep) == first + sep + Join(rest, sep)
  {
    assert ([first] + rest)[1..] == rest;
  }

  lemma JoinHeadGrows(c: char, parts: seq<string>, sep: string)
    requires parts != []
    ensures Join([[c] + parts[0]] + parts[1..], sep) == [c] + Join(parts, sep)
  {
    var grown := [[c] + parts[0]] + parts[1..];
    if |parts| > 1 {
      assert grown[1..] == parts[1..];
      assert ([c] + parts[0]) + sep + Join(parts[1..], sep) == [c] + (parts[0] + sep + Join(parts[1..], sep));
    }
  }

  lemma {:induction false} JoinSnoc(parts: seq<string>, last: string, sep: string)
    requires parts != []
    ensures Join(parts + [last], sep) == Join(parts, sep) + sep + last
    decreases |parts|
  {
    if |parts| > 1 {
      assert (parts + [last])[1..] == parts[1..] + [last];
      JoinSnoc(parts[1..], last, sep);
      var rest := Join(parts[1..], sep);
      assert parts[0] + sep + (rest + sep + last) == parts[0] + sep + rest + sep + last;
    } else {
      assert (parts + [last])[1..] == [last];
    }
  }

  /** Joining what was split gives the string back. */
  lemma {:induction false} JoinOfSplit(s: string, sep: string)
    requires sep != []
    ensures Join(Split(s, sep), sep) == s
    decreases |s|
  {
    if |s| < |sep| {
    } else if s[..|sep|] == sep {
      JoinOfSplit(s[|sep|..], sep);
      JoinCons("", Split(s[|sep|..], sep), sep);
      assert "" + sep + s[|sep|..] == s;
    } else {
      JoinOfSplit(s[1..], sep);
      JoinHeadGrows(s[0], Split(s[1..], sep), sep);
      assert [s[0]] + s[1..] == s;
    }
  }

  /** A leading group of the parts of a split joins to a leading part of the string. */
  lemma {:induction false} JoinOfPrefixIsPrefix(s: string, sep: string, n: nat)
    requires sep != [] && 1 <= n <= |Split(s, sep)|
    ensures Join(Split(s, sep)[..n], sep) <= s
    decreases |s|
  {
    var parts := Split(s, sep);
    if |s| < |sep| {
    } else if s[..|sep|] == sep {
      if n > 1 {
        var rest := Split(s[|sep|..], sep);
        JoinOfPrefixIsPrefix(s[|sep|..], sep, n - 1);
        assert parts[..n] == [""] + rest[..n - 1];
        JoinCons("", rest[..n - 1], sep);
      }
    } else {
      var rest := Split(s[1..], sep);
      JoinOfPrefixIsPrefix(s[1..], sep, n);
      assert parts[..n] == [[s[0]] + rest[..n][0]] + rest[..n][1..];
      JoinHeadGrows(s[0], rest[..n], sep);
    }
  }

  /** Splitting the joined leading group gives just that group: a path key determines its path. */
  lemma {:induction false} SplitOfPrefix(s: string, sep: string, n: nat)
    requires sep != [] && 1 <= n <= |Split(s, sep)|
    ensures Split(Join(Split(s, sep)[..n], sep), sep) == Split(s, sep)[..n]
    decreases |s|
  {
    var parts := Split(s, sep);
    if |s| < |sep| {
    } else if s[..|sep|] == sep {
      var rest := Split(s[|sep|..], sep);
      if n == 1 {
        assert parts[..1] == [""];
      } else {
        SplitOfPrefix(s[|sep|..], sep, n - 1);
        assert parts[..n] == [""] + rest[..n - 1];
        JoinCons("", rest[..n - 1], sep);
        var key := Join(parts[..n], sep);
        assert key[..|sep|] == sep && key[|sep|..] == Join(rest[..n - 1], sep);
      }
    } else {
      var rest := Split(s[1..], sep);
      SplitOfPrefix(s[1..], sep, n);
      JoinOfPrefixIsPrefix(s, sep, n);
      assert parts[..n] == [[s[0]] + rest[..n][0]] + rest[..n][1..];
      JoinHeadGrows(s[0], rest[..n], sep);
      var key := Join(parts[..n], sep);
      assert key[1..] == Join(rest[..n], sep) && key[0] == s[0];
      if |key| >= |sep| { assert key[..|sep|] == s[..|sep|]; } else { ShortSplit(key[1..], sep); }
    }
  }

  lemma ShortSplit(s: string, sep: string)
    requires |s| < |sep|
    ensures Split(s, sep) == [s]
  {}

  predicate OccursAt(s: string, sep: string, i: nat) { i + |sep| <= |s| && s[i..i + |sep|] == sep }

  lemma OccursShifted(s: string, sep: string, i: nat)
    requires s != []
    ensures OccursAt(s, sep, i + 1) <==> OccursAt(s[1..], sep, i)
  {
    if i + 1 + |sep| <= |s| { assert s[i + 1..i + 1 + |sep|] == s[1..][i..i + |sep|]; }
  }

  /** The leftmost occurrence of the separator is at `k`, or there is none and `k` is the length. */
  ghost predicate Leftmost(s: string, sep: string, k: nat) {
    && (forall i :: 0 <= i < k ==> !OccursAt(s, sep, i))
    && (OccursAt(s, sep, k) || (k == |s| && forall i :: !OccursAt(s, sep, i)))
  }

  lemma LeftmostShifted(s: string, sep: string, k: nat)
    requires s != [] && !OccursAt(s, sep, 0) && Leftmost(s[1..], sep, k)
    ensures Leftmost(s, sep, k + 1)
  {
    forall i | 0 < i ensures OccursAt(s, sep, i) <==> OccursAt(s[1..], sep, i - 1) { OccursShifted(s, sep, i - 1); }
  }

  /** What `str.split` promises: the string is cut at its leftmost separator and the rest is split in
      the same way, until no separator is left. */
  ghost predicate CutAtLeftmost(s: string, sep: string, parts: seq<string>)
    requires sep != [] && parts != []
  {
    && parts[0] <= s && Leftmost(s, sep, |parts[0]|)
    && (if OccursAt(s, sep, |parts[0]|) then parts == [parts[0]] + Split(s[|parts[0]| + |sep|..], sep)
        else parts == [s])
  }

  lemma CutShifted(s: string, sep: string, rest: seq<string>)
    requires sep != [] && s != [] && rest != [] && !OccursAt(s, sep, 0) && CutAtLeftmost(s[1..], sep, rest)
    ensures CutAtLeftmost(s, sep, [[s[0]] + rest[0]] + rest[1..])
  {
    var k := |rest[0]|;
    LeftmostShifted(s, sep, k);
    OccursShifted(s, sep, k);
    assert s == [s[0]] + s[1..];
    if OccursAt(s, sep, k + 1) {
      assert s[1..][k + |sep|..] == s[k + 1 + |sep|..];
      assert rest[1..] == Split(s[1..][k + |sep|..], sep);
    }
  }

  lemma {:induction false} SplitAtLeftmost(s: string, sep: string)
    requires sep != []
    ensures CutAtLeftmost(s, sep, Split(s, sep))
    decreases |s|
  {
    if |s| >= |sep| {
      assert OccursAt(s, sep, 0) <==> s[..|sep|] == sep;
      if s[..|sep|] != sep {
        SplitAtLeftmost(s[1..], sep);
        CutShifted(s, sep, Split(s[1..], sep));
      }
    }
  }
}
