/** The allocation-exclude list: a set of node names kept as a comma-joined string. */
module ExcludeSet {
  import opened Options
  import opened Text

  const COMMA: string := ","

  /** The flat exclude key of the two settings scopes; an unset key is absent. */
  datatype Settings = Settings(transient: Option<string>, persistent: Option<string>)

  function OrEmpty(value: Option<string>): string { if value.Some? then value.value else "" }

  /** The non-empty names of a comma-joined value. */
  function Parse(raw: string): set<string> { set n | n in Split(raw, COMMA) && n != "" }

  /** What `_exclude_set` reads: both scopes, joined by one more comma. */
  function Excluded(s: Settings): set<string> {
    Parse(OrEmpty(s.transient) + COMMA + OrEmpty(s.persistent))
  }

  /** A name that survives printing and parsing. */
  predicate Plain(name: string) { name != "" && ',' !in name }

  // ---------------------------------------------------------------- sorted names

  /** Strings in code point order. */
  predicate Less(a: string, b: string) {
    if b == [] then false else if a == [] then true else a[0] < b[0] || (a[0] == b[0] && Less(a[1..], b[1..]))
  }

  lemma {:induction false} LessIsTotal(a: string, b: string)
    ensures a == b || Less(a, b) || Less(b, a)
    ensures !(Less(a, b) && Less(b, a)) && !Less(a, a)
  {
    if a != [] && b != [] {
      LessIsTotal(a[1..], b[1..]);
      LessIsTotal(a[1..], a[1..]);
      if a[0] == b[0] && a[1..] == b[1..] { assert a == [a[0]] + a[1..] && b == [b[0]] + b[1..]; }
    } else if a != [] {
      LessIsTotal(a[1..], a[1..]);
    }
  }

  lemma {:induction false} LessIsTransitive(a: string, b: string, c: string)
    requires Less(a, b) && Less(b, c)
    ensures Less(a, c)
  {
    if a != [] && a[0] == b[0] && b[0] == c[0] { LessIsTransitive(a[1..], b[1..], c[1..]); }
  }

  /** Up to the first position where they differ the strings agree; there the smaller character, or the
      end, decides. */
  lemma {:induction false} LessIff(a: string, b: string, k: nat)
    requires k <= |a| && k <= |b| && a[..k] == b[..k]
    requires (k < |a| && k < |b| && a[k] != b[k]) || k == |a| || k == |b|
    ensures Less(a, b) <==> k < |b| && (k == |a| || a[k] < b[k])
  {
    if k > 0 {
      assert a[0] == a[..k][0] && b[0] == b[..k][0];
      assert a[1..][..k - 1] == a[..k][1..] && b[1..][..k - 1] == b[..k][1..];
      LessIff(a[1..], b[1..], k - 1);
    }
  }

  predicate IsLeast(names: set<string>, m: string) { m in names && forall n :: n in names && n != m ==> Less(m, n) }

  lemma {:induction false} OneLeast(names: set<string>)
    requires names != {}
    ensures exists m :: IsLeast(names, m)
    ensures forall m, n :: IsLeast(names, m) && IsLeast(names, n) ==> m == n
    decreases |names|
  {
    forall m, n | IsLeast(names, m) && IsLeast(names, n) ensures m == n { LessIsTotal(m, n); }
    var a :| a in names;
    var rest := names - {a};
    if rest == {} {
      assert forall n :: n in names && n != a ==> n in rest;
      assert IsLeast(names, a);
    } else {
      OneLeast(rest);
      var b :| IsLeast(rest, b);
      LessIsTotal(a, b);
      if Less(b, a) {
        assert IsLeast(names, b);
      } else {
        forall n | n in names && n != a ensures Less(a, n) { if n != b { LessIsTransitive(a, b, n); } }
        assert IsLeast(names, a);
      }
    }
  }

  function Sorted(names: set<string>): seq<string>
    decreases |names|
  {
    if names == {} then []
    else
      OneLeast(names);
      var m :| IsLeast(names, m);
      [m] + Sorted(names - {m})
  }

  lemma {:induction false} SortedIsSorted(names: set<string>)
    ensures forall n :: n in Sorted(names) <==> n in names
    ensures forall i, j :: 0 <= i < j < |Sorted(names)| ==> Less(Sorted(names)[i], Sorted(names)[j])
    decreases |names|
  {
    if names != {} {
      OneLeast(names);
      var m :| IsLeast(names, m);
      SortedIsSorted(names - {m});
      assert Sorted(names) == [m] + Sorted(names - {m});
    }
  }

  // ---------------------------------------------------------------- printing and parsing

  lemma {:induction false} SplitAtSeparator(a: string, b: string, c: char)
    ensures Split(a + [c] + b, [c]) == Split(a, [c]) + Split(b, [c])
  {
    var s := a + [c] + b;
    if a == [] {
      assert s[..1] == [c] && s[1..] == b;
    } else {
      assert s[0] == a[0] && s[1..] == a[1..] + [c] + b;
      assert s[..1] == [a[0]] && a[..1] == [a[0]];
      SplitAtSeparator(a[1..], b, c);
      if a[0] != c {
        var rest := Split(a[1..], [c]);
        assert (rest + Split(b, [c]))[1..] == rest[1..] + Split(b, [c]);
      }
    }
  }

  lemma {:induction false} PartsAreFree(s: string, c: char, part: string)
    requires part in Split(s, [c])
    ensures c !in part
  {
    if s != [] {
      var rest := Split(s[1..], [c]);
      assert s[..1] == [s[0]];
      if s[0] == c {
        if part != "" { PartsAreFree(s[1..], c, part); }
      } else if part == [s[0]] + rest[0] {
        PartsAreFree(s[1..], c, rest[0]);
      } else {
        PartsAreFree(s[1..], c, part);
      }
    }
  }

  lemma {:induction false} FreeIsOnePart(s: string, c: char)
    requires c !in s
    ensures Split(s, [c]) == [s]
  {
    if s != [] {
      assert s[..1] == [s[0]];
      FreeIsOnePart(s[1..], c);
      assert [s[0]] + s[1..] == s;
    }
  }

  lemma ParseConcat(a: string, b: string)
    ensures Parse(a + COMMA + b) == Parse(a) + Parse(b)
  {
    SplitAtSeparator(a, b, ',');
    assert COMMA == [','];
  }

  /** A name is read back as itself exactly when it is plain. */
  lemma ParseName(name: string)
    ensures forall n :: n in Parse(name) ==> Plain(n)
    ensures Parse(name) == {name} <==> Plain(name)
  {
    forall n | n in Parse(name) ensures Plain(n) { PartsAreFree(name, ',', n); }
    if Plain(name) { FreeIsOnePart(name, ','); }
    if Parse(name) == {name} { assert name in Parse(name); }
  }

  lemma {:induction false} ParseOfJoin(names: seq<string>)
    ensures forall p :: p in Parse(Join(names, COMMA)) <==> exists n :: n in names && p in Parse(n)
  {
    if |names| > 1 {
      ParseOfJoin(names[1..]);
      ParseConcat(names[0], Join(names[1..], COMMA));
      assert forall n :: n in names <==> n == names[0] || n in names[1..];
    }
  }

  /** Parsing the sorted print of a set of plain names gives the set back. */
  lemma ParseOfPrint(names: set<string>)
    requires forall n :: n in names ==> Plain(n)
    ensures Parse(Join(Sorted(names), COMMA)) == names
  {
    SortedIsSorted(names);
    ParseOfJoin(Sorted(names));
    forall n | n in names ensures Parse(n) == {n} { ParseName(n); }
  }

  /** One name that is not plain adds its parts. */
  lemma ParseOfPrintPlus(names: set<string>, extra: string)
    requires forall n :: n in names ==> Plain(n)
    ensures Parse(Join(Sorted(names + {extra}), COMMA)) == names + Parse(extra)
  {
    SortedIsSorted(names + {extra});
    ParseOfListing(Sorted(names + {extra}), names, extra);
  }

  lemma ParseOfListing(listing: seq<string>, names: set<string>, extra: string)
    requires forall n :: n in listing <==> n in names || n == extra
    requires forall n :: n in names ==> Plain(n)
    ensures Parse(Join(listing, COMMA)) == names + Parse(extra)
  {
    ParseOfJoin(listing);
    forall n | n in names ensures Parse(n) == {n} { ParseName(n); }
    assert extra in listing;
    forall p ensures p in Parse(Join(listing, COMMA)) <==> p in names + Parse(extra) {
      if p in names { assert p in listing && p in Parse(p); }
    }
  }

  lemma ExcludedFacts(s: Settings)
    ensures Excluded(s) == Parse(OrEmpty(s.transient)) + Parse(OrEmpty(s.persistent))
    ensures forall n :: n in Excluded(s) ==> Plain(n)
  {
    ParseConcat(OrEmpty(s.transient), OrEmpty(s.persistent));
    ParseName(OrEmpty(s.transient) + COMMA + OrEmpty(s.persistent));
  }

  // ---------------------------------------------------------------- drain and undrain

  function Drained(s: Settings, node: string): Settings {
    s.(transient := Some(Join(Sorted(Excluded(s) + {node}), COMMA)))
  }

  /** An empty value clears the key. */
  function Undrained(s: Settings, node: string): Settings {
    var value := Join(Sorted(Excluded(s) - {node}), COMMA);
    s.(transient := if value == "" then None else Some(value))
  }

  /** Draining adds the node and keeps every other one; it adds exactly the node if and only if the
      name is plain. */
  lemma DrainAdds(s: Settings, node: string)
    ensures Excluded(Drained(s, node)) == Excluded(s) + Parse(node)
    ensures Excluded(Drained(s, node)) == Excluded(s) + {node} <==> Plain(node)
  {
    ExcludedFacts(s);
    ExcludedFacts(Drained(s, node));
    ParseOfPrintPlus(Excluded(s), node);
    ParseName(node);
  }

  /** Undraining removes the node if and only if it is not excluded persistently, and nothing else. */
  lemma UndrainRemoves(s: Settings, node: string)
    ensures Excluded(Undrained(s, node)) == (Excluded(s) - {node}) + Parse(OrEmpty(s.persistent))
    ensures node !in Excluded(Undrained(s, node)) <==> node !in Parse(OrEmpty(s.persistent))
    ensures Excluded(Undrained(s, node)) - {node} == Excluded(s) - {node}
  {
    ExcludedFacts(s);
    ExcludedFacts(Undrained(s, node));
    ParseOfPrint(Excluded(s) - {node});
  }

  class ClusterSettings {
    var transient: Option<string>
    var persistent: Option<string>

    function Now(): Settings
      reads this
    {
      Settings(transient, persistent)
    }

    constructor (s: Settings)
      ensures Now() == s
    {
      transient, persistent := s.transient, s.persistent;
    }

    method DrainNode(node: string)
      modifies this`transient
      ensures Now() == Drained(old(Now()), node)
      ensures Excluded(Now()) == old(Excluded(Now())) + Parse(node)
    {
      DrainAdds(Now(), node);
      var current := Excluded(Now()) + {node};
      transient := Some(Join(Sorted(current), COMMA));
    }

    method UndrainNode(node: string)
      modifies this`transient
      ensures Now() == Undrained(old(Now()), node)
      ensures Excluded(Now()) == (old(Excluded(Now())) - {node}) + Parse(OrEmpty(persistent))
    {
      UndrainRemoves(Now(), node);
      var value := Join(Sorted(Excluded(Now()) - {node}), COMMA);
      transient := if value == "" then None else Some(value);
    }
  }

  // ---------------------------------------------------------------- runs

  datatype Operation = Drain(node: string) | Undrain(node: string)

  function After(s: Settings, ops: seq<Operation>): Settings {
    if ops == [] then s
    else
      var before := After(s, ops[..|ops| - 1]);
      match ops[|ops| - 1]
      case Drain(node) => Drained(before, node)
      case Undrain(node) => Undrained(before, node)
  }

  /** Whether a name is held, going by the last operation that concerns it. */
  function Held(ops: seq<Operation>, name: string, initially: bool): bool {
    if ops == [] then initially
    else
      var before := Held(ops[..|ops| - 1], name, initially);
      match ops[|ops| - 1]
      case Drain(node) => name == node || before
      case Undrain(node) => name != node && before
  }

  predicate PlainDrains(ops: seq<Operation>) {
    forall i :: 0 <= i < |ops| && ops[i].Drain? ==> Plain(ops[i].node)
  }

  /** After any operations, what is read back is what was excluded at first or drained, and not
      undrained since, together with every persistent exclusion. */
  lemma {:induction false} ReadBackAfterRun(s: Settings, ops: seq<Operation>, name: string)
    requires PlainDrains(ops)
    ensures After(s, ops).persistent == s.persistent
    ensures name in Excluded(After(s, ops)) <==>
            name in Parse(OrEmpty(s.persistent)) || Held(ops, name, name in Excluded(s))
  {
    if ops == [] {
      ExcludedFacts(s);
    } else {
      var init, op := ops[..|ops| - 1], ops[|ops| - 1];
      ReadBackAfterRun(s, init, name);
      if op.Drain? { DrainAdds(After(s, init), op.node); } else { UndrainRemoves(After(s, init), op.node); }
    }
  }

  // ---------------------------------------------------------------- what Elasticsearch applies

  /** At run time the transient value, when set, overrides the persistent one. */
  function InForce(s: Settings): set<string> {
    Parse(if s.transient.Some? then s.transient.value else OrEmpty(s.persistent))
  }

  /** A drain puts everything that was read into force, persistent exclusions included. */
  lemma DrainInForce(s: Settings, node: string)
    ensures InForce(Drained(s, node)) == Excluded(Drained(s, node))
  {
    ExcludedFacts(s);
    ParseOfPrintPlus(Excluded(s), node);
    DrainAdds(s, node);
  }

  /** An undrain takes the node out of force even when it is excluded persistently, except for the
      last node: clearing the transient value brings the persistent one back. */
  lemma UndrainInForce(s: Settings, node: string)
    ensures InForce(Undrained(s, node)) - {node} == Excluded(s) - {node}
    ensures node in InForce(Undrained(s, node)) <==> Excluded(s) == {node} && node in Parse(OrEmpty(s.persistent))
  {
    var rest := Excluded(s) - {node};
    ExcludedFacts(s);
    ParseOfPrint(rest);
    if Join(Sorted(rest), COMMA) == "" {
      assert rest == {} by { assert Parse("") == {}; }
      assert Excluded(s) <= {node} by { assert forall n :: n in Excluded(s) && n != node ==> n in rest; }
    }
  }
}
