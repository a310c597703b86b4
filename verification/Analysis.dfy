/** From the listed rows of a cluster to one analysis per visible index. */
module Analysis {
  import opened Options
  import opened Names
  import opened Analyzer

  datatype IndexRow = IndexRow(name: string, open: bool, primaries: int, replicas: int, docs: int, deleted: int,
                               sizeGb: real)

  datatype ShardRow = ShardRow(index: string, primary: bool, gb: real, segments: int)

  datatype Entry = Entry(row: IndexRow, shards: seq<ShardRow>)

  datatype Report = Report(index: Index, opportunities: seq<Opportunity>)

  predicate Named(rows: seq<IndexRow>, name: string) {
    name != "" && exists i :: 0 <= i < |rows| && rows[i].name == name
  }

  /** A name listed twice is described by its last row. */
  function LastRow(rows: seq<IndexRow>, name: string): (row: IndexRow)
    requires Named(rows, name)
    ensures row.name == name && row in rows
  {
    if rows[|rows| - 1].name == name then rows[|rows| - 1] else LastRow(rows[..|rows| - 1], name)
  }

  function ShardsOf(shards: seq<ShardRow>, name: string): seq<ShardRow> {
    if shards == [] then []
    else
      var rest := ShardsOf(shards[..|shards| - 1], name);
      var s := shards[|shards| - 1];
      if s.index == name then rest + [s] else rest
  }

  function Primaries(shards: seq<ShardRow>): seq<Primary> {
    if shards == [] then []
    else
      var rest := Primaries(shards[..|shards| - 1]);
      var s := shards[|shards| - 1];
      if s.primary then rest + [Primary(s.gb, s.segments)] else rest
  }

  function Measured(e: Entry): Index {
    Index(e.row.name, e.row.open, e.row.primaries, e.row.replicas, e.row.docs, e.row.deleted, e.row.sizeGb,
          Primaries(e.shards))
  }

  /** What the analyser sees of one index. */
  function Described(rows: seq<IndexRow>, shards: seq<ShardRow>, name: string): (idx: Index)
    requires Named(rows, name)
    ensures idx.name == name
  {
    Measured(Entry(LastRow(rows, name), ShardsOf(shards, name)))
  }

  predicate Hidden(name: string) { name != "" && name[0] == '.' }

  /** The named indices in the order they are first listed. */
  function FirstNames(rows: seq<IndexRow>): seq<string> {
    if rows == [] then []
    else
      var rest := FirstNames(rows[..|rows| - 1]);
      var name := rows[|rows| - 1].name;
      if name == "" || name in rest then rest else rest + [name]
  }

  lemma {:induction false} FirstNamesExact(rows: seq<IndexRow>)
    ensures Distinct(FirstNames(rows)) && forall n :: n in FirstNames(rows) <==> Named(rows, n)
  {
    if rows != [] {
      FirstNamesExact(rows[..|rows| - 1]);
      NamedOneMore(rows, |rows| - 1);
      assert rows[..|rows|] == rows;
    }
  }

  // ---------------------------------------------------------------- the index map

  method BuildIndexMap(rows: seq<IndexRow>, shards: seq<ShardRow>)
    returns (order: seq<string>, entries: map<string, Entry>)
    ensures order == FirstNames(rows) && Distinct(order)
    ensures (forall n :: n in order <==> Named(rows, n)) && (forall n :: n in entries <==> n in order)
    ensures forall n :: n in entries ==> Named(rows, n) && entries[n] == Entry(LastRow(rows, n), ShardsOf(shards, n))
  {
    order, entries := ListIndices(rows);
    for i := 0 to |shards|
      invariant forall n :: n in entries <==> n in order
      invariant forall n :: n in entries ==>
                  Named(rows, n) && entries[n] == Entry(LastRow(rows, n), ShardsOf(shards[..i], n))
    {
      assert shards[..i + 1][..i] == shards[..i];
      var name := shards[i].index;
      if name in entries {
        entries := entries[name := entries[name].(shards := entries[name].shards + [shards[i]])];
      }
    }
    assert shards[..|shards|] == shards;
  }

  method ListIndices(rows: seq<IndexRow>) returns (order: seq<string>, entries: map<string, Entry>)
    ensures order == FirstNames(rows) && Distinct(order)
    ensures (forall n :: n in order <==> Named(rows, n)) && (forall n :: n in entries <==> n in order)
    ensures forall n :: n in entries ==> Named(rows, n) && entries[n] == Entry(LastRow(rows, n), [])
  {
    order, entries := [], map[];
    for i := 0 to |rows|
      invariant order == FirstNames(rows[..i]) && Distinct(order)
      invariant (forall n :: n in order <==> Named(rows[..i], n)) && (forall n :: n in entries <==> n in order)
      invariant forall n :: n in entries ==> Named(rows[..i], n) && entries[n] == Entry(LastRow(rows[..i], n), [])
    {
      var name := rows[i].name;
      NamedOneMore(rows, i);
      assert rows[..i + 1][..i] == rows[..i];
      if name == "" { continue; }
      if name !in entries { order := order + [name]; }
      entries := entries[name := Entry(rows[i], [])];
    }
    assert rows[..|rows|] == rows;
  }

  lemma NamedOneMore(rows: seq<IndexRow>, i: nat)
    requires i < |rows|
    ensures forall n :: Named(rows[..i + 1], n) <==> Named(rows[..i], n) || (n != "" && n == rows[i].name)
    ensures forall n :: Named(rows[..i + 1], n) ==>
              LastRow(rows[..i + 1], n) == if rows[i].name == n then rows[i] else LastRow(rows[..i], n)
  {
    var now, before := rows[..i + 1], rows[..i];
    assert now[..i] == before && now[i] == rows[i];
    forall n | Named(before, n) ensures Named(now, n) {
      var k :| 0 <= k < i && before[k].name == n;
      assert now[k].name == n;
    }
    forall n | Named(now, n)
      ensures Named(before, n) || n == rows[i].name
      ensures LastRow(now, n) == if rows[i].name == n then rows[i] else LastRow(before, n)
    {
      var k :| 0 <= k < i + 1 && now[k].name == n;
      if k < i { assert before[k].name == n; }
      assert now[..|now| - 1] == before;
    }
  }

  // ---------------------------------------------------------------- one index

  /** The detectors append to one list. */
  method AnalyzeIndex(idx: Index, cfg: Settings) returns (opps: seq<Opportunity>)
    requires cfg.idealMax > 0.0
    ensures opps == Opportunities(idx, cfg)
  {
    opps := [];
    var over := DetectOverSharded(idx, cfg);
    if over.Some? { opps := opps + [over.value]; }
    var under := DetectUnderSharded(idx, cfg);
    if under.Some? { opps := opps + [under.value]; }
    var fragmented := DetectFragmented(idx, cfg);
    if fragmented.Some? { opps := opps + [fragmented.value]; }
    var deleted := DetectDeletedDocs(idx);
    if deleted.Some? { opps := opps + [deleted.value]; }
    var imbalanced := DetectImbalanced(idx);
    if imbalanced.Some? { opps := opps + [imbalanced.value]; }
  }

  /** No detector speaks twice about one index. */
  lemma OpportunitiesDiffer(idx: Index, cfg: Settings, i: nat, j: nat)
    requires cfg.idealMax > 0.0 && i < j < |Opportunities(idx, cfg)|
    ensures Opportunities(idx, cfg)[i].kind != Opportunities(idx, cfg)[j].kind
  {
    CollectAscends(DetectOverSharded(idx, cfg), DetectUnderSharded(idx, cfg), DetectFragmented(idx, cfg),
                   DetectDeletedDocs(idx), DetectImbalanced(idx));
  }

  function Rank(kind: Kind): nat {
    match kind
    case OverSharded => 0
    case UnderSharded => 1
    case Fragmented => 2
    case DeletedDocs => 3
    case Imbalanced => 4
  }

  /** Kinds in detector order, all before the given rank. */
  predicate Ascending(opps: seq<Opportunity>, bound: nat) {
    && (forall i, j :: 0 <= i < j < |opps| ==> Rank(opps[i].kind) < Rank(opps[j].kind))
    && (forall i :: 0 <= i < |opps| ==> Rank(opps[i].kind) < bound)
  }

  lemma AddAscends(opps: seq<Opportunity>, found: Option<Opportunity>, bound: nat)
    requires Ascending(opps, bound) && (found.Some? ==> Rank(found.value.kind) == bound)
    ensures Ascending(Add(opps, found), bound + 1)
  {
  }

  lemma CollectAscends(over: Option<Opportunity>, under: Option<Opportunity>, fragmented: Option<Opportunity>,
                       deleted: Option<Opportunity>, imbalanced: Option<Opportunity>)
    requires over.Some? ==> over.value.kind == OverSharded
    requires under.Some? ==> under.value.kind == UnderSharded
    requires fragmented.Some? ==> fragmented.value.kind == Fragmented
    requires deleted.Some? ==> deleted.value.kind == DeletedDocs
    requires imbalanced.Some? ==> imbalanced.value.kind == Imbalanced
    ensures Ascending(Collect(over, under, fragmented, deleted, imbalanced), 5)
  {
    var a := Add([], over);
    var b := Add(a, under);
    var c := Add(b, fragmented);
    var d := Add(c, deleted);
    AddAscends([], over, 0);
    AddAscends(a, under, 1);
    AddAscends(b, fragmented, 2);
    AddAscends(c, deleted, 3);
    AddAscends(d, imbalanced, 4);
  }

  // ---------------------------------------------------------------- all indices

  predicate Worth(r: Report, problemsOnly: bool) { !Hidden(r.index.name) && (problemsOnly ==> r.opportunities != []) }

  /** The report that belongs to a name. */
  function ReportOf(rows: seq<IndexRow>, shards: seq<ShardRow>, cfg: Settings, name: string): Report
    requires cfg.idealMax > 0.0 && Named(rows, name)
  {
    var idx := Described(rows, shards, name);
    Report(idx, Opportunities(idx, cfg))
  }

  /** The results for some of the names: one report for each that is worth showing, no others. */
  ghost predicate Reported(rows: seq<IndexRow>, shards: seq<ShardRow>, cfg: Settings, problemsOnly: bool,
                           names: seq<string>, results: seq<Report>)
    requires cfg.idealMax > 0.0
  {
    && (forall i, j :: 0 <= i < j < |results| ==> results[i].index.name != results[j].index.name)
    && (forall r :: r in results ==>
          && Named(rows, r.index.name) && r.index.name in names
          && r == ReportOf(rows, shards, cfg, r.index.name) && Worth(r, problemsOnly))
    && (forall n :: n in names && Named(rows, n) && Worth(ReportOf(rows, shards, cfg, n), problemsOnly) ==>
          ReportOf(rows, shards, cfg, n) in results)
  }

  /** The reports in the order of the names. */
  function Reports(rows: seq<IndexRow>, shards: seq<ShardRow>, cfg: Settings, problemsOnly: bool,
                   names: seq<string>): seq<Report>
    requires cfg.idealMax > 0.0
  {
    if names == [] then []
    else
      var rest := Reports(rows, shards, cfg, problemsOnly, names[..|names| - 1]);
      var name := names[|names| - 1];
      if Named(rows, name) && Worth(ReportOf(rows, shards, cfg, name), problemsOnly)
      then rest + [ReportOf(rows, shards, cfg, name)] else rest
  }

  lemma ReportsStep(rows: seq<IndexRow>, shards: seq<ShardRow>, cfg: Settings, problemsOnly: bool, names: seq<string>,
                    name: string)
    requires cfg.idealMax > 0.0
    ensures Reports(rows, shards, cfg, problemsOnly, names + [name]) ==
            Reports(rows, shards, cfg, problemsOnly, names)
            + (if Named(rows, name) && Worth(ReportOf(rows, shards, cfg, name), problemsOnly)
               then [ReportOf(rows, shards, cfg, name)] else [])
  {
    assert (names + [name])[..|names|] == names;
  }

  lemma ReportedSkip(rows: seq<IndexRow>, shards: seq<ShardRow>, cfg: Settings, problemsOnly: bool,
                     names: seq<string>, results: seq<Report>, name: string)
    requires cfg.idealMax > 0.0 && Reported(rows, shards, cfg, problemsOnly, names, results)
    requires Named(rows, name) ==> !Worth(ReportOf(rows, shards, cfg, name), problemsOnly)
    ensures Reported(rows, shards, cfg, problemsOnly, names + [name], results)
  {
  }

  lemma ReportedAppend(rows: seq<IndexRow>, shards: seq<ShardRow>, cfg: Settings, problemsOnly: bool,
                       names: seq<string>, results: seq<Report>, r: Report)
    requires cfg.idealMax > 0.0 && Reported(rows, shards, cfg, problemsOnly, names, results)
    requires Named(rows, r.index.name) && r == ReportOf(rows, shards, cfg, r.index.name) && Worth(r, problemsOnly)
    requires r.index.name !in names
    ensures Reported(rows, shards, cfg, problemsOnly, names + [r.index.name], results + [r])
  {
  }

  /** One report for each of some distinct names that is worth showing, and no others. */
  lemma {:induction false} ReportsExact(rows: seq<IndexRow>, shards: seq<ShardRow>, cfg: Settings, problemsOnly: bool,
                                        names: seq<string>)
    requires cfg.idealMax > 0.0 && Distinct(names)
    ensures Reported(rows, shards, cfg, problemsOnly, names, Reports(rows, shards, cfg, problemsOnly, names))
  {
    if names != [] {
      var init, name := names[..|names| - 1], names[|names| - 1];
      var before := Reports(rows, shards, cfg, problemsOnly, init);
      assert names == init + [name];
      ReportsExact(rows, shards, cfg, problemsOnly, init);
      if Named(rows, name) && Worth(ReportOf(rows, shards, cfg, name), problemsOnly) {
        ReportedAppend(rows, shards, cfg, problemsOnly, init, before, ReportOf(rows, shards, cfg, name));
      } else {
        ReportedSkip(rows, shards, cfg, problemsOnly, init, before, name);
      }
    }
  }

  /** One report for every visible named index (with opportunities, if only problems are wanted),
      made from the last row of that name and every shard listed under it, in the order in which the
      names are first listed. */
  method AnalyzeAll(rows: seq<IndexRow>, shards: seq<ShardRow>, cfg: Settings, problemsOnly: bool)
    returns (results: seq<Report>)
    requires cfg.idealMax > 0.0
    ensures forall i, j :: 0 <= i < j < |results| ==> results[i].index.name != results[j].index.name
    ensures forall r :: r in results ==>
              Named(rows, r.index.name) && r == ReportOf(rows, shards, cfg, r.index.name) && Worth(r, problemsOnly)
    ensures forall n :: Named(rows, n) && Worth(ReportOf(rows, shards, cfg, n), problemsOnly) ==>
              ReportOf(rows, shards, cfg, n) in results
    ensures results == Reports(rows, shards, cfg, problemsOnly, FirstNames(rows))
  {
    var order, entries := BuildIndexMap(rows, shards);
    results := ReportAll(rows, shards, cfg, problemsOnly, order, entries);
    ReportsExact(rows, shards, cfg, problemsOnly, order);
  }

  method ReportEntry(ghost rows: seq<IndexRow>, ghost shards: seq<ShardRow>, cfg: Settings, name: string, entry: Entry)
    returns (report: Report)
    requires cfg.idealMax > 0.0 && Named(rows, name) && entry == Entry(LastRow(rows, name), ShardsOf(shards, name))
    ensures report == ReportOf(rows, shards, cfg, name) && report.index.name == name
  {
    var idx := Measured(entry);
    var opps := AnalyzeIndex(idx, cfg);
    report := Report(idx, opps);
  }

  method ReportAll(ghost rows: seq<IndexRow>, ghost shards: seq<ShardRow>, cfg: Settings, problemsOnly: bool,
                   order: seq<string>, entries: map<string, Entry>) returns (results: seq<Report>)
    requires cfg.idealMax > 0.0 && forall n :: n in order ==> n in entries
    requires forall n :: n in entries ==> Named(rows, n) && entries[n] == Entry(LastRow(rows, n), ShardsOf(shards, n))
    ensures results == Reports(rows, shards, cfg, problemsOnly, order)
  {
    results := [];
    for i := 0 to |order|
      invariant results == Reports(rows, shards, cfg, problemsOnly, order[..i])
    {
      assert order[..i + 1] == order[..i] + [order[i]];
      var name := order[i];
      ReportsStep(rows, shards, cfg, problemsOnly, order[..i], name);
      if Hidden(name) { continue; }
      var report := ReportEntry(rows, shards, cfg, name, entries[name]);
      if problemsOnly && report.opportunities == [] { continue; }
      results := results + [report];
    }
    assert order[..|order|] == order;
  }
}
