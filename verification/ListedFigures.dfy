/** What the analysis reads off the listing, stated on the listed rows themselves. */
module ListedFigures {
  import opened Names
  import opened Analyzer
  import opened Analysis

  // ---------------------------------------------------------------- the figures of one index

  /** The rows that list a primary shard of the index with these figures. */
  ghost function PrimaryRows(shards: seq<ShardRow>, name: string, p: Primary): set<nat> {
    set k: nat | && k < |shards| && shards[k].index == name && shards[k].primary
                 && shards[k].gb == p.gb && shards[k].segments == p.segments
  }

  lemma PrimaryRowsSnoc(shards: seq<ShardRow>, name: string, p: Primary)
    requires shards != []
    ensures var last := shards[|shards| - 1];
            PrimaryRows(shards, name, p) ==
            PrimaryRows(shards[..|shards| - 1], name, p)
              + (if last.index == name && last.primary && Primary(last.gb, last.segments) == p
                 then {|shards| - 1} else {})
  {
  }

  /** The analysed shards of an index are the listed primaries under its name, each once. */
  lemma {:induction false} PrimariesAreRows(shards: seq<ShardRow>, name: string, p: Primary)
    ensures multiset(Primaries(ShardsOf(shards, name)))[p] == |PrimaryRows(shards, name, p)|
  {
    if shards != [] {
      var init, last := shards[..|shards| - 1], shards[|shards| - 1];
      PrimariesAreRows(init, name, p);
      PrimaryRowsSnoc(shards, name, p);
      if last.index == name {
        var rest := ShardsOf(init, name);
        assert (rest + [last])[..|rest|] == rest;
      }
    }
  }

  /** An index is described by the last row of its name and by its primary shards. */
  lemma DescribedByLastRow(rows: seq<IndexRow>, shards: seq<ShardRow>, k: nat, p: Primary)
    requires k < |rows| && rows[k].name != "" && forall j :: k < j < |rows| ==> rows[j].name != rows[k].name
    ensures Named(rows, rows[k].name)
    ensures var row, idx := rows[k], Described(rows, shards, rows[k].name);
            && idx.name == row.name && idx.open == row.open && idx.primaries == row.primaries
            && idx.replicas == row.replicas && idx.docs == row.docs && idx.deleted == row.deleted
            && idx.sizeGb == row.sizeGb
            && multiset(idx.shards)[p] == |PrimaryRows(shards, row.name, p)|
  {
    LastRowIs(rows, k);
    PrimariesAreRows(shards, rows[k].name, p);
  }

  lemma {:induction false} LastRowIs(rows: seq<IndexRow>, k: nat)
    requires k < |rows| && rows[k].name != "" && forall j :: k < j < |rows| ==> rows[j].name != rows[k].name
    ensures Named(rows, rows[k].name) && LastRow(rows, rows[k].name) == rows[k]
  {
    var init := rows[..|rows| - 1];
    if k < |rows| - 1 {
      assert rows[|rows| - 1].name != rows[k].name;
      assert init[k] == rows[k];
      LastRowIs(init, k);
    }
  }

  // ---------------------------------------------------------------- the reports

  /** A report is made for exactly the listed names that do not begin with a dot, and, if only problems
      are wanted, that have an opportunity. */
  lemma ReportedIff(rows: seq<IndexRow>, shards: seq<ShardRow>, cfg: Settings, problemsOnly: bool, r: Report)
    requires cfg.idealMax > 0.0
    ensures r in Reports(rows, shards, cfg, problemsOnly, FirstNames(rows)) <==>
            && Named(rows, r.index.name) && r.index.name[0] != '.'
            && r == Report(Described(rows, shards, r.index.name),
                           Opportunities(Described(rows, shards, r.index.name), cfg))
            && (problemsOnly ==> r.opportunities != [])
  {
    FirstNamesExact(rows);
    ReportsExact(rows, shards, cfg, problemsOnly, FirstNames(rows));
  }

  /** `a` is listed before `b`: some row of `a` has no row of `b` up to it. */
  ghost predicate ListedBefore(rows: seq<IndexRow>, a: string, b: string) {
    exists k :: 0 <= k < |rows| && rows[k].name == a && forall l :: 0 <= l <= k ==> rows[l].name != b
  }

  lemma ListedBeforeGrows(rows: seq<IndexRow>, row: IndexRow, a: string, b: string)
    requires ListedBefore(rows, a, b)
    ensures ListedBefore(rows + [row], a, b)
  {
    var k :| 0 <= k < |rows| && rows[k].name == a && forall l :: 0 <= l <= k ==> rows[l].name != b;
    assert (rows + [row])[k].name == a;
  }

  /** The names are in the order in which they are first listed. */
  lemma {:induction false} NamesInOrder(rows: seq<IndexRow>, i: nat, j: nat)
    requires i < j < |FirstNames(rows)|
    ensures ListedBefore(rows, FirstNames(rows)[i], FirstNames(rows)[j])
  {
    var init, last := rows[..|rows| - 1], rows[|rows| - 1];
    assert init + [last] == rows;
    FirstNamesExact(init);
    if j < |FirstNames(init)| {
      NamesInOrder(init, i, j);
      ListedBeforeGrows(init, last, FirstNames(rows)[i], FirstNames(rows)[j]);
    } else {
      var a := FirstNames(init)[i];
      assert a in FirstNames(init) && last.name !in FirstNames(init);
      var k :| 0 <= k < |init| && init[k].name == a;
      forall l | 0 <= l <= k ensures rows[l].name != last.name {
        if rows[l].name == last.name { assert init[l].name == last.name && Named(init, last.name); }
      }
      assert rows[k].name == a;
    }
  }

  /** The positions of two reports' names. */
  lemma {:induction false} ReportsFollowNames(rows: seq<IndexRow>, shards: seq<ShardRow>, cfg: Settings,
                                              problemsOnly: bool, names: seq<string>, i: nat, j: nat)
    returns (a: nat, b: nat)
    requires cfg.idealMax > 0.0 && i < j < |Reports(rows, shards, cfg, problemsOnly, names)|
    ensures a < b < |names| && names[a] == Reports(rows, shards, cfg, problemsOnly, names)[i].index.name
    ensures names[b] == Reports(rows, shards, cfg, problemsOnly, names)[j].index.name
    decreases |names|
  {
    var init := names[..|names| - 1];
    var rest := Reports(rows, shards, cfg, problemsOnly, init);
    if j < |rest| {
      a, b := ReportsFollowNames(rows, shards, cfg, problemsOnly, init, i, j);
    } else {
      a := ReportHasName(rows, shards, cfg, problemsOnly, init, i);
      b := |names| - 1;
    }
  }

  lemma {:induction false} ReportHasName(rows: seq<IndexRow>, shards: seq<ShardRow>, cfg: Settings,
                                         problemsOnly: bool, names: seq<string>, i: nat) returns (a: nat)
    requires cfg.idealMax > 0.0 && i < |Reports(rows, shards, cfg, problemsOnly, names)|
    ensures a < |names| && names[a] == Reports(rows, shards, cfg, problemsOnly, names)[i].index.name
    decreases |names|
  {
    var init := names[..|names| - 1];
    if i < |Reports(rows, shards, cfg, problemsOnly, init)| {
      a := ReportHasName(rows, shards, cfg, problemsOnly, init, i);
    } else {
      a := |names| - 1;
    }
  }

  /** So are the reports. */
  lemma ReportsInOrder(rows: seq<IndexRow>, shards: seq<ShardRow>, cfg: Settings, problemsOnly: bool, i: nat, j: nat)
    requires cfg.idealMax > 0.0 && i < j < |Reports(rows, shards, cfg, problemsOnly, FirstNames(rows))|
    ensures var results := Reports(rows, shards, cfg, problemsOnly, FirstNames(rows));
            ListedBefore(rows, results[i].index.name, results[j].index.name)
  {
    var a, b := ReportsFollowNames(rows, shards, cfg, problemsOnly, FirstNames(rows), i, j);
    NamesInOrder(rows, a, b);
  }
}
