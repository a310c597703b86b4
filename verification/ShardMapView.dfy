/** The shard-map grid and the node list, built independently of the pivot, and how they agree. */
module ShardMapView {
  import opened Options
  import opened Pivot
  import opened PivotShape
  import PivotView

  datatype Chip = Chip(shard: int, prirep: string, state: string, store: int, docs: int, segments: int)

  type Cells = map<string, seq<Chip>>

  function CellKey(index: string, owner: string): string { index + " " + owner }

  function ChipsAt(cells: Cells, key: string): seq<Chip> { if key in cells then cells[key] else [] }

  function RowNames(rows: seq<IndexRow>): set<string> {
    set i | 0 <= i < |rows| && !IsSystem(rows[i].name) :: rows[i].name
  }

  function ChipOf(r: ShardRow): Chip { Chip(r.shard, r.prirep, r.state, r.store, r.docs, r.segments) }

  predicate InGrid(r: ShardRow, valid: set<string>, dataNodes: set<string>) {
    r.index in valid && NormalizeShardNode(r.node).Some? && NormalizeShardNode(r.node).value in dataNodes
  }

  /** The shard rows that land in one cell, as chips in table order. */
  function CellChips(shards: seq<ShardRow>, valid: set<string>, dataNodes: set<string>, key: string): seq<Chip> {
    if shards == [] then []
    else
      var r := shards[|shards| - 1];
      var rest := CellChips(shards[..|shards| - 1], valid, dataNodes, key);
      if InGrid(r, valid, dataNodes) && CellKey(r.index, NormalizeShardNode(r.node).value) == key
      then rest + [ChipOf(r)] else rest
  }

  /** Every cell holds the chips of its key. */
  ghost predicate IsGrid(cells: Cells, l: Listing) {
    forall key :: ChipsAt(cells, key) == CellChips(l.shards, RowNames(l.indices), l.dataNodes, key)
  }

  /** One pass over the shard table, a chip per shard of a shown index on a data node; only cells
      with a chip exist. */
  method BuildCells(l: Listing) returns (cells: Cells)
    ensures IsGrid(cells, l)
    ensures forall key :: key in cells ==> cells[key] != []
  {
    var valid := RowNames(l.indices);
    cells := map[];
    for i := 0 to |l.shards|
      invariant forall key :: ChipsAt(cells, key) == CellChips(l.shards[..i], valid, l.dataNodes, key)
      invariant forall key :: key in cells ==> cells[key] != []
    {
      var r := l.shards[i];
      assert l.shards[..i + 1][..i] == l.shards[..i];
      if InGrid(r, valid, l.dataNodes) {
        var key := CellKey(r.index, NormalizeShardNode(r.node).value);
        cells := cells[key := ChipsAt(cells, key) + [ChipOf(r)]];
      }
    }
    assert l.shards[..|l.shards|] == l.shards;
  }

  /** Number of rows owned by a node, whatever their index. */
  function OwnedCount(shards: seq<ShardRow>, n: string): nat {
    if shards == [] then 0
    else
      OwnedCount(shards[..|shards| - 1], n)
      + (if NormalizeShardNode(shards[|shards| - 1].node) == Some(n) then 1 else 0)
  }

  function CountFor(counts: map<string, nat>, n: string): nat { if n in counts then counts[n] else 0 }

  /** The shard counts of the node list. */
  method CountByNode(shards: seq<ShardRow>) returns (counts: map<string, nat>)
    ensures forall n :: n != [] ==> CountFor(counts, n) == OwnedCount(shards, n)
  {
    counts := map[];
    for i := 0 to |shards|
      invariant forall n :: n != [] ==> CountFor(counts, n) == OwnedCount(shards[..i], n)
    {
      assert shards[..i + 1][..i] == shards[..i];
      var owner := NormalizeShardNode(shards[i].node);
      if owner.Some? && owner.value != [] {
        counts := counts[owner.value := CountFor(counts, owner.value) + 1];
      }
    }
    assert shards[..|shards|] == shards;
  }

  // ---------------------------------------------------------------- agreement

  /** Chips in a node's column: one cell per listed row of the grid. */
  function Column(cells: Cells, rows: seq<IndexRow>, n: string): nat {
    if rows == [] then 0
    else
      var name := rows[|rows| - 1].name;
      Column(cells, rows[..|rows| - 1], n) + (if IsSystem(name) then 0 else |ChipsAt(cells, CellKey(name, n))|)
  }

  predicate Shown(name: string) { name != [] && !IsSystem(name) }

  /** The names of the grid's rows are non-empty and free of the cell key's separator. */
  predicate PlainNames(rows: seq<IndexRow>) {
    forall i :: 0 <= i < |rows| && !IsSystem(rows[i].name) ==> rows[i].name != [] && ' ' !in rows[i].name
  }

  /** No shown name is listed twice. */
  predicate ShownOnce(rows: seq<IndexRow>) {
    forall i, j :: 0 <= i < j < |rows| && Shown(rows[i].name) ==> rows[i].name != rows[j].name
  }

  /** Without spaces in index names a cell key determines its index and its node. */
  lemma {:induction false} CellKeyInjective(a: string, n: string, b: string, k: string)
    requires ' ' !in a && ' ' !in b && CellKey(a, n) == CellKey(b, k)
    ensures a == b && n == k
    decreases |a|
  {
    var x, y := CellKey(a, n), CellKey(b, k);
    assert a == [] <==> x[0] == ' ' by { assert a != [] ==> x[0] == a[0] && a[0] in a; }
    assert b == [] <==> y[0] == ' ' by { assert b != [] ==> y[0] == b[0] && b[0] in b; }
    if a == [] {
      assert x[1..] == n && y[1..] == k;
    } else {
      assert x[0] == a[0] && y[0] == b[0];
      assert x[1..] == CellKey(a[1..], n) && y[1..] == CellKey(b[1..], k);
      CellKeyInjective(a[1..], n, b[1..], k);
      assert a == [a[0]] + a[1..] && b == [b[0]] + b[1..];
    }
  }

  predicate SpaceFree(names: set<string>) { forall name :: name in names ==> ' ' !in name }

  /** A cell's chips are exactly the rows of its index on its node. */
  lemma {:induction false} CellIsIndexShare(shards: seq<ShardRow>, valid: set<string>, dataNodes: set<string>,
                                            name: string, n: string)
    requires SpaceFree(valid) && name in valid && name != [] && n in dataNodes
    ensures |CellChips(shards, valid, dataNodes, CellKey(name, n))| == RowsWeight(shards, name, dataNodes, ShardsOn(n))
  {
    if shards != [] {
      CellIsIndexShare(shards[..|shards| - 1], valid, dataNodes, name, n);
      var r := shards[|shards| - 1];
      if InGrid(r, valid, dataNodes) && CellKey(r.index, NormalizeShardNode(r.node).value) == CellKey(name, n) {
        CellKeyInjective(r.index, NormalizeShardNode(r.node).value, name, n);
      }
    }
  }

  lemma UnderRoot(name: string, sep: string)
    requires sep != []
    ensures Under(name, sep, []) <==> !IsSystem(name)
  {}

  lemma {:induction false} ColumnIsTotal(l: Listing, rows: seq<IndexRow>, sep: string, cells: Cells, n: string)
    requires sep != [] && n in l.dataNodes && PlainNames(l.indices) && IsGrid(cells, l)
    requires forall i :: 0 <= i < |rows| ==> rows[i] in l.indices
    ensures Column(cells, rows, n) == Total(l, rows, sep, [], ShardsOn(n))
  {
    if rows != [] {
      ColumnIsTotal(l, rows[..|rows| - 1], sep, cells, n);
      var row := rows[|rows| - 1];
      UnderRoot(row.name, sep);
      if !IsSystem(row.name) {
        assert row in l.indices;
        assert row.name in RowNames(l.indices);
        CellIsIndexShare(l.shards, RowNames(l.indices), l.dataNodes, row.name, n);
      }
    }
  }

  /** How many of the listed rows show a name. */
  function Occurrences(rows: seq<IndexRow>, name: string): nat {
    if rows == [] then 0
    else Occurrences(rows[..|rows| - 1], name) + (if rows[|rows| - 1].name == name && Shown(name) then 1 else 0)
  }

  /** The occurrences of their index, over the shard rows that a node owns. */
  function OwnedOccurrences(shards: seq<ShardRow>, rows: seq<IndexRow>, n: string): nat {
    if shards == [] then 0
    else
      var r := shards[|shards| - 1];
      OwnedOccurrences(shards[..|shards| - 1], rows, n)
      + (if NormalizeShardNode(r.node) == Some(n) then Occurrences(rows, r.index) else 0)
  }

  /** A shard row raises its node's grand total by the occurrences of its index. */
  lemma {:induction false} TotalByRow(l: Listing, rows: seq<IndexRow>, sep: string, r: ShardRow, n: string)
    requires sep != [] && l.shards != [] && r == l.shards[|l.shards| - 1]
    ensures var before := l.(shards := l.shards[..|l.shards| - 1]);
            Total(l, rows, sep, [], ShardsOn(n)) == Total(before, rows, sep, [], ShardsOn(n))
              + (if NormalizeShardNode(r.node) == Some(n) && n in l.dataNodes then Occurrences(rows, r.index) else 0)
  {
    if rows != [] {
      TotalByRow(l, rows[..|rows| - 1], sep, r, n);
      UnderRoot(rows[|rows| - 1].name, sep);
    }
  }

  lemma {:induction false} NoShardsNoTotal(l: Listing, rows: seq<IndexRow>, sep: string, n: string)
    requires sep != [] && l.shards == []
    ensures Total(l, rows, sep, [], ShardsOn(n)) == 0
  {
    if rows != [] { NoShardsNoTotal(l, rows[..|rows| - 1], sep, n); }
  }

  /** The pivot's grand total for a data node counts each shard that the node owns once for every
      listing of its index. */
  lemma {:induction false} TotalIsOccurrences(l: Listing, rows: seq<IndexRow>, sep: string, n: string)
    requires sep != []
    ensures Total(l, rows, sep, [], ShardsOn(n)) == if n in l.dataNodes then OwnedOccurrences(l.shards, rows, n) else 0
    decreases |l.shards|
  {
    if l.shards == [] {
      NoShardsNoTotal(l, rows, sep, n);
    } else {
      TotalIsOccurrences(l.(shards := l.shards[..|l.shards| - 1]), rows, sep, n);
      TotalByRow(l, rows, sep, l.shards[|l.shards| - 1], n);
    }
  }

  lemma {:induction false} NoOccurrence(rows: seq<IndexRow>, name: string)
    requires forall i :: 0 <= i < |rows| ==> rows[i].name != name
    ensures Occurrences(rows, name) == 0
  {
    if rows != [] { NoOccurrence(rows[..|rows| - 1], name); }
  }

  lemma {:induction false} AtMostOnce(rows: seq<IndexRow>, name: string)
    requires ShownOnce(rows)
    ensures Occurrences(rows, name) <= 1
  {
    if rows != [] {
      var init, last := rows[..|rows| - 1], rows[|rows| - 1].name;
      AtMostOnce(init, name);
      if last == name && Shown(name) { NoOccurrence(init, name); }
    }
  }

  lemma {:induction false} OccurrencesAtMostOwned(shards: seq<ShardRow>, rows: seq<IndexRow>, n: string)
    requires ShownOnce(rows)
    ensures OwnedOccurrences(shards, rows, n) <= OwnedCount(shards, n)
  {
    if shards != [] {
      OccurrencesAtMostOwned(shards[..|shards| - 1], rows, n);
      AtMostOnce(rows, shards[|shards| - 1].index);
    }
  }

  lemma TotalAtMostOwned(l: Listing, rows: seq<IndexRow>, sep: string, n: string)
    requires sep != [] && ShownOnce(rows)
    ensures Total(l, rows, sep, [], ShardsOn(n)) <= OwnedCount(l.shards, n)
  {
    TotalIsOccurrences(l, rows, sep, n);
    OccurrencesAtMostOwned(l.shards, rows, n);
  }

  lemma {:induction false} OccursAt(rows: seq<IndexRow>, i: nat)
    requires i < |rows| && Shown(rows[i].name)
    ensures Occurrences(rows, rows[i].name) >= 1
  {
    if i < |rows| - 1 { OccursAt(rows[..|rows| - 1], i); }
  }

  lemma {:induction false} OccursTwice(rows: seq<IndexRow>, i: nat, j: nat)
    requires i < j < |rows| && Shown(rows[i].name) && rows[i].name == rows[j].name
    ensures Occurrences(rows, rows[i].name) >= 2
  {
    var init := rows[..|rows| - 1];
    if j < |rows| - 1 { OccursTwice(init, i, j); } else { OccursAt(init, i); }
  }

  /** A node name as the shard table reports it outside a relocation. */
  predicate PlainNode(n: string) { n != [] && ' ' !in n && !HasArrow(n) }

  /** Whatever the shard table, the node list counts at least the chips of a node's column. */
  ghost predicate NodeListCovers(rows: seq<IndexRow>, dataNodes: set<string>, n: string) {
    forall shards, cells :: IsGrid(cells, Listing(rows, shards, dataNodes)) ==>
      Column(cells, rows, n) <= OwnedCount(shards, n)
  }

  lemma ColumnIsOccurrences(l: Listing, cells: Cells, n: string)
    requires n in l.dataNodes && PlainNames(l.indices) && IsGrid(cells, l)
    ensures Column(cells, l.indices, n) == OwnedOccurrences(l.shards, l.indices, n)
  {
    ColumnIsTotal(l, l.indices, "_", cells, n);
    TotalIsOccurrences(l, l.indices, "_", n);
  }

  /** For every shard table the node list covers the columns exactly when no shown index is listed twice. */
  lemma NodeListCoversIff(rows: seq<IndexRow>, dataNodes: set<string>, n: string)
    requires PlainNames(rows) && n in dataNodes && PlainNode(n)
    ensures NodeListCovers(rows, dataNodes, n) <==> ShownOnce(rows)
  {
    if ShownOnce(rows) {
      forall shards, cells | IsGrid(cells, Listing(rows, shards, dataNodes))
        ensures Column(cells, rows, n) <= OwnedCount(shards, n)
      {
        ColumnIsOccurrences(Listing(rows, shards, dataNodes), cells, n);
        OccurrencesAtMostOwned(shards, rows, n);
      }
    } else {
      var i, j :| 0 <= i < j < |rows| && Shown(rows[i].name) && rows[i].name == rows[j].name;
      DuplicateListingDisagrees(rows, dataNodes, i, j, n);
    }
  }

  function OneShard(index: string, n: string): ShardRow { ShardRow(index, Some(n), 0, 0, "p", "STARTED", 0, 1) }

  /** An index that is listed twice has its only shard in two rows of the grid and twice in the pivot,
      which still agree, while the node list counts it once. */
  lemma DuplicateListingDisagrees(rows: seq<IndexRow>, dataNodes: set<string>, i: nat, j: nat, n: string)
    requires PlainNames(rows) && n in dataNodes && PlainNode(n)
    requires i < j < |rows| && Shown(rows[i].name) && rows[i].name == rows[j].name
    ensures var l := Listing(rows, [OneShard(rows[i].name, n)], dataNodes);
            var cells := map[CellKey(rows[i].name, n) := [ChipOf(OneShard(rows[i].name, n))]];
            && IsGrid(cells, l) && Column(cells, rows, n) == Total(l, rows, "_", [], ShardsOn(n)) >= 2
            && OwnedCount(l.shards, n) == 1
  {
    var r := OneShard(rows[i].name, n);
    var l := Listing(rows, [r], dataNodes);
    var cells := map[CellKey(r.index, n) := [ChipOf(r)]];
    assert NormalizeShardNode(r.node) == Some(n);
    assert r.index in RowNames(rows);
    assert [r][..0] == [];
    forall key ensures ChipsAt(cells, key) == CellChips([r], RowNames(rows), dataNodes, key) {
      assert CellChips([], RowNames(rows), dataNodes, key) == [];
    }
    OccursTwice(rows, i, j);
    assert OwnedOccurrences([], rows, n) == 0 && OwnedCount([], n) == 0;
    ColumnIsTotal(l, rows, "_", cells, n);
    TotalIsOccurrences(l, rows, "_", n);
  }

  /** Built independently, the views agree: for each data node, the shard counts over the pivot roots
      are the chips in its shard-map column, each owned shard once per listing of its index; the node
      list counts at least as many when no shown index is listed twice. */
  method ViewsAgree(l: Listing, sep: string, n: string)
    returns (pivot: seq<Node>, cells: Cells, counts: map<string, nat>)
    requires sep != [] && PlainNames(l.indices) && n in l.dataNodes && n != []
    ensures SumWeight(pivot, ShardsOn(n)) == Column(cells, l.indices, n)
    ensures Column(cells, l.indices, n) == OwnedOccurrences(l.shards, l.indices, n)
    ensures ShownOnce(l.indices) ==> Column(cells, l.indices, n) <= CountFor(counts, n)
    ensures PivotView.Refines(pivot, l, l.indices, sep) && IsGrid(cells, l)
    ensures CountFor(counts, n) == OwnedCount(l.shards, n)
  {
    pivot := PivotView.BuildPivot(l, sep);
    cells := BuildCells(l);
    counts := CountByNode(l.shards);
    ColumnIsTotal(l, l.indices, sep, cells, n);
    ColumnIsOccurrences(l, cells, n);
    if ShownOnce(l.indices) { TotalAtMostOwned(l, l.indices, sep, n); }
  }
}
