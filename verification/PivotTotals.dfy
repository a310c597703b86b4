/** The totals of the pivot one listed row at a time: what a shard row and an index row add to them. */
module PivotTotals {
  import opened Options
  import opened Pivot
  import Text

  /** The rows that show the index, if the path leads to it. */
  ghost function ShownUnder(rows: seq<IndexRow>, sep: string, path: seq<string>, name: string): set<nat>
    requires sep != []
  {
    set k: nat | k < |rows| && rows[k].name == name && name != "" && name[0] != '.' && path <= Text.Split(name, sep)
  }

  lemma ShownUnderSnoc(rows: seq<IndexRow>, sep: string, path: seq<string>, name: string)
    requires sep != [] && rows != []
    ensures var last := rows[|rows| - 1].name;
            |ShownUnder(rows, sep, path, name)| == |ShownUnder(rows[..|rows| - 1], sep, path, name)|
              + (if last == name && name != "" && Under(name, sep, path) then 1 else 0)
  {
    var k := |rows| - 1;
    var before, after := ShownUnder(rows[..k], sep, path, name), ShownUnder(rows, sep, path, name);
    var more: set<nat> := if rows[k].name == name && name != "" && Under(name, sep, path) then {k} else {};
    forall i: nat ensures i in after <==> i in before || i in more {
      if i < k { assert rows[..k][i] == rows[i]; }
    }
    assert after == before + more && before !! more;
  }

  lemma RowsWeightWith(shards: seq<ShardRow>, r: ShardRow, name: string, dataNodes: set<string>, m: Measure)
    ensures RowsWeight(shards + [r], name, dataNodes, m) ==
            RowsWeight(shards, name, dataNodes, m)
              + (if r.index == name && name != "" then RowWeight(r, dataNodes, m) else 0)
  {
    assert (shards + [r])[..|shards|] == shards;
  }

  lemma OneMoreTimes(times: int, weight: int)
    ensures (times + 1) * weight == times * weight + weight
  {}

  lemma IndexWeightWith(l: Listing, r: ShardRow, name: string, m: Measure)
    requires m != Docs && m != Indices
    ensures IndexWeight(l.(shards := l.shards + [r]), name, m) ==
            IndexWeight(l, name, m) + (if r.index == name && name != "" then RowWeight(r, l.dataNodes, m) else 0)
  {
    RowsWeightWith(l.shards, r, name, l.dataNodes, m);
  }

  lemma {:induction false} TotalWithShard(l: Listing, rows: seq<IndexRow>, r: ShardRow, sep: string, path: seq<string>,
                                          m: Measure, weight: int)
    requires sep != [] && m != Docs && m != Indices && weight == RowWeight(r, l.dataNodes, m)
    ensures Total(l.(shards := l.shards + [r]), rows, sep, path, m) ==
            Total(l, rows, sep, path, m) + |ShownUnder(rows, sep, path, r.index)| * weight
  {
    if rows != [] {
      var init, name := rows[..|rows| - 1], rows[|rows| - 1].name;
      TotalWithShard(l, init, r, sep, path, m, weight);
      ShownUnderSnoc(rows, sep, path, r.index);
      IndexWeightWith(l, r, name, m);
      OneMoreTimes(|ShownUnder(init, sep, path, r.index)|, weight);
    } else {
      assert ShownUnder(rows, sep, path, r.index) == {};
    }
  }

  /** One more shard row adds, for every listing of its index under a path, one shard and its size to the
      path's totals, and to its owner's part of them if that is a data node; it adds no documents and no
      index. */
  lemma ShardAdds(l: Listing, rows: seq<IndexRow>, r: ShardRow, sep: string, path: seq<string>, n: string)
    requires sep != []
    ensures var more, times := l.(shards := l.shards + [r]), |ShownUnder(rows, sep, path, r.index)|;
            var here := if n in l.dataNodes && NormalizeShardNode(r.node) == Some(n) then times else 0;
            && Total(more, rows, sep, path, Shards) == Total(l, rows, sep, path, Shards) + times
            && Total(more, rows, sep, path, Size) == Total(l, rows, sep, path, Size) + times * r.store
            && Total(more, rows, sep, path, ShardsOn(n)) == Total(l, rows, sep, path, ShardsOn(n)) + here
            && Total(more, rows, sep, path, SizeOn(n)) == Total(l, rows, sep, path, SizeOn(n)) + here * r.store
  {
    TotalWithShard(l, rows, r, sep, path, Shards, 1);
    TotalWithShard(l, rows, r, sep, path, Size, r.store);
    var mine := n in l.dataNodes && NormalizeShardNode(r.node) == Some(n);
    TotalWithShard(l, rows, r, sep, path, ShardsOn(n), if mine then 1 else 0);
    TotalWithShard(l, rows, r, sep, path, SizeOn(n), if mine then r.store else 0);
  }

  lemma {:induction false} ShardAddsNoDocs(l: Listing, rows: seq<IndexRow>, r: ShardRow, sep: string, path: seq<string>)
    requires sep != []
    ensures var more := l.(shards := l.shards + [r]);
            && Total(more, rows, sep, path, Docs) == Total(l, rows, sep, path, Docs)
            && Total(more, rows, sep, path, Indices) == Total(l, rows, sep, path, Indices)
  {
    if rows != [] { ShardAddsNoDocs(l, rows[..|rows| - 1], r, sep, path); }
  }

  lemma {:induction false} DocsOfLastRow(indices: seq<IndexRow>, k: nat)
    requires k < |indices| && forall j :: k < j < |indices| ==> indices[j].name != indices[k].name
    ensures DocsOf(indices, indices[k].name) == indices[k].docs
  {
    var init := indices[..|indices| - 1];
    if k < |indices| - 1 {
      assert indices[|indices| - 1].name != indices[k].name;
      assert init[k] == indices[k];
      DocsOfLastRow(init, k);
    }
  }

  /** One more index row counts as an index, with the documents of the last row of its name, under
      exactly the paths that lead to it, and nowhere if its name begins with a dot. */
  lemma IndexAdds(l: Listing, rows: seq<IndexRow>, k: nat, sep: string, path: seq<string>)
    requires sep != [] && k < |l.indices| && l.indices[k].name != ""
    requires forall j :: k < j < |l.indices| ==> l.indices[j].name != l.indices[k].name
    ensures var row := l.indices[k];
            var counts := row.name[0] != '.' && path <= Text.Split(row.name, sep);
            && Total(l, rows + [row], sep, path, Indices) ==
                 Total(l, rows, sep, path, Indices) + (if counts then 1 else 0)
            && Total(l, rows + [row], sep, path, Docs) ==
                 Total(l, rows, sep, path, Docs) + (if counts then row.docs else 0)
  {
    DocsOfLastRow(l.indices, k);
    assert (rows + [l.indices[k]])[..|rows|] == rows;
  }
}
