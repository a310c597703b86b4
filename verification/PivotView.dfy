/** Building the pivot payload, and what the finished tree says about the listing. */
module PivotView {
  import opened Options
  import opened Pivot
  import opened PivotShape
  import opened PivotFinal
  import PivotTrie
  import Text

  // ---------------------------------------------------------------- grouping

  datatype Bucket = Bucket(count: int, size: int, perNode: PerNode)

  const EMPTY_BUCKET := Bucket(0, 0, map[])

  function BucketOf(groups: map<string, Bucket>, name: string): Bucket {
    if name in groups then groups[name] else EMPTY_BUCKET
  }

  function BucketWeight(b: Bucket, m: Measure): int {
    match m
    case Size => b.size
    case Docs => 0
    case Shards => b.count
    case Indices => 0
    case ShardsOn(name) => ShareOf(b.perNode, name).shards
    case SizeOn(name) => ShareOf(b.perNode, name).size
  }

  function AddRow(b: Bucket, r: ShardRow, dataNodes: set<string>): Bucket {
    var owner := NormalizeShardNode(r.node);
    var counted := b.(count := b.count + 1, size := b.size + r.store);
    if owner.Some? && owner.value in dataNodes then
      var share := ShareOf(b.perNode, owner.value);
      counted.(perNode := b.perNode[owner.value := Share(share.shards + 1, share.size + r.store)])
    else counted
  }

  lemma AddRowWeight(b: Bucket, r: ShardRow, dataNodes: set<string>, m: Measure)
    ensures BucketWeight(AddRow(b, r, dataNodes), m) == BucketWeight(b, m) + RowWeight(r, dataNodes, m)
  {}

  lemma RowsWeightSnoc(shards: seq<ShardRow>, i: nat, name: string, dataNodes: set<string>, m: Measure)
    requires i < |shards|
    ensures RowsWeight(shards[..i + 1], name, dataNodes, m) == RowsWeight(shards[..i], name, dataNodes, m)
            + (if shards[i].index == name && name != [] then RowWeight(shards[i], dataNodes, m) else 0)
  {
    assert shards[..i + 1][..i] == shards[..i];
  }

  /** One pass over the shard table; rows without an index name are skipped. */
  method GroupShards(shards: seq<ShardRow>, dataNodes: set<string>) returns (groups: map<string, Bucket>)
    ensures forall name, m :: BucketWeight(BucketOf(groups, name), m) == RowsWeight(shards, name, dataNodes, m)
  {
    groups := map[];
    for i := 0 to |shards|
      invariant forall name, m :: BucketWeight(BucketOf(groups, name), m) == RowsWeight(shards[..i], name, dataNodes, m)
    {
      var r := shards[i];
      ghost var before := groups;
      if r.index != [] { groups := groups[r.index := AddRow(BucketOf(groups, r.index), r, dataNodes)]; }
      forall name, m
        ensures BucketWeight(BucketOf(groups, name), m) == RowsWeight(shards[..i + 1], name, dataNodes, m)
      {
        RowsWeightSnoc(shards, i, name, dataNodes, m);
        AddRowWeight(BucketOf(before, r.index), r, dataNodes, m);
      }
    }
    assert shards[..|shards|] == shards;
  }

  function LookUp(docs: map<string, int>, name: string): int { if name in docs then docs[name] else 0 }

  /** Document counts by name; a later row of the same name replaces an earlier one. */
  method DocsByIndex(indices: seq<IndexRow>) returns (docs: map<string, int>)
    ensures forall name :: LookUp(docs, name) == DocsOf(indices, name)
  {
    docs := map[];
    for i := 0 to |indices|
      invariant forall name :: LookUp(docs, name) == DocsOf(indices[..i], name)
    {
      assert indices[..i + 1][..i] == indices[..i];
      docs := docs[indices[i].name := indices[i].docs];
    }
    assert indices[..|indices|] == indices;
  }

  // ---------------------------------------------------------------- the tree refines the listing

  ghost predicate Listed(rows: seq<IndexRow>, sep: string, q: seq<string>)
    requires sep != []
  {
    exists i :: 0 <= i < |rows| && Under(rows[i].name, sep, q)
  }

  ghost predicate Ends(rows: seq<IndexRow>, sep: string, q: seq<string>)
    requires sep != []
  {
    exists i :: 0 <= i < |rows| && !IsSystem(rows[i].name) && q == Text.Split(rows[i].name, sep)
  }

  /** What one path says: a node exists iff a listed index lies under it, it is a leaf iff one ends
      there, and each aggregate is the specified sum, split into its own share and its children's. */
  ghost predicate PathOk(ns: seq<Node>, l: Listing, rows: seq<IndexRow>, sep: string, q: seq<string>, m: Measure)
    requires sep != [] && q != []
  {
    && (Find(ns, q).Some? <==> Listed(rows, sep, q))
    && (LeafAt(ns, q) <==> Ends(rows, sep, q))
    && WeightAt(ns, q, m) == Total(l, rows, sep, q, m)
    && WeightAt(ns, q, m) == Own(l, rows, sep, q, m) + ChildSum(ns, q, m)
  }

  ghost predicate Refines(ns: seq<Node>, l: Listing, rows: seq<IndexRow>, sep: string)
    requires sep != []
  {
    && (forall q, m :: q != [] ==> PathOk(ns, l, rows, sep, q, m))
    && (forall m :: SumWeight(ns, m) == Total(l, rows, sep, [], m))
    && Named(ns, [], sep) && DistinctTree(ns)
  }

  lemma SystemRowPath(ns: seq<Node>, l: Listing, rows: seq<IndexRow>, row: IndexRow, sep: string, q: seq<string>,
                      m: Measure)
    requires sep != [] && q != [] && IsSystem(row.name) && PathOk(ns, l, rows, sep, q, m)
    ensures PathOk(ns, l, rows + [row], sep, q, m)
  {
    assert (rows + [row])[..|rows|] == rows;
    ListedSnoc(rows, row, sep, q);
  }

  lemma ListedSnoc(rows: seq<IndexRow>, row: IndexRow, sep: string, q: seq<string>)
    requires sep != []
    ensures Listed(rows + [row], sep, q) <==> Listed(rows, sep, q) || Under(row.name, sep, q)
    ensures Ends(rows + [row], sep, q) <==>
              Ends(rows, sep, q) || (!IsSystem(row.name) && q == Text.Split(row.name, sep))
  {
    var all := rows + [row];
    assert all[|rows|] == row;
    assert forall i :: 0 <= i < |rows| ==> all[i] == rows[i];
  }

  lemma TotalsSnoc(l: Listing, rows: seq<IndexRow>, row: IndexRow, sep: string, q: seq<string>, m: Measure)
    requires sep != []
    ensures Total(l, rows + [row], sep, q, m) ==
            Total(l, rows, sep, q, m) + (if Under(row.name, sep, q) then IndexWeight(l, row.name, m) else 0)
    ensures Own(l, rows + [row], sep, q, m) == Own(l, rows, sep, q, m)
            + (if !IsSystem(row.name) && q == Text.Split(row.name, sep) then IndexWeight(l, row.name, m) else 0)
  {
    assert (rows + [row])[..|rows|] == rows;
  }

  /** Existence and leaf mark after an insertion. */
  lemma InsertedFound(ns: seq<Node>, l: Listing, rows: seq<IndexRow>, row: IndexRow, sep: string, info: Info,
                      q: seq<string>, m: Measure)
    requires sep != [] && q != [] && !IsSystem(row.name) && PathOk(ns, l, rows, sep, q, m)
    ensures var after := Insert(ns, Text.Split(row.name, sep), "", 0, sep, info);
            && (Find(after, q).Some? <==> Listed(rows + [row], sep, q))
            && (LeafAt(after, q) <==> Ends(rows + [row], sep, q))
  {
    InsertFind(ns, Text.Split(row.name, sep), "", 0, sep, info, q, m);
    ListedSnoc(rows, row, sep, q);
  }

  /** The aggregate after an insertion. */
  lemma InsertedWeight(ns: seq<Node>, l: Listing, rows: seq<IndexRow>, row: IndexRow, sep: string, info: Info,
                       q: seq<string>, m: Measure)
    requires sep != [] && q != [] && !IsSystem(row.name) && PathOk(ns, l, rows, sep, q, m)
    requires InfoWeight(info, m) == IndexWeight(l, row.name, m)
    ensures var after := Insert(ns, Text.Split(row.name, sep), "", 0, sep, info);
            && WeightAt(after, q, m) == Total(l, rows + [row], sep, q, m)
            && WeightAt(after, q, m) == Own(l, rows + [row], sep, q, m) + ChildSum(after, q, m)
  {
    var path := Text.Split(row.name, sep);
    InsertFind(ns, path, "", 0, sep, info, q, m);
    InsertChildSum(ns, path, "", 0, sep, info, q, m);
    TotalsSnoc(l, rows, row, sep, q, m);
  }

  lemma InsertedPath(ns: seq<Node>, l: Listing, rows: seq<IndexRow>, row: IndexRow, sep: string, info: Info,
                     q: seq<string>, m: Measure)
    requires sep != [] && q != [] && !IsSystem(row.name) && PathOk(ns, l, rows, sep, q, m)
    requires InfoWeight(info, m) == IndexWeight(l, row.name, m)
    ensures PathOk(Insert(ns, Text.Split(row.name, sep), "", 0, sep, info), l, rows + [row], sep, q, m)
  {
    InsertedFound(ns, l, rows, row, sep, info, q, m);
    InsertedWeight(ns, l, rows, row, sep, info, q, m);
  }

  lemma InsertedRefines(ns: seq<Node>, l: Listing, rows: seq<IndexRow>, row: IndexRow, sep: string, info: Info)
    requires sep != [] && !IsSystem(row.name) && Refines(ns, l, rows, sep)
    requires forall m :: InfoWeight(info, m) == IndexWeight(l, row.name, m)
    ensures Refines(Insert(ns, Text.Split(row.name, sep), "", 0, sep, info), l, rows + [row], sep)
  {
    var path := Text.Split(row.name, sep);
    var after := Insert(ns, path, "", 0, sep, info);
    forall q, m | q != [] ensures PathOk(after, l, rows + [row], sep, q, m) {
      InsertedPath(ns, l, rows, row, sep, info, q, m);
    }
    forall m ensures SumWeight(after, m) == Total(l, rows + [row], sep, [], m) {
      InsertSum(ns, path, "", 0, sep, info, m);
      TotalsSnoc(l, rows, row, sep, [], m);
    }
    InsertKeepsNamed(ns, path, [], sep, info);
    InsertKeepsDistinct(ns, path, "", 0, sep, info);
  }

  lemma SystemRowRefines(ns: seq<Node>, l: Listing, rows: seq<IndexRow>, row: IndexRow, sep: string)
    requires sep != [] && IsSystem(row.name) && Refines(ns, l, rows, sep)
    ensures Refines(ns, l, rows + [row], sep)
  {
    forall q, m | q != [] ensures PathOk(ns, l, rows + [row], sep, q, m) { SystemRowPath(ns, l, rows, row, sep, q, m); }
    forall m ensures SumWeight(ns, m) == Total(l, rows + [row], sep, [], m) { TotalsSnoc(l, rows, row, sep, [], m); }
  }

  lemma EmptyRefines(l: Listing, sep: string)
    requires sep != []
    ensures Refines([], l, [], sep)
  {}

  /** The trie over the listing, updated in place with each listed non-system index. */
  method BuildTrie(l: Listing, sep: string) returns (roots: PivotTrie.Branch)
    requires sep != []
    ensures fresh(roots.repr) && roots.Valid() && Refines(roots.value, l, l.indices, sep)
  {
    var groups := GroupShards(l.shards, l.dataNodes);
    var docs := DocsByIndex(l.indices);
    roots := new PivotTrie.Branch();
    EmptyRefines(l, sep);
    for i := 0 to |l.indices|
      invariant fresh(roots.repr) && roots.Valid() && Refines(roots.value, l, l.indices[..i], sep)
    {
      var row := l.indices[i];
      assert l.indices[..i + 1] == l.indices[..i] + [row];
      if IsSystem(row.name) {
        SystemRowRefines(roots.value, l, l.indices[..i], row, sep);
      } else {
        var info := InfoOf(groups, docs, row.name);
        InfoOfWeighs(l, groups, docs, row.name);
        InsertedRefines(roots.value, l, l.indices[..i], row, sep, info);
        roots.Insert(Text.Split(row.name, sep), "", 0, sep, info);
      }
    }
    assert l.indices[..|l.indices|] == l.indices;
  }

  function InfoOf(groups: map<string, Bucket>, docs: map<string, int>, name: string): Info {
    var b := BucketOf(groups, name);
    Info(b.size, LookUp(docs, name), b.count, b.perNode)
  }

  lemma InfoOfWeighs(l: Listing, groups: map<string, Bucket>, docs: map<string, int>, name: string)
    requires forall n, m :: BucketWeight(BucketOf(groups, n), m) == RowsWeight(l.shards, n, l.dataNodes, m)
    requires forall n :: LookUp(docs, n) == DocsOf(l.indices, n)
    ensures forall m :: InfoWeight(InfoOf(groups, docs, name), m) == IndexWeight(l, name, m)
  {
    forall m ensures InfoWeight(InfoOf(groups, docs, name), m) == IndexWeight(l, name, m) {
      assert BucketWeight(BucketOf(groups, name), m) == RowsWeight(l.shards, name, l.dataNodes, m);
    }
  }

  ghost predicate SortedBelow(ns: seq<Node>) {
    Descending(ns) && forall q :: q != [] && Find(ns, q).Some? ==> Descending(Find(ns, q).value.children)
  }

  lemma FinalPath(ns: seq<Node>, l: Listing, rows: seq<IndexRow>, sep: string, q: seq<string>, m: Measure)
    requires sep != [] && q != [] && DistinctTree(ns) && PathOk(ns, l, rows, sep, q, m)
    ensures PathOk(SortDesc(FinalizeAll(ns)), l, rows, sep, q, m)
  {
    FinalizeKeepsPaths(ns, q);
    if Find(ns, q).Some? { SumWeightFinal(Find(ns, q).value.children, m); }
  }

  lemma FinalNode(ns: seq<Node>, sep: string, q: seq<string>)
    requires q != [] && DistinctTree(ns) && Named(ns, [], sep) && Find(SortDesc(FinalizeAll(ns)), q).Some?
    ensures var n := Find(SortDesc(FinalizeAll(ns)), q).value;
            NameOk(n, [] + q, sep) && Descending(n.children)
  {
    FinalizeKeepsPaths(ns, q);
    SortDescSorts(FinalizeAll(Find(ns, q).value.children));
  }

  /** The finished tree still refines the listing, and every sibling list is in descending size. */
  lemma FinalRefines(ns: seq<Node>, l: Listing, rows: seq<IndexRow>, sep: string)
    requires sep != [] && Refines(ns, l, rows, sep)
    ensures Refines(SortDesc(FinalizeAll(ns)), l, rows, sep) && SortedBelow(SortDesc(FinalizeAll(ns)))
  {
    var final := SortDesc(FinalizeAll(ns));
    SortDescSorts(FinalizeAll(ns));
    FinalizeKeepsDistinct(ns);
    forall q, m | q != [] ensures PathOk(final, l, rows, sep, q, m) { FinalPath(ns, l, rows, sep, q, m); }
    forall q | q != [] && Find(final, q).Some?
      ensures NameOk(Find(final, q).value, [] + q, sep) && Descending(Find(final, q).value.children)
    {
      FinalNode(ns, sep, q);
    }
    forall m ensures SumWeight(final, m) == Total(l, rows, sep, [], m) { SumWeightFinal(ns, m); }
  }

  /** The pivot payload's roots. */
  method BuildPivot(l: Listing, sep: string) returns (roots: seq<Node>)
    requires sep != []
    ensures Refines(roots, l, l.indices, sep) && SortedBelow(roots)
  {
    var trie := BuildTrie(l, sep);
    roots := trie.Finish();
    FinalRefines(trie.value, l, l.indices, sep);
  }

  // ---------------------------------------------------------------- the largest cell

  method LargestShare(p: PerNode) returns (largest: int)
    ensures largest >= 0 && forall n :: ShareOf(p, n).size <= largest
    ensures largest > 0 ==> exists n :: n in p && ShareOf(p, n).size == largest
  {
    largest := 0;
    var todo := p.Keys;
    while todo != {}
      invariant todo <= p.Keys && largest >= 0
      invariant forall n :: n in p && n !in todo ==> ShareOf(p, n).size <= largest
      invariant largest > 0 ==> exists n :: n in p && ShareOf(p, n).size == largest
      decreases |todo|
    {
      var n :| n in todo;
      if p[n].size > largest {
        largest := p[n].size;
        assert ShareOf(p, n).size == largest;
      }
      todo := todo - {n};
    }
  }

  /** The size of an index on a data node. */
  function CellSize(l: Listing, name: string, n: string): int { RowsWeight(l.shards, name, l.dataNodes, SizeOn(n)) }

  /** The scale of the view: the largest size of any index, system indices included, on any data node. */
  method MaxCellSize(l: Listing) returns (largest: int)
    ensures largest >= 0 && forall name, n :: CellSize(l, name, n) <= largest
    ensures largest > 0 ==> exists name, n :: CellSize(l, name, n) == largest
  {
    var groups := GroupShards(l.shards, l.dataNodes);
    assert forall name, n :: CellSize(l, name, n) == ShareOf(BucketOf(groups, name).perNode, n).size by {
      forall name, n ensures CellSize(l, name, n) == ShareOf(BucketOf(groups, name).perNode, n).size {
        assert BucketWeight(BucketOf(groups, name), SizeOn(n)) == RowsWeight(l.shards, name, l.dataNodes, SizeOn(n));
      }
    }
    largest := 0;
    var todo := groups.Keys;
    while todo != {}
      invariant todo <= groups.Keys && largest >= 0
      invariant forall name, n :: name in groups && name !in todo ==> CellSize(l, name, n) <= largest
      invariant largest > 0 ==> exists name, n :: CellSize(l, name, n) == largest
      decreases |todo|
    {
      var name :| name in todo;
      var share := LargestShare(groups[name].perNode);
      forall n ensures CellSize(l, name, n) <= share { assert ShareOf(groups[name].perNode, n).size <= share; }
      if share > largest {
        largest := share;
        var n :| n in groups[name].perNode && ShareOf(groups[name].perNode, n).size == share;
        assert CellSize(l, name, n) == largest;
      }
      todo := todo - {name};
    }
  }

  // ---------------------------------------------------------------- consequences

  lemma FoundIsPrefix(ns: seq<Node>, l: Listing, rows: seq<IndexRow>, sep: string, q: seq<string>)
    returns (name: string)
    requires sep != [] && q != [] && Refines(ns, l, rows, sep) && Find(ns, q).Some?
    ensures Under(name, sep, q) && q == Text.Split(name, sep)[..|q|] && Text.Split(Text.Join(q, sep), sep) == q
  {
    assert PathOk(ns, l, rows, sep, q, Size);
    var i :| 0 <= i < |rows| && Under(rows[i].name, sep, q);
    name := rows[i].name;
    Text.SplitOfPrefix(name, sep, |q|);
  }

  /** The key shown for a node is the join of its path, determines that path over the whole tree,
      and belongs to a leaf exactly when it is the name of a listed non-system index. */
  lemma KeysIdentifyNodes(ns: seq<Node>, l: Listing, rows: seq<IndexRow>, sep: string, p: seq<string>, q: seq<string>)
    requires sep != [] && p != [] && q != [] && Refines(ns, l, rows, sep)
    requires Find(ns, p).Some? && Find(ns, q).Some?
    ensures Find(ns, p).value.key == Text.Join(p, sep) && Find(ns, p).value.depth == |p| - 1
    ensures Find(ns, p).value.key == Find(ns, q).value.key ==> p == q
    ensures LeafAt(ns, p) <==>
              exists i :: 0 <= i < |rows| && !IsSystem(rows[i].name) && rows[i].name == Find(ns, p).value.key
  {
    assert NameOk(Find(ns, p).value, [] + p, sep) && NameOk(Find(ns, q).value, [] + q, sep);
    assert [] + p == p && [] + q == q;
    var a := FoundIsPrefix(ns, l, rows, sep, p);
    var b := FoundIsPrefix(ns, l, rows, sep, q);
    assert PathOk(ns, l, rows, sep, p, Size);
    forall i | 0 <= i < |rows| && !IsSystem(rows[i].name)
      ensures p == Text.Split(rows[i].name, sep) <==> rows[i].name == Text.Join(p, sep)
    {
      Text.JoinOfSplit(rows[i].name, sep);
    }
  }
}
