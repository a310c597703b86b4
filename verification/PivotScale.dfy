/** The scale of the pivot view against the leaves that it is meant for. */
module PivotScale {
  import opened Options
  import opened Pivot
  import opened PivotView
  import opened ShardMapView
  import Text

  /** What the scale is: the largest size of any index on any data node. */
  ghost predicate IsScale(l: Listing, m: int) {
    && m >= 0 && (forall name, n :: CellSize(l, name, n) <= m)
    && (m > 0 ==> exists name, n :: CellSize(l, name, n) == m)
  }

  /** What a leaf of the tree shows for a data node. */
  function LeafSize(l: Listing, sep: string, q: seq<string>, n: string): int
    requires sep != []
  {
    Total(l, l.indices, sep, q, SizeOn(n))
  }

  /** What the scale is meant to be: the largest size that a leaf shows. */
  ghost predicate IsLargestLeaf(l: Listing, sep: string, m: int)
    requires sep != []
  {
    && m >= 0 && (forall q, n :: Ends(l.indices, sep, q) ==> LeafSize(l, sep, q, n) <= m)
    && (m > 0 ==> exists q, n :: Ends(l.indices, sep, q) && LeafSize(l, sep, q, n) == m)
  }

  /** The shards belong to listed indices, and no size is negative. */
  predicate Proper(shards: seq<ShardRow>, rows: seq<IndexRow>) {
    forall r :: r in shards ==> r.store >= 0 && exists i :: 0 <= i < |rows| && rows[i].name == r.index
  }

  /** The scale is the largest leaf, whatever shards there are. */
  ghost predicate ScaleFits(rows: seq<IndexRow>, dataNodes: set<string>, sep: string)
    requires sep != []
  {
    forall shards, m :: Proper(shards, rows) ==>
      (IsScale(Listing(rows, shards, dataNodes), m) <==> IsLargestLeaf(Listing(rows, shards, dataNodes), sep, m))
  }

  predicate NonEmptyNames(rows: seq<IndexRow>) { forall i :: 0 <= i < |rows| ==> rows[i].name != [] }

  /** No listed name is a system name, repeats another one, or is a leading group of another one's segments. */
  predicate Flat(rows: seq<IndexRow>, sep: string)
    requires sep != []
  {
    && (forall i :: 0 <= i < |rows| ==> !IsSystem(rows[i].name))
    && (forall i, j :: 0 <= i < |rows| && 0 <= j < |rows| && i != j ==>
          !(Text.Split(rows[i].name, sep) <= Text.Split(rows[j].name, sep)))
  }

  // ---------------------------------------------------------------- flat listings fit

  /** A listed name whose segments begin no other listed name is alone below its leaf. */
  lemma {:induction false} AloneBelow(l: Listing, rows: seq<IndexRow>, sep: string, q: seq<string>, m: Measure)
    requires sep != [] && forall i :: 0 <= i < |rows| ==> !Under(rows[i].name, sep, q)
    ensures Total(l, rows, sep, q, m) == 0
  {
    if rows != [] { AloneBelow(l, rows[..|rows| - 1], sep, q, m); }
  }

  lemma {:induction false} LeafIsOneIndex(l: Listing, rows: seq<IndexRow>, sep: string, i: nat, m: Measure)
    requires sep != [] && i < |rows| && Flat(rows, sep)
    ensures Total(l, rows, sep, Text.Split(rows[i].name, sep), m) == IndexWeight(l, rows[i].name, m)
  {
    var init, last := rows[..|rows| - 1], rows[|rows| - 1];
    var q := Text.Split(rows[i].name, sep);
    if i == |rows| - 1 {
      AloneBelow(l, init, sep, q, m);
    } else {
      assert init[i] == rows[i] && last == rows[|rows| - 1];
      assert !Under(last.name, sep, q);
      LeafIsOneIndex(l, init, sep, i, m);
    }
  }

  lemma {:induction false} Unlisted(shards: seq<ShardRow>, rows: seq<IndexRow>, name: string, dataNodes: set<string>,
                                    m: Measure)
    requires Proper(shards, rows) && forall i :: 0 <= i < |rows| ==> rows[i].name != name
    ensures RowsWeight(shards, name, dataNodes, m) == 0
  {
    if shards != [] {
      var init, last := shards[..|shards| - 1], shards[|shards| - 1];
      assert forall r :: r in init ==> r in shards;
      assert last in shards;
      Unlisted(init, rows, name, dataNodes, m);
    }
  }

  /** In a flat listing the leaves show exactly the sizes of the listed indices. */
  lemma FlatLeaves(l: Listing, sep: string, i: nat, n: string)
    requires sep != [] && i < |l.indices| && Flat(l.indices, sep)
    ensures var q := Text.Split(l.indices[i].name, sep);
            Ends(l.indices, sep, q) && LeafSize(l, sep, q, n) == CellSize(l, l.indices[i].name, n)
  {
    LeafIsOneIndex(l, l.indices, sep, i, SizeOn(n));
  }

  lemma LeafIsCell(l: Listing, sep: string, q: seq<string>, n: string) returns (name: string)
    requires sep != [] && Flat(l.indices, sep) && Ends(l.indices, sep, q)
    ensures LeafSize(l, sep, q, n) == CellSize(l, name, n)
  {
    var i :| 0 <= i < |l.indices| && !IsSystem(l.indices[i].name) && q == Text.Split(l.indices[i].name, sep);
    FlatLeaves(l, sep, i, n);
    name := l.indices[i].name;
  }

  lemma CellIsLeaf(l: Listing, sep: string, name: string, n: string) returns (q: seq<string>)
    requires sep != [] && Flat(l.indices, sep) && Proper(l.shards, l.indices) && CellSize(l, name, n) != 0
    ensures Ends(l.indices, sep, q) && LeafSize(l, sep, q, n) == CellSize(l, name, n)
  {
    if forall i :: 0 <= i < |l.indices| ==> l.indices[i].name != name {
      Unlisted(l.shards, l.indices, name, l.dataNodes, SizeOn(n));
    }
    var i :| 0 <= i < |l.indices| && l.indices[i].name == name;
    FlatLeaves(l, sep, i, n);
    q := Text.Split(name, sep);
  }

  lemma FlatFits(l: Listing, sep: string, m: int)
    requires sep != [] && Flat(l.indices, sep) && Proper(l.shards, l.indices)
    ensures IsScale(l, m) <==> IsLargestLeaf(l, sep, m)
  {
    if IsScale(l, m) {
      forall q, n | Ends(l.indices, sep, q) ensures LeafSize(l, sep, q, n) <= m {
        var name := LeafIsCell(l, sep, q, n);
      }
      if m > 0 {
        var name, n :| CellSize(l, name, n) == m;
        var q := CellIsLeaf(l, sep, name, n);
      }
    }
    if IsLargestLeaf(l, sep, m) {
      forall name, n ensures CellSize(l, name, n) <= m {
        if CellSize(l, name, n) != 0 { var q := CellIsLeaf(l, sep, name, n); }
      }
      if m > 0 {
        var q, n :| Ends(l.indices, sep, q) && LeafSize(l, sep, q, n) == m;
        var name := LeafIsCell(l, sep, q, n);
      }
    }
  }

  // ---------------------------------------------------------------- other listings do not

  /** A shard of five bytes. */
  function Five(index: string, n: string): ShardRow { ShardRow(index, Some(n), 5, 0, "p", "STARTED", 0, 1) }

  lemma FiveWeighs(name: string, n: string, dataNodes: set<string>, k: string)
    requires PlainNode(n) && n in dataNodes
    ensures RowWeight(Five(name, n), dataNodes, SizeOn(k)) == if k == n then 5 else 0
  {
    assert NormalizeShardNode(Some(n)) == Some(n);
  }

  lemma OneFive(a: string, n: string, dataNodes: set<string>, name: string, k: string)
    requires PlainNode(n) && n in dataNodes && a != []
    ensures RowsWeight([Five(a, n)], name, dataNodes, SizeOn(k)) == if name == a && k == n then 5 else 0
  {
    FiveWeighs(a, n, dataNodes, k);
    assert [Five(a, n)][..0] == [];
  }

  lemma TwoFives(a: string, b: string, n: string, dataNodes: set<string>, name: string, k: string)
    requires PlainNode(n) && n in dataNodes && a != [] && b != [] && a != b
    ensures RowsWeight([Five(a, n), Five(b, n)], name, dataNodes, SizeOn(k))
            == if (name == a || name == b) && k == n then 5 else 0
  {
    FiveWeighs(b, n, dataNodes, k);
    OneFive(a, n, dataNodes, name, k);
    assert [Five(a, n), Five(b, n)][..1] == [Five(a, n)];
  }

  /** One shard for each of two names, which may be the same. */
  function Pair(a: string, b: string, n: string): seq<ShardRow> {
    if a == b then [Five(a, n)] else [Five(a, n), Five(b, n)]
  }

  lemma PairSizes(rows: seq<IndexRow>, a: string, b: string, n: string, dataNodes: set<string>, name: string, k: string)
    requires PlainNode(n) && n in dataNodes && a != [] && b != []
    ensures CellSize(Listing(rows, Pair(a, b, n), dataNodes), name, k)
            == if (name == a || name == b) && k == n then 5 else 0
  {
    if a == b { OneFive(a, n, dataNodes, name, k); } else { TwoFives(a, b, n, dataNodes, name, k); }
  }

  lemma PairScale(rows: seq<IndexRow>, a: string, b: string, n: string, dataNodes: set<string>)
    requires PlainNode(n) && n in dataNodes && a != [] && b != []
    ensures IsScale(Listing(rows, Pair(a, b, n), dataNodes), 5)
  {
    var l := Listing(rows, Pair(a, b, n), dataNodes);
    forall name, k ensures CellSize(l, name, k) <= 5 { PairSizes(rows, a, b, n, dataNodes, name, k); }
    PairSizes(rows, a, b, n, dataNodes, a, n);
    assert CellSize(l, a, n) == 5;
  }

  lemma PairIsProper(rows: seq<IndexRow>, i: nat, j: nat, n: string)
    requires i < |rows| && j < |rows|
    ensures Proper(Pair(rows[i].name, rows[j].name, n), rows)
  {
  }

  lemma {:induction false} NothingBelow(l: Listing, rows: seq<IndexRow>, sep: string, q: seq<string>, k: string)
    requires sep != []
    requires forall i :: 0 <= i < |rows| && !IsSystem(rows[i].name) ==> CellSize(l, rows[i].name, k) == 0
    ensures Total(l, rows, sep, q, SizeOn(k)) == 0
  {
    if rows != [] {
      assert rows[|rows| - 1].name == rows[|rows| - 1].name;
      NothingBelow(l, rows[..|rows| - 1], sep, q, k);
    }
  }

  /** A system index sets the scale although no leaf shows it. */
  lemma SystemIndexSetsScale(rows: seq<IndexRow>, dataNodes: set<string>, sep: string, i: nat, n: string)
    requires sep != [] && PlainNode(n) && n in dataNodes && i < |rows| && IsSystem(rows[i].name)
    ensures var l := Listing(rows, Pair(rows[i].name, rows[i].name, n), dataNodes);
            IsScale(l, 5) && (forall q, k :: LeafSize(l, sep, q, k) == 0) && !IsLargestLeaf(l, sep, 5)
  {
    var a := rows[i].name;
    var l := Listing(rows, Pair(a, a, n), dataNodes);
    PairScale(rows, a, a, n, dataNodes);
    forall q, k ensures LeafSize(l, sep, q, k) == 0 {
      forall j | 0 <= j < |rows| && !IsSystem(rows[j].name) ensures CellSize(l, rows[j].name, k) == 0 {
        PairSizes(rows, a, a, n, dataNodes, rows[j].name, k);
      }
      NothingBelow(l, rows, sep, q, k);
    }
  }

  /** A total is at least five bytes for each of some rows below the path that weigh as much. */
  lemma {:induction false} AtLeast(l: Listing, rows: seq<IndexRow>, sep: string, q: seq<string>, k: string,
                                   picked: set<nat>)
    requires sep != [] && forall name :: CellSize(l, name, k) >= 0
    requires forall i :: i in picked ==> i < |rows| && Under(rows[i].name, sep, q) && CellSize(l, rows[i].name, k) >= 5
    ensures Total(l, rows, sep, q, SizeOn(k)) >= 5 * |picked|
  {
    if rows == [] {
      assert picked == {};
    } else {
      var last := |rows| - 1;
      var init := rows[..last];
      assert CellSize(l, rows[last].name, k) >= 0;
      var fewer := picked - {last};
      forall i | i in fewer
        ensures i < last && Under(init[i].name, sep, q) && CellSize(l, init[i].name, k) >= 5
      {
        assert i in picked && init[i] == rows[i];
      }
      AtLeast(l, init, sep, q, k, fewer);
      assert last in picked ==> |picked| == |fewer| + 1;
      assert last !in picked ==> fewer == picked;
    }
  }

  /** A leaf with a longer or an equal name below it shows both sizes, more than the scale. */
  lemma LeafOutgrowsScale(rows: seq<IndexRow>, dataNodes: set<string>, sep: string, i: nat, j: nat, n: string)
    requires sep != [] && PlainNode(n) && n in dataNodes && i < |rows| && j < |rows| && i != j
    requires !IsSystem(rows[i].name) && !IsSystem(rows[j].name) && rows[i].name != [] && rows[j].name != []
    requires Text.Split(rows[i].name, sep) <= Text.Split(rows[j].name, sep)
    ensures var l := Listing(rows, Pair(rows[i].name, rows[j].name, n), dataNodes);
            && IsScale(l, 5) && LeafSize(l, sep, Text.Split(rows[i].name, sep), n) >= 10
            && Ends(rows, sep, Text.Split(rows[i].name, sep))
  {
    var a, b := rows[i].name, rows[j].name;
    var l := Listing(rows, Pair(a, b, n), dataNodes);
    PairScale(rows, a, b, n, dataNodes);
    forall name ensures CellSize(l, name, n) >= 0 { PairSizes(rows, a, b, n, dataNodes, name, n); }
    PairSizes(rows, a, b, n, dataNodes, a, n);
    PairSizes(rows, a, b, n, dataNodes, b, n);
    AtLeast(l, rows, sep, Text.Split(a, sep), n, {i, j});
  }

  /** For every shard table the scale is the largest leaf exactly when no listed name is a system name,
      repeats another one, or is a leading group of another one's segments. */
  lemma ScaleFitsIff(rows: seq<IndexRow>, dataNodes: set<string>, sep: string, n: string)
    requires sep != [] && NonEmptyNames(rows) && PlainNode(n) && n in dataNodes
    ensures ScaleFits(rows, dataNodes, sep) <==> Flat(rows, sep)
  {
    if Flat(rows, sep) {
      forall shards, m | Proper(shards, rows)
        ensures IsScale(Listing(rows, shards, dataNodes), m)
                <==> IsLargestLeaf(Listing(rows, shards, dataNodes), sep, m)
      {
        FlatFits(Listing(rows, shards, dataNodes), sep, m);
      }
    } else if i :| 0 <= i < |rows| && IsSystem(rows[i].name) {
      SystemIndexSetsScale(rows, dataNodes, sep, i, n);
      PairIsProper(rows, i, i, n);
    } else {
      var i, j :| 0 <= i < |rows| && 0 <= j < |rows| && i != j
                  && Text.Split(rows[i].name, sep) <= Text.Split(rows[j].name, sep);
      LeafOutgrowsScale(rows, dataNodes, sep, i, j, n);
      PairIsProper(rows, i, j, n);
    }
  }
}
