/** What every insertion keeps about the shape of the pivot trie. */
module PivotShape {
  import opened Options
  import opened Pivot
  import Text

  // ---------------------------------------------------------------- names

  predicate NameOk(n: Node, path: seq<string>, sep: string) {
    path != [] && n.key == Text.Join(path, sep) && n.depth == |path| - 1 && n.segment == path[|path| - 1]
  }

  /** Every node below the path `up` is named after the path that leads to it. */
  ghost predicate Named(siblings: seq<Node>, up: seq<string>, sep: string) {
    forall q :: q != [] && Find(siblings, q).Some? ==> NameOk(Find(siblings, q).value, up + q, sep)
  }

  lemma KeyOfChild(up: seq<string>, segment: string, sep: string)
    ensures PathKey(Text.Join(up, sep), |up|, segment, sep) == Text.Join(up + [segment], sep)
  {
    if up == [] { assert up + [segment] == [segment]; } else { Text.JoinSnoc(up, segment, sep); }
  }

  lemma FoundBelow(siblings: seq<Node>, up: seq<string>, node: Node, sep: string, q: seq<string>)
    requires Named(siblings, up, sep) && q != [] && Find(node.children, q).Some?
    requires Find(siblings, [node.segment] + q) == Find(node.children, q)
    ensures NameOk(Find(node.children, q).value, up + [node.segment] + q, sep)
  {
    var long := [node.segment] + q;
    assert up + long == up + [node.segment] + q;
    assert NameOk(Find(siblings, long).value, up + long, sep);
  }

  lemma NodeForNamed(siblings: seq<Node>, up: seq<string>, segment: string, sep: string)
    requires Named(siblings, up, sep)
    ensures var node := NodeFor(siblings, segment, PathKey(Text.Join(up, sep), |up|, segment, sep), |up|);
            NameOk(node, up + [segment], sep) && Named(node.children, up + [segment], sep)
  {
    var key := PathKey(Text.Join(up, sep), |up|, segment, sep);
    var node := NodeFor(siblings, segment, key, |up|);
    KeyOfChild(up, segment, sep);
    NodeForFind(siblings, segment, key, |up|, [segment]);
    forall q | q != [] && Find(node.children, q).Some?
      ensures NameOk(Find(node.children, q).value, up + [segment] + q, sep)
    {
      NodeForFind(siblings, segment, key, |up|, [segment] + q);
      assert ([segment] + q)[1..] == q;
      FoundBelow(siblings, up, node, sep, q);
    }
  }

  lemma PlacedOk(siblings: seq<Node>, n: Node, up: seq<string>, sep: string, q: seq<string>)
    requires Named(siblings, up, sep) && q != [] && Find(Place(siblings, n), q).Some?
    requires NameOk(n, up + [n.segment], sep) && Named(n.children, up + [n.segment], sep)
    ensures NameOk(Find(Place(siblings, n), q).value, up + q, sep)
  {
    PlaceFind(siblings, n, q);
    if q[0] == n.segment {
      assert q == [n.segment] + q[1..];
      assert (up + [n.segment]) + q[1..] == up + q;
      if |q| == 1 { assert up + q == up + [n.segment]; }
    }
  }

  lemma PlaceKeepsNamed(siblings: seq<Node>, n: Node, up: seq<string>, sep: string)
    requires Named(siblings, up, sep)
    requires NameOk(n, up + [n.segment], sep) && Named(n.children, up + [n.segment], sep)
    ensures Named(Place(siblings, n), up, sep)
  {
    forall q | q != [] && Find(Place(siblings, n), q).Some?
      ensures NameOk(Find(Place(siblings, n), q).value, up + q, sep)
    {
      PlacedOk(siblings, n, up, sep, q);
    }
  }

  lemma {:induction false} InsertKeepsNamed(siblings: seq<Node>, path: seq<string>, up: seq<string>, sep: string,
                                            info: Info)
    requires path != [] && Named(siblings, up, sep)
    ensures Named(Insert(siblings, path, Text.Join(up, sep), |up|, sep, info), up, sep)
    decreases |path|
  {
    var key := PathKey(Text.Join(up, sep), |up|, path[0], sep);
    var node := NodeFor(siblings, path[0], key, |up|);
    NodeForNamed(siblings, up, path[0], sep);
    KeyOfChild(up, path[0], sep);
    if |path| > 1 { InsertKeepsNamed(node.children, path[1..], up + [path[0]], sep, info); }
    PlaceKeepsNamed(siblings, Grow(siblings, path, Text.Join(up, sep), |up|, sep, info), up, sep);
  }

  // ---------------------------------------------------------------- distinct siblings

  predicate DistinctSegments(ns: seq<Node>) {
    forall i, j :: 0 <= i < j < |ns| ==> ns[i].segment != ns[j].segment
  }

  predicate DistinctTree(ns: seq<Node>)
    decreases ns
  {
    DistinctSegments(ns) && forall i :: 0 <= i < |ns| ==> DistinctTree(ns[i].children)
  }

  lemma PlaceKeepsDistinct(siblings: seq<Node>, n: Node)
    requires DistinctTree(siblings) && DistinctTree(n.children)
    ensures DistinctTree(Place(siblings, n))
  {
    var at := IndexOf(siblings, n.segment);
    var after := Place(siblings, n);
    assert forall j :: 0 <= j < |siblings| && j != at ==> after[j] == siblings[j] && after[j].segment != n.segment;
    assert after[at] == n;
  }

  lemma {:induction false} InsertKeepsDistinct(siblings: seq<Node>, path: seq<string>, parentKey: string, depth: nat,
                                               sep: string, info: Info)
    requires path != [] && DistinctTree(siblings)
    ensures DistinctTree(Insert(siblings, path, parentKey, depth, sep, info))
    decreases |path|
  {
    var key := PathKey(parentKey, depth, path[0], sep);
    var node := NodeFor(siblings, path[0], key, depth);
    assert DistinctTree(node.children);
    if |path| > 1 { InsertKeepsDistinct(node.children, path[1..], key, depth + 1, sep, info); }
    PlaceKeepsDistinct(siblings, Grow(siblings, path, parentKey, depth, sep, info));
  }

  // ---------------------------------------------------------------- sums over children

  function SumWeight(ns: seq<Node>, m: Measure): int {
    if ns == [] then 0 else SumWeight(ns[..|ns| - 1], m) + Weight(ns[|ns| - 1], m)
  }

  function ChildSum(siblings: seq<Node>, q: seq<string>, m: Measure): int
    requires q != []
  {
    var n := Find(siblings, q);
    if n.Some? then SumWeight(n.value.children, m) else 0
  }

  lemma {:induction false} SumReplace(ns: seq<Node>, i: nat, n: Node, m: Measure)
    requires i < |ns|
    ensures SumWeight(ns[i := n], m) == SumWeight(ns, m) - Weight(ns[i], m) + Weight(n, m)
    decreases |ns|
  {
    var last := |ns| - 1;
    if i == last {
      assert ns[i := n][..last] == ns[..last];
    } else {
      SumReplace(ns[..last], i, n, m);
      assert ns[i := n][..last] == ns[..last][i := n];
    }
  }

  lemma PlaceSum(siblings: seq<Node>, n: Node, m: Measure)
    ensures var i := IndexOf(siblings, n.segment);
            SumWeight(Place(siblings, n), m)
            == SumWeight(siblings, m) + Weight(n, m) - (if i < |siblings| then Weight(siblings[i], m) else 0)
  {
    var i := IndexOf(siblings, n.segment);
    if i < |siblings| { SumReplace(siblings, i, n, m); } else { assert (siblings + [n])[..|siblings|] == siblings; }
  }

  lemma InsertSum(siblings: seq<Node>, path: seq<string>, parentKey: string, depth: nat, sep: string, info: Info,
                  m: Measure)
    requires path != []
    ensures SumWeight(Insert(siblings, path, parentKey, depth, sep, info), m)
            == SumWeight(siblings, m) + InfoWeight(info, m)
  {
    var key := PathKey(parentKey, depth, path[0], sep);
    AddWeight(NodeFor(siblings, path[0], key, depth), info, m);
    PlaceSum(siblings, Grow(siblings, path, parentKey, depth, sep, info), m);
  }

  predicate ChildSumAdds(before: seq<Node>, after: seq<Node>, path: seq<string>, info: Info, q: seq<string>, m: Measure)
    requires q != []
  {
    ChildSum(after, q, m) == ChildSum(before, q, m) + (if q <= path && q != path then InfoWeight(info, m) else 0)
  }

  lemma LiftChildSum(before: seq<Node>, after: seq<Node>, childrenBefore: seq<Node>, childrenAfter: seq<Node>,
                     path: seq<string>, info: Info, q: seq<string>, m: Measure)
    requires |q| > 1 && |path| > 1 && q[0] == path[0]
    requires Find(after, q) == Find(childrenAfter, q[1..]) && Find(before, q) == Find(childrenBefore, q[1..])
    requires ChildSumAdds(childrenBefore, childrenAfter, path[1..], info, q[1..], m)
    ensures ChildSumAdds(before, after, path, info, q, m)
  {
    TailPrefix(q, path);
  }

  /** An insertion adds the index's share to the children of every proper prefix of its path. */
  lemma {:induction false} InsertChildSum(siblings: seq<Node>, path: seq<string>, parentKey: string, depth: nat,
                                          sep: string, info: Info,
                                          q: seq<string>, m: Measure)
    requires path != [] && q != []
    ensures ChildSumAdds(siblings, Insert(siblings, path, parentKey, depth, sep, info), path, info, q, m)
    decreases |path|
  {
    var grown := Grow(siblings, path, parentKey, depth, sep, info);
    PlaceFind(siblings, grown, q);
    if q[0] == path[0] {
      var key := PathKey(parentKey, depth, path[0], sep);
      var node := NodeFor(siblings, path[0], key, depth);
      NodeForFind(siblings, path[0], key, depth, q);
      if |q| == 1 {
        assert q <= path && (q == path <==> |path| == 1);
        if |path| > 1 { InsertSum(node.children, path[1..], key, depth + 1, sep, info, m); }
      } else if |path| > 1 {
        InsertChildSum(node.children, path[1..], key, depth + 1, sep, info, q[1..], m);
        LiftChildSum(siblings, Insert(siblings, path, parentKey, depth, sep, info), node.children, grown.children,
                     path, info, q, m);
      } else {
        assert |q| > |path|;
      }
    }
  }
}
