/** Finalising the pivot trie: children in descending size, ties in their order of first insertion. */
module PivotFinal {
  import opened Options
  import opened Pivot
  import opened PivotShape

  /** Insert after every node that is at least as large. */
  function InsertDesc(sorted: seq<Node>, n: Node): seq<Node> {
    if sorted == [] then [n]
    else if sorted[|sorted| - 1].size >= n.size then sorted + [n]
    else InsertDesc(sorted[..|sorted| - 1], n) + [sorted[|sorted| - 1]]
  }

  function SortDesc(ns: seq<Node>): seq<Node> {
    if ns == [] then [] else InsertDesc(SortDesc(ns[..|ns| - 1]), ns[|ns| - 1])
  }

  predicate Descending(ns: seq<Node>) { forall i, j :: 0 <= i < j < |ns| ==> ns[i].size >= ns[j].size }

  function OfSize(ns: seq<Node>, size: int): seq<Node> {
    if ns == [] then []
    else
      var rest := OfSize(ns[..|ns| - 1], size);
      if ns[|ns| - 1].size == size then rest + [ns[|ns| - 1]] else rest
  }

  lemma MultisetSnoc(ns: seq<Node>)
    requires ns != []
    ensures multiset(ns) == multiset(ns[..|ns| - 1]) + multiset{ns[|ns| - 1]}
  {
    assert ns == ns[..|ns| - 1] + [ns[|ns| - 1]];
  }

  lemma {:induction false} InsertDescPermutes(sorted: seq<Node>, n: Node)
    ensures multiset(InsertDesc(sorted, n)) == multiset(sorted) + multiset{n}
  {
    if sorted != [] && sorted[|sorted| - 1].size < n.size {
      InsertDescPermutes(sorted[..|sorted| - 1], n);
      MultisetSnoc(sorted);
    }
  }

  lemma InsertDescMember(sorted: seq<Node>, n: Node, i: nat)
    requires i < |InsertDesc(sorted, n)|
    ensures InsertDesc(sorted, n)[i] in sorted || InsertDesc(sorted, n)[i] == n
  {
    InsertDescPermutes(sorted, n);
    assert InsertDesc(sorted, n)[i] in multiset(InsertDesc(sorted, n));
  }

  lemma {:induction false} InsertDescSorts(sorted: seq<Node>, n: Node)
    requires Descending(sorted)
    ensures Descending(InsertDesc(sorted, n))
  {
    if sorted != [] && sorted[|sorted| - 1].size < n.size {
      var init, last := sorted[..|sorted| - 1], sorted[|sorted| - 1];
      InsertDescSorts(init, n);
      forall i | 0 <= i < |InsertDesc(init, n)| ensures InsertDesc(init, n)[i].size >= last.size {
        InsertDescMember(init, n, i);
      }
    }
  }

  lemma OfSizeSnoc(ns: seq<Node>, n: Node, size: int)
    ensures OfSize(ns + [n], size) == if n.size == size then OfSize(ns, size) + [n] else OfSize(ns, size)
  {
    assert (ns + [n])[..|ns|] == ns;
  }

  lemma {:induction false} InsertDescStable(sorted: seq<Node>, n: Node, size: int)
    ensures OfSize(InsertDesc(sorted, n), size) == OfSize(sorted + [n], size)
  {
    OfSizeSnoc(sorted, n, size);
    if sorted != [] && sorted[|sorted| - 1].size < n.size {
      var init, last := sorted[..|sorted| - 1], sorted[|sorted| - 1];
      InsertDescStable(init, n, size);
      OfSizeSnoc(InsertDesc(init, n), last, size);
      OfSizeSnoc(init, n, size);
    } else if sorted == [] {
      assert [] + [n] == [n];
    }
  }

  lemma {:induction false} SortDescPermutes(ns: seq<Node>)
    ensures multiset(SortDesc(ns)) == multiset(ns)
  {
    if ns != [] {
      var init, last := ns[..|ns| - 1], ns[|ns| - 1];
      SortDescPermutes(init);
      InsertDescPermutes(SortDesc(init), last);
      MultisetSnoc(ns);
    }
  }

  lemma {:induction false} SortDescSorts(ns: seq<Node>)
    ensures Descending(SortDesc(ns))
  {
    if ns != [] {
      SortDescSorts(ns[..|ns| - 1]);
      InsertDescSorts(SortDesc(ns[..|ns| - 1]), ns[|ns| - 1]);
    }
  }

  lemma {:induction false} SortDescStable(ns: seq<Node>, size: int)
    ensures OfSize(SortDesc(ns), size) == OfSize(ns, size)
  {
    if ns != [] {
      var init, last := ns[..|ns| - 1], ns[|ns| - 1];
      SortDescStable(init, size);
      InsertDescStable(SortDesc(init), last, size);
      OfSizeSnoc(SortDesc(init), last, size);
    }
  }

  /** The sort is a descending permutation that keeps the order of equals. */
  lemma SortDescFacts(ns: seq<Node>, size: int)
    ensures Descending(SortDesc(ns)) && multiset(SortDesc(ns)) == multiset(ns)
    ensures OfSize(SortDesc(ns), size) == OfSize(ns, size)
  {
    SortDescSorts(ns);
    SortDescPermutes(ns);
    SortDescStable(ns, size);
  }

  function Finalize(n: Node): Node
    decreases n, 1
  {
    n.(children := SortDesc(FinalizeAll(n.children)))
  }

  function FinalizeAll(ns: seq<Node>): (r: seq<Node>)
    ensures |r| == |ns|
    decreases ns, 0
  {
    if ns == [] then [] else FinalizeAll(ns[..|ns| - 1]) + [Finalize(ns[|ns| - 1])]
  }

  lemma {:induction false} FinalizeAllAt(ns: seq<Node>, i: nat)
    requires i < |ns|
    ensures FinalizeAll(ns)[i] == Finalize(ns[i])
    decreases |ns|
  {
    if i < |ns| - 1 {
      FinalizeAllAt(ns[..|ns| - 1], i);
    }
  }

  /** In a permutation of siblings with distinct segments, a segment leads to the same node. */
  lemma SameBySegment(a: seq<Node>, b: seq<Node>, segment: string)
    requires multiset(a) == multiset(b) && DistinctSegments(a)
    ensures IndexOf(a, segment) == |a| <==> IndexOf(b, segment) == |b|
    ensures IndexOf(a, segment) < |a| ==> a[IndexOf(a, segment)] == b[IndexOf(b, segment)]
  {
    var i, j := IndexOf(a, segment), IndexOf(b, segment);
    if i < |a| {
      assert a[i] in multiset(a);
      assert a[i] in multiset(b);
      assert a[i] in b;
      var k :| 0 <= k < |b| && b[k] == a[i];
      assert j < |b|;
    }
    if j < |b| {
      assert b[j] in multiset(b);
      assert b[j] in multiset(a);
      assert b[j] in a;
      var k :| 0 <= k < |a| && a[k] == b[j];
      assert i < |a|;
    }
  }

  lemma FinalizeAllSegments(ns: seq<Node>, segment: string)
    requires DistinctSegments(ns)
    ensures DistinctSegments(FinalizeAll(ns))
    ensures IndexOf(FinalizeAll(ns), segment) == IndexOf(ns, segment)
  {
    forall i | 0 <= i < |ns| ensures FinalizeAll(ns)[i] == Finalize(ns[i]) { FinalizeAllAt(ns, i); }
    IndexOfIs(FinalizeAll(ns), segment, IndexOf(ns, segment));
  }

  lemma FinalStep(ns: seq<Node>, segment: string)
    requires DistinctSegments(ns)
    ensures var final := SortDesc(FinalizeAll(ns));
            var i, j := IndexOf(ns, segment), IndexOf(final, segment);
            && (i == |ns| <==> j == |final|)
            && (i < |ns| ==> j < |final| && final[j] == Finalize(ns[i]))
  {
    FinalizeAllSegments(ns, segment);
    SortDescFacts(FinalizeAll(ns), 0);
    SameBySegment(FinalizeAll(ns), SortDesc(FinalizeAll(ns)), segment);
    if IndexOf(ns, segment) < |ns| { FinalizeAllAt(ns, IndexOf(ns, segment)); }
  }

  /** Finalising changes nothing that a path leads to but the order of children. */
  lemma {:induction false} FinalizeKeepsPaths(ns: seq<Node>, q: seq<string>)
    requires q != [] && DistinctTree(ns)
    ensures var found := Find(ns, q);
            Find(SortDesc(FinalizeAll(ns)), q) == if found.None? then None else Some(Finalize(found.value))
    decreases |q|
  {
    FinalStep(ns, q[0]);
    var i := IndexOf(ns, q[0]);
    if i < |ns| && |q| > 1 {
      FinalizeKeepsPaths(ns[i].children, q[1..]);
    }
  }

  lemma {:induction false} SumWeightFinal(ns: seq<Node>, m: Measure)
    ensures SumWeight(SortDesc(FinalizeAll(ns)), m) == SumWeight(ns, m)
  {
    SumSort(FinalizeAll(ns), m);
    SumFinalizeAll(ns, m);
  }

  lemma {:induction false} SumFinalizeAll(ns: seq<Node>, m: Measure)
    ensures SumWeight(FinalizeAll(ns), m) == SumWeight(ns, m)
  {
    if ns != [] {
      var all := FinalizeAll(ns);
      assert all[..|all| - 1] == FinalizeAll(ns[..|ns| - 1]);
      SumFinalizeAll(ns[..|ns| - 1], m);
    }
  }

  lemma SumSnoc(ns: seq<Node>, n: Node, m: Measure)
    ensures SumWeight(ns + [n], m) == SumWeight(ns, m) + Weight(n, m)
  {
    assert (ns + [n])[..|ns|] == ns;
  }

  lemma {:induction false} SumInsertDesc(sorted: seq<Node>, n: Node, m: Measure)
    ensures SumWeight(InsertDesc(sorted, n), m) == SumWeight(sorted, m) + Weight(n, m)
  {
    if sorted == [] || sorted[|sorted| - 1].size >= n.size {
      SumSnoc(sorted, n, m);
      assert InsertDesc(sorted, n) == sorted + [n];
    } else {
      var init, last := sorted[..|sorted| - 1], sorted[|sorted| - 1];
      SumInsertDesc(init, n, m);
      SumSnoc(InsertDesc(init, n), last, m);
      SumSnoc(init, last, m);
      assert init + [last] == sorted;
    }
  }

  lemma {:induction false} SumSort(ns: seq<Node>, m: Measure)
    ensures SumWeight(SortDesc(ns), m) == SumWeight(ns, m)
  {
    if ns != [] {
      SumSort(ns[..|ns| - 1], m);
      SumInsertDesc(SortDesc(ns[..|ns| - 1]), ns[|ns| - 1], m);
    }
  }

  lemma {:induction false} InsertDescDistinct(sorted: seq<Node>, n: Node)
    requires DistinctSegments(sorted) && forall i :: 0 <= i < |sorted| ==> sorted[i].segment != n.segment
    ensures DistinctSegments(InsertDesc(sorted, n))
  {
    if sorted != [] && sorted[|sorted| - 1].size < n.size {
      var init, last := sorted[..|sorted| - 1], sorted[|sorted| - 1];
      InsertDescDistinct(init, n);
      forall i | 0 <= i < |InsertDesc(init, n)| ensures InsertDesc(init, n)[i].segment != last.segment {
        InsertDescMember(init, n, i);
      }
    }
  }

  lemma {:induction false} SortDescDistinct(ns: seq<Node>)
    requires DistinctSegments(ns)
    ensures DistinctSegments(SortDesc(ns))
  {
    if ns != [] {
      var init, last := ns[..|ns| - 1], ns[|ns| - 1];
      SortDescDistinct(init);
      forall i | 0 <= i < |SortDesc(init)| ensures SortDesc(init)[i].segment != last.segment {
        SortDescMember(init, i);
      }
      InsertDescDistinct(SortDesc(init), last);
    }
  }

  lemma SortDescMember(ns: seq<Node>, i: nat)
    requires i < |SortDesc(ns)|
    ensures SortDesc(ns)[i] in ns
  {
    SortDescPermutes(ns);
    assert SortDesc(ns)[i] in multiset(SortDesc(ns));
  }

  lemma {:induction false} FinalizeKeepsDistinct(ns: seq<Node>)
    requires DistinctTree(ns)
    ensures DistinctTree(SortDesc(FinalizeAll(ns)))
    decreases ns
  {
    FinalizeAllSegments(ns, "");
    SortDescDistinct(FinalizeAll(ns));
    var final := SortDesc(FinalizeAll(ns));
    forall i | 0 <= i < |final| ensures DistinctTree(final[i].children) {
      SortDescMember(FinalizeAll(ns), i);
      var k :| 0 <= k < |ns| && FinalizeAll(ns)[k] == final[i];
      FinalizeAllAt(ns, k);
      FinalizeKeepsDistinct(ns[k].children);
    }
  }
}
