/** The pivot trie as it is built: nested dictionaries of nodes, updated in place. */
module PivotTrie {
  import opened Pivot
  import opened PivotShape
  import opened PivotFinal

  /** A node with its running aggregates; its children hang below it for good. */
  class TrieNode {
    const key: string
    const segment: string
    const depth: nat
    const children: Branch
    var size: int
    var docs: int
    var shards: int
    var indices: int
    var perNode: PerNode
    var leaf: bool

    ghost function Value(): Node
      reads this, children
    {
      Node(key, segment, depth, size, docs, shards, indices, perNode, children.value, leaf)
    }

    constructor (key: string, segment: string, depth: nat)
      ensures Value() == NewNode(key, segment, depth)
      ensures fresh(children) && children.Valid() && children.repr == {children}
    {
      this.key, this.segment, this.depth := key, segment, depth;
      children := new Branch();
      size, docs, shards, indices, perNode, leaf := 0, 0, 0, 0, map[], false;
    }

    method AddInfo(info: Info)
      modifies this
      ensures Value() == Add(old(Value()), info)
    {
      size, docs, shards, indices := size + info.size, docs + info.docs, shards + info.shards, indices + 1;
      perNode := AddShares(perNode, info.perNode);
    }

    /** Add the share here and along the rest of the path; the last segment is a leaf. */
    method Grow(path: seq<string>, key: string, depth: nat, sep: string, info: Info)
      requires path != [] && children.Valid() && this !in children.repr
      modifies this, children.repr
      ensures children.Valid() && this !in children.repr && fresh(children.repr - old(children.repr))
      ensures Value() == if |path| == 1 then Add(old(Value()), info).(leaf := true)
                         else var below := Insert(old(Value()).children, path[1..], key, depth + 1, sep, info);
                              Add(old(Value()), info).(children := below)
      decreases |path|, 0
    {
      AddInfo(info);
      if |path| == 1 { leaf := true; } else { children.Insert(path[1..], key, depth + 1, sep, info); }
    }
  }

  /** The position of a segment's node, or the number of nodes. */
  function PositionOf(entries: seq<TrieNode>, segment: string): (i: nat)
    ensures i <= |entries| && (i < |entries| ==> entries[i].segment == segment)
    ensures forall j :: 0 <= j < i ==> entries[j].segment != segment
  {
    if entries == [] || entries[0].segment == segment then 0 else 1 + PositionOf(entries[1..], segment)
  }

  /** A dictionary of nodes by segment, in the order of insertion. */
  class Branch {
    var entries: seq<TrieNode>
    ghost var value: seq<Node>
    ghost var repr: set<object>

    /** The node and what hangs below it belong to this dictionary. */
    ghost predicate Owns(n: TrieNode)
      reads this, repr
      decreases repr, 0
    {
      && n in repr && n.children in repr && n.children in n.children.repr && n.children.repr <= repr - {this, n}
      && n.children.Valid()
    }

    ghost predicate Valid()
      reads this, repr
      decreases repr, 1
    {
      && this in repr && |entries| == |value| && DistinctSegments(value)
      && (forall i :: 0 <= i < |entries| ==> Owns(entries[i]) && value[i] == entries[i].Value())
      && (forall i, j :: 0 <= i < j < |entries| ==> Apart(entries[i], entries[j]))
    }

    constructor ()
      ensures Valid() && value == [] && repr == {this}
    {
      entries, value, repr := [], [], {this};
    }

    /** Enter a node that belongs to nobody yet. */
    method Append(node: TrieNode)
      requires Valid() && node !in repr && node.children.repr !! repr
      requires node !in node.children.repr && node.children in node.children.repr && node.children.Valid()
      requires forall i :: 0 <= i < |value| ==> value[i].segment != node.segment
      modifies this
      ensures Valid() && repr == old(repr) + {node} + node.children.repr
      ensures entries == old(entries) + [node] && value == old(value) + [node.Value()]
    {
      entries, value := entries + [node], value + [node.Value()];
      repr := repr + {node} + node.children.repr;
      forall i | 0 <= i < |entries| ensures Owns(entries[i]) && value[i] == entries[i].Value() {
        if i < |entries| - 1 { assert old(Owns(entries[i])); }
      }
      forall i, j | 0 <= i < j < |entries| ensures Apart(entries[i], entries[j]) {
        assert old(Owns(entries[i]));
        if j < |entries| - 1 { assert old(Apart(entries[i], entries[j])); }
      }
    }

    /** The node of a segment, created when missing. */
    method GetOrCreate(segment: string, key: string, depth: nat) returns (at: nat)
      requires Valid()
      modifies this
      ensures Valid() && fresh(repr - old(repr))
      ensures at < |entries| && at == IndexOf(old(value), segment) && entries[at].segment == segment
      ensures value == Place(old(value), NodeFor(old(value), segment, key, depth))
    {
      at := PositionOf(entries, segment);
      SamePosition(entries, value, segment);
      if at == |entries| {
        var node := new TrieNode(key, segment, depth);
        Append(node);
      }
    }

    /** Add an index's share along a path, creating what is missing. */
    method Insert(path: seq<string>, parentKey: string, depth: nat, sep: string, info: Info)
      requires Valid() && path != []
      modifies repr
      ensures Valid() && fresh(repr - old(repr))
      ensures value == Pivot.Insert(old(value), path, parentKey, depth, sep, info)
      decreases |path|, 2
    {
      var key := PathKey(parentKey, depth, path[0], sep);
      var at := GetOrCreate(path[0], key, depth);
      GrowAt(at, path, key, depth, sep, info);
    }

    method GrowAt(at: nat, path: seq<string>, key: string, depth: nat, sep: string, info: Info)
      requires Valid() && path != [] && at < |entries|
      modifies repr
      ensures Valid() && fresh(repr - old(repr))
      ensures var before := old(value)[at];
              value == old(value)[at :=
                if |path| == 1 then Add(before, info).(leaf := true)
                else
                  var below := Pivot.Insert(before.children, path[1..], key, depth + 1, sep, info);
                  Add(before, info).(children := below)]
      decreases |path|, 1
    {
      assert Owns(entries[at]) && value[at] == entries[at].Value();
      entries[at].Grow(path, key, depth, sep, info);
      OtherEntries(at);
      Refresh(at);
    }

    /** Changing one entry and what hangs below it leaves every other entry alone. */
    twostate lemma OtherEntries(at: nat)
      requires old(Valid()) && entries == old(entries) && value == old(value) && repr == old(repr) && at < |entries|
      requires forall o :: o in old(repr) && o != entries[at] && o !in old(entries[at].children.repr) ==> unchanged(o)
      requires fresh(entries[at].children.repr - old(entries[at].children.repr))
      ensures forall i :: 0 <= i < |entries| && i != at ==>
                Owns(entries[i]) && value[i] == entries[i].Value() && Apart(entries[i], entries[at])
      ensures forall i, j :: 0 <= i < j < |entries| && i != at && j != at ==> Apart(entries[i], entries[j])
    {
      var node := entries[at];
      assert old(Owns(node));
      forall i | 0 <= i < |entries| && i != at
        ensures Owns(entries[i]) && value[i] == entries[i].Value() && Apart(entries[i], node)
        ensures entries[i].children.repr == old(entries[i].children.repr)
      {
        var other := entries[i];
        assert old(Owns(other));
        assert if i < at then old(Apart(other, node)) else old(Apart(node, other));
        assert unchanged(other) && unchanged(other.children);
        assert forall o :: o in old(other.children.repr) ==> unchanged(o);
      }
      forall i, j | 0 <= i < j < |entries| && i != at && j != at ensures Apart(entries[i], entries[j]) {
        assert old(Apart(entries[i], entries[j]));
      }
    }

    /** Bring the ghost state up to date after the subtree of one entry has changed. */
    ghost method Refresh(at: nat)
      requires this in repr && |entries| == |value| && DistinctSegments(value) && at < |entries|
      requires forall i :: 0 <= i < |entries| && i != at ==>
                 Owns(entries[i]) && value[i] == entries[i].Value() && Apart(entries[i], entries[at])
      requires forall i, j :: 0 <= i < j < |entries| && i != at && j != at ==> Apart(entries[i], entries[j])
      requires var n := entries[at];
               && n in repr && n.children in n.children.repr && n !in n.children.repr && this !in n.children.repr
               && n.children.Valid() && n.segment == value[at].segment
      modifies this`value, this`repr
      ensures Valid() && entries == old(entries)
      ensures value == old(value)[at := entries[at].Value()] && repr == old(repr) + entries[at].children.repr
    {
      var n := entries[at];
      value := value[at := n.Value()];
      repr := repr + n.children.repr;
      forall i | 0 <= i < |entries| ensures Owns(entries[i]) && value[i] == entries[i].Value() {
        if i != at { assert old(Owns(entries[i])); }
      }
    }

    /** The finished payload: plain nodes, children sorted by size at every level. */
    method Finish() returns (out: seq<Node>)
      requires Valid()
      ensures out == SortDesc(FinalizeAll(value))
      decreases repr
    {
      var all: seq<Node> := [];
      for i := 0 to |entries|
        invariant |all| == i && forall j :: 0 <= j < i ==> all[j] == Finalize(value[j])
      {
        var n := entries[i];
        assert Owns(n) && value[i] == n.Value();
        var children := n.children.Finish();
        all := all + [Node(n.key, n.segment, n.depth, n.size, n.docs, n.shards, n.indices, n.perNode, children,
                           n.leaf)];
      }
      forall i | 0 <= i < |value| ensures all[i] == FinalizeAll(value)[i] { FinalizeAllAt(value, i); }
      assert all == FinalizeAll(value);
      out := SortDesc(all);
    }
  }

  /** Two nodes share nothing. */
  ghost predicate Apart(a: TrieNode, b: TrieNode)
    reads a.children, b.children
  {
    a != b && a !in b.children.repr && b !in a.children.repr && a.children.repr !! b.children.repr
  }

  lemma {:induction false} SamePosition(entries: seq<TrieNode>, value: seq<Node>, segment: string)
    requires |entries| == |value| && forall i :: 0 <= i < |entries| ==> entries[i].segment == value[i].segment
    ensures PositionOf(entries, segment) == IndexOf(value, segment)
  {
    if entries != [] && entries[0].segment != segment { SamePosition(entries[1..], value[1..], segment); }
  }
}
