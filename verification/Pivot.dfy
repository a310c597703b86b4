/**
 The pivot view: a trie over the separated segments of index names, with aggregates rolled up
 along every path, against the specification "filter by prefix and sum".
 */
module Pivot {
  import opened Options
  import Text

  // ---------------------------------------------------------------- the listing

  datatype ShardRow = ShardRow(index: string, node: Option<string>, store: int, shard: int, prirep: string,
                               state: string, docs: int, segments: int)

  datatype IndexRow = IndexRow(name: string, docs: int)

  /** Reads off one aggregate of a pivot node. */
  datatype Measure = Size | Docs | Shards | Indices | ShardsOn(node: string) | SizeOn(node: string)

  predicate IsSystem(name: string) { name != [] && name[0] == '.' }

  /** The owning node: a relocating shard reports `source -> address id target`. */
  function NormalizeShardNode(node: Option<string>): Option<string> {
    if node.None? || node.value == [] then node
    else if ' ' in node.value || HasArrow(node.value) then
      var token := FirstToken(node.value);
      if token == [] then None else Some(token)
    else node
  }

  predicate HasArrow(s: string) { exists i :: 0 <= i < |s| - 1 && s[i] == '-' && s[i + 1] == '>' }

  predicate IsSpace(c: char) { c in " \t\n\r" }

  function FirstToken(s: string): string
    decreases |s|
  {
    if s == [] then []
    else if IsSpace(s[0]) then FirstToken(s[1..])
    else TakeToken(s)
  }

  function TakeToken(s: string): string
    decreases |s|
  {
    if s == [] || IsSpace(s[0]) then [] else [s[0]] + TakeToken(s[1..])
  }

  /** What one shard row adds to an aggregate of its index; only data nodes get a breakdown. */
  function RowWeight(r: ShardRow, dataNodes: set<string>, m: Measure): int {
    match m
    case Size => r.store
    case Docs => 0
    case Shards => 1
    case Indices => 0
    case ShardsOn(n) => if NormalizeShardNode(r.node) == Some(n) && n in dataNodes then 1 else 0
    case SizeOn(n) => if NormalizeShardNode(r.node) == Some(n) && n in dataNodes then r.store else 0
  }

  function RowsWeight(shards: seq<ShardRow>, name: string, dataNodes: set<string>, m: Measure): int {
    if shards == [] then 0
    else
      var r := shards[|shards| - 1];
      RowsWeight(shards[..|shards| - 1], name, dataNodes, m)
      + (if r.index == name && name != [] then RowWeight(r, dataNodes, m) else 0)
  }

  function DocsOf(indices: seq<IndexRow>, name: string): int {
    if indices == [] then 0
    else if indices[|indices| - 1].name == name then indices[|indices| - 1].docs
    else DocsOf(indices[..|indices| - 1], name)
  }

  datatype Listing = Listing(indices: seq<IndexRow>, shards: seq<ShardRow>, dataNodes: set<string>)

  /** One listed index's share of an aggregate. */
  function IndexWeight(l: Listing, name: string, m: Measure): int {
    match m
    case Indices => 1
    case Docs => DocsOf(l.indices, name)
    case _ => RowsWeight(l.shards, name, l.dataNodes, m)
  }

  predicate Under(name: string, sep: string, path: seq<string>)
    requires sep != []
  {
    !IsSystem(name) && path <= Text.Split(name, sep)
  }

  /** The specification: the sum over the listed non-system indices whose segments begin with `path`. */
  function Total(l: Listing, rows: seq<IndexRow>, sep: string, path: seq<string>, m: Measure): int
    requires sep != []
  {
    if rows == [] then 0
    else
      var name := rows[|rows| - 1].name;
      Total(l, rows[..|rows| - 1], sep, path, m) + (if Under(name, sep, path) then IndexWeight(l, name, m) else 0)
  }

  /** The part of a path's total that belongs to indices ending right there. */
  function Own(l: Listing, rows: seq<IndexRow>, sep: string, path: seq<string>, m: Measure): int
    requires sep != []
  {
    if rows == [] then 0
    else
      var name := rows[|rows| - 1].name;
      Own(l, rows[..|rows| - 1], sep, path, m)
      + (if !IsSystem(name) && path == Text.Split(name, sep) then IndexWeight(l, name, m) else 0)
  }

  // ---------------------------------------------------------------- the trie

  datatype Share = Share(shards: int, size: int)

  type PerNode = map<string, Share>

  datatype Node = Node(key: string, segment: string, depth: nat, size: int, docs: int, shards: int, indices: int,
                       perNode: PerNode, children: seq<Node>, leaf: bool)

  /** What one index contributes to every node on its path. */
  datatype Info = Info(size: int, docs: int, shards: int, perNode: PerNode)

  function ShareOf(p: PerNode, n: string): Share { if n in p then p[n] else Share(0, 0) }

  function Weight(n: Node, m: Measure): int {
    match m
    case Size => n.size
    case Docs => n.docs
    case Shards => n.shards
    case Indices => n.indices
    case ShardsOn(name) => ShareOf(n.perNode, name).shards
    case SizeOn(name) => ShareOf(n.perNode, name).size
  }

  function InfoWeight(i: Info, m: Measure): int {
    match m
    case Size => i.size
    case Docs => i.docs
    case Shards => i.shards
    case Indices => 1
    case ShardsOn(name) => ShareOf(i.perNode, name).shards
    case SizeOn(name) => ShareOf(i.perNode, name).size
  }

  function AddShares(a: PerNode, b: PerNode): PerNode {
    map n | n in a.Keys + b.Keys :: Share(ShareOf(a, n).shards + ShareOf(b, n).shards,
                                          ShareOf(a, n).size + ShareOf(b, n).size)
  }

  function NewNode(key: string, segment: string, depth: nat): Node {
    Node(key, segment, depth, 0, 0, 0, 0, map[], [], false)
  }

  function Add(n: Node, i: Info): Node {
    n.(size := n.size + i.size, docs := n.docs + i.docs, shards := n.shards + i.shards, indices := n.indices + 1,
       perNode := AddShares(n.perNode, i.perNode))
  }

  /** Position of a segment among siblings, or their number. */
  function IndexOf(siblings: seq<Node>, segment: string): (i: nat)
    ensures i <= |siblings| && (i < |siblings| ==> siblings[i].segment == segment)
    ensures forall j :: 0 <= j < i ==> siblings[j].segment != segment
  {
    if siblings == [] then 0
    else if siblings[0].segment == segment then 0
    else 1 + IndexOf(siblings[1..], segment)
  }

  function PathKey(parentKey: string, depth: nat, segment: string, sep: string): string {
    if depth == 0 then segment else parentKey + sep + segment
  }

  /** The node for a segment, created when missing. */
  function NodeFor(siblings: seq<Node>, segment: string, key: string, depth: nat): Node {
    var i := IndexOf(siblings, segment);
    if i < |siblings| then siblings[i] else NewNode(key, segment, depth)
  }

  /** Put a node among its siblings, over the one of its segment if there is one. */
  function Place(siblings: seq<Node>, n: Node): seq<Node> {
    var i := IndexOf(siblings, n.segment);
    if i < |siblings| then siblings[i := n] else siblings + [n]
  }

  /** The node of the first segment with the index's share added and the rest of the path below it. */
  function Grow(siblings: seq<Node>, path: seq<string>, parentKey: string, depth: nat, sep: string,
                info: Info): (n: Node)
    requires path != []
    ensures n.segment == path[0]
    decreases |path|, 0
  {
    var key := PathKey(parentKey, depth, path[0], sep);
    var node := NodeFor(siblings, path[0], key, depth);
    if |path| == 1 then Add(node, info).(leaf := true)
    else Add(node, info).(children := Insert(node.children, path[1..], key, depth + 1, sep, info))
  }

  /** Walk down `path`, creating what is missing and adding the index's share on the way. */
  function Insert(siblings: seq<Node>, path: seq<string>, parentKey: string, depth: nat, sep: string,
                  info: Info): seq<Node>
    requires path != []
    decreases |path|, 1
  {
    Place(siblings, Grow(siblings, path, parentKey, depth, sep, info))
  }

  function Find(siblings: seq<Node>, path: seq<string>): Option<Node>
    requires path != []
    decreases |path|
  {
    var i := IndexOf(siblings, path[0]);
    if i == |siblings| then None
    else if |path| == 1 then Some(siblings[i])
    else Find(siblings[i].children, path[1..])
  }

  function WeightAt(siblings: seq<Node>, path: seq<string>, m: Measure): int
    requires path != []
  {
    var n := Find(siblings, path);
    if n.Some? then Weight(n.value, m) else 0
  }

  predicate LeafAt(siblings: seq<Node>, path: seq<string>)
    requires path != []
  {
    Find(siblings, path).Some? && Find(siblings, path).value.leaf
  }

  lemma IndexOfIs(siblings: seq<Node>, segment: string, i: nat)
    requires i <= |siblings| && (i < |siblings| ==> siblings[i].segment == segment)
    requires forall j :: 0 <= j < i ==> siblings[j].segment != segment
    ensures IndexOf(siblings, segment) == i
  {}

  lemma AddWeight(n: Node, i: Info, m: Measure)
    ensures Weight(Add(n, i), m) == Weight(n, m) + InfoWeight(i, m)
  {}

  /** Placing a node changes only what is found under its own segment. */
  lemma PlaceFind(siblings: seq<Node>, n: Node, q: seq<string>)
    requires q != []
    ensures Find(Place(siblings, n), q) ==
            if q[0] != n.segment then Find(siblings, q)
            else if |q| == 1 then Some(n) else Find(n.children, q[1..])
  {
    var after := Place(siblings, n);
    var i := IndexOf(siblings, q[0]);
    var at := IndexOf(siblings, n.segment);
    assert forall j :: 0 <= j < |siblings| && j != at ==> after[j] == siblings[j];
    assert after[at] == n;
    if q[0] == n.segment || i < |siblings| {
      IndexOfIs(after, q[0], i);
    } else {
      IndexOfIs(after, q[0], |after|);
    }
  }

  /** Looking a node up among its siblings, or its fresh stand-in. */
  lemma NodeForFind(siblings: seq<Node>, segment: string, key: string, depth: nat, q: seq<string>)
    requires q != [] && q[0] == segment
    ensures var node := NodeFor(siblings, segment, key, depth);
            && (|q| > 1 ==> Find(siblings, q) == Find(node.children, q[1..]))
            && (|q| == 1 && Find(siblings, q).Some? ==> Find(siblings, q).value == node)
            && (|q| == 1 && Find(siblings, q).None? ==> node == NewNode(key, segment, depth))
  {}

  predicate AddedAt(before: seq<Node>, after: seq<Node>, path: seq<string>, info: Info, q: seq<string>, m: Measure)
    requires q != []
  {
    && (Find(after, q).Some? <==> Find(before, q).Some? || q <= path)
    && WeightAt(after, q, m) == WeightAt(before, q, m) + (if q <= path then InfoWeight(info, m) else 0)
    && (LeafAt(after, q) <==> LeafAt(before, q) || q == path)
  }

  lemma TailPrefix(q: seq<string>, path: seq<string>)
    requires q != [] && path != [] && q[0] == path[0]
    ensures q <= path <==> q[1..] <= path[1..]
    ensures q == path <==> q[1..] == path[1..]
  {
    assert q == [q[0]] + q[1..] && path == [path[0]] + path[1..];
  }

  lemma Lift(before: seq<Node>, after: seq<Node>, childrenBefore: seq<Node>, childrenAfter: seq<Node>,
             path: seq<string>, info: Info, q: seq<string>, m: Measure)
    requires |q| > 1 && |path| > 1 && q[0] == path[0]
    requires Find(after, q) == Find(childrenAfter, q[1..]) && Find(before, q) == Find(childrenBefore, q[1..])
    requires AddedAt(childrenBefore, childrenAfter, path[1..], info, q[1..], m)
    ensures AddedAt(before, after, path, info, q, m)
  {
    TailPrefix(q, path);
  }

  lemma HeadAdded(before: seq<Node>, after: seq<Node>, path: seq<string>, info: Info, q: seq<string>, m: Measure,
                  node: Node, grown: Node)
    requires path != [] && |q| == 1 && q[0] == path[0] && Find(after, q) == Some(grown)
    requires Weight(grown, m) == Weight(node, m) + InfoWeight(info, m)
    requires grown.leaf == (node.leaf || |path| == 1)
    requires if Find(before, q).Some? then Find(before, q).value == node else Weight(node, m) == 0 && !node.leaf
    ensures AddedAt(before, after, path, info, q, m)
  {
    assert q <= path && (q == path <==> |path| == 1);
  }

  /** The heart of the view: one insertion adds the index's share at exactly the prefixes of its
      path, creates exactly those nodes, and marks exactly the last one as a leaf. */
  lemma {:induction false} InsertFind(siblings: seq<Node>, path: seq<string>, parentKey: string, depth: nat,
                                      sep: string, info: Info,
                                      q: seq<string>, m: Measure)
    requires path != [] && q != []
    ensures AddedAt(siblings, Insert(siblings, path, parentKey, depth, sep, info), path, info, q, m)
    decreases |path|
  {
    var grown := Grow(siblings, path, parentKey, depth, sep, info);
    PlaceFind(siblings, grown, q);
    if q[0] == path[0] {
      var key := PathKey(parentKey, depth, path[0], sep);
      var node := NodeFor(siblings, path[0], key, depth);
      NodeForFind(siblings, path[0], key, depth, q);
      if |q| == 1 {
        AddWeight(node, info, m);
        HeadAdded(siblings, Insert(siblings, path, parentKey, depth, sep, info), path, info, q, m, node, grown);
      } else if |path| > 1 {
        InsertFind(node.children, path[1..], key, depth + 1, sep, info, q[1..], m);
        Lift(siblings, Insert(siblings, path, parentKey, depth, sep, info), node.children, grown.children, path, info,
             q, m);
      } else {
        assert |q| > |path|;
      }
    }
  }
}
