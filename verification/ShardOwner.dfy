/** Which node a shard row counts for, and that the pivot, the shard map and the node list all count a
    relocating shard for the node that it leaves. */
module ShardOwner {
  import opened Options
  import opened Pivot
  import opened ShardMapView

  predicate IsBlank(c: char) { c == ' ' || c == '\t' || c == '\n' || c == '\r' }

  predicate Blank(s: string) { forall c :: c in s ==> IsBlank(c) }

  predicate BlankFree(s: string) { forall c :: c in s ==> !IsBlank(c) }

  predicate ArrowFree(s: string) { forall i :: 0 <= i < |s| - 1 && s[i] == '-' ==> s[i + 1] != '>' }

  lemma {:induction false} TokenIs(s: string, rest: string)
    requires BlankFree(s) && (rest == [] || IsBlank(rest[0]))
    ensures TakeToken(s + rest) == s
  {
    if s == [] {
      assert s + rest == rest;
    } else {
      assert s[0] in s && (s + rest)[1..] == s[1..] + rest;
      TokenIs(s[1..], rest);
    }
  }

  lemma {:induction false} FirstTokenIs(pre: string, s: string, rest: string)
    requires Blank(pre) && s != [] && BlankFree(s) && (rest == [] || IsBlank(rest[0]))
    ensures FirstToken(pre + s + rest) == s
  {
    if pre == [] {
      assert s[0] in s && pre + s + rest == s + rest;
      TokenIs(s, rest);
    } else {
      assert pre[0] in pre && (pre + s + rest)[1..] == pre[1..] + s + rest;
      FirstTokenIs(pre[1..], s, rest);
    }
  }

  /** A report with a space counts for its first word: that is where a relocating shard still is.
      Leading blanks are not part of the word. */
  lemma RelocatingOwner(pre: string, s: string, rest: string)
    requires Blank(pre) && s != [] && BlankFree(s)
    ensures NormalizeShardNode(Some(pre + s + " " + rest)) == Some(s)
  {
    assert pre + s + (" " + rest) == pre + s + " " + rest && (pre + s + " " + rest)[|pre + s|] == ' ';
    FirstTokenIs(pre, s, " " + rest);
  }

  /** An arrow anywhere is enough to make a report a relocation, whatever kind of blank follows the word. */
  lemma ArrowOwner(s: string, c: char, rest: string, i: nat)
    requires s != [] && BlankFree(s) && IsBlank(c)
    requires var report := s + [c] + rest; i + 1 < |report| && report[i] == '-' && report[i + 1] == '>'
    ensures NormalizeShardNode(Some(s + [c] + rest)) == Some(s)
  {
    assert [] + s + ([c] + rest) == s + [c] + rest;
    FirstTokenIs([], s, [c] + rest);
  }

  /** Every other report counts for itself: no node, no name, a name without blanks, and a name with
      neither space nor arrow. */
  lemma OwnerAsReported(node: Option<string>)
    requires node.None? || node.value == [] || BlankFree(node.value) || (' ' !in node.value && ArrowFree(node.value))
    ensures NormalizeShardNode(node) == node
  {
    if node.Some? && node.value != [] && BlankFree(node.value) {
      assert [] + node.value + [] == node.value;
      FirstTokenIs([], node.value, []);
    }
  }

  lemma {:induction false} BlankHasNoToken(s: string)
    requires Blank(s)
    ensures FirstToken(s) == []
  {
    if s != [] {
      assert s[0] in s;
      BlankHasNoToken(s[1..]);
    }
  }

  /** A report of blanks alone counts for no node. */
  lemma BlankOwnsNothing(s: string)
    requires Blank(s) && ' ' in s
    ensures NormalizeShardNode(Some(s)) == None
  {
    BlankHasNoToken(s);
  }

  /** A shard on its way from `s` to another node. */
  predicate Leaves(r: ShardRow, s: string) {
    s != [] && BlankFree(s) && r.node.Some? && |s| < |r.node.value| && r.node.value[|s|] == ' ' && s <= r.node.value
  }

  lemma LeavesOwner(r: ShardRow, s: string)
    requires Leaves(r, s)
    ensures NormalizeShardNode(r.node) == Some(s)
  {
    var rest := r.node.value[|s| + 1..];
    assert r.node.value == s + " " + rest;
    RelocatingOwner([], s, rest);
    assert [] + s + " " + rest == s + " " + rest;
  }

  function One(b: bool): nat { if b then 1 else 0 }

  /** One more shard row, for whatever node: the pivot's grand total, the column of the shard map and
      the node list each grow for the node that owns the row and for no other. */
  lemma OneMoreRow(l: Listing, r: ShardRow, sep: string, n: string)
    requires sep != [] && n in l.dataNodes
    ensures var more, mine := l.(shards := l.shards + [r]), NormalizeShardNode(r.node) == Some(n);
            && Total(more, l.indices, sep, [], ShardsOn(n)) ==
                 Total(l, l.indices, sep, [], ShardsOn(n)) + (if mine then Occurrences(l.indices, r.index) else 0)
            && OwnedCount(more.shards, n) == OwnedCount(l.shards, n) + One(mine)
  {
    var more := l.(shards := l.shards + [r]);
    assert more.shards[..|more.shards| - 1] == l.shards;
    assert more.(shards := l.shards) == l;
    TotalByRow(more, l.indices, sep, r, n);
  }

  /** A relocating shard of a shown index is one more shard of the node it leaves in all three views,
      and of no other node in any of them. */
  lemma RelocatingCountsOnce(l: Listing, r: ShardRow, s: string, sep: string, n: string, cells: Cells, after: Cells)
    requires sep != [] && n in l.dataNodes && PlainNames(l.indices) && Leaves(r, s)
    requires IsGrid(cells, l) && IsGrid(after, l.(shards := l.shards + [r]))
    ensures var more := l.(shards := l.shards + [r]);
            var added := if n == s then Occurrences(l.indices, r.index) else 0;
            && Total(more, l.indices, sep, [], ShardsOn(n)) == Total(l, l.indices, sep, [], ShardsOn(n)) + added
            && Column(after, l.indices, n) == Column(cells, l.indices, n) + added
            && OwnedCount(more.shards, n) == OwnedCount(l.shards, n) + One(n == s)
  {
    LeavesOwner(r, s);
    OneMoreRow(l, r, sep, n);
    ColumnIsTotal(l, l.indices, sep, cells, n);
    ColumnIsTotal(l.(shards := l.shards + [r]), l.indices, sep, after, n);
  }

  /** Its size counts for the index on the node it leaves, and its chip, with the columns of its row, is
      the last one of that cell. */
  lemma RelocatingCell(l: Listing, r: ShardRow, s: string, cells: Cells)
    requires Leaves(r, s) && s in l.dataNodes && r.index != [] && IsGrid(cells, l.(shards := l.shards + [r]))
    ensures var more := l.(shards := l.shards + [r]);
            RowsWeight(more.shards, r.index, l.dataNodes, SizeOn(s)) ==
            RowsWeight(l.shards, r.index, l.dataNodes, SizeOn(s)) + r.store
    ensures r.index in RowNames(l.indices) ==>
              ChipsAt(cells, r.index + " " + s) ==
              CellChips(l.shards, RowNames(l.indices), l.dataNodes, r.index + " " + s)
                + [Chip(r.shard, r.prirep, r.state, r.store, r.docs, r.segments)]
  {
    LeavesOwner(r, s);
    assert (l.shards + [r])[..|l.shards|] == l.shards;
  }

  /** The rows of the table whose chips belong to a cell. */
  ghost function CellRows(shards: seq<ShardRow>, rows: seq<IndexRow>, dataNodes: set<string>, index: string,
                          n: string): set<nat> {
    set k: nat | && k < |shards| && shards[k].index == index && NormalizeShardNode(shards[k].node) == Some(n)
                 && n in dataNodes && !IsSystem(index) && exists i :: 0 <= i < |rows| && rows[i].name == index
  }

  lemma CellRowsSnoc(shards: seq<ShardRow>, rows: seq<IndexRow>, dataNodes: set<string>, index: string, n: string)
    requires shards != []
    ensures var k := |shards| - 1;
            CellRows(shards, rows, dataNodes, index, n) ==
            CellRows(shards[..k], rows, dataNodes, index, n)
              + (if && InGrid(shards[k], RowNames(rows), dataNodes) && shards[k].index == index
                    && NormalizeShardNode(shards[k].node) == Some(n) then {k} else {})
  {
    var r := shards[|shards| - 1];
    assert r.index in RowNames(rows) <==> !IsSystem(r.index) && exists i :: 0 <= i < |rows| && rows[i].name == r.index;
  }

  /** A cell has one chip for every row of its index that its node owns, and none at all if the index is
      not shown or the node is no data node. */
  lemma {:induction false} CellHasItsRows(shards: seq<ShardRow>, rows: seq<IndexRow>, dataNodes: set<string>,
                                          index: string, n: string)
    requires SpaceFree(RowNames(rows)) && ' ' !in index
    ensures |CellChips(shards, RowNames(rows), dataNodes, index + " " + n)| ==
            |CellRows(shards, rows, dataNodes, index, n)|
  {
    if shards != [] {
      var k := |shards| - 1;
      var r := shards[k];
      CellHasItsRows(shards[..k], rows, dataNodes, index, n);
      CellRowsSnoc(shards, rows, dataNodes, index, n);
      if InGrid(r, RowNames(rows), dataNodes) && CellKey(r.index, NormalizeShardNode(r.node).value) == index + " " + n {
        CellKeyInjective(r.index, NormalizeShardNode(r.node).value, index, n);
      }
    }
  }
}
