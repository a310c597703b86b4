/** The rebalance advisory: greedy relocate moves that even out shard counts across data nodes. */
module Rebalance {
  import opened Names

  datatype Shard = Shard(index: string, shard: int, state: string, node: string, store: int)

  datatype Move = Move(index: string, shard: int, from: string, to: string, size: int)

  type Counts = map<string, nat>

  // ---------------------------------------------------------------- what is really there

  /** The started shards of a node, in table order. */
  function On(shards: seq<Shard>, n: string): seq<Shard> {
    if shards == [] then []
    else
      var rest := On(shards[..|shards| - 1], n);
      var s := shards[|shards| - 1];
      if s.state == "STARTED" && s.node == n then rest + [s] else rest
  }

  /** The moves away from a node, in order. */
  function Leaving(moves: seq<Move>, n: string): seq<Move> {
    if moves == [] then []
    else
      var rest := Leaving(moves[..|moves| - 1], n);
      if moves[|moves| - 1].from == n then rest + [moves[|moves| - 1]] else rest
  }

  function Arriving(moves: seq<Move>, n: string): nat {
    if moves == [] then 0 else Arriving(moves[..|moves| - 1], n) + (if moves[|moves| - 1].to == n then 1 else 0)
  }

  /** A node's shard count once the plan is carried out. */
  function Projected(shards: seq<Shard>, moves: seq<Move>, n: string): int {
    |On(shards, n)| - |Leaving(moves, n)| + Arriving(moves, n)
  }

  /** Each node gives up its own started shards from the end of its list, each at most once. */
  ghost predicate TakesOwnShards(shards: seq<Shard>, moves: seq<Move>, n: string) {
    FromTheEnd(On(shards, n), Leaving(moves, n))
  }

  predicate FromTheEnd(own: seq<Shard>, leaving: seq<Move>) {
    && |leaving| <= |own|
    && forall i :: 0 <= i < |leaving| ==> Matches(leaving[i], own[|own| - 1 - i])
  }

  // ---------------------------------------------------------------- the plan

  /** Where a node is listed first. */
  function IndexIn(order: seq<string>, n: string): (i: nat)
    requires n in order
    ensures i < |order| && order[i] == n && forall k :: 0 <= k < i ==> order[k] != n
  {
    if order[0] == n then 0 else IndexIn(order[1..], n) + 1
  }

  predicate Source(available: map<string, seq<Shard>>, frozen: set<string>, n: string) {
    n in available && n !in frozen && available[n] != []
  }

  /** The first heaviest of the nodes that may still give a shard. */
  method PickSource(dataNodes: seq<string>, available: map<string, seq<Shard>>, frozen: set<string>, counts: Counts)
    returns (found: bool, hi: string)
    requires forall n :: n in dataNodes ==> n in available && n in counts
    ensures found <==> exists n :: n in dataNodes && Source(available, frozen, n)
    ensures found ==> hi in dataNodes && Source(available, frozen, hi)
    ensures found ==> forall n :: n in dataNodes && Source(available, frozen, n) ==> counts[n] <= counts[hi]
    ensures found ==> forall k :: 0 <= k < IndexIn(dataNodes, hi) && Source(available, frozen, dataNodes[k]) ==>
              counts[dataNodes[k]] < counts[hi]
  {
    found, hi := false, "";
    ghost var at := 0;
    for i := 0 to |dataNodes|
      invariant found ==> at < i && dataNodes[at] == hi
      invariant found ==> forall k :: 0 <= k < at && Source(available, frozen, dataNodes[k]) ==>
                  counts[dataNodes[k]] < counts[hi]
      invariant found <==> exists n :: n in dataNodes[..i] && Source(available, frozen, n)
      invariant found ==> hi in dataNodes && Source(available, frozen, hi)
      invariant found ==> forall n :: n in dataNodes[..i] && Source(available, frozen, n) ==> counts[n] <= counts[hi]
    {
      var n := dataNodes[i];
      assert dataNodes[..i + 1] == dataNodes[..i] + [n];
      if Source(available, frozen, n) && (!found || counts[n] > counts[hi]) { found, hi, at := true, n, i; }
    }
    assert dataNodes[..|dataNodes|] == dataNodes;
  }

  /** The first lightest data node. */
  method PickTarget(dataNodes: seq<string>, counts: Counts) returns (lo: string)
    requires dataNodes != [] && forall n :: n in dataNodes ==> n in counts
    ensures lo in dataNodes && forall n :: n in dataNodes ==> counts[lo] <= counts[n]
    ensures forall k :: 0 <= k < IndexIn(dataNodes, lo) ==> counts[lo] < counts[dataNodes[k]]
  {
    lo := dataNodes[0];
    ghost var at := 0;
    for i := 1 to |dataNodes|
      invariant at < i && dataNodes[at] == lo && forall k :: 0 <= k < at ==> counts[lo] < counts[dataNodes[k]]
      invariant lo in dataNodes && forall n :: n in dataNodes[..i] ==> counts[lo] <= counts[n]
    {
      assert dataNodes[..i + 1] == dataNodes[..i] + [dataNodes[i]];
      if counts[dataNodes[i]] < counts[lo] { lo, at := dataNodes[i], i; }
    }
    assert dataNodes[..|dataNodes|] == dataNodes;
  }

  /** The move goes from a heaviest node among those that have not received to a strictly lighter
      node that is lightest of all. */
  ghost predicate DownhillMove(nodes: set<string>, shards: seq<Shard>, before: seq<Move>, m: Move) {
    && m.from in nodes && m.to in nodes && Arriving(before, m.from) == 0
    && Projected(shards, before, m.to) < Projected(shards, before, m.from)
    && forall n :: n in nodes ==>
         && Projected(shards, before, m.to) <= Projected(shards, before, n)
         && (Arriving(before, n) == 0 ==> Projected(shards, before, n) <= Projected(shards, before, m.from))
  }

  ghost predicate Downhill(nodes: set<string>, shards: seq<Shard>, moves: seq<Move>) {
    moves == [] || (var init := moves[..|moves| - 1];
                    Downhill(nodes, shards, init) && DownhillMove(nodes, shards, init, moves[|moves| - 1]))
  }

  /** Of equally heavy sources and of equally light targets, the move takes the one listed first. */
  ghost predicate FirstListed(order: seq<string>, shards: seq<Shard>, before: seq<Move>, m: Move) {
    && m.from in order && m.to in order
    && (forall k :: 0 <= k < IndexIn(order, m.from) && Arriving(before, order[k]) == 0 ==>
          Projected(shards, before, order[k]) < Projected(shards, before, m.from))
    && (forall k :: 0 <= k < IndexIn(order, m.to) ==>
          Projected(shards, before, m.to) < Projected(shards, before, order[k]))
  }

  ghost predicate InOrder(order: seq<string>, shards: seq<Shard>, moves: seq<Move>) {
    moves == [] || (var init := moves[..|moves| - 1];
                    InOrder(order, shards, init) && FirstListed(order, shards, init, moves[|moves| - 1]))
  }

  /** The loop's variables. */
  datatype Plan = Plan(available: map<string, seq<Shard>>, counts: Counts, frozen: set<string>, moves: seq<Move>)

  predicate Matches(m: Move, s: Shard) { m.index == s.index && m.shard == s.shard && m.size == s.store }

  /** What a node has left is what it had, less what it gave from the end. */
  ghost predicate Holdings(shards: seq<Shard>, available: seq<Shard>, moves: seq<Move>, n: string) {
    var own, leaving := On(shards, n), Leaving(moves, n);
    FromTheEnd(own, leaving) && available == own[..|own| - |leaving|]
  }

  /** The bookkeeping of one node. */
  ghost predicate NodeInv(shards: seq<Shard>, p: Plan, n: string) {
    && n in p.available && n in p.counts
    && Holdings(shards, p.available[n], p.moves, n)
    && p.counts[n] == Projected(shards, p.moves, n)
    && (n in p.frozen <==> Arriving(p.moves, n) > 0)
  }

  /** The key invariant: a node that has received is at most one above every other node. */
  ghost predicate FrozenLow(nodes: set<string>, counts: Counts, frozen: set<string>)
    requires forall n :: n in nodes ==> n in counts
  {
    forall n, other :: n in frozen && n in nodes && other in nodes ==> counts[n] <= counts[other] + 1
  }

  ghost predicate PlanInv(nodes: set<string>, shards: seq<Shard>, p: Plan) {
    && (forall n :: n in nodes ==> NodeInv(shards, p, n))
    && FrozenLow(nodes, p.counts, p.frozen)
    && Downhill(nodes, shards, p.moves)
    && NoReturn(p.moves)
  }

  lemma MoveSnoc(shards: seq<Shard>, moves: seq<Move>, m: Move, n: string)
    ensures Leaving(moves + [m], n) == if m.from == n then Leaving(moves, n) + [m] else Leaving(moves, n)
    ensures Arriving(moves + [m], n) == Arriving(moves, n) + (if m.to == n then 1 else 0)
    ensures Projected(shards, moves + [m], n) ==
            Projected(shards, moves, n) - (if m.from == n then 1 else 0) + (if m.to == n then 1 else 0)
  {
    assert (moves + [m])[..|moves|] == moves;
  }

  /** A receiver never gives later in the plan. */
  predicate NoReturn(moves: seq<Move>) {
    forall i, j :: 0 <= i < j < |moves| ==> moves[i].to != moves[j].from
  }

  lemma {:induction false} ReceiverArrives(moves: seq<Move>, i: nat)
    requires i < |moves|
    ensures Arriving(moves, moves[i].to) > 0
  {
    if i < |moves| - 1 { ReceiverArrives(moves[..|moves| - 1], i); }
  }

  function Relocation(p: Plan, hi: string, lo: string): Move
    requires hi in p.available && p.available[hi] != []
  {
    var s := p.available[hi][|p.available[hi]| - 1];
    Move(s.index, s.shard, hi, lo, s.store)
  }

  function Relocated(p: Plan, hi: string, lo: string): Plan
    requires hi in p.available && p.available[hi] != [] && hi in p.counts && p.counts[hi] > 0 && lo in p.counts
  {
    Plan(p.available[hi := p.available[hi][..|p.available[hi]| - 1]],
         p.counts[hi := p.counts[hi] - 1][lo := if lo == hi then p.counts[lo] else p.counts[lo] + 1],
         p.frozen + {lo}, p.moves + [Relocation(p, hi, lo)])
  }

  /** What the loop knows when it moves a shard: a heaviest source, a lightest target, a real gap. */
  ghost predicate Choice(nodes: set<string>, p: Plan, hi: string, lo: string)
    requires forall n :: n in nodes ==> n in p.counts
  {
    && hi in nodes && lo in nodes && Source(p.available, p.frozen, hi) && p.counts[lo] < p.counts[hi]
    && (forall n :: n in nodes ==> p.counts[lo] <= p.counts[n])
    && (forall n :: n in nodes && Source(p.available, p.frozen, n) ==> p.counts[n] <= p.counts[hi])
  }

  /** Taking the last shard that is left continues the taking from the end. */
  lemma TakeLast(own: seq<Shard>, leaving: seq<Move>, left: seq<Shard>, m: Move)
    requires FromTheEnd(own, leaving) && left == own[..|own| - |leaving|] && left != []
    requires Matches(m, left[|left| - 1])
    ensures FromTheEnd(own, leaving + [m]) && left[..|left| - 1] == own[..|own| - |leaving + [m]|]
  {
    assert left[|left| - 1] == own[|own| - 1 - |leaving|];
    forall i | 0 <= i < |leaving + [m]| ensures Matches((leaving + [m])[i], own[|own| - 1 - i]) {
      if i < |leaving| { assert (leaving + [m])[i] == leaving[i]; }
    }
  }

  lemma HoldingsStep(shards: seq<Shard>, available: seq<Shard>, moves: seq<Move>, m: Move, n: string)
    requires Holdings(shards, available, moves, n) && m.from == n && available != []
    requires Matches(m, available[|available| - 1])
    ensures Holdings(shards, available[..|available| - 1], moves + [m], n)
  {
    MoveSnoc(shards, moves, m, n);
    TakeLast(On(shards, n), Leaving(moves, n), available, m);
  }

  lemma HoldingsStay(shards: seq<Shard>, available: seq<Shard>, moves: seq<Move>, m: Move, n: string)
    requires Holdings(shards, available, moves, n) && m.from != n
    ensures Holdings(shards, available, moves + [m], n)
  {
    MoveSnoc(shards, moves, m, n);
  }

  lemma SourceStep(shards: seq<Shard>, p: Plan, hi: string, lo: string)
    requires NodeInv(shards, p, hi) && NodeInv(shards, p, lo) && hi != lo
    requires p.available[hi] != [] && p.counts[hi] > 0
    ensures NodeInv(shards, Relocated(p, hi, lo), hi)
  {
    var m := Relocation(p, hi, lo);
    MoveSnoc(shards, p.moves, m, hi);
    HoldingsStep(shards, p.available[hi], p.moves, m, hi);
  }

  lemma OtherStep(shards: seq<Shard>, p: Plan, hi: string, lo: string, n: string)
    requires NodeInv(shards, p, hi) && NodeInv(shards, p, lo) && NodeInv(shards, p, n) && hi != lo && n != hi
    requires p.available[hi] != [] && p.counts[hi] > 0
    ensures NodeInv(shards, Relocated(p, hi, lo), n)
  {
    var m := Relocation(p, hi, lo);
    MoveSnoc(shards, p.moves, m, n);
    HoldingsStay(shards, p.available[n], p.moves, m, n);
  }

  lemma StepKeepsNodes(nodes: set<string>, shards: seq<Shard>, p: Plan, hi: string, lo: string)
    requires forall n :: n in nodes ==> NodeInv(shards, p, n) && n in p.counts
    requires Choice(nodes, p, hi, lo)
    ensures forall n :: n in nodes ==> NodeInv(shards, Relocated(p, hi, lo), n)
  {
    forall n | n in nodes ensures NodeInv(shards, Relocated(p, hi, lo), n) {
      if n == hi { SourceStep(shards, p, hi, lo); } else { OtherStep(shards, p, hi, lo, n); }
    }
  }

  lemma StepKeepsFrozenLow(nodes: set<string>, p: Plan, hi: string, lo: string)
    requires (forall n :: n in nodes ==> n in p.counts) && hi in p.available
    requires FrozenLow(nodes, p.counts, p.frozen) && Choice(nodes, p, hi, lo)
    ensures FrozenLow(nodes, Relocated(p, hi, lo).counts, Relocated(p, hi, lo).frozen)
  {}

  lemma StepKeepsNoReturn(shards: seq<Shard>, p: Plan, hi: string, lo: string)
    requires NodeInv(shards, p, hi) && NoReturn(p.moves) && p.available[hi] != [] && hi !in p.frozen
    ensures NoReturn(p.moves + [Relocation(p, hi, lo)])
  {
    forall i | 0 <= i < |p.moves| ensures p.moves[i].to != hi { ReceiverArrives(p.moves, i); }
  }

  lemma StepKeepsInv(nodes: set<string>, shards: seq<Shard>, p: Plan, hi: string, lo: string)
    requires PlanInv(nodes, shards, p) && (forall n :: n in nodes ==> n in p.counts) && Choice(nodes, p, hi, lo)
    ensures PlanInv(nodes, shards, Relocated(p, hi, lo))
  {
    StepKeepsNodes(nodes, shards, p, hi, lo);
    StepKeepsFrozenLow(nodes, p, hi, lo);
    StepKeepsNoReturn(shards, p, hi, lo);
    forall n | n in nodes
      ensures p.counts[n] == Projected(shards, p.moves, n)
      ensures Arriving(p.moves, n) == 0 ==> p.counts[n] <= p.counts[hi]
    {
      assert NodeInv(shards, p, n);
    }
    assert NodeInv(shards, p, hi);
    assert Relocated(p, hi, lo).moves[..|p.moves|] == p.moves;
  }

  /** The started shards grouped by data node. */
  method GroupByNode(dataNodes: seq<string>, shards: seq<Shard>) returns (available: map<string, seq<Shard>>)
    ensures available.Keys == set n | n in dataNodes
    ensures forall n :: n in dataNodes ==> available[n] == On(shards, n)
  {
    available := map n | n in dataNodes :: [];
    for i := 0 to |shards|
      invariant available.Keys == set n | n in dataNodes
      invariant forall n :: n in dataNodes ==> available[n] == On(shards[..i], n)
    {
      assert shards[..i + 1][..i] == shards[..i];
      var s := shards[i];
      if s.state == "STARTED" && s.node in dataNodes { available := available[s.node := available[s.node] + [s]]; }
    }
    assert shards[..|shards|] == shards;
  }

  /** Nodes that never received end at the minimum, the others at most one above it. */
  ghost predicate Even(nodes: set<string>, shards: seq<Shard>, moves: seq<Move>) {
    forall a, b :: a in nodes && b in nodes ==>
      Projected(shards, moves, a) <= Projected(shards, moves, b) + (if Arriving(moves, a) > 0 then 1 else 0)
  }

  /** One turn of the loop: pick a source and a target, or find that the counts are even. */
  method PlanMove(dataNodes: seq<string>, ghost nodes: set<string>, ghost shards: seq<Shard>, p: Plan)
    returns (go: bool, p': Plan)
    requires dataNodes != [] && nodes == (set n | n in dataNodes) && PlanInv(nodes, shards, p)
    ensures if go then PlanInv(nodes, shards, p') && |p'.moves| == |p.moves| + 1
            else p' == p && Even(nodes, shards, p.moves)
    ensures InOrder(dataNodes, shards, p.moves) ==> InOrder(dataNodes, shards, p'.moves)
  {
    assert forall n :: n in dataNodes ==> n in nodes && NodeInv(shards, p, n);
    p' := p;
    var found, hi := PickSource(dataNodes, p.available, p.frozen, p.counts);
    if !found {
      StuckIsEven(nodes, shards, p);
      return false, p;
    }
    var lo := PickTarget(dataNodes, p.counts);
    if p.counts[hi] <= p.counts[lo] {
      LevelIsEven(nodes, shards, p, lo);
      return false, p;
    }
    StepKeepsInv(nodes, shards, p, hi, lo);
    PickedFirst(dataNodes, nodes, shards, p, hi, lo);
    InOrderSnoc(dataNodes, shards, p.moves, Relocation(p, hi, lo));
    return true, Relocated(p, hi, lo);
  }

  lemma InOrderSnoc(order: seq<string>, shards: seq<Shard>, moves: seq<Move>, m: Move)
    requires FirstListed(order, shards, moves, m)
    ensures InOrder(order, shards, moves) ==> InOrder(order, shards, moves + [m])
  {
    assert (moves + [m])[..|moves|] == moves;
  }

  lemma PickedFirst(order: seq<string>, nodes: set<string>, shards: seq<Shard>, p: Plan, hi: string, lo: string)
    requires nodes == (set n | n in order) && PlanInv(nodes, shards, p)
    requires (forall n :: n in nodes ==> n in p.counts) && Choice(nodes, p, hi, lo)
    requires forall k :: 0 <= k < IndexIn(order, hi) && Source(p.available, p.frozen, order[k]) ==>
               p.counts[order[k]] < p.counts[hi]
    requires forall k :: 0 <= k < IndexIn(order, lo) ==> p.counts[lo] < p.counts[order[k]]
    ensures FirstListed(order, shards, p.moves, Relocation(p, hi, lo))
  {
    assert NodeInv(shards, p, hi) && NodeInv(shards, p, lo);
    forall k | 0 <= k < |order| ensures NodeInv(shards, p, order[k]) { assert order[k] in nodes; }
  }

  /** The plan. When it stops short of the allowed number of moves, the projected counts of all data
      nodes differ by at most one, and only nodes that received are above the minimum. */
  method SuggestMoves(dataNodes: seq<string>, shards: seq<Shard>, maxMoves: int) returns (moves: seq<Move>)
    ensures |moves| <= maxMoves || moves == []
    ensures |moves| < maxMoves ==> Even((set n | n in dataNodes), shards, moves)
    ensures Downhill((set n | n in dataNodes), shards, moves) && InOrder(dataNodes, shards, moves)
    ensures forall n :: n in dataNodes ==> TakesOwnShards(shards, moves, n)
    ensures NoReturn(moves)
  {
    if |dataNodes| < 2 { return []; }
    ghost var nodes := set n | n in dataNodes;
    var available := GroupByNode(dataNodes, shards);
    var p := Plan(available, map n | n in available :: |available[n]|, {}, []);
    InitialPlan(nodes, shards, available, p.counts);
    var go := true;
    while go && |p.moves| < maxMoves
      invariant |p.moves| <= maxMoves || p.moves == []
      invariant PlanInv(nodes, shards, p) && InOrder(dataNodes, shards, p.moves)
      invariant !go ==> Even(nodes, shards, p.moves)
      decreases go, maxMoves - |p.moves|
    {
      go, p := PlanMove(dataNodes, nodes, shards, p);
    }
    PlanTakesOwn(nodes, shards, p);
    moves := p.moves;
  }

  lemma InitialPlan(nodes: set<string>, shards: seq<Shard>, available: map<string, seq<Shard>>, counts: Counts)
    requires forall n :: n in nodes ==>
               n in available && n in counts && available[n] == On(shards, n) && counts[n] == |available[n]|
    ensures PlanInv(nodes, shards, Plan(available, counts, {}, []))
  {}

  lemma PlanTakesOwn(nodes: set<string>, shards: seq<Shard>, p: Plan)
    requires PlanInv(nodes, shards, p)
    ensures forall n :: n in nodes ==> TakesOwnShards(shards, p.moves, n)
  {
    forall n | n in nodes ensures TakesOwnShards(shards, p.moves, n) { assert NodeInv(shards, p, n); }
  }

  /** No source left: every node has received, or has nothing at all. */
  lemma StuckIsEven(nodes: set<string>, shards: seq<Shard>, p: Plan)
    requires PlanInv(nodes, shards, p) && forall n :: n in nodes ==> !Source(p.available, p.frozen, n)
    ensures Even(nodes, shards, p.moves)
  {
    forall a, b | a in nodes && b in nodes
      ensures Projected(shards, p.moves, a)
              <= Projected(shards, p.moves, b) + (if Arriving(p.moves, a) > 0 then 1 else 0)
    {
      assert NodeInv(shards, p, a) && NodeInv(shards, p, b);
    }
  }

  /** The heaviest source is no heavier than the lightest node. */
  lemma LevelIsEven(nodes: set<string>, shards: seq<Shard>, p: Plan, lo: string)
    requires PlanInv(nodes, shards, p) && lo in nodes
    requires forall n :: n in nodes ==>
               p.counts[lo] <= p.counts[n] && (Source(p.available, p.frozen, n) ==> p.counts[n] <= p.counts[lo])
    ensures Even(nodes, shards, p.moves)
  {
    forall a, b | a in nodes && b in nodes
      ensures Projected(shards, p.moves, a)
              <= Projected(shards, p.moves, b) + (if Arriving(p.moves, a) > 0 then 1 else 0)
    {
      assert NodeInv(shards, p, a) && NodeInv(shards, p, b);
    }
  }

  // ---------------------------------------------------------------- when the loop goes on

  /** The test at the head of a turn: an eligible source is heavier than some node. */
  ghost predicate GoesOn(nodes: set<string>, p: Plan)
    requires forall n :: n in nodes ==> n in p.counts
  {
    exists n, other :: n in nodes && other in nodes && Source(p.available, p.frozen, n) && p.counts[n] > p.counts[other]
  }

  /** What the bookkeeping says about a node: its count, and that it may give unless it has received or has
      nothing. */
  lemma NodeFacts(nodes: set<string>, shards: seq<Shard>, p: Plan, n: string)
    requires PlanInv(nodes, shards, p) && n in nodes
    ensures n in p.counts && p.counts[n] == Projected(shards, p.moves, n)
    ensures Source(p.available, p.frozen, n) <==> Arriving(p.moves, n) == 0 && p.counts[n] > 0
  {
    assert NodeInv(shards, p, n);
  }

  lemma ReceiversLow(nodes: set<string>, shards: seq<Shard>, p: Plan, a: string, b: string)
    requires PlanInv(nodes, shards, p) && a in nodes && b in nodes && Arriving(p.moves, a) > 0
    ensures Projected(shards, p.moves, a) <= Projected(shards, p.moves, b) + 1
  {
    assert NodeInv(shards, p, a) && NodeInv(shards, p, b);
  }

  lemma HeavySourceIsUneven(nodes: set<string>, shards: seq<Shard>, p: Plan, n: string, other: string)
    requires PlanInv(nodes, shards, p) && n in nodes && other in nodes && n in p.counts && other in p.counts
    requires Source(p.available, p.frozen, n) && p.counts[n] > p.counts[other]
    ensures Arriving(p.moves, n) == 0 && Projected(shards, p.moves, n) > Projected(shards, p.moves, other)
  {
    NodeFacts(nodes, shards, p, n);
    NodeFacts(nodes, shards, p, other);
  }

  lemma UnevenHasSource(nodes: set<string>, shards: seq<Shard>, p: Plan, a: string, b: string)
    requires PlanInv(nodes, shards, p) && a in nodes && b in nodes
    requires Projected(shards, p.moves, a)
             > Projected(shards, p.moves, b) + (if Arriving(p.moves, a) > 0 then 1 else 0)
    ensures a in p.counts && b in p.counts && Source(p.available, p.frozen, a) && p.counts[a] > p.counts[b]
  {
    NodeFacts(nodes, shards, p, a);
    NodeFacts(nodes, shards, p, b);
    if Arriving(p.moves, a) > 0 { ReceiversLow(nodes, shards, p, a, b); }
  }

  /** In every state of the loop it goes on exactly while the counts are not even. */
  lemma GoesOnIff(nodes: set<string>, shards: seq<Shard>, p: Plan)
    requires PlanInv(nodes, shards, p) && forall n :: n in nodes ==> n in p.counts
    ensures GoesOn(nodes, p) <==> !Even(nodes, shards, p.moves)
  {
    if n, other :| n in nodes && other in nodes && Source(p.available, p.frozen, n) && p.counts[n] > p.counts[other] {
      HeavySourceIsUneven(nodes, shards, p, n, other);
    } else {
      forall a, b | a in nodes && b in nodes
        ensures Projected(shards, p.moves, a)
                <= Projected(shards, p.moves, b) + (if Arriving(p.moves, a) > 0 then 1 else 0)
      {
        if Projected(shards, p.moves, a)
           > Projected(shards, p.moves, b) + (if Arriving(p.moves, a) > 0 then 1 else 0) {
          UnevenHasSource(nodes, shards, p, a, b);
        }
      }
    }
  }

  /** All projected counts lie at `low` or one above it, and both occur. */
  ghost predicate GapOne(nodes: set<string>, shards: seq<Shard>, moves: seq<Move>, low: int) {
    && (forall n :: n in nodes ==> low <= Projected(shards, moves, n) <= low + 1)
    && (exists n :: n in nodes && Projected(shards, moves, n) == low)
    && (exists n :: n in nodes && Projected(shards, moves, n) == low + 1)
  }

  /** A gap of one is not the end: the loop goes on exactly when some node above the minimum has never
      received. */
  lemma GapOneGoesOnIff(nodes: set<string>, shards: seq<Shard>, p: Plan, low: int)
    requires PlanInv(nodes, shards, p) && (forall n :: n in nodes ==> n in p.counts)
    requires GapOne(nodes, shards, p.moves, low)
    ensures GoesOn(nodes, p) <==>
              exists n :: n in nodes && Arriving(p.moves, n) == 0 && Projected(shards, p.moves, n) == low + 1
  {
    GoesOnIff(nodes, shards, p);
    var least :| least in nodes && Projected(shards, p.moves, least) == low;
  }

  // ---------------------------------------------------------------- what every downhill plan keeps

  function TotalOf(ns: seq<string>, shards: seq<Shard>, moves: seq<Move>): int {
    if ns == [] then 0 else TotalOf(ns[..|ns| - 1], shards, moves) + Projected(shards, moves, ns[|ns| - 1])
  }

  function Square(c: int): int { c * c }

  function SquaresOf(ns: seq<string>, shards: seq<Shard>, moves: seq<Move>): int {
    if ns == [] then 0
    else SquaresOf(ns[..|ns| - 1], shards, moves) + Square(Projected(shards, moves, ns[|ns| - 1]))
  }

  function One(b: bool): int { if b then 1 else 0 }

  lemma InSnoc(ns: seq<string>, n: string)
    requires ns != [] && Distinct(ns)
    ensures n in ns <==> n in ns[..|ns| - 1] || n == ns[|ns| - 1]
    ensures n == ns[|ns| - 1] ==> n !in ns[..|ns| - 1]
  {}

  /** What one move does to the total over a duplicate-free list of nodes. */
  lemma {:induction false} MoveTotal(ns: seq<string>, shards: seq<Shard>, moves: seq<Move>, m: Move)
    requires Distinct(ns)
    ensures TotalOf(ns, shards, moves + [m]) == TotalOf(ns, shards, moves) - One(m.from in ns) + One(m.to in ns)
  {
    if ns != [] {
      MoveTotal(ns[..|ns| - 1], shards, moves, m);
      MoveSnoc(shards, moves, m, ns[|ns| - 1]);
      InSnoc(ns, m.from);
      InSnoc(ns, m.to);
    }
  }

  lemma SquareMoves(c: int, gives: bool, takes: bool)
    requires !(gives && takes)
    ensures Square(c - One(gives) + One(takes))
            == Square(c) + (if gives then 1 - 2 * c else 0) + (if takes then 1 + 2 * c else 0)
  {}

  /** What one move does to the sum of squares. */
  lemma {:induction false} MoveSquares(ns: seq<string>, shards: seq<Shard>, moves: seq<Move>, m: Move)
    requires Distinct(ns) && m.from != m.to
    ensures SquaresOf(ns, shards, moves + [m]) == SquaresOf(ns, shards, moves)
              + (if m.from in ns then 1 - 2 * Projected(shards, moves, m.from) else 0)
              + (if m.to in ns then 1 + 2 * Projected(shards, moves, m.to) else 0)
  {
    if ns != [] {
      MoveSquares(ns[..|ns| - 1], shards, moves, m);
      MoveSnoc(shards, moves, m, ns[|ns| - 1]);
      InSnoc(ns, m.from);
      InSnoc(ns, m.to);
      SquareMoves(Projected(shards, moves, ns[|ns| - 1]), m.from == ns[|ns| - 1], m.to == ns[|ns| - 1]);
    }
  }

  /** The plan conserves the total shard count and never raises the sum of squared counts. */
  lemma {:induction false} PlanTotals(nodes: set<string>, ns: seq<string>, shards: seq<Shard>, moves: seq<Move>)
    requires Distinct(ns) && Downhill(nodes, shards, moves) && forall n :: n in nodes ==> n in ns
    ensures TotalOf(ns, shards, moves) == TotalOf(ns, shards, [])
    ensures SquaresOf(ns, shards, moves) <= SquaresOf(ns, shards, [])
    decreases |moves|
  {
    if moves != [] {
      var k := |moves| - 1;
      var init, m := moves[..k], moves[k];
      PlanTotals(nodes, ns, shards, init);
      assert Projected(shards, init, m.to) < Projected(shards, init, m.from) && m.from in ns && m.to in ns;
      MoveTotal(ns, shards, init, m);
      MoveSquares(ns, shards, init, m);
      assert moves == init + [m];
    }
  }

  /** No count ever leaves the range the plan started from: the max-min spread never widens. */
  lemma {:induction false} SpreadNeverWidens(nodes: set<string>, shards: seq<Shard>, moves: seq<Move>, low: int,
                                             high: int)
    requires Downhill(nodes, shards, moves) && forall n :: n in nodes ==> low <= |On(shards, n)| <= high
    ensures forall n :: n in nodes ==> low <= Projected(shards, moves, n) <= high
    decreases |moves|
  {
    if moves != [] {
      var k := |moves| - 1;
      var init, m := moves[..k], moves[k];
      assert moves == init + [m];
      SpreadNeverWidens(nodes, shards, init, low, high);
      forall n | n in nodes ensures low <= Projected(shards, moves, n) <= high { MoveSnoc(shards, init, m, n); }
    }
  }
}
