/** The promises of the rebalance advisory determine the plan: nothing else would keep them. */
module RebalancePlan {
  import opened Rebalance

  function NodesOf(order: seq<string>): set<string> { set n | n in order }

  /** What is promised of every move of a plan. */
  ghost predicate Promised(order: seq<string>, shards: seq<Shard>, moves: seq<Move>) {
    && Downhill(NodesOf(order), shards, moves) && InOrder(order, shards, moves)
    && forall n :: n in order ==> TakesOwnShards(shards, moves, n)
  }

  /** Everything that is promised of a plan. */
  ghost predicate IsPlan(order: seq<string>, shards: seq<Shard>, maxMoves: int, moves: seq<Move>) {
    && Promised(order, shards, moves) && (|moves| <= maxMoves || moves == [])
    && (|moves| < maxMoves ==> Even(NodesOf(order), shards, moves))
  }

  /** The move takes the last shard that its source has left. */
  predicate TakesLast(shards: seq<Shard>, before: seq<Move>, m: Move) {
    var own, taken := On(shards, m.from), |Leaving(before, m.from)|;
    taken < |own| && Matches(m, own[|own| - 1 - taken])
  }

  ghost predicate Next(order: seq<string>, shards: seq<Shard>, before: seq<Move>, m: Move) {
    && DownhillMove(NodesOf(order), shards, before, m) && FirstListed(order, shards, before, m)
    && TakesLast(shards, before, m)
  }

  ghost function Steps(order: seq<string>, shards: seq<Shard>): iset<(seq<Move>, Move)> {
    iset before: seq<Move>, m: Move | Next(order, shards, before, m) :: (before, m)
  }

  /** A sequence built move by move. */
  ghost predicate Built(steps: iset<(seq<Move>, Move)>, moves: seq<Move>) {
    moves == [] || (var init := moves[..|moves| - 1]; Built(steps, init) && (init, moves[|moves| - 1]) in steps)
  }

  ghost predicate Deterministic(steps: iset<(seq<Move>, Move)>) {
    forall before, x, y :: (before, x) in steps && (before, y) in steps ==> x == y
  }

  lemma {:induction false} SameLengthSameMoves(steps: iset<(seq<Move>, Move)>, a: seq<Move>, b: seq<Move>)
    requires Deterministic(steps) && |a| == |b| && Built(steps, a) && Built(steps, b)
    ensures a == b
  {
    if a != [] { SameLengthSameMoves(steps, a[..|a| - 1], b[..|b| - 1]); }
  }

  lemma {:induction false} NothingLonger(steps: iset<(seq<Move>, Move)>, a: seq<Move>, b: seq<Move>)
    requires Deterministic(steps) && Built(steps, a) && Built(steps, b) && forall m :: (a, m) !in steps
    ensures |b| <= |a|
  {
    if |b| > |a| + 1 {
      NothingLonger(steps, a, b[..|b| - 1]);
    } else if |b| > |a| {
      SameLengthSameMoves(steps, a, b[..|b| - 1]);
    }
  }

  lemma NewestMatches(own: seq<Shard>, leaving: seq<Move>, m: Move)
    requires FromTheEnd(own, leaving + [m])
    ensures |leaving| < |own| && Matches(m, own[|own| - 1 - |leaving|]) && FromTheEnd(own, leaving)
  {
    assert (leaving + [m])[|leaving|] == m;
    assert forall i :: 0 <= i < |leaving| ==> (leaving + [m])[i] == leaving[i];
  }

  lemma LastTaken(shards: seq<Shard>, before: seq<Move>, m: Move)
    requires TakesOwnShards(shards, before + [m], m.from)
    ensures TakesLast(shards, before, m)
  {
    MoveSnoc(shards, before, m, m.from);
    NewestMatches(On(shards, m.from), Leaving(before, m.from), m);
  }

  lemma TakenBefore(shards: seq<Shard>, before: seq<Move>, m: Move, n: string)
    requires TakesOwnShards(shards, before + [m], n)
    ensures TakesOwnShards(shards, before, n)
  {
    MoveSnoc(shards, before, m, n);
    if m.from == n { NewestMatches(On(shards, n), Leaving(before, n), m); }
  }

  lemma PromisedStep(order: seq<string>, shards: seq<Shard>, before: seq<Move>, m: Move)
    requires Promised(order, shards, before + [m])
    ensures Promised(order, shards, before) && Next(order, shards, before, m)
  {
    assert (before + [m])[..|before|] == before;
    forall n | n in order ensures TakesOwnShards(shards, before, n) { TakenBefore(shards, before, m, n); }
    LastTaken(shards, before, m);
  }

  lemma {:induction false} PromisedIsBuilt(order: seq<string>, shards: seq<Shard>, moves: seq<Move>)
    requires Promised(order, shards, moves)
    ensures Built(Steps(order, shards), moves)
  {
    if moves != [] {
      var init, last := moves[..|moves| - 1], moves[|moves| - 1];
      assert init + [last] == moves;
      PromisedStep(order, shards, init, last);
      PromisedIsBuilt(order, shards, init);
    }
  }

  /** Two moves that may come next are the same. */
  lemma SameNext(order: seq<string>, shards: seq<Shard>, before: seq<Move>, a: Move, b: Move)
    requires Next(order, shards, before, a) && Next(order, shards, before, b)
    ensures a == b
  {
    SameSource(order, shards, before, a, b);
    SameTarget(order, shards, before, a, b);
  }

  lemma SameSource(order: seq<string>, shards: seq<Shard>, before: seq<Move>, a: Move, b: Move)
    requires DownhillMove(NodesOf(order), shards, before, a) && FirstListed(order, shards, before, a)
    requires DownhillMove(NodesOf(order), shards, before, b) && FirstListed(order, shards, before, b)
    ensures a.from == b.from
  {
    var i, j := IndexIn(order, a.from), IndexIn(order, b.from);
    assert order[i] == a.from && order[j] == b.from;
  }

  lemma SameTarget(order: seq<string>, shards: seq<Shard>, before: seq<Move>, a: Move, b: Move)
    requires DownhillMove(NodesOf(order), shards, before, a) && FirstListed(order, shards, before, a)
    requires DownhillMove(NodesOf(order), shards, before, b) && FirstListed(order, shards, before, b)
    ensures a.to == b.to
  {
    var k, l := IndexIn(order, a.to), IndexIn(order, b.to);
    assert order[k] == a.to && order[l] == b.to;
  }

  lemma StepsDeterministic(order: seq<string>, shards: seq<Shard>)
    ensures Deterministic(Steps(order, shards))
  {
    var steps := Steps(order, shards);
    forall before, x, y | (before, x) in steps && (before, y) in steps ensures x == y {
      SameNext(order, shards, before, x, y);
    }
  }

  /** From even counts no move goes on. */
  lemma EvenEnds(order: seq<string>, shards: seq<Shard>, moves: seq<Move>, m: Move)
    requires Even(NodesOf(order), shards, moves)
    ensures !Next(order, shards, moves, m)
  {
  }

  lemma PlanNotShorter(order: seq<string>, shards: seq<Shard>, maxMoves: int, a: seq<Move>, b: seq<Move>)
    requires IsPlan(order, shards, maxMoves, a) && IsPlan(order, shards, maxMoves, b)
    ensures |a| >= |b|
  {
    if |a| < |b| {
      forall m ensures (a, m) !in Steps(order, shards) { EvenEnds(order, shards, a, m); }
      StepsDeterministic(order, shards);
      PromisedIsBuilt(order, shards, a);
      PromisedIsBuilt(order, shards, b);
      NothingLonger(Steps(order, shards), a, b);
    }
  }

  /** There is only one plan that keeps every promise, so the promises say all there is to say. */
  lemma PlanIsDetermined(order: seq<string>, shards: seq<Shard>, maxMoves: int, a: seq<Move>, b: seq<Move>)
    requires IsPlan(order, shards, maxMoves, a) && IsPlan(order, shards, maxMoves, b)
    ensures a == b
  {
    PlanNotShorter(order, shards, maxMoves, a, b);
    PlanNotShorter(order, shards, maxMoves, b, a);
    StepsDeterministic(order, shards);
    PromisedIsBuilt(order, shards, a);
    PromisedIsBuilt(order, shards, b);
    SameLengthSameMoves(Steps(order, shards), a, b);
  }

  /** Two nodes with one shard and none: the gap is one, and every plan moves the shard. */
  lemma GapOneMoves(s: Shard, a: string, b: string, maxMoves: int, moves: seq<Move>)
    requires a != b && s.state == "STARTED" && s.node == a && maxMoves >= 1
    requires IsPlan([a, b], [s], maxMoves, moves)
    ensures Projected([s], [], a) == 1 && Projected([s], [], b) == 0
    ensures moves != [] && moves[0].from == a && moves[0].to == b
  {
    assert [s][..0] == [];
    assert On([], a) == [] && On([], b) == [];
    assert a in NodesOf([a, b]) && b in NodesOf([a, b]);
    assert moves != [];
    FirstMove([a, b], [s], moves);
  }

  lemma {:induction false} FirstMove(order: seq<string>, shards: seq<Shard>, moves: seq<Move>)
    requires moves != [] && Downhill(NodesOf(order), shards, moves)
    ensures DownhillMove(NodesOf(order), shards, [], moves[0])
  {
    if |moves| > 1 { FirstMove(order, shards, moves[..|moves| - 1]); } else { assert moves[..0] == []; }
  }

  // ---------------------------------------------------------------- the plan and the shard table

  /** The rows of the table that are started on a node. */
  ghost function StartedRows(shards: seq<Shard>, n: string): set<nat> {
    set k: nat | k < |shards| && shards[k].state == "STARTED" && shards[k].node == n
  }

  /** A node's list has as many entries as the node has started rows, and each of them is one. */
  lemma {:induction false} OnIsStartedRows(shards: seq<Shard>, n: string)
    ensures |On(shards, n)| == |StartedRows(shards, n)|
    ensures forall i :: 0 <= i < |On(shards, n)| ==>
              exists k: nat :: k in StartedRows(shards, n) && shards[k] == On(shards, n)[i]
  {
    if shards != [] {
      var init, last := shards[..|shards| - 1], |shards| - 1;
      OnIsStartedRows(init, n);
      if shards[last].state == "STARTED" && shards[last].node == n {
        assert StartedRows(shards, n) == StartedRows(init, n) + {last};
      } else {
        assert StartedRows(shards, n) == StartedRows(init, n);
      }
      forall i | 0 <= i < |On(shards, n)|
        ensures exists k: nat :: k in StartedRows(shards, n) && shards[k] == On(shards, n)[i]
      {
        if i < |On(init, n)| {
          var k: nat :| k in StartedRows(init, n) && init[k] == On(init, n)[i];
          assert k in StartedRows(shards, n) && shards[k] == On(shards, n)[i];
        } else {
          assert last in StartedRows(shards, n);
        }
      }
    }
  }

  lemma {:induction false} MoveLeaves(moves: seq<Move>, i: nat)
    requires i < |moves|
    ensures moves[i] in Leaving(moves, moves[i].from)
  {
    if i < |moves| - 1 { MoveLeaves(moves[..|moves| - 1], i); }
  }

  /** Every move of a promised plan relocates a row of the table that is started on the move's source,
      with that row's index, shard number and size, to another node. */
  lemma MovesAreRows(order: seq<string>, shards: seq<Shard>, moves: seq<Move>, i: nat)
    requires Promised(order, shards, moves) && i < |moves| && moves[i].from in order
    ensures exists k: nat :: && k < |shards| && shards[k].state == "STARTED" && shards[k].node == moves[i].from
                             && shards[k].index == moves[i].index && shards[k].shard == moves[i].shard
                             && shards[k].store == moves[i].size
  {
    var n := moves[i].from;
    MoveLeaves(moves, i);
    var j :| 0 <= j < |Leaving(moves, n)| && Leaving(moves, n)[j] == moves[i];
    assert FromTheEnd(On(shards, n), Leaving(moves, n));
    var own := |On(shards, n)| - 1 - j;
    assert Matches(moves[i], On(shards, n)[own]);
    OnIsStartedRows(shards, n);
    var k: nat :| k in StartedRows(shards, n) && shards[k] == On(shards, n)[own];
  }
}
