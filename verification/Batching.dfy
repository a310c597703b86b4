/** `execute_all` puts at most one job per index in flight, and as many as that allows. */
module Batching {
  import opened JobTable

  predicate OnePerIndex(t: Table, cluster: nat) {
    forall i, j :: (i in t && j in t && t[i].cluster == cluster && t[j].cluster == cluster
                    && InFlight(t[i].status) && InFlight(t[j].status) && t[i].index == t[j].index) ==> i == j
  }

  /** The batch queues approved rows only, changes nothing else, and its bookkeeping set of busy
      indexes is what one would read off the resulting table. */
  lemma {:induction false} BatchFacts(t: Table, cluster: nat, n: nat)
    ensures var b := EnqueueBelow(t, cluster, n);
            && b.table.Keys == t.Keys
            && (forall id :: id in b.ids ==>
                  id < n && Runnable(t, cluster, id) && b.table[id] == t[id].(status := Queued))
            && (forall id :: id in t && id !in b.ids ==> b.table[id] == t[id])
            && b.busy == BusyIndexes(b.table, cluster)
  {
    if n > 0 {
      BatchFacts(t, cluster, n - 1);
      var before := EnqueueBelow(t, cluster, n - 1);
      var after := EnqueueBelow(t, cluster, n);
      if n - 1 in after.ids {
        NewlyBusy(before.table, cluster, n - 1);
      }
    }
  }

  lemma NewlyBusy(t: Table, cluster: nat, id: nat)
    requires Runnable(t, cluster, id)
    ensures BusyIndexes(t[id := t[id].(status := Queued)], cluster) == BusyIndexes(t, cluster) + {t[id].index}
  {
    var t' := t[id := t[id].(status := Queued)];
    forall x | x in BusyIndexes(t, cluster) + {t[id].index} ensures x in BusyIndexes(t', cluster) {
      if x != t[id].index {
        var i :| i in t && t[i].cluster == cluster && InFlight(t[i].status) && t[i].index == x;
        assert t'[i].index == x;
      } else {
        assert t'[id].index == x;
      }
    }
  }

  lemma {:induction false} BatchKeepsOnePerIndex(t: Table, cluster: nat, n: nat)
    requires OnePerIndex(t, cluster)
    ensures OnePerIndex(EnqueueBelow(t, cluster, n).table, cluster)
  {
    if n > 0 {
      BatchKeepsOnePerIndex(t, cluster, n - 1);
      BatchFacts(t, cluster, n - 1);
      var before := EnqueueBelow(t, cluster, n - 1);
      var after := EnqueueBelow(t, cluster, n);
      if n - 1 in after.ids {
        forall i | i in before.table && before.table[i].cluster == cluster && InFlight(before.table[i].status)
          ensures before.table[i].index in before.busy
        {}
      }
    }
  }

  lemma {:induction false} SkippedWereBusy(t: Table, cluster: nat, n: nat)
    ensures forall id: nat :: id < n && Runnable(t, cluster, id) ==>
              id in EnqueueBelow(t, cluster, n).ids || t[id].index in EnqueueBelow(t, cluster, n).busy
  {
    if n > 0 { SkippedWereBusy(t, cluster, n - 1); }
  }

  /** One job per index stays one job per index, and the batch is maximal: an approved job that is
      left behind has an index that some in-flight row occupies afterwards. */
  lemma ExecuteAllExclusiveAndMaximal(t: Table, cluster: nat, n: nat)
    requires Below(t, n)
    ensures var after := EnqueueBelow(t, cluster, n).table;
            && (OnePerIndex(t, cluster) ==> OnePerIndex(after, cluster))
            && (forall id :: id in after && after[id].cluster == cluster && after[id].status.Approved? ==>
                  exists other :: other in after && other != id && after[other].cluster == cluster
                                  && InFlight(after[other].status) && after[other].index == after[id].index)
  {
    BatchFacts(t, cluster, n);
    SkippedWereBusy(t, cluster, n);
    if OnePerIndex(t, cluster) { BatchKeepsOnePerIndex(t, cluster, n); }
    var b := EnqueueBelow(t, cluster, n);
    forall id | id in b.table && b.table[id].cluster == cluster && b.table[id].status.Approved?
      ensures exists other :: other in b.table && other != id && b.table[other].cluster == cluster
                              && InFlight(b.table[other].status) && b.table[other].index == b.table[id].index
    {
      assert Runnable(t, cluster, id);
      assert b.table[id].index in BusyIndexes(b.table, cluster);
    }
  }

  /** A single `execute` has no such gate: two approved jobs of one index can both be queued. */
  lemma SingleExecuteIsUngated(i: nat, j: nat, a: Job, b: Job)
    requires i != j && a.index == b.index && a.cluster == b.cluster && a.status.Approved? && b.status.Approved?
    ensures var t: Table := map[i := a, j := b];
            && OnePerIndex(t, a.cluster)
            && !OnePerIndex(Move(Move(t, i, Approved, Queued), j, Approved, Queued), a.cluster)
  {
    var t: Table := map[i := a, j := b];
    var t' := Move(Move(t, i, Approved, Queued), j, Approved, Queued);
    assert t'[i].status.Queued? && t'[j].status.Queued?;
  }
}
