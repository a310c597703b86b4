/** The loops of the recommend route, proved to leave the table that `Reconcile` describes. */
module RecommendRoute {
  import opened Options
  import opened JobTable
  import opened Reconciliation

  /** The suggestions as a dictionary in insertion order. */
  method IndexSuggestions(cluster: nat, ss: seq<Suggestion>)
    returns (order: seq<Fingerprint>, latest: map<Fingerprint, Suggestion>)
    ensures order == Order(cluster, ss) && latest == Latest(cluster, ss)
  {
    order, latest := [], map[];
    for i := 0 to |ss|
      invariant order == Order(cluster, ss[..i]) && latest == Latest(cluster, ss[..i])
    {
      assert ss[..i + 1][..i] == ss[..i];
      OrderIsKeys(cluster, ss[..i]);
      var fp := FingerprintOf(cluster, ss[i]);
      if fp !in latest { order := order + [fp]; }
      latest := latest[fp := ss[i]];
    }
    assert ss[..|ss|] == ss;
  }

  /** The pending dictionary once the rows below `n` are in it: each key has its last row. */
  ghost predicate Dictionary(t: Table, n: nat, cluster: nat, scope: set<JobType>, existing: map<Fingerprint, nat>) {
    && (forall fp :: fp in existing ==>
          && existing[fp] < n && existing[fp] in t
          && InScope(t[existing[fp]], cluster, scope) && t[existing[fp]].fingerprint == Some(fp))
    && (forall id :: id in t && id < n && InScope(t[id], cluster, scope) && t[id].fingerprint.Some? ==>
          t[id].fingerprint.value in existing && id <= existing[t[id].fingerprint.value])
  }

  /** Pending rows by fingerprint; a later row of the same key shadows an earlier one. */
  method SelectPending(t: Table, nextId: nat, cluster: nat, scope: set<JobType>)
    returns (existing: map<Fingerprint, nat>)
    requires Below(t, nextId)
    ensures existing.Keys == PendingFps(t, cluster, scope)
    ensures forall fp :: fp in existing ==>
              Represents(t, cluster, scope, existing[fp]) && t[existing[fp]].fingerprint == Some(fp)
  {
    existing := map[];
    for id := 0 to nextId
      invariant Dictionary(t, id, cluster, scope, existing)
    {
      if id in t && InScope(t[id], cluster, scope) && t[id].fingerprint.Some? {
        existing := existing[t[id].fingerprint.value := id];
      }
    }
    WholeDictionary(t, nextId, cluster, scope, existing);
  }

  lemma WholeDictionary(t: Table, nextId: nat, cluster: nat, scope: set<JobType>, existing: map<Fingerprint, nat>)
    requires Below(t, nextId) && Dictionary(t, nextId, cluster, scope, existing)
    ensures existing.Keys == PendingFps(t, cluster, scope)
    ensures forall fp :: fp in existing ==>
              Represents(t, cluster, scope, existing[fp]) && t[existing[fp]].fingerprint == Some(fp)
  {
    forall fp | fp in PendingFps(t, cluster, scope) ensures fp in existing {
      var id :| id in t && InScope(t[id], cluster, scope) && t[id].fingerprint == Some(fp);
    }
    forall fp | fp in existing ensures fp in PendingFps(t, cluster, scope) {
      var id := existing[fp];
      assert id in t && InScope(t[id], cluster, scope) && t[id].fingerprint == Some(fp);
    }
  }

  /** The fingerprints the operator already acted on. */
  method SelectActive(t: Table, nextId: nat, cluster: nat, scope: set<JobType>) returns (active: set<Fingerprint>)
    requires Below(t, nextId)
    ensures active == ActiveFps(t, cluster, scope)
  {
    active := {};
    for id := 0 to nextId
      invariant active == ActiveFps(Prefix(t, id), cluster, scope)
    {
      PrefixActive(t, id, cluster, scope);
      if && id in t && t[id].cluster == cluster && Active(t[id].status)
         && t[id].jobType in scope && t[id].fingerprint.Some?
      {
        active := active + {t[id].fingerprint.value};
      }
    }
    assert Prefix(t, nextId) == t;
  }

  function Prefix(t: Table, n: nat): Table { map id | id in t && id < n :: t[id] }

  lemma PrefixActive(t: Table, n: nat, cluster: nat, scope: set<JobType>)
    ensures ActiveFps(Prefix(t, n + 1), cluster, scope) == ActiveFps(Prefix(t, n), cluster, scope) +
              (if && n in t && t[n].cluster == cluster && Active(t[n].status)
                  && t[n].jobType in scope && t[n].fingerprint.Some?
               then {t[n].fingerprint.value} else {})
  {
    var small, big := Prefix(t, n), Prefix(t, n + 1);
    forall fp | fp in ActiveFps(small, cluster, scope) ensures fp in ActiveFps(big, cluster, scope) {
      var id :| && id in small && small[id].cluster == cluster && Active(small[id].status)
                && small[id].jobType in scope && small[id].fingerprint == Some(fp);
      assert id in big && big[id] == small[id];
    }
    if n in t { assert n in big && big[n] == t[n]; }
  }

  /** Delete pending rows whose suggestion is no longer produced. */
  method DeleteResolved(t: Table, nextId: nat, cluster: nat, scope: set<JobType>, latest: map<Fingerprint, Suggestion>)
    returns (t': Table)
    requires Below(t, nextId)
    ensures forall id :: id in t' <==> id in t && !Resolved(t[id], cluster, scope, latest)
    ensures forall id :: id in t' ==> t'[id] == t[id]
  {
    t' := t;
    for id := 0 to nextId
      invariant forall i :: i in t' <==> i in t && (i < id ==> !Resolved(t[i], cluster, scope, latest))
      invariant forall i :: i in t' ==> t'[i] == t[i]
    {
      if id in t && Resolved(t[id], cluster, scope, latest) { t' := t' - {id}; }
    }
  }

  /** The old rows while the upsert loop has handled the fingerprints of `seen`. */
  ghost predicate Refreshed(t: Table, now: Table, nextId: nat, cluster: nat, scope: set<JobType>,
                            latest: map<Fingerprint, Suggestion>, run: nat, seen: seq<Fingerprint>) {
    forall id :: id < nextId ==>
      && (id in now <==> id in t && !Resolved(t[id], cluster, scope, latest))
      && (id in now ==> now[id] == (if Represents(t, cluster, scope, id) && t[id].fingerprint.value in seen
                                    then t[id].(advice := latest[t[id].fingerprint.value].advice, run := run)
                                    else t[id]))
  }

  ghost predicate Inserted(now: Table, nextId: nat, fps: seq<Fingerprint>, latest: map<Fingerprint, Suggestion>,
                           cluster: nat, run: nat) {
    && Below(now, nextId + |fps|)
    && (forall k :: 0 <= k < |fps| ==> IsNewRow(now, nextId + k, fps[k], latest, cluster, run))
  }

  predicate IsNewRow(now: Table, id: nat, fp: Fingerprint, latest: map<Fingerprint, Suggestion>, cluster: nat, run: nat) {
    id in now && fp in latest && now[id] == NewJob(latest[fp], cluster, run)
  }

  /** One pass of the upsert loop: refresh the match, skip what the operator owns, or insert. */
  method UpsertOne(t: Table, now: Table, firstId: nat, nextId: nat, cluster: nat, scope: set<JobType>,
                   ghost seen: seq<Fingerprint>,
                   fp: Fingerprint, latest: map<Fingerprint, Suggestion>, existing: map<Fingerprint, nat>,
                   active: set<Fingerprint>, run: nat)
    returns (t': Table, nextId': nat)
    requires Below(t, firstId) && fp in latest
    requires Refreshed(t, now, firstId, cluster, scope, latest, run, seen)
    requires Inserted(now, firstId, Missing(seen, existing.Keys, active), latest, cluster, run)
    requires nextId == firstId + |Missing(seen, existing.Keys, active)|
    requires existing.Keys == PendingFps(t, cluster, scope)
    requires forall f :: f in existing ==>
               Represents(t, cluster, scope, existing[f]) && t[existing[f]].fingerprint == Some(f)
    ensures Refreshed(t, t', firstId, cluster, scope, latest, run, seen + [fp])
    ensures Inserted(t', firstId, Missing(seen + [fp], existing.Keys, active), latest, cluster, run)
    ensures nextId' == firstId + |Missing(seen + [fp], existing.Keys, active)|
  {
    MissingGrows(seen, fp, existing.Keys, active);
    if fp in existing {
      var id := existing[fp];
      t', nextId' := now[id := now[id].(advice := latest[fp].advice, run := run)], nextId;
      RefreshOne(t, now, t', firstId, cluster, scope, latest, run, seen, fp, id);
      InsertedElsewhere(now, t', firstId, Missing(seen, existing.Keys, active), latest, cluster, run, id);
    } else {
      NoneToRefresh(t, now, firstId, cluster, scope, latest, run, seen, fp);
      if fp in active { return now, nextId; }
      t', nextId' := now[nextId := NewJob(latest[fp], cluster, run)], nextId + 1;
      InsertOne(now, firstId, Missing(seen, existing.Keys, active), latest, cluster, run, fp);
      RefreshedElsewhere(t, now, t', firstId, cluster, scope, latest, run, seen + [fp]);
    }
  }

  method Upsert(t: Table, deleted: Table, nextId: nat, cluster: nat, scope: set<JobType>, order: seq<Fingerprint>,
                latest: map<Fingerprint, Suggestion>, existing: map<Fingerprint, nat>, active: set<Fingerprint>,
                run: nat)
    returns (t': Table, nextId': nat)
    requires Below(t, nextId) && forall fp :: fp in order ==> fp in latest
    requires Refreshed(t, deleted, nextId, cluster, scope, latest, run, []) && Below(deleted, nextId)
    requires existing.Keys == PendingFps(t, cluster, scope)
    requires forall fp :: fp in existing ==>
               Represents(t, cluster, scope, existing[fp]) && t[existing[fp]].fingerprint == Some(fp)
    ensures Refreshed(t, t', nextId, cluster, scope, latest, run, order)
    ensures Inserted(t', nextId, Missing(order, PendingFps(t, cluster, scope), active), latest, cluster, run)
    ensures nextId' == nextId + |Missing(order, PendingFps(t, cluster, scope), active)|
  {
    t', nextId' := deleted, nextId;
    ghost var pending := existing.Keys;
    for i := 0 to |order|
      invariant Refreshed(t, t', nextId, cluster, scope, latest, run, order[..i])
      invariant Inserted(t', nextId, Missing(order[..i], pending, active), latest, cluster, run)
      invariant nextId' == nextId + |Missing(order[..i], pending, active)|
    {
      assert order[..i + 1] == order[..i] + [order[i]];
      t', nextId' := UpsertOne(t, t', nextId, nextId', cluster, scope, order[..i], order[i], latest, existing, active,
                               run);
    }
    assert order[..|order|] == order;
  }

  lemma MissingGrows(order: seq<Fingerprint>, fp: Fingerprint, pending: set<Fingerprint>, active: set<Fingerprint>)
    ensures Missing(order + [fp], pending, active) ==
            if fp in pending || fp in active then Missing(order, pending, active)
            else Missing(order, pending, active) + [fp]
  {
    assert (order + [fp])[..|order|] == order;
  }

  /** A refreshed row is an old one. */
  lemma InsertedElsewhere(before: Table, after: Table, nextId: nat, fps: seq<Fingerprint>,
                          latest: map<Fingerprint, Suggestion>, cluster: nat, run: nat, id: nat)
    requires Inserted(before, nextId, fps, latest, cluster, run) && id < nextId && id in before
    requires id in after && after == before[id := after[id]]
    ensures Inserted(after, nextId, fps, latest, cluster, run)
  {
    forall k | 0 <= k < |fps| ensures IsNewRow(after, nextId + k, fps[k], latest, cluster, run) {
      assert IsNewRow(before, nextId + k, fps[k], latest, cluster, run);
    }
  }

  /** An inserted row is a new one. */
  lemma RefreshedElsewhere(t: Table, before: Table, after: Table, nextId: nat, cluster: nat, scope: set<JobType>,
                           latest: map<Fingerprint, Suggestion>, run: nat, seen: seq<Fingerprint>)
    requires Refreshed(t, before, nextId, cluster, scope, latest, run, seen)
    requires forall id :: id < nextId ==> (id in after <==> id in before) && (id in after ==> after[id] == before[id])
    ensures Refreshed(t, after, nextId, cluster, scope, latest, run, seen)
  {
  }

  lemma InsertOne(now: Table, nextId: nat, fps: seq<Fingerprint>, latest: map<Fingerprint, Suggestion>, cluster: nat,
                  run: nat, fp: Fingerprint)
    requires Inserted(now, nextId, fps, latest, cluster, run) && fp in latest
    ensures Inserted(now[nextId + |fps| := NewJob(latest[fp], cluster, run)], nextId, fps + [fp], latest, cluster, run)
  {
    var after, more := now[nextId + |fps| := NewJob(latest[fp], cluster, run)], fps + [fp];
    forall k | 0 <= k < |more| ensures IsNewRow(after, nextId + k, more[k], latest, cluster, run) {
      if k < |fps| { assert IsNewRow(now, nextId + k, fps[k], latest, cluster, run); }
    }
  }

  lemma RefreshOne(t: Table, before: Table, after: Table, nextId: nat, cluster: nat, scope: set<JobType>,
                   latest: map<Fingerprint, Suggestion>, run: nat, seen: seq<Fingerprint>, fp: Fingerprint, id: nat)
    requires Below(t, nextId) && Refreshed(t, before, nextId, cluster, scope, latest, run, seen)
    requires Represents(t, cluster, scope, id) && t[id].fingerprint == Some(fp) && fp in latest
    requires id in before && after == before[id := before[id].(advice := latest[fp].advice, run := run)]
    ensures Refreshed(t, after, nextId, cluster, scope, latest, run, seen + [fp])
  {
    forall i | Represents(t, cluster, scope, i) && t[i].fingerprint == Some(fp) ensures i == id {
      assert i in t && id in t;
    }
  }

  lemma NoneToRefresh(t: Table, now: Table, nextId: nat, cluster: nat, scope: set<JobType>,
                      latest: map<Fingerprint, Suggestion>,
                      run: nat, seen: seq<Fingerprint>, fp: Fingerprint)
    requires Refreshed(t, now, nextId, cluster, scope, latest, run, seen) && fp !in PendingFps(t, cluster, scope)
    ensures Refreshed(t, now, nextId, cluster, scope, latest, run, seen + [fp])
  {
    forall id | Represents(t, cluster, scope, id) ensures t[id].fingerprint.value != fp {}
  }

  /** The whole reconciliation, from the SELECTs to the last insert. */
  method ReconcileRows(t: Table, nextId: nat, cluster: nat, scope: set<JobType>, ss: seq<Suggestion>, run: nat)
    returns (t': Table, nextId': nat)
    requires Below(t, nextId)
    ensures t' == Reconcile(t, nextId, cluster, scope, ss, run)
    ensures nextId' == nextId + |ToInsert(t, cluster, scope, ss)|
  {
    var order, latest := IndexSuggestions(cluster, ss);
    OrderIsKeys(cluster, ss);
    var existing := SelectPending(t, nextId, cluster, scope);
    var active := SelectActive(t, nextId, cluster, scope);
    var deleted := DeleteResolved(t, nextId, cluster, scope, latest);
    t', nextId' := Upsert(t, deleted, nextId, cluster, scope, order, latest, existing, active, run);
    ReconcileFacts(t, nextId, cluster, scope, ss, run);
    SameRows(t, t', nextId, cluster, scope, ss, order, run);
  }

  lemma SameNewRow(t: Table, now: Table, nextId: nat, cluster: nat, scope: set<JobType>, ss: seq<Suggestion>, run: nat,
                   id: nat)
    requires Below(t, nextId) && id >= nextId
    requires Inserted(now, nextId, ToInsert(t, cluster, scope, ss), Latest(cluster, ss), cluster, run)
    ensures var other := Reconcile(t, nextId, cluster, scope, ss, run);
            (id in now <==> id in other) && (id in now ==> now[id] == other[id])
  {
    var fps, latest := ToInsert(t, cluster, scope, ss), Latest(cluster, ss);
    ReconcileFacts(t, nextId, cluster, scope, ss, run);
    if id < nextId + |fps| {
      var k := id - nextId;
      assert IsNewRow(now, nextId + k, fps[k], latest, cluster, run);
    }
  }

  lemma SameOldRow(t: Table, now: Table, nextId: nat, cluster: nat, scope: set<JobType>, ss: seq<Suggestion>,
                   order: seq<Fingerprint>, run: nat, id: nat)
    requires Below(t, nextId) && order == Order(cluster, ss) && id < nextId
    requires Refreshed(t, now, nextId, cluster, scope, Latest(cluster, ss), run, order)
    ensures var other := Reconcile(t, nextId, cluster, scope, ss, run);
            (id in now <==> id in other) && (id in now ==> now[id] == other[id])
  {
    ReconcileFacts(t, nextId, cluster, scope, ss, run);
    OrderIsKeys(cluster, ss);
  }

  lemma SameRows(t: Table, now: Table, nextId: nat, cluster: nat, scope: set<JobType>, ss: seq<Suggestion>,
                 order: seq<Fingerprint>, run: nat)
    requires Below(t, nextId) && order == Order(cluster, ss)
    requires Refreshed(t, now, nextId, cluster, scope, Latest(cluster, ss), run, order)
    requires Inserted(now, nextId, ToInsert(t, cluster, scope, ss), Latest(cluster, ss), cluster, run)
    ensures now == Reconcile(t, nextId, cluster, scope, ss, run)
  {
    var other := Reconcile(t, nextId, cluster, scope, ss, run);
    forall id: nat ensures (id in now <==> id in other) && (id in now ==> now[id] == other[id]) {
      if id < nextId { SameOldRow(t, now, nextId, cluster, scope, ss, order, run, id); }
      else { SameNewRow(t, now, nextId, cluster, scope, ss, run, id); }
    }
  }
}
