/** Eviction is by age: in every reachable state, whatever was evicted is a last
    resort older than every last resort its owner still has. */
module Evictions {
  import opened Seqs
  import opened Records
  import opened Tables
  import opened Lifecycle
  import opened Quotas
  import K = KeyStore

  ghost predicate OlderThan(e: Row<KeyPackage>, rows: Rows) {
    forall h :: h in rows && h.rec.isLastResort && h.rec.stablePubkey == e.rec.stablePubkey ==> e.id < h.id
  }

  ghost predicate EvictedOlder(l: Life) {
    forall e :: e in l.evicted ==> e.rec.isLastResort && e.id < l.t.nextId && OlderThan(e, l.t.rows)
  }

  function ResortRows(rows: Rows, id: Name): Rows {
    Filter(Filter(rows, RowIs(K.Of(id))), RowIs(K.LastResort()))
  }

  lemma ResortRowsFacts(t: Table<KeyPackage>, id: Name)
    requires TableOk(t)
    ensures Recs(ResortRows(t.rows, id)) == LastResortsIn(Recs(t.rows), id)
    ensures Ascending(ResortRows(t.rows, id))
    ensures forall h :: h in ResortRows(t.rows, id) <==> h in t.rows && h.rec.isLastResort && h.rec.stablePubkey == id
  {
    var mine := Filter(t.rows, RowIs(K.Of(id)));
    RecsFilter(t.rows, K.Of(id));
    RecsFilter(mine, K.LastResort());
    FilterAscending(t.rows, RowIs(K.Of(id)), t.nextId);
    FilterAscending(mine, RowIs(K.LastResort()), t.nextId);
    FilterMembers(t.rows, RowIs(K.Of(id)));
    FilterMembers(mine, RowIs(K.LastResort()));
  }

  lemma FirstIsOldest(rows: Rows, h: Row<KeyPackage>)
    requires Ascending(rows) && h in rows && h != rows[0]
    ensures rows[0].id < h.id
  {
  }

  /** The rows that a removal by reference takes and leaves. */
  lemma RemovedRows(t: Table<KeyPackage>, row: Row<KeyPackage>)
    requires TableOk(t) && K.UniqueRefs(Recs(t.rows)) && row in t.rows
    ensures RowsWith(t.rows, row.rec.kpRef) == [row]
    ensures forall h :: h in K.SqlRemove(t, row.rec.kpRef).rows ==> h in t.rows && h != row
    ensures K.SqlRemove(t, row.rec.kpRef).nextId == t.nextId
  {
    hide K.UniqueRefs, TableOk;
    var i :| 0 <= i < |t.rows| && t.rows[i] == row;
    OneRowPerRef(t.rows, i);
    FilterMembers(t.rows, RowIs(K.LacksRef(row.rec.kpRef)));
  }

  lemma EvictFirst(l: Life, id: Name)
    requires Numbered(l) && EvictedOlder(l) && LastResortsIn(Held(l), id) != []
    ensures EvictedOlder(EvictOne(l, LastResortsIn(Held(l), id)[0].kpRef))
  {
    hide K.UniqueRefs, Ascending, K.SqlRemove, RowsWith, Recs, LastResortsIn, ResortRows;
    var rows := ResortRows(l.t.rows, id);
    ResortRowsFacts(l.t, id);
    RecsFirst(rows);
    var first := rows[0];
    assert first in rows;
    RemovedRows(l.t, first);
    var l' := EvictOne(l, first.rec.kpRef);
    assert OlderThan(first, l'.t.rows) by {
      forall h | h in l'.t.rows && h.rec.isLastResort && h.rec.stablePubkey == id
        ensures first.id < h.id
      {
        FirstIsOldest(rows, h);
      }
    }
    assert forall e :: e in l.evicted ==> OlderThan(e, l'.t.rows);
    assert l'.evicted == l.evicted + [first];
    assert first.id < l.t.nextId;
  }

  lemma RecsFirst(rows: Rows)
    requires Recs(rows) != []
    ensures rows != [] && Recs(rows)[0] == rows[0].rec
  {
  }

  lemma {:induction false} EvictFirstMany(l: Life, id: Name, n: nat)
    requires Numbered(l) && EvictedOlder(l) && n <= |LastResortsIn(Held(l), id)|
    ensures EvictedOlder(Evict(l, RefsOf(LastResortsIn(Held(l), id)[..n])))
  {
    hide Numbered, EvictedOlder, LastResortsIn, Recs, EvictOne;
    var lrs := LastResortsIn(Held(l), id);
    if n > 0 {
      EvictFirstMany(l, id, n - 1);
      assert Front(lrs[..n]) == lrs[..n - 1] && Last(lrs[..n]) == lrs[n - 1];
      var refs := RefsOf(lrs[..n - 1]);
      assert Front(RefsOf(lrs[..n])) == refs;
      var before := Evict(l, refs);
      EvictedRecords(l, refs);
      UniqueHeld(l);
      EvictOldest(Held(l), id, n - 1);
      EvictFirst(before, id);
    }
  }

  lemma {:induction false} Shrunk(l: Life, l': Life)
    requires EvictedOlder(l) && l'.evicted == l.evicted && l'.t.nextId == l.t.nextId
    requires forall h :: h in l'.t.rows ==> h in l.t.rows
    ensures EvictedOlder(l')
  {
    assert forall e :: e in l.evicted ==> OlderThan(e, l'.t.rows);
  }

  lemma Grown(l: Life, r: KeyPackage)
    requires EvictedOlder(l)
    ensures EvictedOlder(l.(t := Insert(l.t, r), published := l.published + [Row(l.t.nextId, r)]))
  {
    forall e | e in l.evicted
      ensures OlderThan(e, Insert(l.t, r).rows)
    {
      assert OlderThan(e, l.t.rows);
    }
  }

  lemma PublishEvictsOlder(cfg: Config, l: Life, r: KeyPackage)
    requires Numbered(l) && EvictedOlder(l)
    ensures EvictedOlder(DoPublish(cfg, l, r).0)
  {
    hide Numbered, EvictedOlder, Recs, LastResortsIn, Evict, K.SqlFind, Refused;
    var id, existing := r.stablePubkey, LastResortsIn(Held(l), r.stablePubkey);
    var victims := Victims(cfg, l, id, r.isLastResort);
    if r.isLastResort {
      EvictFirstMany(l, id, Surplus(cfg, |existing|));
    } else {
      NoVictims(l);
    }
    Grown(Evict(l, victims), r);
  }

  lemma NoVictims(l: Life)
    ensures Evict(l, []) == l
  {
  }

  lemma RemoveShrinks(t: Table<KeyPackage>, ref: Name)
    ensures K.SqlRemove(t, ref).nextId == t.nextId
    ensures forall h :: h in K.SqlRemove(t, ref).rows ==> h in t.rows
  {
    FilterMembers(t.rows, RowIs(K.LacksRef(ref)));
  }

  lemma ConsumeEvictsNone(l: Life, identifier: Name)
    requires Numbered(l) && EvictedOlder(l)
    ensures EvictedOlder(DoConsume(l, identifier).0)
  {
    hide EvictedOlder, K.SqlConsume, K.SqlRemove, Numbered;
    ConsumedTable(l, identifier);
    var out := DoConsume(l, identifier).1.package;
    if out.Some? {
      RemoveShrinks(l.t, out.value.kpRef);
    }
    Shrunk(l, DoConsume(l, identifier).0);
  }

  lemma {:induction false} RemoveEvictsNone(l: Life, client: Name, refs: seq<Name>)
    requires EvictedOlder(l)
    ensures EvictedOlder(RemoveEach(l, client, refs).0)
    decreases |refs|
  {
    hide EvictedOlder, K.SqlRemove, K.SqlFind;
    if refs != [] && K.SqlFind(l.t, refs[0]).Some? && K.SqlFind(l.t, refs[0]).value.stablePubkey == client {
      RemoveShrinks(l.t, refs[0]);
      Shrunk(l, RemoveOne(l, refs[0]));
      RemoveEvictsNone(RemoveOne(l, refs[0]), client, refs[1..]);
    }
  }

  /** Over every run, eviction takes last resorts only, and the oldest first. */
  lemma {:induction false} EvictionIsByAge(cfg: Config, steps: seq<Step>)
    ensures EvictedOlder(After(cfg, steps))
  {
    hide EvictedOlder, Numbered, DoPublish, DoConsume, RemoveEach;
    if steps == [] {
      NoneEvicted();
    } else {
      var l := After(cfg, Front(steps));
      EvictionIsByAge(cfg, Front(steps));
      RunConserves(cfg, Front(steps));
      match Last(steps)
      case Publish(r) => PublishEvictsOlder(cfg, l, r);
      case Consume(identifier) => ConsumeEvictsNone(l, identifier);
      case Remove(client, refs) => RemoveEvictsNone(l, client, refs);
    }
  }

  lemma NoneEvicted()
    ensures EvictedOlder(Start())
  {
  }
}
