/** The adapter's key-package operations as the program runs them, over a storage
    object. `life` is a ghost record of where every instance went; each method is
    proved to be the corresponding step of Lifecycle. */
module Adapter {
  import opened Seqs
  import opened Records
  import opened Tables
  import opened SqliteStorage
  import opened Lifecycle
  import B = Backends
  import K = KeyStore

  /** A removal in storage is the removal of Lifecycle. */
  lemma RemoveInStorage(d: B.Db, ref: Name)
    ensures B.DbAsk(d, B.RemovePackage(ref)).0.kps == K.SqlRemove(d.kps, ref)
    ensures B.DbAsk(d, B.RemovePackage(ref)).1 == B.Perhaps(K.SqlFind(d.kps, ref))
  {
  }

  lemma ListInStorage(d: B.Db, l: Life, id: Name)
    requires d.kps == l.t
    ensures B.DbAsk(d, B.ListFor(id)) == (d, B.Packages(OfId(Held(l), id)))
  {
    RecsFilter(l.t.rows, K.Of(id));
  }

  method SelectLastResorts(records: seq<KeyPackage>) returns (out: seq<KeyPackage>)
    ensures out == Filter(records, K.LastResort())
  {
    out := [];
    for i := 0 to |records|
      invariant out == Filter(records[..i], K.LastResort())
    {
      assert records[..i + 1] == records[..i] + [records[i]];
      FilterPush(records[..i], records[i], K.LastResort());
      if records[i].isLastResort {
        out := out + [records[i]];
      }
    }
    assert records[..|records|] == records;
  }

  lemma RefsOfNext(s: seq<KeyPackage>, i: nat)
    requires i < |s|
    ensures RefsOf(s[..i + 1]) == RefsOf(s[..i]) + [s[i].kpRef]
  {
    assert Front(s[..i + 1]) == s[..i];
  }

  lemma EvictNext(l: Life, refs: seq<Name>, ref: Name)
    ensures Evict(l, refs + [ref]) == EvictOne(Evict(l, refs), ref)
  {
    assert Front(refs + [ref]) == refs;
  }

  class CoordinatorAdapter {
    const storage: SqliteCoordinatorStorage
    const cfg: Config
    ghost var life: Life

    ghost predicate Ok()
      reads this, storage
    {
      storage.kps == life.t
    }

    constructor (storage: SqliteCoordinatorStorage, cfg: Config)
      requires storage.kps == NoRows()
      ensures this.storage == storage && this.cfg == cfg && Ok() && life == Start()
    {
      this.storage, this.cfg := storage, cfg;
      life := Start();
    }

    /** Take the oldest `n` of the given packages out of storage. */
    method EvictOldest(existing: seq<KeyPackage>, n: nat)
      requires Ok() && n <= |existing|
      modifies this, storage
      ensures Ok() && life == Evict(old(life), RefsOf(existing[..n]))
    {
      hide K.SqlRemove, RowsWith, B.DbAsk;
      for i := 0 to n
        invariant Ok() && life == Evict(old(life), RefsOf(existing[..i]))
      {
        RefsOfNext(existing, i);
        EvictNext(old(life), RefsOf(existing[..i]), existing[i].kpRef);
        RemoveInStorage(storage.State(), existing[i].kpRef);
        var _ := storage.RemoveKeyPackage(existing[i].kpRef);
        life := EvictOne(life, existing[i].kpRef);
      }
    }

    method EnforceKeyPackageQuota(id: Name, isLastResort: bool) returns (refused: bool)
      requires Ok()
      modifies this, storage
      ensures Ok() && life == Evict(old(life), Victims(cfg, old(life), id, isLastResort))
      ensures var total, resorts := |OfId(Held(old(life)), id)|, |LastResortsIn(Held(old(life)), id)|;
              var left := if cfg.maxLastResort == 0 then 0 else Min(resorts, cfg.maxLastResort - 1);
              && (refused <==> OverQuota(cfg, total, resorts, isLastResort))
              && (refused <==>
                    && cfg.maxPerIdentity > 0
                    && if isLastResort then total - resorts + left + 1 > cfg.maxPerIdentity
                       else total >= cfg.maxPerIdentity)
    {
      hide B.DbAsk, Evict;
      ListInStorage(storage.State(), life, id);
      NoVictim(life);
      var records := storage.ListKeyPackagesForIdentity(id);
      if !isLastResort {
        return cfg.maxPerIdentity > 0 && |records| >= cfg.maxPerIdentity;
      }
      var existing := SelectLastResorts(records);
      if cfg.maxLastResort > 0 && |existing| >= cfg.maxLastResort {
        EvictOldest(existing, |existing| - cfg.maxLastResort + 1);
      }
      var others := |records| - |existing|;
      var keepable := if cfg.maxLastResort == 0 then 0 else cfg.maxLastResort - 1;
      refused := cfg.maxPerIdentity > 0 && others + Min(|existing|, keepable) + 1 > cfg.maxPerIdentity;
    }

    method PublishKeyPackage(r: KeyPackage) returns (out: Outcome)
      requires Ok()
      modifies this, storage
      ensures Ok() && (life, out) == DoPublish(cfg, old(life), r)
    {
      hide Victims, Evict, K.SqlFind, OfId, LastResortsIn, OverQuota;
      var refused := EnforceKeyPackageQuota(r.stablePubkey, r.isLastResort);
      if refused {
        return QuotaExceeded;
      }
      var answer := storage.PublishKeyPackage(r);
      if answer.Failed? {
        return StorageFailed;
      }
      life := life.(t := K.SqlPublish(life.t, r).value, published := life.published + [Row(life.t.nextId, r)]);
      out := Accepted;
    }

    method ConsumeKeyPackage(identifier: Name) returns (out: Outcome)
      requires Ok()
      modifies this, storage
      ensures Ok() && (life, out) == DoConsume(old(life), identifier)
    {
      hide K.SqlConsume, RowsWith;
      var package := storage.ConsumeKeyPackage(identifier);
      life := DoConsume(life, identifier).0;
      out := Handed(package);
    }

    /** Look up, check the owner, remove: one reference after the other. */
    method RemoveKeyPackages(client: Name, refs: seq<Name>) returns (out: Outcome, gone: seq<Name>)
      requires Ok()
      modifies this, storage
      ensures Ok() && (life, out) == Do(cfg, old(life), Remove(client, refs))
      ensures out == Removed ==> gone == refs
    {
      hide K.SqlRemove, K.SqlFind, RowsWith, B.DbAsk;
      gone := [];
      if refs == [] {
        return InvalidInput, gone;
      }
      assert refs[0..] == refs;
      for i := 0 to |refs|
        invariant Ok() && RemoveEach(life, client, refs[i..]) == RemoveEach(old(life), client, refs)
        invariant gone == refs[..i]
      {
        var ref := refs[i];
        FindInStorage(storage.State(), ref);
        RemoveInStorage(storage.State(), ref);
        assert refs[i..][0] == ref && refs[i..][1..] == refs[i + 1..];
        var record := storage.GetKeyPackage(ref);
        if record.None? {
          return UnknownRef(ref), gone;
        }
        if record.value.stablePubkey != client {
          return Unauthorized(ref), gone;
        }
        FoundHasRef(storage.kps, ref);
        var taken := storage.RemoveKeyPackage(ref);
        gone := gone + [if taken.Some? then taken.value.kpRef else ref];
        life := RemoveOne(life, ref);
      }
      assert refs[|refs|..] == [];
      out := Removed;
    }
  }

  lemma FoundHasRef(t: Table<KeyPackage>, ref: Name)
    ensures K.SqlFind(t, ref).Some? ==> K.SqlFind(t, ref).value.kpRef == ref
  {
    FilterMembers(t.rows, RowIs(K.HasRef(ref)));
    var found := Filter(t.rows, RowIs(K.HasRef(ref)));
    if found != [] {
      assert found[0] in found;
    }
  }

  lemma FindInStorage(d: B.Db, ref: Name)
    ensures B.DbAsk(d, B.GetPackage(ref)) == (d, B.Perhaps(K.SqlFind(d.kps, ref)))
  {
  }

  lemma NoVictim(l: Life)
    ensures Evict(l, RefsOf([])) == l && Evict(l, []) == l
  {
  }
}
