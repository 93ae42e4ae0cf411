/** What the quota still guarantees in memory when references are shared: a refusal
    changes nothing, in any run; and exactly when the limits survive a publish. */
module MemoryQuotas {
  import opened Seqs
  import opened Records
  import opened Tables
  import opened Lifecycle
  import opened MemoryLifecycle
  import opened SharedRefs
  import K = KeyStore

  // ----- Refusals, whatever the references -----

  function Regulars(list: K.Packages): K.Packages {
    Filter(list, K.Regular())
  }

  function Resorts(list: K.Packages): K.Packages {
    Filter(list, K.LastResort())
  }

  /** With both limits set, an identity with all its last resorts has room beside them. */
  predicate Roomy(cfg: Config, regular: nat, lastResorts: nat) {
    cfg.maxPerIdentity > 0 && cfg.maxLastResort > 0 && lastResorts >= cfg.maxLastResort ==>
      regular + cfg.maxLastResort <= cfg.maxPerIdentity
  }

  ghost predicate AllRoomy(cfg: Config, ix: Shelf) {
    forall id :: Roomy(cfg, |Regulars(Get(ix, id))|, |Resorts(Get(ix, id))|)
  }

  /** No list has gained anything. */
  ghost predicate Thinned(was: Shelf, now: Shelf) {
    forall id ::
      && |Regulars(Get(now, id))| <= |Regulars(Get(was, id))|
      && |Resorts(Get(now, id))| <= |Resorts(Get(was, id))|
  }

  lemma CountAfter(list: K.Packages, i: nat, p: KeyPackage -> bool)
    requires i < |list|
    ensures |Filter(K.RemoveAt(list, i), p)| == |Filter(list, p)| - if p(list[i]) then 1 else 0
  {
    var a, b := list[..i], list[i + 1..];
    assert list == a + [list[i]] + b;
    FilterConcat(a + [list[i]], b, p);
    FilterPush(a, list[i], p);
    FilterConcat(a, b, p);
  }

  lemma TakenThins(ix: Shelf, k: Name, i: nat)
    requires Valid(ix) && i < |Get(ix, k)|
    ensures var now := Put(ix, k, K.RemoveAt(Get(ix, k), i)); Valid(now) && Thinned(ix, now)
  {
    hide Valid, Put, K.RemoveAt;
    PutValid(ix, k, K.RemoveAt(Get(ix, k), i));
    CountAfter(Get(ix, k), i, K.Regular());
    CountAfter(Get(ix, k), i, K.LastResort());
  }

  lemma RemovalThins(ix: Shelf, ref: Name)
    requires Valid(ix)
    ensures Valid(K.MemRemove(ix, ref)) && Thinned(ix, K.MemRemove(ix, ref))
  {
    hide Valid, Put, K.RemoveAt, Thinned;
    match K.Locate(ix, ix.keys, ref)
    case None => SameIsThin(ix);
    case Some(k) => TakenThins(ix, k, K.Position(Get(ix, k), ref));
  }

  lemma SameIsThin(ix: Shelf)
    ensures Thinned(ix, ix)
  {
  }

  lemma ThinnerStill(a: Shelf, b: Shelf, c: Shelf)
    requires Thinned(a, b) && Thinned(b, c)
    ensures Thinned(a, c)
  {
  }

  lemma {:induction false} EvictionThins(ix: Shelf, refs: seq<Name>)
    requires Valid(ix)
    ensures Valid(MemEvict(ix, refs)) && Thinned(ix, MemEvict(ix, refs))
  {
    hide Valid, Thinned, K.MemRemove;
    if refs == [] {
      SameIsThin(ix);
    } else {
      var before := MemEvict(ix, Front(refs));
      EvictionThins(ix, Front(refs));
      RemovalThins(before, Last(refs));
      ThinnerStill(ix, before, K.MemRemove(before, Last(refs)));
    }
  }

  lemma ThinIsRoomy(cfg: Config, was: Shelf, now: Shelf)
    requires AllRoomy(cfg, was) && Thinned(was, now)
    ensures AllRoomy(cfg, now)
  {
    forall id
      ensures Roomy(cfg, |Regulars(Get(now, id))|, |Resorts(Get(now, id))|)
    {
      assert Roomy(cfg, |Regulars(Get(was, id))|, |Resorts(Get(was, id))|);
    }
  }

  lemma Counted(list: K.Packages)
    ensures |list| == |Regulars(list)| + |Resorts(list)|
  {
    Split(list, K.Regular(), K.LastResort());
    assert |multiset(list)| == |multiset(Regulars(list))| + |multiset(Resorts(list))|;
  }

  /** One more package that the quota allows, after an eviction from the list or not. */
  lemma OneMoreIsRoomy(cfg: Config, regular: nat, lastResorts: nat, leftRegular: nat, left: nat, isLastResort: bool)
    requires Roomy(cfg, regular, lastResorts) && leftRegular <= regular && left <= lastResorts
    requires !OverQuota(cfg, regular + lastResorts, lastResorts, isLastResort)
    ensures if isLastResort then Roomy(cfg, leftRegular, left + 1) else Roomy(cfg, leftRegular + 1, left)
  {
  }

  lemma PushedCounts(list: K.Packages, r: KeyPackage)
    ensures |Regulars(list + [r])| == |Regulars(list)| + if r.isLastResort then 0 else 1
    ensures |Resorts(list + [r])| == |Resorts(list)| + if r.isLastResort then 1 else 0
  {
    FilterPush(list, r, K.Regular());
    FilterPush(list, r, K.LastResort());
  }

  lemma AcceptedIsRoomy(cfg: Config, ix: Shelf, room: Shelf, r: KeyPackage)
    requires Valid(room) && AllRoomy(cfg, ix) && Thinned(ix, room)
    requires var list := Get(ix, r.stablePubkey); !OverQuota(cfg, |list|, |Resorts(list)|, r.isLastResort)
    ensures AllRoomy(cfg, K.MemPublish(room, r))
  {
    hide Valid, Put, OverQuota, Roomy, Regulars, Resorts;
    var id := r.stablePubkey;
    var list, left := Get(ix, id), Get(room, id);
    PutValid(room, id, left + [r]);
    PushedCounts(left, r);
    Counted(list);
    assert Roomy(cfg, |Regulars(list)|, |Resorts(list)|);
    OneMoreIsRoomy(cfg, |Regulars(list)|, |Resorts(list)|, |Regulars(left)|, |Resorts(left)|, r.isLastResort);
    ThinIsRoomy(cfg, ix, room);
  }

  lemma PublishIsRoomy(cfg: Config, ix: Shelf, r: KeyPackage)
    requires Valid(ix) && AllRoomy(cfg, ix)
    ensures AllRoomy(cfg, MemPublish(cfg, ix, r).0)
  {
    hide Valid, AllRoomy, Thinned, K.MemPublish, MemVictims, MemEvict, OverQuota;
    var room := MemEvict(ix, MemVictims(cfg, ix, r));
    EvictionThins(ix, MemVictims(cfg, ix, r));
    ThinIsRoomy(cfg, ix, room);
    if !OverQuota(cfg, |Get(ix, r.stablePubkey)|, |Resorts(Get(ix, r.stablePubkey))|, r.isLastResort) {
      AcceptedIsRoomy(cfg, ix, room, r);
    }
  }

  lemma {:induction false} RemoveEachThins(ix: Shelf, client: Name, refs: seq<Name>)
    requires Valid(ix)
    ensures Thinned(ix, MemRemoveEach(ix, client, refs).0)
    decreases |refs|
  {
    hide Valid, Thinned, K.MemRemove, K.MemFind;
    SameIsThin(ix);
    if refs != [] && K.MemFind(ix, refs[0]).Some? {
      var now := K.MemRemove(ix, refs[0]);
      RemovalThins(ix, refs[0]);
      RemoveEachThins(now, client, refs[1..]);
      ThinnerStill(ix, now, MemRemoveEach(now, client, refs[1..]).0);
    }
  }

  lemma ConsumeThins(ix: Shelf, identifier: Name)
    requires Valid(ix)
    ensures Thinned(ix, K.MemConsume(ix, identifier).0)
  {
    hide Valid, Thinned, K.MemRemove, Put, K.RemoveAt;
    SameIsThin(ix);
    RemovalThins(ix, identifier);
    var mine := Get(ix, identifier);
    if K.FirstRegular(mine) < |mine| {
      TakenThins(ix, identifier, K.FirstRegular(mine));
    }
  }

  lemma {:induction false} RunIsRoomy(cfg: Config, steps: seq<Step>)
    ensures AllRoomy(cfg, MemAfter(cfg, steps))
  {
    if steps != [] {
      hide Valid, AllRoomy, Thinned, MemPublish, K.MemConsume, MemRemoveEach;
      var ix := MemAfter(cfg, Front(steps));
      RunIsRoomy(cfg, Front(steps));
      RunValid(cfg, Front(steps));
      match Last(steps)
      case Publish(r) => PublishIsRoomy(cfg, ix, r);
      case Consume(identifier) =>
        ConsumeThins(ix, identifier);
        ThinIsRoomy(cfg, ix, K.MemConsume(ix, identifier).0);
      case Remove(client, refs) =>
        RemoveEachThins(ix, client, refs);
        ThinIsRoomy(cfg, ix, MemRemoveEach(ix, client, refs).0);
    }
  }

  lemma RefusedHasNoVictims(cfg: Config, ix: Shelf, r: KeyPackage)
    requires Roomy(cfg, |Regulars(Get(ix, r.stablePubkey))|, |Resorts(Get(ix, r.stablePubkey))|)
    requires MemPublish(cfg, ix, r).1 == QuotaExceeded
    ensures MemVictims(cfg, ix, r) == []
  {
    hide MemEvict;
    Counted(Get(ix, r.stablePubkey));
  }

  /** In memory too, for every run, configuration and choice of references: a publish
      refused by the quota leaves everything as it was. */
  lemma RefusalChangesNothingInMemory(cfg: Config, steps: seq<Step>, r: KeyPackage)
    requires MemPublish(cfg, MemAfter(cfg, steps), r).1 == QuotaExceeded
    ensures MemPublish(cfg, MemAfter(cfg, steps), r).0 == MemAfter(cfg, steps)
  {
    hide MemAfter, MemVictims, Roomy;
    var ix := MemAfter(cfg, steps);
    RunIsRoomy(cfg, steps);
    assert Roomy(cfg, |Regulars(Get(ix, r.stablePubkey))|, |Resorts(Get(ix, r.stablePubkey))|);
    RefusedHasNoVictims(cfg, ix, r);
  }

  /** In memory a publish is refused on the same counts: of the owner's packages for a
      regular one, of its regular ones and the last resorts left after eviction for a
      last resort, and never without a limit on all packages. */
  lemma RefusedInMemoryIff(cfg: Config, ix: Shelf, r: KeyPackage)
    ensures var list := Get(ix, r.stablePubkey);
            var regular, resorts := |Regulars(list)|, |Resorts(list)|;
            var left := if resorts >= cfg.maxLastResort then cfg.maxLastResort - 1 else resorts;
            MemPublish(cfg, ix, r).1 == QuotaExceeded <==>
            && cfg.maxPerIdentity > 0
            && if !r.isLastResort then |list| >= cfg.maxPerIdentity
               else if cfg.maxLastResort == 0 then regular + 1 > cfg.maxPerIdentity
               else regular + left + 1 > cfg.maxPerIdentity
  {
    hide MemEvict, K.MemPublish, MemVictims;
    Counted(Get(ix, r.stablePubkey));
  }

  // ----- When the limits hold in memory -----

  predicate WithinLimits(cfg: Config, list: K.Packages) {
    |list| <= cfg.maxPerIdentity && |Resorts(list)| <= cfg.maxLastResort
  }

  ghost predicate AllWithin(cfg: Config, ix: Shelf) {
    forall id :: WithinLimits(cfg, Get(ix, id))
  }

  /** The package that the search finds under the reference is a last resort of `id`. */
  predicate FindsOwnResort(ix: Shelf, id: Name, ref: Name) {
    K.Locate(ix, ix.keys, ref) == Some(id) && K.MemFind(ix, ref).value.isLastResort
  }

  lemma OnlyVictim(cfg: Config, ix: Shelf, r: KeyPackage)
    requires cfg.maxLastResort >= 1 && WithinLimits(cfg, Get(ix, r.stablePubkey)) && MemVictims(cfg, ix, r) != []
    ensures var resorts := Resorts(Get(ix, r.stablePubkey));
            |resorts| == cfg.maxLastResort && MemVictims(cfg, ix, r) == [resorts[0].kpRef]
  {
    var resorts := Resorts(Get(ix, r.stablePubkey));
    assert resorts[..1] == [resorts[0]];
    RefOfOne(resorts[0]);
  }

  /** What one removal leaves of the owner's list. */
  lemma OwnListAfter(ix: Shelf, id: Name, ref: Name)
    requires Valid(ix) && id in ix.keys && Holds(Get(ix, id), ref)
    ensures var now := Get(K.MemRemove(ix, ref), id);
            && |Resorts(now)| == |Resorts(Get(ix, id))| - (if FindsOwnResort(ix, id, ref) then 1 else 0)
            && (FindsOwnResort(ix, id, ref) ==> |now| == |Get(ix, id)| - 1)
  {
    hide Put, K.RemoveAt, Resorts, HeldAhead;
    LocateStopsAtFirst(ix, ix.keys, id, ref);
    var k := K.Locate(ix, ix.keys, ref).value;
    var i := K.Position(Get(ix, k), ref);
    PutValid(ix, k, K.RemoveAt(Get(ix, k), i));
    ResortsAfter(Get(ix, k), i);
  }

  lemma ResortsAfter(list: K.Packages, i: nat)
    requires i < |list|
    ensures |Resorts(K.RemoveAt(list, i))| == |Resorts(list)| - if list[i].isLastResort then 1 else 0
    ensures |K.RemoveAt(list, i)| == |list| - 1
  {
    CountAfter(list, i, K.LastResort());
  }

  lemma FirstResortHeld(ix: Shelf, id: Name)
    requires Valid(ix) && Resorts(Get(ix, id)) != []
    ensures id in ix.keys && Holds(Get(ix, id), Resorts(Get(ix, id))[0].kpRef)
  {
    var list := Get(ix, id);
    var x := Resorts(list)[0];
    FilterMembers(list, K.LastResort());
    assert x in Resorts(list);
    var i :| 0 <= i < |list| && list[i] == x;
  }

  lemma EvictSole(ix: Shelf, ref: Name)
    ensures MemEvict(ix, []) == ix && MemEvict(ix, [ref]) == K.MemRemove(ix, ref)
  {
    assert Front([ref]) == [];
  }

  lemma OwnerKeptIff(cfg: Config, ix: Shelf, r: KeyPackage)
    requires Valid(ix) && cfg.maxPerIdentity >= 1 && cfg.maxLastResort >= 1 && AllWithin(cfg, ix)
    ensures var id, victims := r.stablePubkey, MemVictims(cfg, ix, r);
            WithinLimits(cfg, Get(MemPublish(cfg, ix, r).0, id)) <==>
            forall v :: v in victims ==> FindsOwnResort(ix, id, v)
  {
    hide Valid, K.MemRemove, Put, FindsOwnResort, K.Locate, MemEvict, MemVictims, Filter, Holds;
    var id, victims := r.stablePubkey, MemVictims(cfg, ix, r);
    var list := Get(ix, id);
    assert WithinLimits(cfg, list);
    Counted(list);
    if victims == [] {
      EvictSole(ix, "");
      PutValid(ix, id, list + [r]);
      PushedCounts(list, r);
      NoVictimFits(cfg, ix, r);
    } else {
      OnlyVictim(cfg, ix, r);
      VictimIsResort(cfg, ix, r);
      var ref := Resorts(list)[0].kpRef;
      EvictSole(ix, ref);
      FirstResortHeld(ix, id);
      OwnListAfter(ix, id, ref);
      RemovalThins(ix, ref);
      var room := K.MemRemove(ix, ref);
      PutValid(room, id, Get(room, id) + [r]);
      PushedCounts(Get(room, id), r);
      FullIsAccepted(cfg, ix, r);
    }
  }

  lemma VictimIsResort(cfg: Config, ix: Shelf, r: KeyPackage)
    requires MemVictims(cfg, ix, r) != []
    ensures r.isLastResort
  {
  }

  lemma NoVictimFits(cfg: Config, ix: Shelf, r: KeyPackage)
    requires cfg.maxPerIdentity >= 1 && cfg.maxLastResort >= 1 && WithinLimits(cfg, Get(ix, r.stablePubkey))
    requires MemVictims(cfg, ix, r) == []
    ensures r.isLastResort ==> |Resorts(Get(ix, r.stablePubkey))| < cfg.maxLastResort
    ensures !OverQuota(cfg, |Get(ix, r.stablePubkey)|, |Resorts(Get(ix, r.stablePubkey))|, r.isLastResort) ==>
              |Get(ix, r.stablePubkey)| < cfg.maxPerIdentity
  {
    var resorts := Resorts(Get(ix, r.stablePubkey));
    Counted(Get(ix, r.stablePubkey));
    RefCount(resorts[..Surplus(cfg, |resorts|)]);
  }

  lemma {:induction false} RefCount(s: K.Packages)
    ensures |RefsOf(s)| == |s|
  {
    if s != [] {
      RefCount(Front(s));
    }
  }

  /** A full set of last resorts within the limits is never refused. */
  lemma FullIsAccepted(cfg: Config, ix: Shelf, r: KeyPackage)
    requires cfg.maxLastResort >= 1 && WithinLimits(cfg, Get(ix, r.stablePubkey)) && r.isLastResort
    requires |Resorts(Get(ix, r.stablePubkey))| == cfg.maxLastResort
    ensures !OverQuota(cfg, |Get(ix, r.stablePubkey)|, |Resorts(Get(ix, r.stablePubkey))|, true)
  {
  }

  /** From a shelf within both limits, a publish leaves one if and only if the search for
      the package it evicts, if any, finds a last resort of the publisher. */
  lemma LimitsKeptIff(cfg: Config, ix: Shelf, r: KeyPackage)
    requires Valid(ix) && cfg.maxPerIdentity >= 1 && cfg.maxLastResort >= 1 && AllWithin(cfg, ix)
    ensures AllWithin(cfg, MemPublish(cfg, ix, r).0) <==>
            forall v :: v in MemVictims(cfg, ix, r) ==> FindsOwnResort(ix, r.stablePubkey, v)
  {
    hide Valid, WithinLimits, MemPublish, MemVictims, FindsOwnResort;
    var after := MemPublish(cfg, ix, r).0;
    OwnerKeptIff(cfg, ix, r);
    forall k | k != r.stablePubkey
      ensures WithinLimits(cfg, Get(after, k))
    {
      assert WithinLimits(cfg, Get(ix, k));
      OthersWithin(cfg, ix, r, k);
    }
  }

  lemma OthersWithin(cfg: Config, ix: Shelf, r: KeyPackage, k: Name)
    requires Valid(ix) && k != r.stablePubkey && WithinLimits(cfg, Get(ix, k))
    ensures WithinLimits(cfg, Get(MemPublish(cfg, ix, r).0, k))
  {
    hide Valid, MemPublish, MemVictims, MemEvict, Resorts;
    OthersAfterPublish(cfg, ix, r);
    EvictionThins(ix, MemVictims(cfg, ix, r));
    EvictShrinks(ix, MemVictims(cfg, ix, r), k);
  }
}
