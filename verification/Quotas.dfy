/** What the key-package quota guarantees in every reachable state. */
module Quotas {
  import opened Seqs
  import opened Records
  import opened Tables
  import opened Lifecycle
  import K = KeyStore

  type Packages = K.Packages

  function RegularIn(s: Packages, id: Name): Packages {
    Filter(OfId(s, id), K.Regular())
  }

  // ----- What eviction does to the stored records -----

  function LacksRefs(refs: seq<Name>): KeyPackage -> bool {
    (r: KeyPackage) => r.kpRef !in refs
  }

  lemma {:induction false} RefsOfMembers(s: Packages, ref: Name)
    ensures ref in RefsOf(s) <==> exists r :: r in s && r.kpRef == ref
  {
    if s != [] {
      RefsOfMembers(Front(s), ref);
      assert s == Front(s) + [Last(s)];
    }
  }

  /** Among unique references, naming a record is being it. */
  lemma NamedIffListed(s: Packages, list: Packages, x: KeyPackage)
    requires K.UniqueRefs(s) && x in s && forall r :: r in list ==> r in s
    ensures x.kpRef in RefsOf(list) <==> x in list
  {
    RefsOfMembers(list, x.kpRef);
    forall r | r in list && r.kpRef == x.kpRef
      ensures r == x
    {
      K.SameRef(s, r, x);
    }
  }

  lemma {:induction false} EvictedRecords(l: Life, refs: seq<Name>)
    requires Numbered(l)
    ensures Numbered(Evict(l, refs)) && Held(Evict(l, refs)) == Filter(Held(l), LacksRefs(refs))
    ensures Evict(l, refs).t.nextId == l.t.nextId && Evict(l, refs).published == l.published
  {
    hide Numbered, K.SqlRemove, Recs;
    var s := Held(l);
    if refs == [] {
      FilterAll(s, LacksRefs(refs));
    } else {
      var before := Evict(l, Front(refs));
      EvictedRecords(l, Front(refs));
      RemovedRecords(before, Last(refs));
      assert forall ref :: ref in refs <==> ref in Front(refs) || ref == Last(refs);
      FilterTwice(s, LacksRefs(Front(refs)), K.LacksRef(Last(refs)), LacksRefs(refs));
    }
  }

  lemma RemovedRecords(l: Life, ref: Name)
    requires Numbered(l)
    ensures Numbered(EvictOne(l, ref))
    ensures Recs(K.SqlRemove(l.t, ref).rows) == Filter(Held(l), K.LacksRef(ref))
    ensures EvictOne(l, ref).t.nextId == l.t.nextId
  {
    K.SqlRemoveHolds(l.t, Held(l), ref);
  }

  lemma OwnedAndResort(s: Packages, id: Name)
    ensures forall r :: r in LastResortsIn(s, id) <==> r in s && r.stablePubkey == id && r.isLastResort
    ensures forall r :: r in RegularIn(s, id) <==> r in s && r.stablePubkey == id && !r.isLastResort
  {
    FilterMembers(s, K.Of(id));
    FilterMembers(OfId(s, id), K.LastResort());
    FilterMembers(OfId(s, id), K.Regular());
  }

  /** Filters that drop only records of one kind leave the other kinds' lists alone. */
  lemma ListsUnder(s: Packages, q: KeyPackage -> bool, id: Name)
    ensures OfId(Filter(s, q), id) == Filter(OfId(s, id), q)
    ensures LastResortsIn(Filter(s, q), id) == Filter(LastResortsIn(s, id), q)
    ensures RegularIn(Filter(s, q), id) == Filter(RegularIn(s, id), q)
  {
    FilterSwap(s, q, K.Of(id));
    FilterSwap(OfId(s, id), q, K.LastResort());
    FilterSwap(OfId(s, id), q, K.Regular());
  }

  lemma {:induction false} CountsAdd(s: Packages, id: Name)
    ensures |OfId(s, id)| == |RegularIn(s, id)| + |LastResortsIn(s, id)|
  {
    Split(OfId(s, id), K.Regular(), K.LastResort());
    assert |multiset(OfId(s, id))| == |multiset(RegularIn(s, id))| + |multiset(LastResortsIn(s, id))|;
  }

  lemma LastResortsUnique(s: Packages, id: Name)
    requires K.UniqueRefs(s)
    ensures K.UniqueRefs(LastResortsIn(s, id))
  {
    K.FilterUnique(s, K.Of(id));
    K.FilterUnique(OfId(s, id), K.LastResort());
  }

  lemma LaterIsNotEarlier(list: Packages, n: nat, x: KeyPackage)
    requires K.UniqueRefs(list) && n <= |list| && x in list[n..]
    ensures x in list && x !in list[..n]
  {
    var j :| n <= j < |list| && list[j] == x;
  }

  lemma DropFirst(list: Packages, n: nat)
    requires K.UniqueRefs(list) && n <= |list|
    ensures Filter(list, LacksRefs(RefsOf(list[..n]))) == list[n..]
  {
    hide K.UniqueRefs;
    var q, a, b := LacksRefs(RefsOf(list[..n])), list[..n], list[n..];
    assert forall x :: x in a ==> x in list;
    forall x | x in a
      ensures !q(x)
    {
      NamedIffListed(list, a, x);
    }
    forall x | x in b
      ensures q(x)
    {
      LaterIsNotEarlier(list, n, x);
      NamedIffListed(list, a, x);
    }
    FilterNone(a, q);
    FilterAll(b, q);
    FilterConcat(a, b, q);
    assert list == a + b;
  }

  /** Evicting the `n` oldest last resorts of `id` leaves the newer ones, every
      regular package, and all other identities as they were. */
  lemma EvictOldest(s: Packages, id: Name, n: nat)
    requires K.UniqueRefs(s) && n <= |LastResortsIn(s, id)|
    ensures var t := Filter(s, LacksRefs(RefsOf(LastResortsIn(s, id)[..n])));
            && LastResortsIn(t, id) == LastResortsIn(s, id)[n..]
            && RegularIn(t, id) == RegularIn(s, id)
            && forall other :: other != id ==> OfId(t, other) == OfId(s, other)
  {
    var lrs := LastResortsIn(s, id);
    var gone := lrs[..n];
    var q := LacksRefs(RefsOf(gone));
    OwnedAndResort(s, id);
    ListsUnder(s, q, id);
    LastResortsUnique(s, id);
    DropFirst(lrs, n);
    assert forall r :: r in gone ==> r in lrs;
    forall x | x in s && !(x.stablePubkey == id && x.isLastResort)
      ensures q(x)
    {
      NamedIffListed(s, gone, x);
    }
    FilterAll(RegularIn(s, id), q);
    forall other | other != id
      ensures OfId(Filter(s, q), other) == OfId(s, other)
    {
      ListsUnder(s, q, other);
      FilterMembers(s, K.Of(other));
      FilterAll(OfId(s, other), q);
    }
  }

  // ----- The invariant -----

  predicate Within(cfg: Config, total: nat, lastResorts: nat) {
    && (cfg.maxLastResort > 0 ==> lastResorts <= cfg.maxLastResort)
    && (cfg.maxLastResort > 0 && cfg.maxPerIdentity > 0 ==> total <= cfg.maxPerIdentity)
  }

  ghost predicate QuotaOk(cfg: Config, s: Packages) {
    forall id :: Within(cfg, |OfId(s, id)|, |LastResortsIn(s, id)|)
  }

  /** The room made for a package of `r`'s owner. */
  function Room(cfg: Config, s: Packages, r: KeyPackage): Packages {
    Filter(s, LacksRefs(RefsOf(LastResortsIn(s, r.stablePubkey)[..Evicted(cfg, s, r)])))
  }

  function Evicted(cfg: Config, s: Packages, r: KeyPackage): (n: nat)
    ensures n <= |LastResortsIn(s, r.stablePubkey)|
  {
    if r.isLastResort then Surplus(cfg, |LastResortsIn(s, r.stablePubkey)|) else 0
  }

  /** The three ways a publish ends, on the stored records. */
  lemma PublishOutcomes(cfg: Config, l: Life, r: KeyPackage)
    requires Numbered(l)
    ensures var s, out := Held(l), DoPublish(cfg, l, r);
            && (out.1 == QuotaExceeded <==> Refused(cfg, l, r))
            && (out.1 == StorageFailed <==> !Refused(cfg, l, r) && K.Held(Room(cfg, s, r), r.kpRef))
            && Held(out.0) == (if out.1 == Accepted then Room(cfg, s, r) + [r] else Room(cfg, s, r))
            && (out.1 == QuotaExceeded || out.1 == StorageFailed || out.1 == Accepted)
  {
    hide Numbered, K.SqlPublish, Recs, Refused, K.Held;
    var victims := Victims(cfg, l, r.stablePubkey, r.isLastResort);
    EvictedRecords(l, victims);
    assert LacksRefs(victims) == LacksRefs(RefsOf(LastResortsIn(Held(l), r.stablePubkey)[..Evicted(cfg, Held(l), r)]));
    InsertedRecords(Evict(l, victims), r);
  }

  lemma InsertedRecords(l: Life, r: KeyPackage)
    requires Numbered(l)
    ensures K.SqlPublish(l.t, r).Some? <==> !K.Held(Held(l), r.kpRef)
    ensures K.SqlPublish(l.t, r).Some? ==> Recs(K.SqlPublish(l.t, r).value.rows) == Held(l) + [r]
  {
    K.SqlPublishHolds(l.t, Held(l), r);
  }

  lemma Pushed(s: Packages, r: KeyPackage, id: Name)
    ensures OfId(s + [r], id) == if r.stablePubkey == id then OfId(s, id) + [r] else OfId(s, id)
    ensures LastResortsIn(s + [r], id) ==
            if r.stablePubkey == id && r.isLastResort then LastResortsIn(s, id) + [r] else LastResortsIn(s, id)
  {
    FilterPush(s, r, K.Of(id));
    FilterPush(OfId(s, id), r, K.LastResort());
  }

  /** Under the invariant a refusal never follows an eviction. */
  lemma RefusedEvictsNothing(cfg: Config, l: Life, r: KeyPackage)
    requires QuotaOk(cfg, Held(l)) && Refused(cfg, l, r)
    ensures Evicted(cfg, Held(l), r) == 0
  {
    var s, id := Held(l), r.stablePubkey;
    assert Within(cfg, |OfId(s, id)|, |LastResortsIn(s, id)|);
    CountsAdd(s, id);
  }

  lemma RoomForOne(cfg: Config, total: nat, lastResorts: nat, isLastResort: bool)
    requires Within(cfg, total, lastResorts) && lastResorts <= total
    requires !OverQuota(cfg, total, lastResorts, isLastResort)
    ensures var n := if isLastResort then Surplus(cfg, lastResorts) else 0;
            Within(cfg, total - n + 1, lastResorts - n + if isLastResort then 1 else 0)
  {
  }

  lemma OwnerWithin(cfg: Config, l: Life, r: KeyPackage)
    requires Numbered(l) && QuotaOk(cfg, Held(l))
    ensures var s, id := Held(DoPublish(cfg, l, r).0), r.stablePubkey;
            Within(cfg, |OfId(s, id)|, |LastResortsIn(s, id)|)
  {
    hide Numbered, DoPublish, Recs, K.Held, OfId, LastResortsIn, RegularIn, OverQuota;
    var s, id, n := Held(l), r.stablePubkey, Evicted(cfg, Held(l), r);
    var room := Room(cfg, s, r);
    PublishOutcomes(cfg, l, r);
    UniqueHeld(l);
    EvictOldest(s, id, n);
    CountsAdd(s, id);
    CountsAdd(room, id);
    Pushed(room, r, id);
    assert Within(cfg, |OfId(s, id)|, |LastResortsIn(s, id)|);
    if !Refused(cfg, l, r) {
      RoomForOne(cfg, |OfId(s, id)|, |LastResortsIn(s, id)|, r.isLastResort);
    }
  }

  lemma OthersSame(cfg: Config, l: Life, r: KeyPackage, other: Name)
    requires Numbered(l) && other != r.stablePubkey
    ensures OfId(Held(DoPublish(cfg, l, r).0), other) == OfId(Held(l), other)
  {
    hide Numbered, DoPublish, Recs, K.Held, Refused;
    PublishOutcomes(cfg, l, r);
    UniqueHeld(l);
    EvictOldest(Held(l), r.stablePubkey, Evicted(cfg, Held(l), r));
    Pushed(Room(cfg, Held(l), r), r, other);
  }

  lemma PublishKeepsQuota(cfg: Config, l: Life, r: KeyPackage)
    requires Numbered(l) && QuotaOk(cfg, Held(l))
    ensures QuotaOk(cfg, Held(DoPublish(cfg, l, r).0))
  {
    hide Numbered, DoPublish, Recs, Within;
    forall other
      ensures var s := Held(DoPublish(cfg, l, r).0); Within(cfg, |OfId(s, other)|, |LastResortsIn(s, other)|)
    {
      if other == r.stablePubkey {
        OwnerWithin(cfg, l, r);
      } else {
        OthersSame(cfg, l, r, other);
        assert Within(cfg, |OfId(Held(l), other)|, |LastResortsIn(Held(l), other)|);
      }
    }
  }

  lemma UniqueHeld(l: Life)
    requires Numbered(l)
    ensures K.UniqueRefs(Held(l))
  {
  }

  // ----- Consumes and removals only take away -----

  lemma FilterKeepsQuota(cfg: Config, s: Packages, q: KeyPackage -> bool)
    requires QuotaOk(cfg, s)
    ensures QuotaOk(cfg, Filter(s, q))
  {
    forall id
      ensures Within(cfg, |OfId(Filter(s, q), id)|, |LastResortsIn(Filter(s, q), id)|)
    {
      assert Within(cfg, |OfId(s, id)|, |LastResortsIn(s, id)|);
      ListsUnder(s, q, id);
    }
  }

  /** A consume keeps the records or removes the one it hands out. */
  lemma ConsumedRecords(l: Life, identifier: Name)
    requires Numbered(l)
    ensures var out := DoConsume(l, identifier).1.package;
            Held(DoConsume(l, identifier).0) ==
            if out.Some? && !out.value.isLastResort then Filter(Held(l), K.LacksRef(out.value.kpRef)) else Held(l)
  {
    hide Numbered, K.SqlConsume, K.SqlRemove, Recs;
    ConsumedTable(l, identifier);
    var out := DoConsume(l, identifier).1.package;
    if out.Some? {
      RemovedRecords(l, out.value.kpRef);
    }
  }

  lemma ConsumedTable(l: Life, identifier: Name)
    requires Numbered(l)
    ensures var (t, out) := K.SqlConsume(l.t, identifier);
            t == if out.Some? && !out.value.isLastResort then K.SqlRemove(l.t, out.value.kpRef) else l.t
  {
    ConsumeIsRemove(l.t, identifier);
  }

  lemma RemoveOneRecords(l: Life, ref: Name)
    requires Numbered(l)
    ensures Numbered(RemoveOne(l, ref)) && Held(RemoveOne(l, ref)) == Filter(Held(l), K.LacksRef(ref))
  {
    hide Recs, K.SqlRemove, K.UniqueRefs, TableOk, Ascending;
    RemovedRecords(l, ref);
    RemoveNumbered(l, ref);
  }

  lemma {:induction false} RemoveKeepsQuota(cfg: Config, l: Life, client: Name, refs: seq<Name>)
    requires Numbered(l) && QuotaOk(cfg, Held(l))
    ensures QuotaOk(cfg, Held(RemoveEach(l, client, refs).0))
    decreases |refs|
  {
    hide Numbered, QuotaOk, K.SqlFind, Recs, RemoveOne;
    if refs != [] && K.SqlFind(l.t, refs[0]).Some? && K.SqlFind(l.t, refs[0]).value.stablePubkey == client {
      RemoveOneRecords(l, refs[0]);
      FilterKeepsQuota(cfg, Held(l), K.LacksRef(refs[0]));
      RemoveKeepsQuota(cfg, RemoveOne(l, refs[0]), client, refs[1..]);
    }
  }

  lemma {:induction false} RunQuota(cfg: Config, steps: seq<Step>)
    ensures QuotaOk(cfg, Held(After(cfg, steps)))
  {
    hide QuotaOk, DoPublish, DoConsume, RemoveEach, Numbered, Recs;
    if steps == [] {
      StartQuota(cfg);
    } else {
      var l := After(cfg, Front(steps));
      RunQuota(cfg, Front(steps));
      RunConserves(cfg, Front(steps));
      match Last(steps)
      case Publish(r) => PublishKeepsQuota(cfg, l, r);
      case Consume(identifier) =>
        ConsumedRecords(l, identifier);
        ConsumeKeepsQuota(cfg, l, identifier);
      case Remove(client, refs) => RemoveKeepsQuota(cfg, l, client, refs);
    }
  }

  lemma StartQuota(cfg: Config)
    ensures QuotaOk(cfg, Held(Start()))
  {
  }

  lemma ConsumeKeepsQuota(cfg: Config, l: Life, identifier: Name)
    requires Numbered(l) && QuotaOk(cfg, Held(l))
    ensures QuotaOk(cfg, Held(DoConsume(l, identifier).0))
  {
    hide Numbered, QuotaOk, Recs;
    ConsumedRecords(l, identifier);
    var out := DoConsume(l, identifier).1.package;
    if out.Some? {
      FilterKeepsQuota(cfg, Held(l), K.LacksRef(out.value.kpRef));
    }
  }

  /** The quota invariant: with both limits set, no run ever holds more packages of an
      identity, or more last resorts of it, than the limits say. */
  lemma QuotaNeverExceeded(cfg: Config, steps: seq<Step>, id: Name)
    requires cfg.maxPerIdentity >= 1 && cfg.maxLastResort >= 1
    ensures |OfId(Held(After(cfg, steps)), id)| <= cfg.maxPerIdentity
    ensures |LastResortsIn(Held(After(cfg, steps)), id)| <= cfg.maxLastResort
  {
    hide After, Recs;
    RunQuota(cfg, steps);
    assert Within(cfg, |OfId(Held(After(cfg, steps)), id)|, |LastResortsIn(Held(After(cfg, steps)), id)|);
  }

  /** A publish refused by the quota leaves everything as it was, although eviction
      runs before the check. */
  lemma RefusalChangesNothing(cfg: Config, steps: seq<Step>, r: KeyPackage)
    requires DoPublish(cfg, After(cfg, steps), r).1 == QuotaExceeded
    ensures DoPublish(cfg, After(cfg, steps), r).0 == After(cfg, steps)
  {
    hide After, QuotaOk, Recs, Numbered;
    var l := After(cfg, steps);
    RunQuota(cfg, steps);
    RunConserves(cfg, steps);
    PublishOutcomes(cfg, l, r);
    RefusedEvictsNothing(cfg, l, r);
    NothingEvicted(cfg, l, r);
  }

  lemma NothingEvicted(cfg: Config, l: Life, r: KeyPackage)
    requires Evicted(cfg, Held(l), r) == 0
    ensures Victims(cfg, l, r.stablePubkey, r.isLastResort) == []
  {
  }

  /** An accepted last resort joins the newest ones: the survivors are the last
      `maxLastResort` of the old ones and the new one. */
  lemma NewestSurvive(cfg: Config, steps: seq<Step>, r: KeyPackage)
    requires cfg.maxLastResort >= 1 && r.isLastResort
    requires DoPublish(cfg, After(cfg, steps), r).1 == Accepted
    ensures var l, id := After(cfg, steps), r.stablePubkey;
            var all := LastResortsIn(Held(l), id) + [r];
            LastResortsIn(Held(DoPublish(cfg, l, r).0), id) ==
            if |all| <= cfg.maxLastResort then all else all[|all| - cfg.maxLastResort..]
  {
    hide After, Recs, Numbered, DoPublish, K.Held, K.UniqueRefs, OfId, LastResortsIn, RegularIn, Filter;
    var l, id := After(cfg, steps), r.stablePubkey;
    var s := Held(l);
    RunConserves(cfg, steps);
    PublishOutcomes(cfg, l, r);
    UniqueHeld(l);
    EvictOldest(s, id, Evicted(cfg, s, r));
    Pushed(Room(cfg, s, r), r, id);
  }

  // ----- Explicit removal -----

  predicate OwnedBy(s: Packages, ref: Name, client: Name) {
    exists x :: x in s && x.kpRef == ref && x.stablePubkey == client
  }

  lemma OwnedAfterRemoval(s: Packages, gone: Name, ref: Name, client: Name)
    ensures OwnedBy(Filter(s, K.LacksRef(gone)), ref, client) <==> ref != gone && OwnedBy(s, ref, client)
  {
    FilterMembers(s, K.LacksRef(gone));
  }

  lemma FoundIsOwned(l: Life, ref: Name, client: Name)
    requires Numbered(l)
    ensures OwnedBy(Held(l), ref, client) <==>
            K.SqlFind(l.t, ref).Some? && K.SqlFind(l.t, ref).value.stablePubkey == client
  {
    var s := Held(l);
    K.SqlFindIsFind(l.t, s, ref);
    K.FindMeaning(s, ref);
    forall x | x in s && x.kpRef == ref
      ensures x == K.Find(s, ref).value
    {
      K.SameRef(s, x, K.Find(s, ref).value);
    }
  }

  lemma OthersKeepTheirs(s: Packages, ref: Name, client: Name, other: Name)
    requires K.UniqueRefs(s) && OwnedBy(s, ref, client) && other != client
    ensures OfId(Filter(s, K.LacksRef(ref)), other) == OfId(s, other)
  {
    hide K.UniqueRefs;
    ListsUnder(s, K.LacksRef(ref), other);
    FilterMembers(s, K.Of(other));
    var x :| x in s && x.kpRef == ref && x.stablePubkey == client;
    forall y | y in OfId(s, other)
      ensures y.kpRef != ref
    {
      if y.kpRef == ref {
        K.SameRef(s, x, y);
      }
    }
    FilterAll(OfId(s, other), K.LacksRef(ref));
  }

  /** No removal request touches another identity's packages. */
  lemma {:induction false} RemovalStaysAtHome(l: Life, client: Name, refs: seq<Name>, other: Name)
    requires Numbered(l) && other != client
    ensures OfId(Held(RemoveEach(l, client, refs).0), other) == OfId(Held(l), other)
    decreases |refs|
  {
    hide Numbered, Recs, RemoveOne, K.SqlFind, OwnedBy;
    if refs != [] {
      FoundIsOwned(l, refs[0], client);
      if OwnedBy(Held(l), refs[0], client) {
        RemoveOneRecords(l, refs[0]);
        UniqueHeld(l);
        OthersKeepTheirs(Held(l), refs[0], client, other);
        RemovalStaysAtHome(RemoveOne(l, refs[0]), client, refs[1..], other);
      }
    }
  }

  ghost predicate AllOwned(s: Packages, refs: seq<Name>, client: Name) {
    Distinct(refs) && forall ref :: ref in refs ==> OwnedBy(s, ref, client)
  }

  lemma OwnedStep(s: Packages, refs: seq<Name>, client: Name)
    requires refs != []
    ensures AllOwned(s, refs, client) <==>
            OwnedBy(s, refs[0], client) && AllOwned(Filter(s, K.LacksRef(refs[0])), refs[1..], client)
  {
    hide OwnedBy;
    var rest := Filter(s, K.LacksRef(refs[0]));
    forall ref
      ensures OwnedBy(rest, ref, client) <==> ref != refs[0] && OwnedBy(s, ref, client)
    {
      OwnedAfterRemoval(s, refs[0], ref, client);
    }
    DistinctCons(refs);
    assert forall ref :: ref in refs <==> ref == refs[0] || ref in refs[1..];
  }

  lemma DistinctCons(refs: seq<Name>)
    requires refs != []
    ensures Distinct(refs) <==> refs[0] !in refs[1..] && Distinct(refs[1..])
  {
    var rest := refs[1..];
    assert forall i :: 0 <= i < |rest| ==> rest[i] == refs[i + 1];
    if Distinct(rest) && refs[0] !in rest {
      forall i, j | 0 <= i < j < |refs|
        ensures refs[i] != refs[j]
      {
        assert refs[j] == rest[j - 1];
        if i > 0 {
          assert refs[i] == rest[i - 1];
        }
      }
    }
    if Distinct(refs) {
      forall i, j | 0 <= i < j < |rest|
        ensures rest[i] != rest[j]
      {
        assert rest[i] == refs[i + 1] && rest[j] == refs[j + 1];
      }
    }
  }

  /** A request succeeds exactly when it names distinct packages of the client, and
      then removes exactly those. */
  lemma {:induction false} RemovalIsExact(l: Life, client: Name, refs: seq<Name>)
    requires Numbered(l)
    ensures RemoveEach(l, client, refs).1 == Removed <==> AllOwned(Held(l), refs, client)
    ensures RemoveEach(l, client, refs).1 == Removed ==>
              Held(RemoveEach(l, client, refs).0) == Filter(Held(l), LacksRefs(refs))
    decreases |refs|
  {
    hide Numbered, Recs, RemoveOne, K.SqlFind, OwnedBy;
    if refs == [] {
      FilterAll(Held(l), LacksRefs(refs));
    } else {
      hide AllOwned;
      FoundIsOwned(l, refs[0], client);
      OwnedStep(Held(l), refs, client);
      if OwnedBy(Held(l), refs[0], client) {
        RemoveOneRecords(l, refs[0]);
        RemovalIsExact(RemoveOne(l, refs[0]), client, refs[1..]);
        assert forall ref :: ref in refs <==> ref == refs[0] || ref in refs[1..];
        FilterTwice(Held(l), K.LacksRef(refs[0]), LacksRefs(refs[1..]), LacksRefs(refs));
      }
    }
  }

  // ----- Exactly when a publish is refused -----

  /** Without a limit on all packages nothing is refused. */
  lemma NoLimitRefusesNothing(cfg: Config, steps: seq<Step>, r: KeyPackage)
    requires cfg.maxPerIdentity == 0
    ensures DoPublish(cfg, After(cfg, steps), r).1 != QuotaExceeded
  {
    hide After, Evict, Victims, K.SqlPublish;
  }

  /** With one, a regular package is refused exactly when its owner already holds as many
      packages as the limit allows. */
  lemma RegularRefusedIff(cfg: Config, steps: seq<Step>, r: KeyPackage)
    requires cfg.maxPerIdentity > 0 && !r.isLastResort
    ensures var held := OfId(Held(After(cfg, steps)), r.stablePubkey);
            DoPublish(cfg, After(cfg, steps), r).1 == QuotaExceeded <==> |held| >= cfg.maxPerIdentity
  {
    hide After, Evict, Victims, K.SqlPublish, OfId, LastResortsIn;
  }

  /** A last resort is refused exactly when the owner's regular packages, the last resorts
      that its eviction leaves, and it together exceed the limit; when it is accepted,
      these are what the owner then holds. */
  lemma LastResortRefusedIff(cfg: Config, steps: seq<Step>, r: KeyPackage)
    requires cfg.maxPerIdentity > 0 && cfg.maxLastResort > 0 && r.isLastResort
    ensures var s, id := Held(After(cfg, steps)), r.stablePubkey;
            var resorts := |LastResortsIn(s, id)|;
            var left := if resorts >= cfg.maxLastResort then cfg.maxLastResort - 1 else resorts;
            var out := DoPublish(cfg, After(cfg, steps), r);
            && (out.1 == QuotaExceeded <==> |RegularIn(s, id)| + left + 1 > cfg.maxPerIdentity)
            && (out.1 == Accepted ==>
                  && |LastResortsIn(Held(out.0), id)| == left + 1
                  && |OfId(Held(out.0), id)| == |RegularIn(s, id)| + left + 1)
  {
    hide After, Evict, Victims, K.SqlPublish, OfId, LastResortsIn, RegularIn, DoPublish, Numbered, Recs, K.Held;
    var l, id := After(cfg, steps), r.stablePubkey;
    var s, room := Held(l), Room(cfg, Held(l), r);
    RunConserves(cfg, steps);
    RunQuota(cfg, steps);
    PublishOutcomes(cfg, l, r);
    UniqueHeld(l);
    assert Within(cfg, |OfId(s, id)|, |LastResortsIn(s, id)|);
    CountsAdd(s, id);
    EvictOldest(s, id, Evicted(cfg, s, r));
    CountsAdd(room, id);
    Pushed(room, r, id);
  }

  /** With no limit on last resorts only the owner's regular packages count. */
  lemma UncountedRefusedIff(cfg: Config, steps: seq<Step>, r: KeyPackage)
    requires cfg.maxPerIdentity > 0 && cfg.maxLastResort == 0 && r.isLastResort
    ensures var s, id := Held(After(cfg, steps)), r.stablePubkey;
            DoPublish(cfg, After(cfg, steps), r).1 == QuotaExceeded <==> |RegularIn(s, id)| + 1 > cfg.maxPerIdentity
  {
    hide After, Evict, Victims, K.SqlPublish, OfId, LastResortsIn, RegularIn;
    CountsAdd(Held(After(cfg, steps)), r.stablePubkey);
  }

  // ----- What a publish stores -----

  function OwnLastResort(id: Name): KeyPackage -> bool {
    (r: KeyPackage) => r.stablePubkey == id && r.isLastResort
  }

  function NotAmong(gone: Packages): KeyPackage -> bool {
    (r: KeyPackage) => r !in gone
  }

  /** What makes room for `r`: for a last resort, when these are limited, the oldest of its
      owner's, as many as it takes to leave one place; otherwise nothing. */
  function Displaced(cfg: Config, s: Packages, r: KeyPackage): Packages {
    var mine := Filter(s, OwnLastResort(r.stablePubkey));
    if r.isLastResort && cfg.maxLastResort > 0 && |mine| >= cfg.maxLastResort
    then mine[..|mine| - cfg.maxLastResort + 1]
    else []
  }

  lemma RoomIsLeft(cfg: Config, s: Packages, r: KeyPackage)
    requires K.UniqueRefs(s)
    ensures Room(cfg, s, r) == Filter(s, NotAmong(Displaced(cfg, s, r)))
  {
    hide K.UniqueRefs;
    var id, gone := r.stablePubkey, Displaced(cfg, s, r);
    FilterTwice(s, K.Of(id), K.LastResort(), OwnLastResort(id));
    assert gone == LastResortsIn(s, id)[..Evicted(cfg, s, r)];
    FilterMembers(s, OwnLastResort(id));
    forall x | x in s
      ensures LacksRefs(RefsOf(gone))(x) <==> NotAmong(gone)(x)
    {
      NamedIffListed(s, gone, x);
    }
    FilterAgree(s, LacksRefs(RefsOf(gone)), NotAmong(gone));
  }

  /** A publish that the quota lets through makes room first; then it fails if what is left
      holds its reference, and otherwise goes behind it. A refused one changes nothing. */
  lemma PublishStores(cfg: Config, steps: seq<Step>, r: KeyPackage)
    ensures var l := After(cfg, steps);
            var out, left := DoPublish(cfg, l, r), Filter(Held(l), NotAmong(Displaced(cfg, Held(l), r)));
            && (out.1 == QuotaExceeded ==> out.0 == l)
            && (out.1 != QuotaExceeded ==>
                  && out.1 == (if K.Held(left, r.kpRef) then StorageFailed else Accepted)
                  && Held(out.0) == (if K.Held(left, r.kpRef) then left else left + [r]))
  {
    hide After, Recs, Numbered, DoPublish, Room, Displaced, Refused, Filter, K.UniqueRefs;
    var l := After(cfg, steps);
    RunConserves(cfg, steps);
    UniqueHeld(l);
    PublishOutcomes(cfg, l, r);
    RoomIsLeft(cfg, Held(l), r);
    if DoPublish(cfg, l, r).1 == QuotaExceeded {
      RefusalChangesNothing(cfg, steps, r);
    }
  }

  // ----- Where a removal request stops -----

  lemma HoldsAfterRemoval(s: Packages, gone: Name, ref: Name)
    ensures K.Held(Filter(s, K.LacksRef(gone)), ref) <==> ref != gone && K.Held(s, ref)
  {
    FilterMembers(s, K.LacksRef(gone));
  }

  lemma FoundIffHeld(l: Life, ref: Name)
    requires Numbered(l)
    ensures K.SqlFind(l.t, ref).Some? <==> K.Held(Held(l), ref)
  {
    K.SqlFindIsFind(l.t, Held(l), ref);
    K.FindMeaning(Held(l), ref);
  }

  /** The first reference that is not, or no longer, a held package of the client stops the
      request: as unknown if no one holds it then, as unauthorized if somebody else does.
      What was named before it stays removed, and nothing else. */
  lemma {:induction false} RemovalStops(l: Life, client: Name, refs: seq<Name>, k: nat)
    requires Numbered(l) && k < |refs| && AllOwned(Held(l), refs[..k], client)
    requires !(OwnedBy(Held(l), refs[k], client) && refs[k] !in refs[..k])
    ensures RemoveEach(l, client, refs).1 ==
            if K.Held(Held(l), refs[k]) && refs[k] !in refs[..k] then Unauthorized(refs[k]) else UnknownRef(refs[k])
    ensures Held(RemoveEach(l, client, refs).0) == Filter(Held(l), LacksRefs(refs[..k]))
    decreases k
  {
    hide Numbered, Recs, RemoveOne, K.SqlFind, OwnedBy, AllOwned, K.Held;
    var s := Held(l);
    FoundIsOwned(l, refs[0], client);
    FoundIffHeld(l, refs[0]);
    if k == 0 {
      FilterAll(s, LacksRefs(refs[..0]));
    } else {
      var gone, rest := refs[0], Filter(s, K.LacksRef(refs[0]));
      assert refs[..k][0] == gone && refs[..k][1..] == refs[1..][..k - 1];
      OwnedStep(s, refs[..k], client);
      RemoveOneRecords(l, gone);
      OwnedAfterRemoval(s, gone, refs[k], client);
      HoldsAfterRemoval(s, gone, refs[k]);
      assert refs[k] in refs[..k] <==> refs[k] == gone || refs[k] in refs[1..][..k - 1] by {
        assert refs[..k] == [gone] + refs[1..][..k - 1];
      }
      RemovalStops(RemoveOne(l, gone), client, refs[1..], k - 1);
      FilterTwice(s, K.LacksRef(gone), LacksRefs(refs[1..][..k - 1]), LacksRefs(refs[..k])) by {
        assert forall ref :: ref in refs[..k] <==> ref == gone || ref in refs[1..][..k - 1] by {
          assert refs[..k] == [gone] + refs[1..][..k - 1];
        }
      }
    }
  }

  /** A request that names nothing is refused as such and changes nothing. */
  lemma EmptyRemovalIsInvalid(cfg: Config, l: Life, client: Name)
    ensures Do(cfg, l, Remove(client, [])) == (l, InvalidInput)
    ensures forall refs :: refs != [] ==> Do(cfg, l, Remove(client, refs)) == RemoveEach(l, client, refs)
  {
  }
}
