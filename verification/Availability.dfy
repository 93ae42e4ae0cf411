/** Last-resort availability over whole runs, the exact conditions under which a
    guarantee of the quota fails, and the age of what is evicted. */
module Availability {
  import opened Seqs
  import opened Records
  import opened Tables
  import opened Lifecycle
  import opened Quotas
  import K = KeyStore

  predicate HasLastResort(s: Packages, id: Name) {
    LastResortsIn(s, id) != []
  }

  /** The identity does not ask to remove one of its last resorts. */
  predicate Retains(s: Packages, client: Name, refs: seq<Name>, id: Name) {
    client == id ==> forall r :: r in s && r.stablePubkey == id && r.isLastResort ==> r.kpRef !in refs
  }

  /** The steps that leave an identity its last resorts: all but its own removal of one
      and its own losing publish. */
  predicate Spares(cfg: Config, s: Packages, step: Step, id: Name) {
    match step
    case Publish(r) => !Losing(cfg, s, r, id)
    case Consume(_) => true
    case Remove(client, refs) => Retains(s, client, refs, id)
  }

  predicate FreshStep(s: Packages, step: Step) {
    step.Publish? ==> !K.Held(s, step.record.kpRef)
  }

  ghost predicate FreshRun(cfg: Config, steps: seq<Step>) {
    steps == [] || (FreshRun(cfg, Front(steps)) && FreshStep(Held(After(cfg, Front(steps))), Last(steps)))
  }

  /** Removing a record that is no last resort of `id` leaves those as they are. */
  lemma OthersRemoved(s: Packages, x: KeyPackage, id: Name)
    requires K.UniqueRefs(s) && x in s && !(x.stablePubkey == id && x.isLastResort)
    ensures LastResortsIn(Filter(s, K.LacksRef(x.kpRef)), id) == LastResortsIn(s, id)
  {
    hide K.UniqueRefs;
    ListsUnder(s, K.LacksRef(x.kpRef), id);
    OwnedAndResort(s, id);
    forall r | r in LastResortsIn(s, id)
      ensures r.kpRef != x.kpRef
    {
      if r.kpRef == x.kpRef {
        K.SameRef(s, r, x);
      }
    }
    FilterAll(LastResortsIn(s, id), K.LacksRef(x.kpRef));
  }

  lemma ConsumeSpares(l: Life, identifier: Name, id: Name)
    requires Numbered(l)
    ensures LastResortsIn(Held(DoConsume(l, identifier).0), id) == LastResortsIn(Held(l), id)
  {
    hide Recs, K.UniqueRefs, TableOk, Ascending, LastResortsIn, K.SqlConsume;
    ConsumedRecords(l, identifier);
    var out := DoConsume(l, identifier).1.package;
    if out.Some? {
      HandedOutOnce(l, identifier, out.value);
      if !out.value.isLastResort {
        OthersRemoved(Held(l), out.value, id);
      }
    }
  }

  lemma {:induction false} RemoveSpares(l: Life, client: Name, refs: seq<Name>, id: Name)
    requires Numbered(l) && Retains(Held(l), client, refs, id)
    ensures LastResortsIn(Held(RemoveEach(l, client, refs).0), id) == LastResortsIn(Held(l), id)
    decreases |refs|
  {
    hide Recs, Numbered, LastResortsIn, RemoveOne, K.SqlFind;
    if refs != [] && K.SqlFind(l.t, refs[0]).Some? && K.SqlFind(l.t, refs[0]).value.stablePubkey == client {
      var x := FoundIn(l, refs[0]);
      UniqueHeld(l);
      RemoveOneRecords(l, refs[0]);
      OthersRemoved(Held(l), x, id);
      FilterMembers(Held(l), K.LacksRef(refs[0]));
      RemoveSpares(RemoveOne(l, refs[0]), client, refs[1..], id);
    }
  }

  lemma FoundIn(l: Life, ref: Name) returns (x: KeyPackage)
    requires Numbered(l) && K.SqlFind(l.t, ref).Some?
    ensures x == K.SqlFind(l.t, ref).value && x in Held(l) && x.kpRef == ref
  {
    x := K.SqlFind(l.t, ref).value;
    K.SqlFindIsFind(l.t, Held(l), ref);
    K.FindMeaning(Held(l), ref);
  }

  predicate NamesOwnLastResort(s: Packages, r: KeyPackage) {
    exists x :: x in LastResortsIn(s, r.stablePubkey) && x.kpRef == r.kpRef
  }

  /** The one kind of publish that costs an identity its last resort: only one may be
      kept, and the reference is held by another package, so that the insertion fails
      after the eviction. */
  predicate Losing(cfg: Config, s: Packages, r: KeyPackage, id: Name) {
    && cfg.maxLastResort == 1 && r.stablePubkey == id && r.isLastResort
    && K.Held(s, r.kpRef) && !NamesOwnLastResort(s, r)
  }

  /** A reference held by a record that survives the eviction stays held. */
  lemma StillHeld(s: Packages, r: KeyPackage, n: nat)
    requires K.UniqueRefs(s) && n <= |LastResortsIn(s, r.stablePubkey)|
    ensures var lrs := LastResortsIn(s, r.stablePubkey);
            K.Held(Filter(s, LacksRefs(RefsOf(lrs[..n]))), r.kpRef) <==>
            K.Held(s, r.kpRef) && !(exists x :: x in lrs[..n] && x.kpRef == r.kpRef)
  {
    hide K.UniqueRefs;
    var gone := LastResortsIn(s, r.stablePubkey)[..n];
    RefsOfMembers(gone, r.kpRef);
    FilterMembers(s, LacksRefs(RefsOf(gone)));
  }

  /** A publish by another identity, or of a regular package, leaves them all. */
  lemma OtherPublishSpares(cfg: Config, l: Life, r: KeyPackage, id: Name)
    requires Numbered(l) && !(r.stablePubkey == id && r.isLastResort)
    ensures LastResortsIn(Held(DoPublish(cfg, l, r).0), id) == LastResortsIn(Held(l), id)
  {
    hide Recs, Numbered, DoPublish, K.UniqueRefs, K.Held, Refused;
    var s, n := Held(l), Evicted(cfg, Held(l), r);
    UniqueHeld(l);
    PublishOutcomes(cfg, l, r);
    EvictOldest(s, r.stablePubkey, n);
    Pushed(Room(cfg, s, r), r, id);
  }

  /** A last resort of its own is accepted, or refused without an eviction, or fails
      with what the eviction left. */
  lemma OwnPublishLeaves(cfg: Config, l: Life, r: KeyPackage)
    requires Numbered(l) && QuotaOk(cfg, Held(l)) && r.isLastResort
    ensures var s, n := Held(l), Evicted(cfg, Held(l), r); var lrs := LastResortsIn(s, r.stablePubkey);
            LastResortsIn(Held(DoPublish(cfg, l, r).0), r.stablePubkey) ==
            if Refused(cfg, l, r) then lrs
            else if K.Held(s, r.kpRef) && !(exists x :: x in lrs[..n] && x.kpRef == r.kpRef) then lrs[n..]
            else lrs[n..] + [r]
  {
    hide Recs, Numbered, DoPublish, K.UniqueRefs, K.Held, Refused, QuotaOk, LastResortsIn;
    var s, n := Held(l), Evicted(cfg, Held(l), r);
    UniqueHeld(l);
    PublishOutcomes(cfg, l, r);
    EvictOldest(s, r.stablePubkey, n);
    Pushed(Room(cfg, s, r), r, r.stablePubkey);
    StillHeld(s, r, n);
    if Refused(cfg, l, r) {
      RefusedEvictsNothing(cfg, l, r);
    }
  }

  /** Every other publish, refused, failed or accepted, fresh or not, leaves an identity
      that has a last resort with one. */
  lemma PublishSparesIff(cfg: Config, l: Life, r: KeyPackage, id: Name)
    requires Numbered(l) && QuotaOk(cfg, Held(l)) && HasLastResort(Held(l), id)
    ensures HasLastResort(Held(DoPublish(cfg, l, r).0), id) <==> !Losing(cfg, Held(l), r, id)
  {
    hide Recs, Numbered, DoPublish, K.UniqueRefs, K.Held, Refused, LastResortsIn;
    if r.stablePubkey != id || !r.isLastResort {
      OtherPublishSpares(cfg, l, r, id);
    } else {
      var s, n, lrs := Held(l), Evicted(cfg, Held(l), r), LastResortsIn(Held(l), id);
      assert Within(cfg, |OfId(s, id)|, |lrs|);
      OwnPublishLeaves(cfg, l, r);
      if Refused(cfg, l, r) {
        RefusedEvictsNothing(cfg, l, r);
      }
      if cfg.maxLastResort == 1 {
        assert lrs[..n] == lrs;
      }
    }
  }

  lemma StepSpares(cfg: Config, l: Life, step: Step, id: Name)
    requires Numbered(l) && QuotaOk(cfg, Held(l)) && HasLastResort(Held(l), id)
    requires Spares(cfg, Held(l), step, id)
    ensures HasLastResort(Held(Do(cfg, l, step).0), id)
  {
    hide Recs, Numbered, QuotaOk, DoPublish, DoConsume, RemoveEach, Losing;
    match step
    case Publish(r) => PublishSparesIff(cfg, l, r, id);
    case Consume(identifier) => ConsumeSpares(l, identifier, id);
    case Remove(client, refs) => RemoveSpares(l, client, refs, id);
  }

  /** All steps of `more`, taken after `steps`, spare the last resorts of `id`. */
  ghost predicate SparesAll(cfg: Config, steps: seq<Step>, more: seq<Step>, id: Name) {
    more == [] ||
    (SparesAll(cfg, steps, Front(more), id) && Spares(cfg, Held(After(cfg, steps + Front(more))), Last(more), id))
  }

  lemma {:induction false} LastResortStays(cfg: Config, steps: seq<Step>, more: seq<Step>, id: Name)
    requires HasLastResort(Held(After(cfg, steps)), id)
    requires SparesAll(cfg, steps, more, id)
    ensures HasLastResort(Held(After(cfg, steps + more)), id)
  {
    hide Recs, Numbered, QuotaOk, HasLastResort, Do, Spares;
    if more == [] {
      assert steps + more == steps;
    } else {
      assert Front(steps + more) == steps + Front(more) && Last(steps + more) == Last(more);
      LastResortStays(cfg, steps, Front(more), id);
      var l := After(cfg, steps + Front(more));
      RunConserves(cfg, steps + Front(more));
      RunQuota(cfg, steps + Front(more));
      StepSpares(cfg, l, Last(more), id);
    }
  }

  lemma AcceptedIsHeld(cfg: Config, l: Life, r: KeyPackage)
    requires Numbered(l) && r.isLastResort && DoPublish(cfg, l, r).1 == Accepted
    ensures HasLastResort(Held(DoPublish(cfg, l, r).0), r.stablePubkey)
  {
    hide Recs, Numbered, DoPublish, K.Held;
    PublishOutcomes(cfg, l, r);
    Pushed(Room(cfg, Held(l), r), r, r.stablePubkey);
  }

  lemma OfferedWhenHeld(l: Life, id: Name)
    requires Numbered(l) && HasLastResort(Held(l), id)
    ensures DoConsume(l, id).1.package.Some?
  {
    hide Recs, K.UniqueRefs, TableOk, Ascending, K.SqlConsume;
    var s := Held(l);
    OwnedAndResort(s, id);
    assert LastResortsIn(s, id)[0] in LastResortsIn(s, id);
    K.OfferMeaning(s, id);
    ConsumeIsChoice(l, id);
  }

  lemma ConsumeIsChoice(l: Life, id: Name)
    requires Numbered(l)
    ensures K.SqlConsume(l.t, id).1 == K.Choice(Held(l), id)
  {
    K.SqlConsumeHolds(l.t, Held(l), id);
  }

  /** Availability: once a last resort of an identity has been accepted, every consume
      by that identity hands out a package, whatever else happens in between, as long
      as the identity neither removes its last resorts nor makes a losing publish. */
  lemma LastResortAvailable(cfg: Config, steps: seq<Step>, r: KeyPackage, more: seq<Step>)
    requires r.isLastResort && DoPublish(cfg, After(cfg, steps), r).1 == Accepted
    requires SparesAll(cfg, steps + [Publish(r)], more, r.stablePubkey)
    ensures DoConsume(After(cfg, steps + [Publish(r)] + more), r.stablePubkey).1.package.Some?
  {
    hide Recs, Numbered, DoPublish, DoConsume, HasLastResort, SparesAll;
    var start := steps + [Publish(r)];
    assert Front(start) == steps;
    RunConserves(cfg, steps);
    AcceptedIsHeld(cfg, After(cfg, steps), r);
    LastResortStays(cfg, start, more, r.stablePubkey);
    RunConserves(cfg, start + more);
    OfferedWhenHeld(After(cfg, start + more), r.stablePubkey);
  }

  // ----- Exactly when a guarantee fails -----

  /** Re-publishing a held reference as a last resort costs the identity its last
      resort exactly when only one may be kept and the reference names another
      package: the eviction has happened when the insertion fails. */
  lemma HeldRefLosesLastResortIff(cfg: Config, steps: seq<Step>, r: KeyPackage)
    requires r.isLastResort && K.Held(Held(After(cfg, steps)), r.kpRef)
    requires HasLastResort(Held(After(cfg, steps)), r.stablePubkey)
    ensures !HasLastResort(Held(DoPublish(cfg, After(cfg, steps), r).0), r.stablePubkey) <==>
            cfg.maxLastResort == 1 && !NamesOwnLastResort(Held(After(cfg, steps)), r)
  {
    hide After, Recs, Numbered, DoPublish, QuotaOk, K.Held, NamesOwnLastResort;
    RunConserves(cfg, steps);
    RunQuota(cfg, steps);
    PublishSparesIff(cfg, After(cfg, steps), r, r.stablePubkey);
  }

  function Sample(ref: Name, isLastResort: bool): KeyPackage {
    KeyPackage("id", [], ref, isLastResort, 0, "")
  }

  lemma AcceptedIntoEmptyClass(cfg: Config, l: Life, r: KeyPackage)
    requires Numbered(l) && cfg == Config(0, 1) && LastResortsIn(Held(l), r.stablePubkey) == []
    requires !K.Held(Held(l), r.kpRef)
    ensures Held(DoPublish(cfg, l, r).0) == Held(l) + [r]
  {
    hide Recs, DoPublish, Numbered;
    PublishOutcomes(cfg, l, r);
    FilterAll(Held(l), LacksRefs([]));
  }

  /** One last resort may be kept. A regular "a" and a last resort "b" are published,
      then "a" again as a last resort: "b" is evicted, the insertion fails, and the
      identity is left without a last resort. */
  lemma HeldRefLosesOne()
    ensures var cfg := Config(0, 1);
            var steps := [] + [Publish(Sample("a", false))] + [Publish(Sample("b", true))];
            var r := Sample("a", true);
            && Held(After(cfg, steps)) == [Sample("a", false), Sample("b", true)]
            && DoPublish(cfg, After(cfg, steps), r).1 == StorageFailed
            && !HasLastResort(Held(DoPublish(cfg, After(cfg, steps), r).0), "id")
  {
    hide Recs, DoPublish, Numbered, QuotaOk;
    var cfg, a, b, r := Config(0, 1), Sample("a", false), Sample("b", true), Sample("a", true);
    var one := [] + [Publish(a)];
    var two := one + [Publish(b)];
    assert Front(one) == [] && Front(two) == one;
    StartIsEmpty();
    StartKeeps();
    AcceptedIntoEmptyClass(cfg, Start(), a);
    assert Held(After(cfg, one)) == [a];
    RunConserves(cfg, one);
    Pushed([], a, "id");
    AcceptedIntoEmptyClass(cfg, After(cfg, one), b);
    var s := Held(After(cfg, two));
    assert s == [a, b];
    Pushed([a], b, "id");
    assert [a] + [b] == [a, b] && [] + [a] == [a];
    assert LastResortsIn(s, "id") == [b];
    RunConserves(cfg, two);
    assert a in s && K.Held(s, "a");
    HeldRefLosesLastResortIff(cfg, two, r);
    LosesByFailing(cfg, After(cfg, two), r);
  }

  lemma LosesByFailing(cfg: Config, l: Life, r: KeyPackage)
    requires Numbered(l) && cfg.maxPerIdentity == 0 && r.isLastResort
    requires !HasLastResort(Held(DoPublish(cfg, l, r).0), r.stablePubkey)
    ensures DoPublish(cfg, l, r).1 == StorageFailed
  {
    hide Recs, DoPublish, Numbered, K.Held;
    PublishOutcomes(cfg, l, r);
    Pushed(Room(cfg, Held(l), r), r, r.stablePubkey);
  }

  /** A reference of `n` letters. */
  function Unary(n: nat): (ref: Name)
    ensures |ref| == n
  {
    if n == 0 then "" else Unary(n - 1) + "a"
  }

  function Flood(n: nat): seq<Step> {
    if n == 0 then [] else Flood(n - 1) + [Publish(Sample(Unary(n - 1), true))]
  }

  /** With no limit on last resorts they are not counted at all. */
  lemma {:induction false} FloodIsAccepted(cfg: Config, n: nat)
    requires cfg.maxLastResort == 0 && cfg.maxPerIdentity >= 1
    ensures var s := Held(After(cfg, Flood(n)));
            && FreshRun(cfg, Flood(n)) && |s| == n
            && forall r :: r in s ==> r.stablePubkey == "id" && r.isLastResort && |r.kpRef| < n
  {
    hide Recs, DoPublish, Numbered, K.UniqueRefs;
    if n == 0 {
      StartIsEmpty();
    } else {
      FloodIsAccepted(cfg, n - 1);
      var l := After(cfg, Flood(n - 1));
      var r := Sample(Unary(n - 1), true);
      assert Front(Flood(n)) == Flood(n - 1) && Last(Flood(n)) == Publish(r);
      RunConserves(cfg, Flood(n - 1));
      FloodStep(cfg, l, r);
    }
  }

  lemma StartIsEmpty()
    ensures Held(Start()) == []
  {
  }

  lemma FloodStep(cfg: Config, l: Life, r: KeyPackage)
    requires cfg.maxLastResort == 0 && cfg.maxPerIdentity >= 1 && Numbered(l) && r.isLastResort
    requires forall x :: x in Held(l) ==> x.stablePubkey == r.stablePubkey && x.isLastResort && x.kpRef != r.kpRef
    ensures Held(DoPublish(cfg, l, r).0) == Held(l) + [r]
  {
    hide Recs, DoPublish, Numbered;
    var s := Held(l);
    PublishOutcomes(cfg, l, r);
    FilterAll(s, K.Of(r.stablePubkey));
    FilterAll(s, K.LastResort());
    assert LastResortsIn(s, r.stablePubkey) == s && OfId(Held(l), r.stablePubkey) == s;
    assert s[..0] == [];
    FilterAll(s, LacksRefs([]));
  }

  /** The limit on all packages binds in every run exactly when last resorts are
      limited too. */
  lemma TotalBoundIffLastResortsLimited(cfg: Config)
    requires cfg.maxPerIdentity >= 1
    ensures (forall steps, id ::
               FreshRun(cfg, steps) ==> |OfId(Held(After(cfg, steps)), id)| <= cfg.maxPerIdentity)
            <==> cfg.maxLastResort >= 1
  {
    hide After, FreshRun, Recs;
    if cfg.maxLastResort >= 1 {
      forall steps, id
        ensures |OfId(Held(After(cfg, steps)), id)| <= cfg.maxPerIdentity
      {
        QuotaNeverExceeded(cfg, steps, id);
      }
    } else {
      var steps := Flood(cfg.maxPerIdentity + 1);
      FloodIsAccepted(cfg, cfg.maxPerIdentity + 1);
      FilterAll(Held(After(cfg, steps)), K.Of("id"));
      assert |OfId(Held(After(cfg, steps)), "id")| == cfg.maxPerIdentity + 1;
    }
  }
}
