/** The same life cycle over the in-memory backend: with fresh references every
    step has the same outcome, so the guarantees carry over. */
module MemoryLifecycle {
  import opened Seqs
  import opened Records
  import opened Tables
  import opened Lifecycle
  import opened Quotas
  import opened Availability
  import K = KeyStore

  type Shelf = Index<KeyPackage>

  function MemEvict(ix: Shelf, refs: seq<Name>): Shelf {
    if refs == [] then ix else K.MemRemove(MemEvict(ix, Front(refs)), Last(refs))
  }

  function MemVictims(cfg: Config, ix: Shelf, r: KeyPackage): seq<Name> {
    var existing := Filter(Get(ix, r.stablePubkey), K.LastResort());
    if r.isLastResort then RefsOf(existing[..Surplus(cfg, |existing|)]) else []
  }

  function MemPublish(cfg: Config, ix: Shelf, r: KeyPackage): (Shelf, Outcome) {
    var records := Get(ix, r.stablePubkey);
    var existing := Filter(records, K.LastResort());
    var room := MemEvict(ix, MemVictims(cfg, ix, r));
    if OverQuota(cfg, |records|, |existing|, r.isLastResort) then (room, QuotaExceeded)
    else (K.MemPublish(room, r), Accepted)
  }

  function MemRemoveEach(ix: Shelf, client: Name, refs: seq<Name>): (Shelf, Outcome)
    decreases |refs|
  {
    if refs == [] then (ix, Removed)
    else
      match K.MemFind(ix, refs[0])
      case None => (ix, UnknownRef(refs[0]))
      case Some(r) =>
        if r.stablePubkey != client then (ix, Unauthorized(refs[0]))
        else MemRemoveEach(K.MemRemove(ix, refs[0]), client, refs[1..])
  }

  function MemDo(cfg: Config, ix: Shelf, step: Step): (Shelf, Outcome) {
    match step
    case Publish(r) => MemPublish(cfg, ix, r)
    case Consume(identifier) => var consumed := K.MemConsume(ix, identifier); (consumed.0, Handed(consumed.1))
    case Remove(client, refs) => if refs == [] then (ix, InvalidInput) else MemRemoveEach(ix, client, refs)
  }

  function MemAfter(cfg: Config, steps: seq<Step>): Shelf {
    if steps == [] then NoKeys() else MemDo(cfg, MemAfter(cfg, Front(steps)), Last(steps)).0
  }

  lemma {:induction false} EvictAlike(ix: Shelf, l: Life, refs: seq<Name>)
    requires Numbered(l) && K.MemHolds(ix, Held(l))
    ensures Numbered(Evict(l, refs)) && K.MemHolds(MemEvict(ix, refs), Held(Evict(l, refs)))
  {
    hide Numbered, K.MemHolds, Recs, K.MemRemove, K.SqlRemove;
    if refs != [] {
      EvictAlike(ix, l, Front(refs));
      RemovedRecords(Evict(l, Front(refs)), Last(refs));
      K.MemRemoveHolds(MemEvict(ix, Front(refs)), Held(Evict(l, Front(refs))), Last(refs));
    }
  }

  lemma PublishAlike(cfg: Config, ix: Shelf, l: Life, r: KeyPackage)
    requires Numbered(l) && K.MemHolds(ix, Held(l)) && !K.Held(Held(l), r.kpRef)
    ensures K.MemHolds(MemPublish(cfg, ix, r).0, Held(DoPublish(cfg, l, r).0))
    ensures MemPublish(cfg, ix, r).1 == DoPublish(cfg, l, r).1
  {
    hide Numbered, K.MemHolds, Recs, K.MemPublish, K.SqlPublish, Evict, MemEvict;
    var victims := Victims(cfg, l, r.stablePubkey, r.isLastResort);
    K.ListIs(ix, Held(l), r.stablePubkey);
    EvictAlike(ix, l, victims);
    EvictedRecords(l, victims);
    FilterMembers(Held(l), LacksRefs(victims));
    var room := Evict(l, victims);
    assert !K.Held(Held(room), r.kpRef);
    InsertedRecords(room, r);
    K.FreshPublishHolds(MemEvict(ix, victims), Held(room), r);
  }

  lemma ConsumeAlike(ix: Shelf, l: Life, identifier: Name)
    requires Numbered(l) && K.MemHolds(ix, Held(l))
    ensures K.MemHolds(K.MemConsume(ix, identifier).0, Held(DoConsume(l, identifier).0))
    ensures Handed(K.MemConsume(ix, identifier).1) == DoConsume(l, identifier).1
  {
    hide K.MemHolds, K.MemConsume, K.SqlConsume, K.UniqueRefs, TableOk, Ascending;
    K.MemConsumeHolds(ix, Held(l), identifier);
    K.SqlConsumeHolds(l.t, Held(l), identifier);
  }

  lemma {:induction false} RemoveAlike(ix: Shelf, l: Life, client: Name, refs: seq<Name>)
    requires Numbered(l) && K.MemHolds(ix, Held(l))
    ensures K.MemHolds(MemRemoveEach(ix, client, refs).0, Held(RemoveEach(l, client, refs).0))
    ensures MemRemoveEach(ix, client, refs).1 == RemoveEach(l, client, refs).1
    decreases |refs|
  {
    hide Numbered, K.MemHolds, Recs, K.MemRemove, K.MemFind, K.SqlFind, RemoveOne;
    if refs != [] {
      K.LocateIsFind(ix, Held(l), refs[0]);
      FindAlike(l, refs[0]);
      if K.SqlFind(l.t, refs[0]).Some? && K.SqlFind(l.t, refs[0]).value.stablePubkey == client {
        RemoveOneRecords(l, refs[0]);
        K.MemRemoveHolds(ix, Held(l), refs[0]);
        RemoveAlike(K.MemRemove(ix, refs[0]), RemoveOne(l, refs[0]), client, refs[1..]);
      }
    }
  }

  lemma FindAlike(l: Life, ref: Name)
    requires Numbered(l)
    ensures K.SqlFind(l.t, ref) == K.Find(Held(l), ref)
  {
    K.SqlFindIsFind(l.t, Held(l), ref);
  }

  lemma StepAlike(cfg: Config, ix: Shelf, l: Life, step: Step)
    requires Numbered(l) && K.MemHolds(ix, Held(l)) && FreshStep(Held(l), step)
    ensures K.MemHolds(MemDo(cfg, ix, step).0, Held(Do(cfg, l, step).0))
    ensures MemDo(cfg, ix, step).1 == Do(cfg, l, step).1
  {
    hide Numbered, K.MemHolds, Recs, MemPublish, DoPublish, DoConsume, K.MemConsume, MemRemoveEach, RemoveEach;
    match step
    case Publish(r) => PublishAlike(cfg, ix, l, r);
    case Consume(identifier) => ConsumeAlike(ix, l, identifier);
    case Remove(client, refs) => RemoveAlike(ix, l, client, refs);
  }

  /** With fresh references the two backends take the adapter through the same
      outcomes and hold the same packages. */
  lemma {:induction false} BackendsAgree(cfg: Config, steps: seq<Step>)
    requires FreshRun(cfg, steps)
    ensures K.MemHolds(MemAfter(cfg, steps), Held(After(cfg, steps)))
    ensures steps != [] ==>
              MemDo(cfg, MemAfter(cfg, Front(steps)), Last(steps)).1 == Do(cfg, After(cfg, Front(steps)), Last(steps)).1
  {
    hide Numbered, MemDo, Do, Recs;
    if steps != [] {
      hide K.MemHolds, FreshStep;
      BackendsAgree(cfg, Front(steps));
      RunConserves(cfg, Front(steps));
      StepAlike(cfg, MemAfter(cfg, Front(steps)), After(cfg, Front(steps)), Last(steps));
    }
  }

  /** Availability in memory: the consume that follows such a run hands out a package. */
  lemma LastResortAvailableInMemory(cfg: Config, steps: seq<Step>, r: KeyPackage, more: seq<Step>)
    requires r.isLastResort && DoPublish(cfg, After(cfg, steps), r).1 == Accepted
    requires FreshRun(cfg, steps + [Publish(r)] + more)
    requires SparesAll(cfg, steps + [Publish(r)], more, r.stablePubkey)
    ensures K.MemConsume(MemAfter(cfg, steps + [Publish(r)] + more), r.stablePubkey).1.Some?
  {
    hide Numbered, MemAfter, After, DoPublish, DoConsume, FreshRun, SparesAll, K.MemHolds, K.MemConsume, Recs;
    var run := steps + [Publish(r)] + more;
    LastResortAvailable(cfg, steps, r, more);
    BackendsAgree(cfg, run);
    RunConserves(cfg, run);
    ConsumeAlike(MemAfter(cfg, run), After(cfg, run), r.stablePubkey);
  }
}
