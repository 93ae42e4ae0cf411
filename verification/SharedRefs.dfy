/** The in-memory backend accepts a reference that is already held, and removes by
    searching all identities in map order. So an eviction can take another
    identity's package; here is exactly when. */
module SharedRefs {
  import opened Seqs
  import opened Records
  import opened Tables
  import opened Lifecycle
  import opened MemoryLifecycle
  import K = KeyStore

  predicate Holds(list: K.Packages, ref: Name) {
    K.Position(list, ref) < |list|
  }

  /** The identities that the search meets before `id`. */
  function Ahead(keys: seq<Name>, id: Name): seq<Name> {
    if keys == [] || keys[0] == id then [] else [keys[0]] + Ahead(keys[1..], id)
  }

  predicate HeldAhead(ix: Shelf, id: Name, ref: Name) {
    exists k :: k in Ahead(ix.keys, id) && Holds(Get(ix, k), ref)
  }

  lemma {:induction false} LocateStopsAtFirst(ix: Shelf, keys: seq<Name>, id: Name, ref: Name)
    requires id in keys && Holds(Get(ix, id), ref)
    ensures var at := K.Locate(ix, keys, ref);
            && at.Some? && Holds(Get(ix, at.value), ref)
            && (if exists k :: k in Ahead(keys, id) && Holds(Get(ix, k), ref) then at.value in Ahead(keys, id)
                else at == Some(id))
    decreases |keys|
  {
    if keys[0] != id && !Holds(Get(ix, keys[0]), ref) {
      LocateStopsAtFirst(ix, keys[1..], id, ref);
    }
  }

  lemma {:induction false} AheadIsOther(keys: seq<Name>, id: Name)
    ensures id !in Ahead(keys, id)
    decreases |keys|
  {
    if keys != [] && keys[0] != id {
      AheadIsOther(keys[1..], id);
    }
  }

  // ----- Lists only shrink -----

  lemma RemoveShrinks(ix: Shelf, ref: Name, k: Name)
    requires Valid(ix)
    ensures Valid(K.MemRemove(ix, ref)) && |Get(K.MemRemove(ix, ref), k)| <= |Get(ix, k)|
  {
    var at := K.Locate(ix, ix.keys, ref);
    if at.Some? {
      var list := Get(ix, at.value);
      PutValid(ix, at.value, K.RemoveAt(list, K.Position(list, ref)));
    }
  }

  lemma {:induction false} EvictShrinks(ix: Shelf, refs: seq<Name>, k: Name)
    requires Valid(ix)
    ensures Valid(MemEvict(ix, refs)) && |Get(MemEvict(ix, refs), k)| <= |Get(ix, k)|
  {
    if refs != [] {
      EvictShrinks(ix, Front(refs), k);
      RemoveShrinks(MemEvict(ix, Front(refs)), Last(refs), k);
    }
  }

  lemma {:induction false} RefsConcat(a: K.Packages, b: K.Packages)
    ensures RefsOf(a + b) == RefsOf(a) + RefsOf(b)
  {
    if b == [] {
      assert a + b == a;
    } else {
      assert Front(a + b) == a + Front(b) && Last(a + b) == Last(b);
      RefsConcat(a, Front(b));
    }
  }

  /** Taking a record out takes its reference out. */
  lemma RefTaken(list: K.Packages, i: nat)
    requires i < |list|
    ensures multiset(RefsOf(list)) == multiset(RefsOf(K.RemoveAt(list, i))) + multiset{list[i].kpRef}
  {
    hide RefsOf;
    var a, b := list[..i], list[i + 1..];
    assert list == a + [list[i]] + b;
    RefsConcat(a + [list[i]], b);
    RefsConcat(a, [list[i]]);
    RefsConcat(a, b);
    RefOfOne(list[i]);
  }

  lemma RefOfOne(r: KeyPackage)
    ensures RefsOf([r]) == [r.kpRef]
  {
    assert Front([r]) == [];
  }

  lemma {:induction false} ListedIsHeld(list: K.Packages, ref: Name)
    requires ref in RefsOf(list)
    ensures Holds(list, ref)
  {
    if Last(list).kpRef != ref {
      ListedIsHeld(Front(list), ref);
      assert Front(list)[K.Position(Front(list), ref)] == list[K.Position(Front(list), ref)];
    }
  }

  // ----- Evictions at home -----

  /** What an eviction that stayed at home has done. */
  ghost predicate AtHome(ix: Shelf, now: Shelf, id: Name, refs: seq<Name>) {
    && Valid(now)
    && (forall k :: k != id ==> Get(now, k) == Get(ix, k))
    && multiset(RefsOf(Get(ix, id))) == multiset(RefsOf(Get(now, id))) + multiset(refs)
    && (Get(now, id) != [] ==> now.keys == ix.keys)
  }

  lemma SameAhead(ix: Shelf, now: Shelf, id: Name, refs: seq<Name>, ref: Name)
    requires AtHome(ix, now, id, refs) && Get(now, id) != []
    ensures HeldAhead(now, id, ref) <==> HeldAhead(ix, id, ref)
  {
    AheadIsOther(ix.keys, id);
  }

  lemma Leftover(all: multiset<Name>, left: multiset<Name>, gone: multiset<Name>, x: Name)
    requires all == left + gone && gone + multiset{x} <= all
    ensures x in left
  {
    assert all[x] == left[x] + gone[x] && (gone + multiset{x})[x] == gone[x] + 1;
  }

  lemma FrontRefs(refs: seq<Name>)
    requires refs != []
    ensures multiset(refs) == multiset(Front(refs)) + multiset{Last(refs)}
  {
    assert refs == Front(refs) + [Last(refs)];
  }

  /** The next victim is still on the owner's list. */
  lemma NextIsListed(ix: Shelf, now: Shelf, id: Name, refs: seq<Name>)
    requires refs != [] && AtHome(ix, now, id, Front(refs)) && multiset(refs) <= multiset(RefsOf(Get(ix, id)))
    ensures Holds(Get(now, id), Last(refs)) && id in now.keys && Get(now, id) != []
  {
    hide RefsOf;
    FrontRefs(refs);
    Leftover(multiset(RefsOf(Get(ix, id))), multiset(RefsOf(Get(now, id))), multiset(Front(refs)), Last(refs));
    assert Last(refs) in RefsOf(Get(now, id));
    ListedIsHeld(Get(now, id), Last(refs));
  }

  /** The removal of a victim that nobody ahead holds. */
  lemma HomeRemove(now: Shelf, id: Name, ref: Name)
    requires Valid(now) && id in now.keys && Holds(Get(now, id), ref) && !HeldAhead(now, id, ref)
    ensures var list := Get(now, id); var left := K.RemoveAt(list, K.Position(list, ref));
            && K.MemRemove(now, ref) == Put(now, id, left)
            && multiset(RefsOf(list)) == multiset(RefsOf(left)) + multiset{ref}
  {
    hide Put, K.RemoveAt, RefsOf;
    LocateStopsAtFirst(now, now.keys, id, ref);
    RefTaken(Get(now, id), K.Position(Get(now, id), ref));
  }

  lemma HomeStep(ix: Shelf, now: Shelf, id: Name, refs: seq<Name>)
    requires refs != [] && AtHome(ix, now, id, Front(refs)) && multiset(refs) <= multiset(RefsOf(Get(ix, id)))
    requires !HeldAhead(ix, id, Last(refs))
    ensures AtHome(ix, K.MemRemove(now, Last(refs)), id, refs)
  {
    hide K.MemRemove, K.RemoveAt, RefsOf, HeldAhead;
    var ref, list := Last(refs), Get(now, id);
    NextIsListed(ix, now, id, refs);
    SameAhead(ix, now, id, Front(refs), ref);
    HomeRemove(now, id, ref);
    PutValid(now, id, K.RemoveAt(list, K.Position(list, ref)));
    FrontRefs(refs);
  }

  lemma {:induction false} HomeEvict(ix: Shelf, id: Name, refs: seq<Name>)
    requires Valid(ix) && multiset(refs) <= multiset(RefsOf(Get(ix, id)))
    requires forall ref :: ref in refs ==> !HeldAhead(ix, id, ref)
    ensures AtHome(ix, MemEvict(ix, refs), id, refs)
  {
    hide HeldAhead;
    if refs != [] {
      hide AtHome;
      assert refs == Front(refs) + [Last(refs)];
      HomeEvict(ix, id, Front(refs));
      HomeStep(ix, MemEvict(ix, Front(refs)), id, refs);
    }
  }

  /** The first victim held ahead of its owner is taken from somebody else. */
  lemma StrayStep(ix: Shelf, now: Shelf, id: Name, refs: seq<Name>) returns (k: Name)
    requires refs != [] && AtHome(ix, now, id, Front(refs)) && multiset(refs) <= multiset(RefsOf(Get(ix, id)))
    requires HeldAhead(ix, id, Last(refs))
    ensures k != id && |Get(K.MemRemove(now, Last(refs)), k)| < |Get(ix, k)|
  {
    var ref := Last(refs);
    NextIsListed(ix, now, id, refs);
    SameAhead(ix, now, id, Front(refs), ref);
    LocateStopsAtFirst(now, now.keys, id, ref);
    k := K.Locate(now, now.keys, ref).value;
    AheadIsOther(now.keys, id);
    var list := Get(now, k);
    PutValid(now, k, K.RemoveAt(list, K.Position(list, ref)));
  }

  lemma {:induction false} StrayEvict(ix: Shelf, id: Name, refs: seq<Name>) returns (k: Name)
    requires Valid(ix) && multiset(refs) <= multiset(RefsOf(Get(ix, id)))
    requires exists ref :: ref in refs && HeldAhead(ix, id, ref)
    ensures k != id && |Get(MemEvict(ix, refs), k)| < |Get(ix, k)|
  {
    hide HeldAhead;
    assert refs == Front(refs) + [Last(refs)];
    var before := MemEvict(ix, Front(refs));
    if exists ref :: ref in Front(refs) && HeldAhead(ix, id, ref) {
      k := StrayEvict(ix, id, Front(refs));
      EvictShrinks(ix, Front(refs), k);
      RemoveShrinks(before, Last(refs), k);
    } else {
      HomeEvict(ix, id, Front(refs));
      k := StrayStep(ix, before, id, refs);
    }
  }

  // ----- The exact condition -----

  lemma {:induction false} FilteredRefs(list: K.Packages, q: KeyPackage -> bool)
    ensures multiset(RefsOf(Filter(list, q))) <= multiset(RefsOf(list))
  {
    if list != [] {
      FilteredRefs(Front(list), q);
      if q(Last(list)) {
        assert Front(Filter(Front(list), q) + [Last(list)]) == Filter(Front(list), q);
      }
    }
  }

  lemma VictimsAreListed(cfg: Config, ix: Shelf, r: KeyPackage)
    ensures multiset(MemVictims(cfg, ix, r)) <= multiset(RefsOf(Get(ix, r.stablePubkey)))
  {
    var list := Get(ix, r.stablePubkey);
    var existing := Filter(list, K.LastResort());
    var n := Surplus(cfg, |existing|);
    FilteredRefs(list, K.LastResort());
    assert existing == existing[..n] + existing[n..];
    RefsConcat(existing[..n], existing[n..]);
  }

  lemma OthersAfterPublish(cfg: Config, ix: Shelf, r: KeyPackage)
    requires Valid(ix)
    ensures forall k :: k != r.stablePubkey ==>
              Get(MemPublish(cfg, ix, r).0, k) == Get(MemEvict(ix, MemVictims(cfg, ix, r)), k)
  {
    hide Valid, Put, MemVictims, MemEvict;
    var room := MemEvict(ix, MemVictims(cfg, ix, r));
    EvictShrinks(ix, MemVictims(cfg, ix, r), r.stablePubkey);
    PutValid(room, r.stablePubkey, Get(room, r.stablePubkey) + [r]);
  }

  /** A publish leaves every other identity's packages alone if and only if no package
      it evicts shares its reference with an identity that the search meets first. */
  lemma EvictionStaysAtHomeIff(cfg: Config, ix: Shelf, r: KeyPackage)
    requires Valid(ix)
    ensures (forall k :: k != r.stablePubkey ==> Get(MemPublish(cfg, ix, r).0, k) == Get(ix, k)) <==>
            (forall ref :: ref in MemVictims(cfg, ix, r) ==> !HeldAhead(ix, r.stablePubkey, ref))
  {
    hide HeldAhead, Valid, MemPublish, MemVictims, MemEvict;
    var id, victims := r.stablePubkey, MemVictims(cfg, ix, r);
    VictimsAreListed(cfg, ix, r);
    OthersAfterPublish(cfg, ix, r);
    if ref :| ref in victims && HeldAhead(ix, id, ref) {
      var k := StrayEvict(ix, id, victims);
      assert k != id && Get(MemPublish(cfg, ix, r).0, k) != Get(ix, k);
    } else {
      HomeEvict(ix, id, victims);
    }
  }

  lemma {:induction false} MemRemoveEachValid(ix: Shelf, client: Name, refs: seq<Name>)
    requires Valid(ix)
    ensures Valid(MemRemoveEach(ix, client, refs).0)
    decreases |refs|
  {
    hide Valid, K.MemRemove;
    if refs != [] && K.MemFind(ix, refs[0]).Some? {
      RemoveShrinks(ix, refs[0], client);
      MemRemoveEachValid(K.MemRemove(ix, refs[0]), client, refs[1..]);
    }
  }

  lemma StepValid(cfg: Config, ix: Shelf, step: Step)
    requires Valid(ix)
    ensures Valid(MemDo(cfg, ix, step).0)
  {
    hide Valid, Put;
    match step
    case Publish(r) =>
      EvictShrinks(ix, MemVictims(cfg, ix, r), r.stablePubkey);
      var room := MemEvict(ix, MemVictims(cfg, ix, r));
      PutValid(room, r.stablePubkey, Get(room, r.stablePubkey) + [r]);
    case Consume(identifier) =>
      RemoveShrinks(ix, identifier, identifier);
      var mine := Get(ix, identifier);
      if K.FirstRegular(mine) < |mine| {
        PutValid(ix, identifier, K.RemoveAt(mine, K.FirstRegular(mine)));
      }
    case Remove(client, refs) => MemRemoveEachValid(ix, client, refs);
  }

  /** Every reachable shelf is a well-formed one, references shared or not. */
  lemma {:induction false} RunValid(cfg: Config, steps: seq<Step>)
    ensures Valid(MemAfter(cfg, steps))
  {
    if steps != [] {
      hide Valid;
      RunValid(cfg, Front(steps));
      StepValid(cfg, MemAfter(cfg, Front(steps)), Last(steps));
    }
  }

  /** So over all runs, whatever references the clients choose. */
  lemma RunEvictsAtHomeIff(cfg: Config, steps: seq<Step>, r: KeyPackage)
    ensures var ix := MemAfter(cfg, steps);
            (forall k :: k != r.stablePubkey ==> Get(MemPublish(cfg, ix, r).0, k) == Get(ix, k)) <==>
            (forall ref :: ref in MemVictims(cfg, ix, r) ==> !HeldAhead(ix, r.stablePubkey, ref))
  {
    RunValid(cfg, steps);
    EvictionStaysAtHomeIff(cfg, MemAfter(cfg, steps), r);
  }

  // ----- A concrete case -----

  function Resort(owner: Name, ref: Name): KeyPackage {
    KeyPackage(owner, [], ref, true, 0, "")
  }

  lemma FirstResort(cfg: Config, ix: Shelf, r: KeyPackage)
    requires cfg == Config(0, 1) && r.isLastResort && Get(ix, r.stablePubkey) == []
    ensures MemPublish(cfg, ix, r) == (K.MemPublish(ix, r), Accepted)
  {
  }

  lemma OneVictim(cfg: Config, ix: Shelf, r: KeyPackage, x: KeyPackage)
    requires cfg == Config(0, 1) && r.isLastResort && x.isLastResort && Get(ix, r.stablePubkey) == [x]
    ensures MemVictims(cfg, ix, r) == [x.kpRef]
    ensures MemPublish(cfg, ix, r) == (K.MemPublish(K.MemRemove(ix, x.kpRef), r), Accepted)
  {
    FilterAll([x], K.LastResort());
    assert [x][..1] == [x] && Front([x.kpRef]) == [];
    RefOfOne(x);
    assert MemEvict(ix, []) == ix && MemEvict(ix, [x.kpRef]) == K.MemRemove(ix, x.kpRef);
  }

  /** One last resort may be kept. Alice and Bob both hold a last resort "x"; when Bob
      publishes "y", Alice's package is evicted and Bob ends up with two. */
  lemma EvictionTakesAnothers()
    ensures var cfg := Config(0, 1);
            var steps := [] + [Publish(Resort("alice", "x"))] + [Publish(Resort("bob", "x"))];
            var after := MemPublish(cfg, MemAfter(cfg, steps), Resort("bob", "y"));
            && Get(MemAfter(cfg, steps), "alice") == [Resort("alice", "x")]
            && after.1 == Accepted && Get(after.0, "alice") == []
            && Get(after.0, "bob") == [Resort("bob", "x"), Resort("bob", "y")]
  {
    hide MemPublish, K.MemRemove;
    var cfg, a, b, c := Config(0, 1), Resort("alice", "x"), Resort("bob", "x"), Resort("bob", "y");
    var one := [] + [Publish(a)];
    var two := one + [Publish(b)];
    assert Front(one) == [] && Front(two) == one;
    assert [] + [a] == [a] && [] + [b] == [b] && [b] + [c] == [b, c] && "alice" != "bob";
    FirstResort(cfg, NoKeys(), a);
    assert MemAfter(cfg, one) == Index(["alice"], map["alice" := [a]]);
    FirstResort(cfg, MemAfter(cfg, one), b);
    assert ["alice"] + ["bob"] == ["alice", "bob"];
    assert MemAfter(cfg, two) == Index(["alice", "bob"], map["alice" := [a], "bob" := [b]]);
    OneVictim(cfg, MemAfter(cfg, two), c, b);
    RemovesAlices(MemAfter(cfg, two), a, b);
  }

  lemma RemovesAlices(ix: Shelf, a: KeyPackage, b: KeyPackage)
    requires ix == Index(["alice", "bob"], map["alice" := [a], "bob" := [b]]) && a.kpRef == "x"
    ensures Get(K.MemRemove(ix, "x"), "alice") == [] && Get(K.MemRemove(ix, "x"), "bob") == [b]
  {
    assert K.Position([a], "x") == 0;
    assert K.Locate(ix, ix.keys, "x") == Some("alice");
    assert K.RemoveAt([a], 0) == [];
    assert "alice" != "bob";
  }
}
