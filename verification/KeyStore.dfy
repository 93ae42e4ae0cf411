/** Key packages: the storage contract on one sequence of records in publication
    order, and how each backend carries it out. */
module KeyStore {
  import opened Seqs
  import opened Records
  import opened Tables

  type Packages = seq<KeyPackage>

  function Owner(): KeyPackage -> Name {
    (r: KeyPackage) => r.stablePubkey
  }

  function Of(id: Name): KeyPackage -> bool {
    KeyIs(Owner(), id)
  }

  function HasRef(ref: Name): KeyPackage -> bool {
    (r: KeyPackage) => r.kpRef == ref
  }

  function LacksRef(ref: Name): KeyPackage -> bool {
    (r: KeyPackage) => r.kpRef != ref
  }

  function Regular(): KeyPackage -> bool {
    (r: KeyPackage) => !r.isLastResort
  }

  function LastResort(): KeyPackage -> bool {
    (r: KeyPackage) => r.isLastResort
  }

  // ----- The contract -----

  predicate Held(s: Packages, ref: Name) {
    exists r :: r in s && r.kpRef == ref
  }

  function Find(s: Packages, ref: Name): Option<KeyPackage> {
    var found := Filter(s, HasRef(ref));
    if found == [] then None else Some(found[0])
  }

  function Remove(s: Packages, ref: Name): Packages {
    Filter(s, LacksRef(ref))
  }

  /** What a consume by identity hands out: the oldest regular package of the
      identity, or the newest of its packages when none is regular. */
  function Offer(s: Packages, id: Name): Option<KeyPackage> {
    var mine := Filter(s, Of(id));
    var regular := Filter(mine, Regular());
    if regular != [] then Some(regular[0]) else if mine != [] then Some(Last(mine)) else None
  }

  /** What a consume hands out: an exact reference wins over an identity. */
  function Choice(s: Packages, identifier: Name): Option<KeyPackage> {
    if Find(s, identifier).Some? then Find(s, identifier) else Offer(s, identifier)
  }

  /** Only a regular package leaves the store. */
  function Consume(s: Packages, identifier: Name): Packages {
    match Choice(s, identifier)
    case None => s
    case Some(r) => if r.isLastResort then s else Remove(s, r.kpRef)
  }

  ghost predicate UniqueRefs(s: Packages) {
    forall i, j :: 0 <= i < j < |s| ==> s[i].kpRef != s[j].kpRef
  }

  lemma {:induction false} FilterUnique(s: Packages, p: KeyPackage -> bool)
    requires UniqueRefs(s)
    ensures UniqueRefs(Filter(s, p))
  {
    if s != [] {
      FilterUnique(Front(s), p);
      FilterMembers(Front(s), p);
      forall r | r in Filter(Front(s), p)
        ensures r.kpRef != Last(s).kpRef
      {
        assert r in Front(s);
      }
    }
  }

  /** References name records: among unique ones, equal references mean equal records. */
  lemma SameRef(s: Packages, a: KeyPackage, b: KeyPackage)
    requires UniqueRefs(s) && a in s && b in s && a.kpRef == b.kpRef
    ensures a == b
  {
  }

  lemma FindMeaning(s: Packages, ref: Name)
    ensures Find(s, ref).Some? <==> Held(s, ref)
    ensures Find(s, ref).Some? ==> Find(s, ref).value in s && Find(s, ref).value.kpRef == ref
  {
    FilterMembers(s, HasRef(ref));
    if Filter(s, HasRef(ref)) != [] {
      assert Filter(s, HasRef(ref))[0] in Filter(s, HasRef(ref));
    }
  }

  lemma OfferMeaning(s: Packages, id: Name)
    ensures var o := Offer(s, id); o.Some? ==> o.value in s && o.value.stablePubkey == id
    ensures Offer(s, id).None? <==> forall r :: r in s ==> r.stablePubkey != id
  {
    var mine := Filter(s, Of(id));
    FilterMembers(s, Of(id));
    FilterMembers(mine, Regular());
    if Filter(mine, Regular()) != [] {
      assert Filter(mine, Regular())[0] in Filter(mine, Regular());
    } else if mine != [] {
      assert Last(mine) in mine;
    }
  }

  // ----- In memory: lists by identity -----

  function RemoveAt<R>(s: seq<R>, i: nat): seq<R>
    requires i < |s|
  {
    s[..i] + s[i + 1..]
  }

  /** The first position holding the reference. */
  function Position(list: Packages, ref: Name): (i: nat)
    ensures i <= |list|
    ensures i < |list| ==> list[i].kpRef == ref
    ensures forall j :: 0 <= j < i ==> list[j].kpRef != ref
  {
    if list == [] || list[0].kpRef == ref then 0 else 1 + Position(list[1..], ref)
  }

  /** The first identity, in key order, that holds the reference. */
  function Locate(ix: Index<KeyPackage>, keys: seq<Name>, ref: Name): (at: Option<Name>)
    ensures at.Some? ==> at.value in keys && Position(Get(ix, at.value), ref) < |Get(ix, at.value)|
    ensures at.None? ==> forall k :: k in keys ==> Position(Get(ix, k), ref) == |Get(ix, k)|
  {
    if keys == [] then None
    else if Position(Get(ix, keys[0]), ref) < |Get(ix, keys[0])| then Some(keys[0])
    else Locate(ix, keys[1..], ref)
  }

  function MemFind(ix: Index<KeyPackage>, ref: Name): Option<KeyPackage> {
    match Locate(ix, ix.keys, ref)
    case None => None
    case Some(k) => Some(Get(ix, k)[Position(Get(ix, k), ref)])
  }

  function MemPublish(ix: Index<KeyPackage>, r: KeyPackage): Index<KeyPackage> {
    Put(ix, r.stablePubkey, Get(ix, r.stablePubkey) + [r])
  }

  function MemRemove(ix: Index<KeyPackage>, ref: Name): Index<KeyPackage> {
    match Locate(ix, ix.keys, ref)
    case None => ix
    case Some(k) => Put(ix, k, RemoveAt(Get(ix, k), Position(Get(ix, k), ref)))
  }

  /** The first position that is not a last resort. */
  function FirstRegular(list: Packages): (i: nat)
    ensures i <= |list|
    ensures i < |list| ==> !list[i].isLastResort
    ensures forall j :: 0 <= j < i ==> list[j].isLastResort
  {
    if list == [] || !list[0].isLastResort then 0 else 1 + FirstRegular(list[1..])
  }

  function MemConsume(ix: Index<KeyPackage>, identifier: Name): (Index<KeyPackage>, Option<KeyPackage>) {
    match MemFind(ix, identifier)
    case Some(r) => (if r.isLastResort then ix else MemRemove(ix, identifier), Some(r))
    case None =>
      var mine := Get(ix, identifier);
      var i := FirstRegular(mine);
      if i < |mine| then (Put(ix, identifier, RemoveAt(mine, i)), Some(mine[i]))
      else (ix, if mine == [] then None else Some(Last(mine)))
  }

  /** Deleting by reference deletes the one record that has it. */
  lemma RemoveAtIsFilter(list: Packages, i: nat)
    requires UniqueRefs(list) && i < |list|
    ensures RemoveAt(list, i) == Filter(list, LacksRef(list[i].kpRef))
  {
    hide UniqueRefs, Filter;
    var p, a, b := LacksRef(list[i].kpRef), list[..i], list[i + 1..];
    ApartFrom(list, i);
    FilterAll(a, p);
    FilterAll(b, p);
    FilterPush(a, list[i], p);
    FilterConcat(a + [list[i]], b, p);
    assert list == a + [list[i]] + b;
  }

  /** Nothing around a record shares its reference. */
  lemma ApartFrom(list: Packages, i: nat)
    requires UniqueRefs(list) && i < |list|
    ensures forall x :: x in list[..i] || x in list[i + 1..] ==> x.kpRef != list[i].kpRef
  {
    forall j | 0 <= j < |list| && j != i
      ensures list[j].kpRef != list[i].kpRef
    {
    }
  }

  ghost predicate MemHolds(ix: Index<KeyPackage>, s: Packages) {
    Indexed(ix, s, Owner()) && UniqueRefs(s)
  }

  lemma LocateIsFind(ix: Index<KeyPackage>, s: Packages, ref: Name)
    requires MemHolds(ix, s)
    ensures MemFind(ix, ref) == Find(s, ref)
    ensures Locate(ix, ix.keys, ref) ==
            if Find(s, ref).None? then None else Some(Find(s, ref).value.stablePubkey)
  {
    FindMeaning(s, ref);
    var at := Locate(ix, ix.keys, ref);
    if at.Some? {
      var r := Get(ix, at.value)[Position(Get(ix, at.value), ref)];
      FilterMembers(s, Of(at.value));
      assert r in Filter(s, Of(at.value));
      SameRef(s, r, Find(s, ref).value);
    } else if Find(s, ref).Some? {
      var r := Find(s, ref).value;
      FiledUnderKey(ix, s, Owner(), r);
    }
  }

  /** Memory takes any reference; references stay unique exactly when it was free. */
  lemma MemPublishHolds(ix: Index<KeyPackage>, s: Packages, r: KeyPackage)
    requires Indexed(ix, s, Owner())
    ensures Indexed(MemPublish(ix, r), s + [r], Owner())
    ensures UniqueRefs(s) ==> (MemHolds(MemPublish(ix, r), s + [r]) <==> !Held(s, r.kpRef))
  {
    PushIndexed(ix, s, Owner(), r);
    if UniqueRefs(s) {
      UniquePush(s, r);
    }
  }

  lemma FreshPublishHolds(ix: Index<KeyPackage>, s: Packages, r: KeyPackage)
    requires MemHolds(ix, s) && !Held(s, r.kpRef)
    ensures MemHolds(MemPublish(ix, r), s + [r])
  {
    MemPublishHolds(ix, s, r);
  }

  lemma UniquePush(s: Packages, r: KeyPackage)
    requires UniqueRefs(s)
    ensures UniqueRefs(s + [r]) <==> !Held(s, r.kpRef)
  {
    var t := s + [r];
    if x :| x in s && x.kpRef == r.kpRef {
      var i :| 0 <= i < |s| && s[i] == x;
      assert t[i].kpRef == t[|s|].kpRef;
    }
  }

  /** Taking one record out of its list is removing it from the sequence. */
  lemma TakeOut(ix: Index<KeyPackage>, s: Packages, k: Name, i: nat)
    requires MemHolds(ix, s) && i < |Get(ix, k)|
    ensures MemHolds(Put(ix, k, RemoveAt(Get(ix, k), i)), Remove(s, Get(ix, k)[i].kpRef))
  {
    var r := Get(ix, k)[i];
    FilterUnique(s, Of(k));
    RemoveAtIsFilter(Get(ix, k), i);
    FilterMembers(s, Of(k));
    assert r in Filter(s, Of(k));
    forall x | x in s && !LacksRef(r.kpRef)(x)
      ensures Owner()(x) == k
    {
      SameRef(s, x, r);
    }
    KeepIndexed(ix, s, Owner(), k, LacksRef(r.kpRef));
    FilterUnique(s, LacksRef(r.kpRef));
  }

  lemma MemRemoveHolds(ix: Index<KeyPackage>, s: Packages, ref: Name)
    requires MemHolds(ix, s)
    ensures MemHolds(MemRemove(ix, ref), Remove(s, ref))
  {
    LocateIsFind(ix, s, ref);
    FindMeaning(s, ref);
    match Locate(ix, ix.keys, ref)
    case None => FilterAll(s, LacksRef(ref));
    case Some(k) => TakeOut(ix, s, k, Position(Get(ix, k), ref));
  }

  lemma {:induction false} FirstRegularIsFirst(list: Packages)
    ensures Filter(list, Regular()) == [] <==> FirstRegular(list) == |list|
    ensures FirstRegular(list) < |list| ==> Filter(list, Regular())[0] == list[FirstRegular(list)]
    decreases |list|
  {
    var i := FirstRegular(list);
    FilterNone(list[..i], Regular());
    if i < |list| {
      assert list == list[..i] + [list[i]] + list[i + 1..];
      FilterPush(list[..i], list[i], Regular());
      FilterConcat(list[..i] + [list[i]], list[i + 1..], Regular());
    } else {
      assert list[..i] == list;
    }
  }

  lemma MemConsumeHolds(ix: Index<KeyPackage>, s: Packages, identifier: Name)
    requires MemHolds(ix, s)
    ensures MemConsume(ix, identifier).1 == Choice(s, identifier)
    ensures MemHolds(MemConsume(ix, identifier).0, Consume(s, identifier))
  {
    hide Locate, Put, RemoveAt, Filter, UniqueRefs, Indexed;
    LocateIsFind(ix, s, identifier);
    FindMeaning(s, identifier);
    if Find(s, identifier).Some? {
      MemRemoveHolds(ix, s, identifier);
    } else {
      var mine := Get(ix, identifier);
      assert mine == Filter(s, Of(identifier)) by {
        ListIs(ix, s, identifier);
      }
      FirstRegularIsFirst(mine);
      if FirstRegular(mine) < |mine| {
        TakeOut(ix, s, identifier, FirstRegular(mine));
      } else if mine != [] {
        assert Last(mine).isLastResort;
      }
    }
  }

  lemma ListIs(ix: Index<KeyPackage>, s: Packages, id: Name)
    requires MemHolds(ix, s)
    ensures Get(ix, id) == Filter(s, Of(id))
  {
  }

  // ----- SQLite: one table -----

  /** The consume query's ORDER BY: regular rows first and by ascending id, then
      last-resort rows by descending id. */
  predicate Precedes(a: Row<KeyPackage>, b: Row<KeyPackage>) {
    if a.rec.isLastResort != b.rec.isLastResort then !a.rec.isLastResort
    else if a.rec.isLastResort then a.id > b.id
    else a.id < b.id
  }

  /** LIMIT 1 of that order: a running best over the rows of the identity. */
  function Best(rows: seq<Row<KeyPackage>>): Row<KeyPackage>
    requires rows != []
  {
    if |rows| == 1 then rows[0]
    else if Precedes(Last(rows), Best(Front(rows))) then Last(rows)
    else Best(Front(rows))
  }

  /** It is the least row of the order. */
  lemma {:induction false} BestIsLeast(rows: seq<Row<KeyPackage>>)
    requires rows != [] && forall i, j :: 0 <= i < j < |rows| ==> rows[i].id < rows[j].id
    ensures Best(rows) in rows
    ensures forall row :: row in rows ==> row == Best(rows) || Precedes(Best(rows), row)
  {
    if |rows| > 1 {
      BestIsLeast(Front(rows));
      assert rows == Front(rows) + [Last(rows)];
    }
  }

  function SqlFind(t: Table<KeyPackage>, ref: Name): Option<KeyPackage> {
    var found := Filter(t.rows, RowIs(HasRef(ref)));
    if found == [] then None else Some(found[0].rec)
  }

  /** The UNIQUE constraint refuses a reference that is held. */
  function SqlPublish(t: Table<KeyPackage>, r: KeyPackage): Option<Table<KeyPackage>> {
    if SqlFind(t, r.kpRef).Some? then None else Some(Insert(t, r))
  }

  function SqlRemove(t: Table<KeyPackage>, ref: Name): Table<KeyPackage> {
    if SqlFind(t, ref).None? then t else Keep(t, LacksRef(ref))
  }

  function SqlOffer(t: Table<KeyPackage>, id: Name): Option<KeyPackage> {
    var mine := Filter(t.rows, RowIs(Of(id)));
    if mine == [] then None else Some(Best(mine).rec)
  }

  function SqlConsume(t: Table<KeyPackage>, identifier: Name): (Table<KeyPackage>, Option<KeyPackage>) {
    match SqlFind(t, identifier)
    case Some(r) => (if r.isLastResort then t else Keep(t, LacksRef(identifier)), Some(r))
    case None =>
      match SqlOffer(t, identifier)
      case Some(r) => (if r.isLastResort then t else Keep(t, LacksRef(r.kpRef)), Some(r))
      case None => (t, None)
  }

  ghost predicate SqlHolds(t: Table<KeyPackage>, s: Packages) {
    Tabled(t, s) && UniqueRefs(s)
  }

  lemma SqlFindIsFind(t: Table<KeyPackage>, s: Packages, ref: Name)
    requires Tabled(t, s)
    ensures SqlFind(t, ref) == Find(s, ref)
  {
    RecsFilter(t.rows, HasRef(ref));
  }

  /** The ordering query picks the oldest regular row, else the newest one. */
  lemma {:induction false} BestIsOffer(rows: seq<Row<KeyPackage>>)
    requires rows != [] && forall i, j :: 0 <= i < j < |rows| ==> rows[i].id < rows[j].id
    ensures Best(rows) in rows
    ensures var regular := Filter(Recs(rows), Regular());
            if regular != [] then Best(rows).rec == regular[0] else Best(rows) == Last(rows)
  {
    var recs := Recs(rows);
    assert Front(recs) == Recs(Front(rows)) && Last(recs) == Last(rows).rec;
    if |rows| == 1 {
      assert Filter(Front(recs), Regular()) == [];
    } else {
      BestIsOffer(Front(rows));
      FilterMembers(Front(recs), Regular());
      BestRegular(Front(rows));
    }
  }

  lemma BestRegular(rows: seq<Row<KeyPackage>>)
    requires rows != [] && Best(rows) in rows
    requires var regular := Filter(Recs(rows), Regular());
             if regular != [] then Best(rows).rec == regular[0] else Best(rows) == Last(rows)
    ensures Best(rows).rec.isLastResort <==> Filter(Recs(rows), Regular()) == []
  {
    FilterMembers(Recs(rows), Regular());
    var regular := Filter(Recs(rows), Regular());
    if regular != [] {
      assert regular[0] in regular;
    } else {
      assert Last(rows).rec == Last(Recs(rows)) && Last(Recs(rows)) in Recs(rows);
    }
  }

  lemma SqlOfferIsOffer(t: Table<KeyPackage>, s: Packages, id: Name)
    requires Tabled(t, s)
    ensures SqlOffer(t, id) == Offer(s, id)
  {
    var mine := Filter(t.rows, RowIs(Of(id)));
    RecsFilter(t.rows, Of(id));
    FilterAscending(t.rows, RowIs(Of(id)), t.nextId);
    if mine != [] {
      BestIsOffer(mine);
      assert Last(Recs(mine)) == Last(mine).rec;
    }
  }

  lemma SqlPublishHolds(t: Table<KeyPackage>, s: Packages, r: KeyPackage)
    requires SqlHolds(t, s)
    ensures SqlPublish(t, r).Some? <==> !Held(s, r.kpRef)
    ensures SqlPublish(t, r).Some? ==> SqlHolds(SqlPublish(t, r).value, s + [r])
  {
    SqlFindIsFind(t, s, r.kpRef);
    FindMeaning(s, r.kpRef);
    InsertTabled(t, s, r);
  }

  lemma SqlRemoveHolds(t: Table<KeyPackage>, s: Packages, ref: Name)
    requires SqlHolds(t, s)
    ensures SqlHolds(SqlRemove(t, ref), Remove(s, ref))
  {
    SqlFindIsFind(t, s, ref);
    FindMeaning(s, ref);
    KeepTabled(t, s, LacksRef(ref));
    FilterUnique(s, LacksRef(ref));
    if Find(s, ref).None? {
      FilterAll(s, LacksRef(ref));
    }
  }

  lemma SqlConsumeHolds(t: Table<KeyPackage>, s: Packages, identifier: Name)
    requires SqlHolds(t, s)
    ensures SqlConsume(t, identifier).1 == Choice(s, identifier)
    ensures SqlHolds(SqlConsume(t, identifier).0, Consume(s, identifier))
  {
    hide Offer, SqlOffer, Find, SqlFind, Tabled, UniqueRefs;
    SqlFindIsFind(t, s, identifier);
    SqlOfferIsOffer(t, s, identifier);
    FindMeaning(s, identifier);
    if Choice(s, identifier).Some? {
      KeepTabled(t, s, LacksRef(Choice(s, identifier).value.kpRef));
      FilterUnique(s, LacksRef(Choice(s, identifier).value.kpRef));
    }
  }
}
