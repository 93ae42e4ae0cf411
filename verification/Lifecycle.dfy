/** The life of a key package: published under a quota that may evict older
    last-resort packages, then consumed or removed. Every instance is a table row,
    so histories tell apart two publications of the same reference. */
module Lifecycle {
  import opened Seqs
  import opened Records
  import opened Tables
  import K = KeyStore

  type Rows = seq<Row<KeyPackage>>

  datatype Config = Config(maxPerIdentity: nat, maxLastResort: nat)

  /** The table, and where every instance that left it went. */
  datatype Life = Life(t: Table<KeyPackage>, published: Rows, consumed: Rows, removed: Rows, evicted: Rows)

  datatype Outcome =
    | Accepted
    | QuotaExceeded
    | StorageFailed
    | Handed(package: Option<KeyPackage>)
    | Removed
    | InvalidInput
    | UnknownRef(ref: Name)
    | Unauthorized(ref: Name)

  datatype Step =
    | Publish(record: KeyPackage)
    | Consume(identifier: Name)
    | Remove(client: Name, refs: seq<Name>)

  function Start(): Life {
    Life(NoRows(), [], [], [], [])
  }

  function RowsWith(rows: Rows, ref: Name): Rows {
    Filter(rows, RowIs(K.HasRef(ref)))
  }

  // ----- Publishing under the quota -----

  function RefsOf(s: K.Packages): seq<Name> {
    if s == [] then [] else RefsOf(Front(s)) + [Last(s).kpRef]
  }

  /** The stored records, oldest first. */
  function Held(l: Life): K.Packages {
    Recs(l.t.rows)
  }

  function OfId(s: K.Packages, id: Name): K.Packages {
    Filter(s, K.Of(id))
  }

  function LastResortsIn(s: K.Packages, id: Name): K.Packages {
    Filter(OfId(s, id), K.LastResort())
  }

  /** How many of the oldest last resorts must go before another one is stored. */
  function Surplus(cfg: Config, existing: nat): (n: nat)
    ensures n <= existing
  {
    if cfg.maxLastResort > 0 && existing >= cfg.maxLastResort then existing - cfg.maxLastResort + 1 else 0
  }

  predicate OverQuota(cfg: Config, total: nat, lastResorts: nat, isLastResort: bool) {
    cfg.maxPerIdentity > 0 &&
    if isLastResort then
      var keepable := if cfg.maxLastResort == 0 then 0 else cfg.maxLastResort - 1;
      total - lastResorts + Min(lastResorts, keepable) + 1 > cfg.maxPerIdentity
    else total >= cfg.maxPerIdentity
  }

  function EvictOne(l: Life, ref: Name): Life {
    l.(t := K.SqlRemove(l.t, ref), evicted := l.evicted + RowsWith(l.t.rows, ref))
  }

  function Evict(l: Life, refs: seq<Name>): Life {
    if refs == [] then l else EvictOne(Evict(l, Front(refs)), Last(refs))
  }

  /** The references evicted to make room for a package. */
  function Victims(cfg: Config, l: Life, id: Name, isLastResort: bool): seq<Name> {
    var existing := LastResortsIn(Held(l), id);
    if isLastResort then RefsOf(existing[..Surplus(cfg, |existing|)]) else []
  }

  predicate Refused(cfg: Config, l: Life, r: KeyPackage) {
    OverQuota(cfg, |OfId(Held(l), r.stablePubkey)|, |LastResortsIn(Held(l), r.stablePubkey)|, r.isLastResort)
  }

  /** Eviction comes first, the quota check after it, the insertion last. */
  function DoPublish(cfg: Config, l: Life, r: KeyPackage): (Life, Outcome) {
    var room := Evict(l, Victims(cfg, l, r.stablePubkey, r.isLastResort));
    if Refused(cfg, l, r) then (room, QuotaExceeded)
    else
      match K.SqlPublish(room.t, r)
      case None => (room, StorageFailed)
      case Some(t) => (room.(t := t, published := room.published + [Row(room.t.nextId, r)]), Accepted)
  }

  // ----- Consuming and removing -----

  function DoConsume(l: Life, identifier: Name): (Life, Outcome) {
    var (t, out) := K.SqlConsume(l.t, identifier);
    var taken := if out.Some? && !out.value.isLastResort then RowsWith(l.t.rows, out.value.kpRef) else [];
    (l.(t := t, consumed := l.consumed + taken), Handed(out))
  }

  function RemoveOne(l: Life, ref: Name): Life {
    l.(t := K.SqlRemove(l.t, ref), removed := l.removed + RowsWith(l.t.rows, ref))
  }

  /** One reference after the other; the first bad one stops the request, and what
      was removed before it stays removed. */
  function RemoveEach(l: Life, client: Name, refs: seq<Name>): (Life, Outcome)
    decreases |refs|
  {
    if refs == [] then (l, Removed)
    else
      match K.SqlFind(l.t, refs[0])
      case None => (l, UnknownRef(refs[0]))
      case Some(r) =>
        if r.stablePubkey != client then (l, Unauthorized(refs[0]))
        else RemoveEach(RemoveOne(l, refs[0]), client, refs[1..])
  }

  function Do(cfg: Config, l: Life, step: Step): (Life, Outcome) {
    match step
    case Publish(r) => DoPublish(cfg, l, r)
    case Consume(identifier) => DoConsume(l, identifier)
    case Remove(client, refs) => if refs == [] then (l, InvalidInput) else RemoveEach(l, client, refs)
  }

  function After(cfg: Config, steps: seq<Step>): Life {
    if steps == [] then Start() else Do(cfg, After(cfg, Front(steps)), Last(steps)).0
  }

  // ----- Conservation -----

  ghost predicate Ascending(rows: Rows) {
    forall i, j :: 0 <= i < j < |rows| ==> rows[i].id < rows[j].id
  }

  /** Every instance ever published is in exactly one place. */
  ghost predicate Conserved(l: Life) {
    multiset(l.published) == multiset(l.t.rows) + multiset(l.consumed) + multiset(l.removed) + multiset(l.evicted)
  }

  ghost predicate Numbered(l: Life) {
    && TableOk(l.t) && K.UniqueRefs(Recs(l.t.rows))
    && Ascending(l.published) && forall row :: row in l.published ==> row.id < l.t.nextId
  }

  lemma {:induction false} Split<R>(s: seq<R>, p: R -> bool, q: R -> bool)
    requires forall x :: x in s ==> (p(x) <==> !q(x))
    ensures multiset(s) == multiset(Filter(s, p)) + multiset(Filter(s, q))
  {
    if s != [] {
      Split(Front(s), p, q);
      assert s == Front(s) + [Last(s)];
      assert Last(s) in s;
    }
  }

  /** A deletion moves exactly the rows with the reference. */
  lemma RemoveMoves(t: Table<KeyPackage>, ref: Name)
    ensures multiset(t.rows) == multiset(K.SqlRemove(t, ref).rows) + multiset(RowsWith(t.rows, ref))
  {
    Split(t.rows, RowIs(K.LacksRef(ref)), RowIs(K.HasRef(ref)));
  }

  lemma RemoveNumbered(l: Life, ref: Name)
    requires Numbered(l)
    ensures Numbered(l.(t := K.SqlRemove(l.t, ref)))
  {
    hide Ascending;
    K.SqlRemoveHolds(l.t, Recs(l.t.rows), ref);
  }

  lemma EvictOneKeeps(l: Life, ref: Name)
    requires Numbered(l) && Conserved(l)
    ensures Numbered(EvictOne(l, ref)) && Conserved(EvictOne(l, ref))
  {
    hide K.SqlRemove, K.UniqueRefs, Ascending, TableOk, RowsWith;
    RemoveMoves(l.t, ref);
    RemoveNumbered(l, ref);
  }

  lemma {:induction false} EvictKeeps(l: Life, refs: seq<Name>)
    requires Numbered(l) && Conserved(l)
    ensures Numbered(Evict(l, refs)) && Conserved(Evict(l, refs))
  {
    hide Numbered, Conserved;
    if refs != [] {
      EvictKeeps(l, Front(refs));
      EvictOneKeeps(Evict(l, Front(refs)), Last(refs));
    }
  }

  lemma InsertKeeps(l: Life, r: KeyPackage)
    requires Numbered(l) && Conserved(l) && K.SqlPublish(l.t, r).Some?
    ensures var l' := l.(t := K.SqlPublish(l.t, r).value, published := l.published + [Row(l.t.nextId, r)]);
            Numbered(l') && Conserved(l')
  {
    hide K.UniqueRefs, TableOk, Recs, K.SqlFind;
    InsertNumbered(l, r);
    var row := Row(l.t.nextId, r);
    assert multiset(l.published + [row]) == multiset(l.published) + multiset{row};
    assert multiset(l.t.rows + [row]) == multiset(l.t.rows) + multiset{row};
  }

  lemma InsertNumbered(l: Life, r: KeyPackage)
    requires Numbered(l) && K.SqlPublish(l.t, r).Some?
    ensures Numbered(l.(t := K.SqlPublish(l.t, r).value, published := l.published + [Row(l.t.nextId, r)]))
  {
    hide K.UniqueRefs, TableOk, Recs, K.SqlFind;
    K.SqlPublishHolds(l.t, Recs(l.t.rows), r);
  }

  lemma PublishKeeps(cfg: Config, l: Life, r: KeyPackage)
    requires Numbered(l) && Conserved(l)
    ensures Numbered(DoPublish(cfg, l, r).0) && Conserved(DoPublish(cfg, l, r).0)
  {
    hide Numbered, Conserved, K.SqlPublish, Victims, Evict, Refused;
    var room := Evict(l, Victims(cfg, l, r.stablePubkey, r.isLastResort));
    EvictKeeps(l, Victims(cfg, l, r.stablePubkey, r.isLastResort));
    if K.SqlPublish(room.t, r).Some? {
      InsertKeeps(room, r);
    }
  }

  /** A consume deletes what it hands out when that is a regular package. */
  lemma ConsumeIsRemove(t: Table<KeyPackage>, identifier: Name)
    requires TableOk(t) && K.UniqueRefs(Recs(t.rows))
    ensures var (t', out) := K.SqlConsume(t, identifier);
            t' == if out.Some? && !out.value.isLastResort then K.SqlRemove(t, out.value.kpRef) else t
  {
    var s := Recs(t.rows);
    K.SqlFindIsFind(t, s, identifier);
    K.FindMeaning(s, identifier);
    K.SqlOfferIsOffer(t, s, identifier);
    K.OfferMeaning(s, identifier);
    var out := K.SqlConsume(t, identifier).1;
    if out.Some? {
      K.SqlFindIsFind(t, s, out.value.kpRef);
      K.FindMeaning(s, out.value.kpRef);
    }
  }

  lemma ConsumeKeeps(l: Life, identifier: Name)
    requires Numbered(l) && Conserved(l)
    ensures Numbered(DoConsume(l, identifier).0) && Conserved(DoConsume(l, identifier).0)
  {
    hide K.SqlConsume, K.SqlRemove, K.UniqueRefs, Ascending, TableOk, RowsWith;
    ConsumeIsRemove(l.t, identifier);
    var out := K.SqlConsume(l.t, identifier).1;
    if out.Some? && !out.value.isLastResort {
      RemoveMoves(l.t, out.value.kpRef);
      RemoveNumbered(l, out.value.kpRef);
    }
  }

  lemma {:induction false} RemoveEachKeeps(l: Life, client: Name, refs: seq<Name>)
    requires Numbered(l) && Conserved(l)
    ensures Numbered(RemoveEach(l, client, refs).0) && Conserved(RemoveEach(l, client, refs).0)
    decreases |refs|
  {
    hide K.SqlRemove, K.SqlFind, K.UniqueRefs, Ascending, TableOk, RowsWith;
    if refs != [] && K.SqlFind(l.t, refs[0]).Some? && K.SqlFind(l.t, refs[0]).value.stablePubkey == client {
      RemoveMoves(l.t, refs[0]);
      RemoveNumbered(l, refs[0]);
      RemoveEachKeeps(RemoveOne(l, refs[0]), client, refs[1..]);
    }
  }

  lemma {:induction false} RunConserves(cfg: Config, steps: seq<Step>)
    ensures Numbered(After(cfg, steps)) && Conserved(After(cfg, steps))
  {
    hide Numbered, Conserved, DoPublish, DoConsume, RemoveEach;
    if steps == [] {
      StartKeeps();
    } else {
      var l := After(cfg, Front(steps));
      RunConserves(cfg, Front(steps));
      match Last(steps)
      case Publish(r) => PublishKeeps(cfg, l, r);
      case Consume(identifier) => ConsumeKeeps(l, identifier);
      case Remove(client, refs) => RemoveEachKeeps(l, client, refs);
    }
  }

  lemma StartKeeps()
    ensures Numbered(Start()) && Conserved(Start())
  {
  }

  /** Conservation over every run, and with it: no instance is handed out twice, and
      none that was handed out, removed or evicted is still stored. */
  lemma InstancesAreConserved(cfg: Config, steps: seq<Step>, row: Row<KeyPackage>)
    ensures Conserved(After(cfg, steps))
    ensures var l := After(cfg, steps);
            && multiset(l.consumed)[row] <= 1
            && (row in l.consumed || row in l.removed || row in l.evicted ==> row !in l.t.rows)
            && (row in l.consumed ==> row !in l.removed && row !in l.evicted)
  {
    hide After, Conserved, Numbered;
    var l := After(cfg, steps);
    RunConserves(cfg, steps);
    OneHome(l, row);
  }

  lemma OneHome(l: Life, row: Row<KeyPackage>)
    requires Numbered(l) && Conserved(l)
    ensures multiset(l.consumed)[row] <= 1
    ensures row in l.consumed || row in l.removed || row in l.evicted ==> row !in l.t.rows
    ensures row in l.consumed ==> row !in l.removed && row !in l.evicted
  {
    AscendingOnce(l.published, row);
    assert row in multiset(l.consumed) <==> row in l.consumed;
    assert row in multiset(l.removed) <==> row in l.removed;
    assert row in multiset(l.evicted) <==> row in l.evicted;
    assert row in multiset(l.t.rows) <==> row in l.t.rows;
    assert multiset(l.published)[row] ==
           multiset(l.t.rows)[row] + multiset(l.consumed)[row] + multiset(l.removed)[row] + multiset(l.evicted)[row];
  }

  lemma {:induction false} AscendingOnce(rows: Rows, row: Row<KeyPackage>)
    requires Ascending(rows)
    ensures multiset(rows)[row] <= 1
  {
    if rows != [] {
      AscendingOnce(Front(rows), row);
      assert rows == Front(rows) + [Last(rows)];
      if row == Last(rows) {
        assert row !in Front(rows);
      }
    }
  }

  // ----- What a consume hands out -----

  lemma {:induction false} OneRowPerRef(rows: Rows, i: nat)
    requires K.UniqueRefs(Recs(rows)) && i < |rows|
    ensures RowsWith(rows, rows[i].rec.kpRef) == [rows[i]]
  {
    hide Filter, K.UniqueRefs;
    var p, a, b := RowIs(K.HasRef(rows[i].rec.kpRef)), rows[..i], rows[i + 1..];
    RowsApart(rows, i);
    FilterNone(a, p);
    FilterNone(b, p);
    FilterPush(a, rows[i], p);
    FilterConcat(a + [rows[i]], b, p);
    assert rows == a + [rows[i]] + b;
  }

  lemma {:induction false} RowsApart(rows: Rows, i: nat)
    requires K.UniqueRefs(Recs(rows)) && i < |rows|
    ensures forall x :: x in rows[..i] || x in rows[i + 1..] ==> x.rec.kpRef != rows[i].rec.kpRef
  {
    hide Recs;
    var s := Recs(rows);
    forall j | 0 <= j < |rows| && j != i
      ensures rows[j].rec.kpRef != rows[i].rec.kpRef
    {
      assert s[j] == rows[j].rec && s[i] == rows[i].rec;
    }
  }

  lemma HandedIsHeld(t: Table<KeyPackage>, identifier: Name)
    requires TableOk(t) && K.UniqueRefs(Recs(t.rows)) && K.SqlConsume(t, identifier).1.Some?
    ensures K.SqlConsume(t, identifier).1.value in Recs(t.rows)
  {
    hide K.UniqueRefs, TableOk, Recs, K.SqlConsume, K.Find, K.Offer;
    var s := Recs(t.rows);
    K.SqlConsumeHolds(t, s, identifier);
    K.FindMeaning(s, identifier);
    K.OfferMeaning(s, identifier);
  }

  /** A regular package that is handed out leaves the table as one instance. */
  lemma HandedOutOnce(l: Life, identifier: Name, r: KeyPackage)
    requires Numbered(l) && DoConsume(l, identifier).1 == Handed(Some(r))
    ensures r in Recs(l.t.rows)
    ensures r.isLastResort ==> DoConsume(l, identifier).0 == l
    ensures !r.isLastResort ==>
              exists i :: 0 <= i < |l.t.rows| && l.t.rows[i].rec == r &&
                          DoConsume(l, identifier).0.consumed == l.consumed + [l.t.rows[i]]
  {
    hide K.UniqueRefs, TableOk, Ascending, RowsWith, K.SqlConsume, K.SqlRemove;
    ConsumeIsRemove(l.t, identifier);
    HandedIsHeld(l.t, identifier);
    var i :| 0 <= i < |l.t.rows| && Recs(l.t.rows)[i] == r;
    OneRowPerRef(l.t.rows, i);
    assert l.consumed + [] == l.consumed;
  }

  lemma OfferRow(t: Table<KeyPackage>, id: Name) returns (i: nat)
    requires TableOk(t) && Filter(t.rows, RowIs(K.Of(id))) != []
    ensures i < |t.rows| && t.rows[i].rec.stablePubkey == id && K.SqlOffer(t, id) == Some(t.rows[i].rec)
    ensures forall row :: row in t.rows && row.rec.stablePubkey == id ==> row == t.rows[i] || K.Precedes(t.rows[i], row)
  {
    hide K.Best, K.Precedes;
    var mine := Filter(t.rows, RowIs(K.Of(id)));
    FilterAscending(t.rows, RowIs(K.Of(id)), t.nextId);
    FilterMembers(t.rows, RowIs(K.Of(id)));
    K.BestIsLeast(mine);
    i :| 0 <= i < |t.rows| && t.rows[i] == K.Best(mine);
  }

  /** Row `i` comes first among the rows of its identity: the oldest regular one, or
      the newest one when all are last resorts. */
  ghost predicate FirstChoice(rows: Rows, i: nat) {
    i < |rows| &&
    forall j :: 0 <= j < |rows| && rows[j].rec.stablePubkey == rows[i].rec.stablePubkey ==>
      if rows[i].rec.isLastResort then rows[j].rec.isLastResort && j <= i else rows[j].rec.isLastResort || i <= j
  }

  lemma PrecedesIsFirstChoice(t: Table<KeyPackage>, i: nat)
    requires TableOk(t) && i < |t.rows|
    requires forall row :: row in t.rows && row.rec.stablePubkey == t.rows[i].rec.stablePubkey ==>
               row == t.rows[i] || K.Precedes(t.rows[i], row)
    ensures FirstChoice(t.rows, i)
  {
    forall j | 0 <= j < |t.rows| && t.rows[j].rec.stablePubkey == t.rows[i].rec.stablePubkey
      ensures t.rows[j] == t.rows[i] || K.Precedes(t.rows[i], t.rows[j])
    {
      assert t.rows[j] in t.rows;
    }
  }

  /** An identifier that is itself a held reference is answered by that package. By
      identity: the oldest regular instance; with none left, the newest instance,
      which is a last resort and stays. */
  lemma {:induction false} OldestRegularFirst(l: Life, id: Name)
    requires Numbered(l)
    ensures K.Held(Held(l), id) ==> exists r :: r in Held(l) && r.kpRef == id && DoConsume(l, id).1 == Handed(Some(r))
    ensures !K.Held(Held(l), id) && OfId(Held(l), id) != [] ==>
              exists i: nat :: FirstChoice(l.t.rows, i) && l.t.rows[i].rec.stablePubkey == id &&
                               DoConsume(l, id).1 == Handed(Some(l.t.rows[i].rec))
    ensures !K.Held(Held(l), id) && OfId(Held(l), id) == [] ==> DoConsume(l, id).1 == Handed(None)
  {
    hide K.UniqueRefs, TableOk, Recs, Ascending, FirstChoice, K.SqlConsume, K.Find, K.Offer, RowsWith;
    var s := Held(l);
    K.SqlConsumeHolds(l.t, s, id);
    K.FindMeaning(s, id);
    if OfId(s, id) != [] {
      var i := OfferedFirst(l.t, id);
    } else {
      NothingOffered(s, id);
    }
  }

  lemma OfferedFirst(t: Table<KeyPackage>, id: Name) returns (i: nat)
    requires TableOk(t) && OfId(Recs(t.rows), id) != []
    ensures FirstChoice(t.rows, i) && t.rows[i].rec.stablePubkey == id
    ensures K.Offer(Recs(t.rows), id) == Some(t.rows[i].rec)
  {
    hide K.Precedes, FirstChoice, K.SqlOffer, K.Offer;
    RecsFilter(t.rows, K.Of(id));
    i := OfferRow(t, id);
    PrecedesIsFirstChoice(t, i);
    FirstInRange(t.rows, i);
    K.SqlOfferIsOffer(t, Recs(t.rows), id);
  }

  lemma FirstInRange(rows: Rows, i: nat)
    requires FirstChoice(rows, i)
    ensures i < |rows|
  {
  }

  lemma NothingOffered(s: K.Packages, id: Name)
    requires OfId(s, id) == []
    ensures K.Offer(s, id) == None
  {
  }
}
