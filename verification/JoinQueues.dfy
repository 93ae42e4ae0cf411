/** Join requests: one entry per requester and group, refreshed in place, at most
    100 per group; and the fetch over several groups at once. */
module JoinQueues {
  import opened Seqs
  import opened Records
  import opened Tables
  import opened Queues
  import opened SqlJoins

  const MAX_PENDING: nat := 100

  type Joins = seq<JoinRequest>

  function Group(): JoinRequest -> Name {
    (j: JoinRequest) => j.groupId
  }

  function JoinAck(): JoinRequest -> ConsumedJoin {
    (j: JoinRequest) => ConsumedJoin(j.requester, j.createdAt)
  }

  function Created(): JoinRequest -> int {
    (j: JoinRequest) => j.createdAt
  }

  function SameEntry(j: JoinRequest): JoinRequest -> bool {
    (x: JoinRequest) => x.groupId == j.groupId && x.requester == j.requester
  }

  function Refresh(j: JoinRequest): JoinRequest -> JoinRequest {
    (x: JoinRequest) =>
      if x.groupId == j.groupId && x.requester == j.requester then x.(kpRef := j.kpRef, createdAt := j.createdAt) else x
  }

  // ----- The contract -----

  /** A re-request refreshes its entry where it stands; only a new one meets the cap. */
  function Store(s: Joins, j: JoinRequest): Option<Joins> {
    if Filter(s, SameEntry(j)) != [] then Some(Mapped(s, Refresh(j)))
    else if |Pending(s, Group(), j.groupId)| >= MAX_PENDING then None
    else Some(s + [j])
  }

  ghost predicate UniqueEntries(s: Joins) {
    forall i, k :: 0 <= i < k < |s| ==> s[i].groupId != s[k].groupId || s[i].requester != s[k].requester
  }

  ghost predicate WithinCap(s: Joins) {
    forall g :: |Pending(s, Group(), g)| <= MAX_PENDING
  }

  ghost predicate JoinInv(s: Joins) {
    UniqueEntries(s) && WithinCap(s)
  }

  lemma {:induction false} MappedPending(s: Joins, j: JoinRequest, g: Name)
    ensures Pending(Mapped(s, Refresh(j)), Group(), g) == Mapped(Pending(s, Group(), g), Refresh(j))
  {
    if s != [] {
      MappedPending(Front(s), j, g);
      var t := Mapped(s, Refresh(j));
      assert Front(t) == Mapped(Front(s), Refresh(j)) && Last(t) == Refresh(j)(Last(s));
      var before := Pending(Front(s), Group(), g);
      assert Front(before + [Last(s)]) == before;
    }
  }

  lemma FoundEntry(s: Joins, j: JoinRequest)
    ensures Filter(s, SameEntry(j)) != [] <==>
            exists x :: x in s && x.groupId == j.groupId && x.requester == j.requester
  {
    var found := Filter(s, SameEntry(j));
    FilterMembers(s, SameEntry(j));
    if found != [] {
      assert found[0] in found;
    }
  }

  /** Storing keeps one entry per requester and at most 100 per group. */
  lemma StoreKeepsInv(s: Joins, j: JoinRequest)
    requires JoinInv(s)
    ensures Store(s, j).Some? ==> JoinInv(Store(s, j).value)
  {
    FoundEntry(s, j);
    if Filter(s, SameEntry(j)) != [] {
      var t := Mapped(s, Refresh(j));
      forall g
        ensures |Pending(t, Group(), g)| <= MAX_PENDING
      {
        assert |Pending(s, Group(), g)| <= MAX_PENDING;
        MappedPending(s, j, g);
      }
    } else if Store(s, j).Some? {
      forall g
        ensures |Pending(s + [j], Group(), g)| <= MAX_PENDING
      {
        assert |Pending(s, Group(), g)| <= MAX_PENDING;
        FilterPush(s, j, KeyIs(Group(), g));
      }
    }
  }

  lemma {:induction false} FilterKeepsInv(s: Joins, q: JoinRequest -> bool)
    requires JoinInv(s)
    ensures JoinInv(Filter(s, q))
  {
    UniqueFilter(s, q);
    forall g
      ensures |Pending(Filter(s, q), Group(), g)| <= MAX_PENDING
    {
      assert |Pending(s, Group(), g)| <= MAX_PENDING;
      FilterSwap(s, q, KeyIs(Group(), g));
    }
  }

  lemma {:induction false} UniqueFilter(s: Joins, q: JoinRequest -> bool)
    requires UniqueEntries(s)
    ensures UniqueEntries(Filter(s, q))
  {
    if s != [] {
      UniqueFilter(Front(s), q);
      FilterMembers(Front(s), q);
      forall x | x in Filter(Front(s), q)
        ensures x.groupId != Last(s).groupId || x.requester != Last(s).requester
      {
        assert x in Front(s);
      }
    }
  }

  // ----- In memory -----

  /** The first entry of the requester in a group's list. */
  function Position(list: Joins, requester: Name): (i: nat)
    ensures i <= |list|
    ensures i < |list| ==> list[i].requester == requester
    ensures forall k :: 0 <= k < i ==> list[k].requester != requester
  {
    if list == [] || list[0].requester == requester then 0 else 1 + Position(list[1..], requester)
  }

  function MemStore(ix: Index<JoinRequest>, j: JoinRequest): Option<Index<JoinRequest>> {
    var list := Get(ix, j.groupId);
    var i := Position(list, j.requester);
    if i < |list| then Some(Put(ix, j.groupId, list[i := list[i].(kpRef := j.kpRef, createdAt := j.createdAt)]))
    else if |list| >= MAX_PENDING then None
    else Some(Put(ix, j.groupId, list + [j]))
  }

  lemma RefreshInGroup(list: Joins, j: JoinRequest)
    requires UniqueEntries(list) && forall x :: x in list ==> x.groupId == j.groupId
    requires Position(list, j.requester) < |list|
    ensures var i := Position(list, j.requester);
            list[i := list[i].(kpRef := j.kpRef, createdAt := j.createdAt)] == Mapped(list, Refresh(j))
  {
    hide Mapped, UniqueEntries;
    var i := Position(list, j.requester);
    var out := list[i := list[i].(kpRef := j.kpRef, createdAt := j.createdAt)];
    forall k | 0 <= k < |list|
      ensures out[k] == Refresh(j)(list[k])
    {
      assert list[k] in list;
      OtherRequester(list, i, k);
    }
  }

  lemma OtherRequester(list: Joins, i: nat, k: nat)
    requires UniqueEntries(list) && i < |list| && k < |list| && list[i].groupId == list[k].groupId
    ensures k != i ==> list[k].requester != list[i].requester
  {
  }

  lemma MemStoreHolds(ix: Index<JoinRequest>, s: Joins, j: JoinRequest)
    requires Indexed(ix, s, Group()) && UniqueEntries(s)
    ensures MemStore(ix, j).Some? <==> Store(s, j).Some?
    ensures Store(s, j).Some? ==> Indexed(MemStore(ix, j).value, Store(s, j).value, Group())
  {
    var g, list := j.groupId, Get(ix, j.groupId);
    ListFound(ix, s, j);
    if Filter(s, SameEntry(j)) != [] {
      UniqueFilter(s, KeyIs(Group(), g));
      FilterMembers(s, KeyIs(Group(), g));
      RefreshInGroup(list, j);
      RefreshIndexed(ix, s, j);
    } else if Store(s, j).Some? {
      PushIndexed(ix, s, Group(), j);
    }
  }

  lemma ListFound(ix: Index<JoinRequest>, s: Joins, j: JoinRequest)
    requires Indexed(ix, s, Group())
    ensures Filter(s, SameEntry(j)) != [] <==> Position(Get(ix, j.groupId), j.requester) < |Get(ix, j.groupId)|
  {
    var list := Get(ix, j.groupId);
    FoundEntry(s, j);
    FilterMembers(s, KeyIs(Group(), j.groupId));
    if Position(list, j.requester) < |list| {
      assert list[Position(list, j.requester)] in list;
    }
    assert forall x :: x in s && x.groupId == j.groupId ==> x in list;
  }

  lemma RefreshIndexed(ix: Index<JoinRequest>, s: Joins, j: JoinRequest)
    requires Indexed(ix, s, Group())
    ensures Indexed(Put(ix, j.groupId, Mapped(Get(ix, j.groupId), Refresh(j))), Mapped(s, Refresh(j)), Group())
  {
    var t := Mapped(s, Refresh(j));
    forall g
      ensures Filter(t, KeyIs(Group(), g)) == Mapped(Filter(s, KeyIs(Group(), g)), Refresh(j))
      ensures g != j.groupId ==> Filter(t, KeyIs(Group(), g)) == Filter(s, KeyIs(Group(), g))
    {
      MappedPending(s, j, g);
      if g != j.groupId {
        FilterMembers(s, KeyIs(Group(), g));
        OthersKept(Filter(s, KeyIs(Group(), g)), j);
      }
    }
    PutIndexed(ix, s, t, Group(), j.groupId);
  }

  lemma OthersKept(list: Joins, j: JoinRequest)
    requires forall x :: x in list ==> x.groupId != j.groupId
    ensures Mapped(list, Refresh(j)) == list
  {
    assert forall i :: 0 <= i < |list| ==> list[i] in list;
  }

  // ----- SQLite -----

  function SqlStore(t: Table<JoinRequest>, j: JoinRequest): Option<Table<JoinRequest>> {
    if Filter(t.rows, RowIs(SameEntry(j))) != [] then Some(Update(t, Refresh(j)))
    else if |Filter(t.rows, RowIs(KeyIs(Group(), j.groupId)))| >= MAX_PENDING then None
    else Some(Insert(t, j))
  }

  lemma SqlStoreHolds(t: Table<JoinRequest>, s: Joins, j: JoinRequest)
    requires Tabled(t, s)
    ensures SqlStore(t, j).Some? <==> Store(s, j).Some?
    ensures Store(s, j).Some? ==> Tabled(SqlStore(t, j).value, Store(s, j).value)
  {
    hide Recs, Mapped, MapRows, Tabled;
    TabledRecs(t, s);
    RecsFilter(t.rows, SameEntry(j));
    RecsFilter(t.rows, KeyIs(Group(), j.groupId));
    UpdateTabled(t, s, Refresh(j));
    InsertTabled(t, s, j);
  }

  // ----- Several groups at once -----

  /** The acknowledgements of each group, in order. */
  function Partition(consumed: seq<ConsumedGroupJoin>): map<Name, seq<ConsumedJoin>> {
    if consumed == [] then map[]
    else
      var before, c := Partition(Front(consumed)), Last(consumed);
      var list := if c.groupId in before then before[c.groupId] else [];
      before[c.groupId := list + [ConsumedJoin(c.requester, c.createdAt)]]
  }

  function Part(consumed: seq<ConsumedGroupJoin>, g: Name): seq<ConsumedJoin> {
    if g in Partition(consumed) then Partition(consumed)[g] else []
  }

  /** The partition loses and invents nothing. */
  lemma {:induction false} PartitionMeaning(consumed: seq<ConsumedGroupJoin>, g: Name, c: ConsumedJoin)
    ensures c in Part(consumed, g) <==> ConsumedGroupJoin(g, c.requester, c.createdAt) in consumed
  {
    if consumed != [] {
      PartitionMeaning(Front(consumed), g, c);
      assert consumed == Front(consumed) + [Last(consumed)];
    }
  }

  /** Retire and fetch group by group. */
  function FetchEach(s: Joins, groups: seq<Name>, consumed: seq<ConsumedGroupJoin>): (Joins, Joins) {
    if groups == [] then (s, [])
    else
      var before, g := FetchEach(s, Front(groups), consumed), Last(groups);
      var now := Retire(before.0, Group(), JoinAck(), g, Part(consumed, g));
      (now, before.1 + Pending(now, Group(), g))
  }

  /** Retire the acknowledged entries of every group first. */
  function RetireEach(s: Joins, groups: seq<Name>, consumed: seq<ConsumedGroupJoin>): Joins {
    if groups == [] then s
    else
      Retire(RetireEach(s, Front(groups), consumed), Group(), JoinAck(), Last(groups), Part(consumed, Last(groups)))
  }

  /** The entries of the requested groups, one group after the other. */
  function JoinGroups(s: Joins, groups: seq<Name>): Joins {
    if groups == [] then [] else JoinGroups(s, Front(groups)) + Pending(s, Group(), Last(groups))
  }

  /** Retiring once more under some group changes no fetch of a group already done. */
  lemma {:induction false} DoneGroups(s: Joins, groups: seq<Name>, consumed: seq<ConsumedGroupJoin>, g: Name)
    requires g in groups
    ensures var t := RetireEach(s, groups, consumed);
            Pending(Retire(t, Group(), JoinAck(), g, Part(consumed, g)), Group(), g) == Pending(t, Group(), g)
  {
    var before, h := RetireEach(s, Front(groups), consumed), Last(groups);
    var t := Retire(before, Group(), JoinAck(), h, Part(consumed, h));
    if g == h {
      RetireTwice(before, Group(), JoinAck(), g, Part(consumed, g));
    } else {
      DoneGroups(s, Front(groups), consumed, g);
      RetireElsewhere(before, Group(), JoinAck(), h, Part(consumed, h), g);
      RetireSwap(before, g, Part(consumed, g), h, Part(consumed, h));
      var mine := Retire(before, Group(), JoinAck(), g, Part(consumed, g));
      RetireElsewhere(mine, Group(), JoinAck(), h, Part(consumed, h), g);
    }
  }

  lemma RetireSwap(s: Joins, g: Name, a: seq<ConsumedJoin>, h: Name, b: seq<ConsumedJoin>)
    ensures Retire(Retire(s, Group(), JoinAck(), h, b), Group(), JoinAck(), g, a) ==
            Retire(Retire(s, Group(), JoinAck(), g, a), Group(), JoinAck(), h, b)
  {
    FilterSwap(s, Unacked(Group(), JoinAck(), h, b), Unacked(Group(), JoinAck(), g, a));
  }

  /** So what was joined for the groups so far stays what it was. */
  lemma {:induction false} JoinStable(s: Joins, groups: seq<Name>, upto: nat, consumed: seq<ConsumedGroupJoin>, g: Name)
    requires upto <= |groups|
    ensures var t := RetireEach(s, groups, consumed);
            var now := Retire(t, Group(), JoinAck(), g, Part(consumed, g));
            JoinGroups(now, groups[..upto]) == JoinGroups(t, groups[..upto])
  {
    if upto > 0 {
      var t := RetireEach(s, groups, consumed);
      JoinStable(s, groups, upto - 1, consumed, g);
      var h := groups[upto - 1];
      assert Front(groups[..upto]) == groups[..upto - 1] && Last(groups[..upto]) == h;
      if h == g {
        DoneGroups(s, groups, consumed, g);
      } else {
        RetireElsewhere(t, Group(), JoinAck(), g, Part(consumed, g), h);
      }
    }
  }

  /** Deleting everything acknowledged and then joining is the same, in result and
      in state, as retiring and fetching group by group, repeated groups included. */
  lemma {:induction false} BatchIsLoop(s: Joins, groups: seq<Name>, consumed: seq<ConsumedGroupJoin>)
    ensures var t := RetireEach(s, groups, consumed); FetchEach(s, groups, consumed) == (t, JoinGroups(t, groups))
  {
    if groups != [] {
      BatchIsLoop(s, Front(groups), consumed);
      JoinStable(s, Front(groups), |Front(groups)|, consumed, Last(groups));
      assert Front(groups)[..|Front(groups)|] == Front(groups);
    }
  }

  function MemFetchEach(
    ix: Index<JoinRequest>, groups: seq<Name>, consumed: seq<ConsumedGroupJoin>): (Index<JoinRequest>, Joins) {
    if groups == [] then (ix, [])
    else
      var before, g := MemFetchEach(ix, Front(groups), consumed), Last(groups);
      var now := MemRetire(before.0, JoinAck(), g, Part(consumed, g));
      (now, before.1 + Get(now, g))
  }

  lemma {:induction false} MemFetchEachHolds(
    ix: Index<JoinRequest>, s: Joins, groups: seq<Name>, consumed: seq<ConsumedGroupJoin>)
    requires Indexed(ix, s, Group())
    ensures Indexed(MemFetchEach(ix, groups, consumed).0, FetchEach(s, groups, consumed).0, Group())
    ensures MemFetchEach(ix, groups, consumed).1 == FetchEach(s, groups, consumed).1
  {
    if groups != [] {
      MemFetchEachHolds(ix, s, Front(groups), consumed);
      var before, g := MemFetchEach(ix, Front(groups), consumed), Last(groups);
      MemRetireHolds(before.0, FetchEach(s, Front(groups), consumed).0, Group(), JoinAck(), g, Part(consumed, g));
    }
  }

  function SqlRetireEach(
    t: Table<JoinRequest>, groups: seq<Name>, consumed: seq<ConsumedGroupJoin>): Table<JoinRequest> {
    if groups == [] then t
    else
      var before, g := SqlRetireEach(t, Front(groups), consumed), Last(groups);
      SqlRetire(before, Group(), JoinAck(), g, Part(consumed, g))
  }

  function SqlFetchEach(
    t: Table<JoinRequest>, groups: seq<Name>, consumed: seq<ConsumedGroupJoin>): (Table<JoinRequest>, Joins) {
    var now := SqlRetireEach(t, groups, consumed);
    (now, Joined(groups, now.rows, InGroup(), IdOf()))
  }

  function InGroup(): (Name, JoinRequest) -> bool {
    (g: Name, j: JoinRequest) => j.groupId == g
  }

  function IdOf(): Row<JoinRequest> -> int {
    (row: Row<JoinRequest>) => row.id
  }

  lemma {:induction false} RequestsJoin(s: Joins, groups: seq<Name>)
    ensures PerRequest(groups, s, InGroup()) == JoinGroups(s, groups)
  {
    if groups != [] {
      RequestsJoin(s, Front(groups));
      FilterAgree(s, On(InGroup(), Last(groups)), KeyIs(Group(), Last(groups)));
    }
  }

  /** The join with the table, ordered by request and id, lists group after group. */
  lemma TableJoin(t: Table<JoinRequest>, s: Joins, groups: seq<Name>)
    requires Tabled(t, s)
    ensures Joined(groups, t.rows, InGroup(), IdOf()) == JoinGroups(s, groups)
  {
    hide Joined;
    JoinIsPerRequest(groups, t.rows, InGroup(), IdOf());
    RequestsJoin(s, groups);
  }

  lemma {:induction false} SqlRetireEachHolds(
    t: Table<JoinRequest>, s: Joins, groups: seq<Name>, consumed: seq<ConsumedGroupJoin>)
    requires Tabled(t, s)
    ensures Tabled(SqlRetireEach(t, groups, consumed), RetireEach(s, groups, consumed))
  {
    if groups != [] {
      SqlRetireEachHolds(t, s, Front(groups), consumed);
      SqlRetireHolds(SqlRetireEach(t, Front(groups), consumed), RetireEach(s, Front(groups), consumed),
                     Group(), JoinAck(), Last(groups), Part(consumed, Last(groups)));
    }
  }

  lemma SqlFetchEachHolds(t: Table<JoinRequest>, s: Joins, groups: seq<Name>, consumed: seq<ConsumedGroupJoin>)
    requires Tabled(t, s)
    ensures Tabled(SqlFetchEach(t, groups, consumed).0, FetchEach(s, groups, consumed).0)
    ensures SqlFetchEach(t, groups, consumed).1 == FetchEach(s, groups, consumed).1
  {
    hide Joined, Tabled;
    SqlRetireEachHolds(t, s, groups, consumed);
    TableJoin(SqlRetireEach(t, groups, consumed), RetireEach(s, groups, consumed), groups);
    BatchIsLoop(s, groups, consumed);
  }

  lemma {:induction false} FetchEachKeepsInv(s: Joins, groups: seq<Name>, consumed: seq<ConsumedGroupJoin>)
    requires JoinInv(s)
    ensures JoinInv(FetchEach(s, groups, consumed).0)
  {
    if groups != [] {
      FetchEachKeepsInv(s, Front(groups), consumed);
      FilterKeepsInv(FetchEach(s, Front(groups), consumed).0,
                     Unacked(Group(), JoinAck(), Last(groups), Part(consumed, Last(groups))));
    }
  }
}
