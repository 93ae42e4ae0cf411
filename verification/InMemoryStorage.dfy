/** The in-memory backend as the program runs it: four ordered maps changed in
    place. Every method is proved to be the corresponding `MemAsk` step. */
module InMemoryStorage {
  import opened Seqs
  import opened Records
  import opened Tables
  import opened Queues
  import opened Backends
  import K = KeyStore
  import J = JoinQueues
  import M = MessageStore

  // ----- Loops over one list -----

  method PositionOfRef(list: seq<KeyPackage>, ref: Name) returns (i: nat)
    ensures i == K.Position(list, ref)
  {
    i := 0;
    while i < |list| && list[i].kpRef != ref
      invariant i <= |list|
      invariant forall j :: 0 <= j < i ==> list[j].kpRef != ref
    {
      i := i + 1;
    }
  }

  method PositionOfRegular(list: seq<KeyPackage>) returns (i: nat)
    ensures i == K.FirstRegular(list)
  {
    i := 0;
    while i < |list| && list[i].isLastResort
      invariant i <= |list|
      invariant forall j :: 0 <= j < i ==> list[j].isLastResort
    {
      i := i + 1;
    }
  }

  method PositionOfRequester(list: seq<JoinRequest>, requester: Name) returns (i: nat)
    ensures i == J.Position(list, requester)
  {
    i := 0;
    while i < |list| && list[i].requester != requester
      invariant i <= |list|
      invariant forall j :: 0 <= j < i ==> list[j].requester != requester
    {
      i := i + 1;
    }
  }

  /** `retain`, element by element. */
  method RetainIn<R>(list: seq<R>, keep: R -> bool) returns (out: seq<R>)
    ensures out == Filter(list, keep)
  {
    out := [];
    for i := 0 to |list|
      invariant out == Filter(list[..i], keep)
    {
      assert list[..i + 1] == list[..i] + [list[i]];
      FilterPush(list[..i], list[i], keep);
      if keep(list[i]) {
        out := out + [list[i]];
      }
    }
    assert list[..|list|] == list;
  }

  // ----- Loops over the keys -----

  lemma LocateSkips(ix: Index<KeyPackage>, keys: seq<Name>, i: nat, ref: Name)
    requires i <= |keys|
    requires forall j :: 0 <= j < i ==> K.Position(Get(ix, keys[j]), ref) == |Get(ix, keys[j])|
    ensures K.Locate(ix, keys, ref) == K.Locate(ix, keys[i..], ref)
    decreases i
  {
    if i == 0 {
      assert keys[0..] == keys;
    } else {
      assert keys[1..][i - 1..] == keys[i..];
      LocateSkips(ix, keys[1..], i - 1, ref);
    }
  }

  method LocateByRef(ix: Index<KeyPackage>, ref: Name) returns (at: Option<Name>, index: nat)
    ensures at == K.Locate(ix, ix.keys, ref)
    ensures at.Some? ==> index == K.Position(Get(ix, at.value), ref)
  {
    index := 0;
    for i := 0 to |ix.keys|
      invariant forall j :: 0 <= j < i ==> K.Position(Get(ix, ix.keys[j]), ref) == |Get(ix, ix.keys[j])|
    {
      var list := Get(ix, ix.keys[i]);
      index := PositionOfRef(list, ref);
      if index < |list| {
        LocateSkips(ix, ix.keys, i, ref);
        return Some(ix.keys[i]), index;
      }
    }
    LocateSkips(ix, ix.keys, |ix.keys|, ref);
    at := None;
  }

  method ListEverything<R>(ix: Index<R>) returns (out: seq<R>)
    ensures out == Flatten(ix, ix.keys)
  {
    out := [];
    for i := 0 to |ix.keys|
      invariant out == Flatten(ix, ix.keys[..i])
    {
      assert Front(ix.keys[..i + 1]) == ix.keys[..i];
      out := out + Get(ix, ix.keys[i]);
    }
    assert ix.keys[..|ix.keys|] == ix.keys;
  }

  function NotAmong(ks: seq<Name>): Name -> bool {
    (k: Name) => k !in ks
  }

  function Emptied<R>(ix: Index<R>, q: R -> bool): Name -> bool {
    (k: Name) => Filter(Get(ix, k), q) == []
  }

  lemma OneMoreKey<R>(ix: Index<R>, q: R -> bool, i: nat)
    requires Valid(ix) && i < |ix.keys|
    ensures var k := ix.keys[i];
            && k in ix.lists
            && ix.keys[..i + 1] == ix.keys[..i] + [k]
            && Dropped(ix, q, ix.keys[..i + 1]) == Dropped(ix, q, ix.keys[..i]) + |Get(ix, k)| - |Filter(Get(ix, k), q)|
            && Filter(ix.keys[..i + 1], Emptied(ix, q)) ==
               Filter(ix.keys[..i], Emptied(ix, q)) + if Filter(Get(ix, k), q) == [] then [k] else []
  {
    var k := ix.keys[i];
    assert ix.keys[..i + 1] == ix.keys[..i] + [k] && Front(ix.keys[..i + 1]) == ix.keys[..i];
    FilterPush(ix.keys[..i], k, Emptied(ix, q));
  }

  /** Every list is thinned out and counted; the emptied keys are noted. */
  method ThinLists<R>(
    ix: Index<R>, keep: R -> bool) returns (lists: map<Name, seq<R>>, emptied: seq<Name>, deleted: int)
    requires Valid(ix)
    ensures Thinned(ix, lists, keep, ix.keys)
    ensures emptied == Filter(ix.keys, Emptied(ix, keep))
    ensures deleted == Dropped(ix, keep, ix.keys)
  {
    hide Thinned, Filter, Dropped, Valid;
    lists, emptied, deleted := ix.lists, [], 0;
    NothingDone(ix, keep);
    for i := 0 to |ix.keys|
      invariant deleted == Dropped(ix, keep, ix.keys[..i])
      invariant Thinned(ix, lists, keep, ix.keys[..i])
      invariant emptied == Filter(ix.keys[..i], Emptied(ix, keep))
    {
      var k := ix.keys[i];
      OneMoreKey(ix, keep, i);
      var kept := RetainIn(Get(ix, k), keep);
      ThinMore(ix, lists, keep, ix.keys[..i], k);
      lists := lists[k := kept];
      deleted := deleted + (|Get(ix, k)| - |kept|);
      if kept == [] {
        emptied := emptied + [k];
      }
    }
    assert ix.keys[..|ix.keys|] == ix.keys;
  }

  lemma NothingDone<R>(ix: Index<R>, q: R -> bool)
    ensures Thinned(ix, ix.lists, q, ix.keys[..0])
    ensures Dropped(ix, q, ix.keys[..0]) == 0 && Filter(ix.keys[..0], Emptied(ix, q)) == []
  {
  }

  method ExpireLists<R>(ix: Index<R>, at: R -> int, threshold: int) returns (out: Index<R>, deleted: int)
    requires Valid(ix)
    ensures (out, deleted) == MemExpire(ix, at, threshold)
  {
    hide Thinned, Filter, Dropped, Valid, Retain;
    if threshold <= 0 {
      return ix, 0;
    }
    var lists, emptied, dropped := ThinLists(ix, NotBefore(at, threshold));
    var keys := DropKeys(ix.keys, emptied);
    ThinnedIsRetain(ix, lists, NotBefore(at, threshold), emptied);
    out, deleted := Index(keys, lists - Elems(emptied)), dropped;
  }

  /** The lists of the keys done so far hold what passes `q`; the others are untouched. */
  ghost predicate Thinned<R>(ix: Index<R>, lists: map<Name, seq<R>>, q: R -> bool, done: seq<Name>) {
    && lists.Keys == ix.lists.Keys
    && forall k :: k in lists ==> lists[k] == if k in done then Filter(ix.lists[k], q) else ix.lists[k]
  }

  lemma ThinMore<R>(ix: Index<R>, lists: map<Name, seq<R>>, q: R -> bool, done: seq<Name>, k: Name)
    requires Thinned(ix, lists, q, done) && k in ix.lists
    ensures Thinned(ix, lists[k := Filter(Get(ix, k), q)], q, done + [k])
  {
  }

  /** One `shift_remove` after the other. */
  method DropKeys(keys: seq<Name>, gone: seq<Name>) returns (out: seq<Name>)
    ensures out == Filter(keys, NotAmong(gone))
  {
    out := keys;
    FilterAll(keys, NotAmong([]));
    for i := 0 to |gone|
      invariant out == Filter(keys, NotAmong(gone[..i]))
    {
      FilterTwice(keys, NotAmong(gone[..i]), NotName(gone[i]), NotAmong(gone[..i + 1]));
      out := RetainIn(out, NotName(gone[i]));
    }
    assert gone[..|gone|] == gone;
  }

  lemma ThinnedIsRetain<R>(ix: Index<R>, lists: map<Name, seq<R>>, q: R -> bool, emptied: seq<Name>)
    requires Valid(ix) && Thinned(ix, lists, q, ix.keys) && emptied == Filter(ix.keys, Emptied(ix, q))
    ensures Index(Filter(ix.keys, NotAmong(emptied)), lists - Elems(emptied)) == Retain(ix, q)
  {
    FilterMembers(ix.keys, Emptied(ix, q));
    FilterAgree(ix.keys, NotAmong(emptied), Survives(ix, q));
    assert lists - Elems(emptied) == Retain(ix, q).lists;
  }

  method PartitionConsumed(consumed: seq<ConsumedGroupJoin>) returns (byGroup: map<Name, seq<ConsumedJoin>>)
    ensures byGroup == J.Partition(consumed)
  {
    byGroup := map[];
    for i := 0 to |consumed|
      invariant byGroup == J.Partition(consumed[..i])
    {
      var c := consumed[i];
      assert Front(consumed[..i + 1]) == consumed[..i];
      var list := if c.groupId in byGroup then byGroup[c.groupId] else [];
      byGroup := byGroup[c.groupId := list + [ConsumedJoin(c.requester, c.createdAt)]];
    }
    assert consumed[..|consumed|] == consumed;
  }

  lemma JoinsAsk(m: Memory, g: Name, accepted: seq<ConsumedJoin>)
    ensures var now := MemRetire(m.joins, J.JoinAck(), g, accepted);
            MemAsk(m, FetchJoins(g, accepted)) == (m.(joins := now), Joins(Get(now, g)))
  {
  }

  lemma ManyJoinsAsk(m: Memory, ids: seq<Name>, accepted: seq<ConsumedGroupJoin>)
    ensures var fetched := J.MemFetchEach(m.joins, ids, accepted);
            MemAsk(m, FetchManyJoins(ids, accepted)) == (m.(joins := fetched.0), Joins(fetched.1))
  {
  }

  class InMemoryCoordinatorStorage {
    var kps: Index<KeyPackage>
    var welcomes: Index<Welcome>
    var joins: Index<JoinRequest>
    var groups: M.MemLogs

    ghost function State(): Memory
      reads this
    {
      Memory(kps, welcomes, joins, groups)
    }

    ghost predicate Ok()
      reads this
    {
      Valid(kps) && Valid(welcomes) && Valid(joins)
    }

    constructor ()
      ensures Ok() && State() == EmptyMemory()
    {
      kps, welcomes, joins, groups := NoKeys(), NoKeys(), NoKeys(), map[];
    }

    method PublishKeyPackage(r: KeyPackage) returns (out: KeyPackage)
      requires Ok()
      modifies this
      ensures Ok() && (State(), Published(out)) == MemAsk(old(State()), Publish(r))
    {
      PutValid(kps, r.stablePubkey, Get(kps, r.stablePubkey) + [r]);
      kps := Put(kps, r.stablePubkey, Get(kps, r.stablePubkey) + [r]);
      out := r;
    }

    method ListKeyPackagesForIdentity(id: Name) returns (out: seq<KeyPackage>)
      requires Ok()
      ensures (State(), Packages(out)) == MemAsk(State(), ListFor(id))
    {
      out := if id in kps.lists then kps.lists[id] else [];
    }

    method ListAllKeyPackages() returns (out: seq<KeyPackage>)
      requires Ok()
      ensures (State(), Everything(out)) == MemAsk(State(), ListAll)
    {
      out := ListEverything(kps);
    }

    method GetKeyPackage(ref: Name) returns (out: Option<KeyPackage>)
      requires Ok()
      ensures (State(), Perhaps(out)) == MemAsk(State(), GetPackage(ref))
    {
      var at, index := LocateByRef(kps, ref);
      out := if at.None? then None else Some(Get(kps, at.value)[index]);
    }

    /** Take one record out of its list; an emptied list takes its key along. */
    method TakeAt(k: Name, index: nat) returns (out: KeyPackage)
      requires Ok() && index < |Get(kps, k)|
      modifies this`kps
      ensures Ok() && out == old(Get(kps, k)[index])
      ensures kps == Put(old(kps), k, K.RemoveAt(old(Get(kps, k)), index))
    {
      var list := Get(kps, k);
      out := list[index];
      PutValid(kps, k, K.RemoveAt(list, index));
      kps := Put(kps, k, K.RemoveAt(list, index));
    }

    method RemoveKeyPackage(ref: Name) returns (out: Option<KeyPackage>)
      requires Ok()
      modifies this
      ensures Ok() && (State(), Perhaps(out)) == MemAsk(old(State()), RemovePackage(ref))
    {
      hide Valid, Put, K.RemoveAt;
      var at, index := LocateByRef(kps, ref);
      if at.None? {
        return None;
      }
      var record := TakeAt(at.value, index);
      out := Some(record);
    }

    method ConsumeKeyPackage(identifier: Name) returns (out: Option<KeyPackage>)
      requires Ok()
      modifies this
      ensures Ok() && (State(), Perhaps(out)) == MemAsk(old(State()), ConsumePackage(identifier))
    {
      hide Valid, Put, K.RemoveAt;
      var at, index := LocateByRef(kps, identifier);
      if at.Some? {
        var record := Get(kps, at.value)[index];
        if !record.isLastResort {
          record := TakeAt(at.value, index);
        }
        return Some(record);
      }
      var mine := Get(kps, identifier);
      var first := PositionOfRegular(mine);
      if first < |mine| {
        var record := TakeAt(identifier, first);
        return Some(record);
      }
      out := if mine == [] then None else Some(Last(mine));
    }

    method StoreWelcomeRecord(w: Welcome) returns (out: Welcome)
      requires Ok()
      modifies this
      ensures Ok() && (State(), WelcomeStored(out)) == MemAsk(old(State()), StoreWelcome(w))
    {
      PutValid(welcomes, w.target, Get(welcomes, w.target) + [w]);
      welcomes := Put(welcomes, w.target, Get(welcomes, w.target) + [w]);
      out := w;
    }

    method FetchPendingWelcomes(target: Name, handled: seq<ConsumedWelcome>) returns (out: seq<Welcome>)
      requires Ok()
      modifies this
      ensures Ok() && (State(), Welcomes(out)) == MemAsk(old(State()), FetchWelcomes(target, handled))
    {
      hide Valid, Put;
      if target !in welcomes.lists {
        return [];
      }
      var list := Get(welcomes, target);
      FilterAll(list, NotAcked(WelcomeAck(), []));
      out := list;
      if handled != [] {
        out := RetainIn(list, NotAcked(WelcomeAck(), handled));
      }
      PutValid(welcomes, target, out);
      welcomes := Put(welcomes, target, out);
    }

    method DeleteExpiredWelcomes(threshold: int) returns (deleted: int)
      requires Ok()
      modifies this
      ensures Ok() && (State(), Deleted(deleted)) == MemAsk(old(State()), ExpireWelcomes(threshold))
    {
      RetainValid(welcomes, NotBefore(WelcomeAt(), threshold));
      welcomes, deleted := ExpireLists(welcomes, WelcomeAt(), threshold);
    }

    method StoreJoinRequest(j: JoinRequest) returns (out: Answer)
      requires Ok()
      modifies this
      ensures Ok() && (State(), out) == MemAsk(old(State()), StoreJoin(j))
    {
      hide Valid, Put;
      var list := Get(joins, j.groupId);
      var i := PositionOfRequester(list, j.requester);
      if i < |list| {
        list := list[i := list[i].(kpRef := j.kpRef, createdAt := j.createdAt)];
      } else if |list| >= J.MAX_PENDING {
        return Failed(TooManyPendingJoinRequests);
      } else {
        list := list + [j];
      }
      PutValid(joins, j.groupId, list);
      joins := Put(joins, j.groupId, list);
      out := JoinStored(j);
    }

    method FetchPendingJoins(g: Name, accepted: seq<ConsumedJoin>) returns (out: seq<JoinRequest>)
      requires Ok()
      modifies this`joins
      ensures Ok() && joins == MemRetire(old(joins), J.JoinAck(), g, accepted) && out == Get(joins, g)
      ensures (State(), Joins(out)) == MemAsk(old(State()), FetchJoins(g, accepted))
    {
      hide Valid, Put, MemAsk;
      JoinsAsk(State(), g, accepted);
      if g !in joins.lists {
        return [];
      }
      var list := Get(joins, g);
      FilterAll(list, NotAcked(J.JoinAck(), []));
      out := list;
      if accepted != [] {
        out := RetainIn(list, NotAcked(J.JoinAck(), accepted));
      }
      PutValid(joins, g, out);
      joins := Put(joins, g, out);
    }

    method FetchManyPendingJoins(ids: seq<Name>, accepted: seq<ConsumedGroupJoin>) returns (out: seq<JoinRequest>)
      requires Ok()
      modifies this`joins
      ensures Ok() && (State(), Joins(out)) == MemAsk(old(State()), FetchManyJoins(ids, accepted))
    {
      hide Valid, MemRetire, MemAsk, J.Partition;
      ManyJoinsAsk(State(), ids, accepted);
      var byGroup := PartitionConsumed(accepted);
      out := [];
      ghost var start := joins;
      for i := 0 to |ids|
        invariant Ok() && (joins, out) == J.MemFetchEach(start, ids[..i], accepted)
      {
        assert Front(ids[..i + 1]) == ids[..i];
        var part := if ids[i] in byGroup then byGroup[ids[i]] else [];
        var fetched := FetchPendingJoins(ids[i], part);
        out := out + fetched;
      }
      assert ids[..|ids|] == ids;
    }

    method DeleteExpiredJoins(threshold: int) returns (deleted: int)
      requires Ok()
      modifies this
      ensures Ok() && (State(), Deleted(deleted)) == MemAsk(old(State()), ExpireJoins(threshold))
    {
      RetainValid(joins, NotBefore(J.Created(), threshold));
      joins, deleted := ExpireLists(joins, J.Created(), threshold);
    }

    method AppendGroupMessage(g: Name, payload: Bytes, at: int) returns (out: Message)
      requires Ok()
      modifies this
      ensures Ok() && (State(), Appended(out)) == MemAsk(old(State()), AppendMessage(g, payload, at))
    {
      var log := M.LogOf(groups, g);
      out := Message(log.nextCursor, g, payload, at);
      groups := groups[g := M.GroupLog(log.nextCursor + 1, log.messages + [out])];
    }

    method FetchGroupMessages(g: Name, after: Option<int>) returns (out: seq<Message>)
      requires Ok()
      ensures (State(), MessageList(out)) == MemAsk(State(), FetchMessages(g, after))
    {
      out := RetainIn(M.LogOf(groups, g).messages, Above(M.AfterOf(after)));
    }

    method FetchManyGroupMessages(inputs: seq<FetchInput>) returns (out: seq<Message>)
      requires Ok()
      ensures (State(), MessageList(out)) == MemAsk(State(), FetchManyMessages(inputs))
    {
      hide Filter;
      out := [];
      for i := 0 to |inputs|
        invariant out == M.MemFetchMany(groups, inputs[..i])
      {
        assert Front(inputs[..i + 1]) == inputs[..i];
        var messages := RetainIn(M.LogOf(groups, inputs[i].groupId).messages, Above(M.AfterOf(inputs[i].afterCursor)));
        out := out + messages;
      }
      assert inputs[..|inputs|] == inputs;
    }
  }
}
