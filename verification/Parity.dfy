/** Both backends implement one contract, step by step and over whole runs. */
module Parity {
  import opened Seqs
  import opened Records
  import opened Tables
  import opened Queues
  import opened Backends
  import K = KeyStore
  import J = JoinQueues
  import L = GroupLogs
  import M = MessageStore

  /** What every reachable store satisfies. */
  ghost predicate StoreInv(s: Store) {
    K.UniqueRefs(s.kps) && J.JoinInv(s.joins) && L.Dense(s.logs)
  }

  /** Memory holds the store's queues and logs. */
  ghost predicate QueuesRep(m: Memory, s: Store) {
    && Indexed(m.welcomes, s.welcomes, Target())
    && Indexed(m.joins, s.joins, J.Group())
    && M.MemHolds(m.groups, s.logs)
  }

  ghost predicate MemRep(m: Memory, s: Store) {
    K.MemHolds(m.kps, s.kps) && QueuesRep(m, s)
  }

  ghost predicate DbRep(d: Db, s: Store) {
    && K.SqlHolds(d.kps, s.kps)
    && Tabled(d.welcomes, s.welcomes)
    && Tabled(d.joins, s.joins)
    && M.SqlHolds(d.messages, s.logs)
  }

  /** A publish whose reference is in use is the one step where they differ. */
  predicate FreshRef(s: Store, op: Op) {
    op.Publish? ==> !K.Held(s.kps, op.record.kpRef)
  }

  /** Listing everything promises no order; every other answer is compared exactly. */
  ghost predicate SameAnswer(a: Answer, b: Answer) {
    if a.Everything? && b.Everything? then multiset(a.all) == multiset(b.all) else a == b
  }

  // ----- The contract keeps its invariant -----

  predicate OnPackages(op: Op) {
    op.Publish? || op.ListFor? || op.ListAll? || op.GetPackage? || op.RemovePackage? || op.ConsumePackage?
  }

  predicate OnWelcomes(op: Op) {
    op.StoreWelcome? || op.FetchWelcomes? || op.ExpireWelcomes?
  }

  predicate OnJoins(op: Op) {
    op.StoreJoin? || op.FetchJoins? || op.FetchManyJoins? || op.ExpireJoins?
  }

  predicate OnMessages(op: Op) {
    op.AppendMessage? || op.FetchMessages? || op.FetchManyMessages?
  }

  lemma AskPackages(s: Store, op: Op)
    requires K.UniqueRefs(s.kps)
    ensures K.UniqueRefs(Ask(s, op).0.kps)
  {
    match op
    case RemovePackage(ref) => K.FilterUnique(s.kps, K.LacksRef(ref));
    case ConsumePackage(identifier) =>
      if K.Choice(s.kps, identifier).Some? {
        K.FilterUnique(s.kps, K.LacksRef(K.Choice(s.kps, identifier).value.kpRef));
      }
    case _ =>
  }

  lemma AskJoins(s: Store, op: Op)
    requires J.JoinInv(s.joins)
    ensures J.JoinInv(Ask(s, op).0.joins)
  {
    hide J.JoinInv;
    match op
    case StoreJoin(j) => J.StoreKeepsInv(s.joins, j);
    case FetchJoins(g, accepted) => J.FilterKeepsInv(s.joins, Unacked(J.Group(), J.JoinAck(), g, accepted));
    case FetchManyJoins(groups, acceptedIn) => J.FetchEachKeepsInv(s.joins, groups, acceptedIn);
    case ExpireJoins(threshold) => J.FilterKeepsInv(s.joins, NotBefore(J.Created(), threshold));
    case _ =>
  }

  lemma AskLogs(s: Store, op: Op)
    requires L.Dense(s.logs)
    ensures L.Dense(Ask(s, op).0.logs)
  {
    if op.AppendMessage? {
      L.AppendKeepsDense(s.logs, op.groupId, op.payload, op.at);
    }
  }

  lemma AskInv(s: Store, op: Op)
    requires StoreInv(s)
    ensures StoreInv(Ask(s, op).0)
  {
    hide K.UniqueRefs, J.JoinInv, L.Dense;
    AskPackages(s, op);
    AskJoins(s, op);
    AskLogs(s, op);
  }

  // ----- In memory -----

  lemma MemPackages(m: Memory, s: Store, op: Op)
    requires MemRep(m, s) && StoreInv(s) && FreshRef(s, op) && OnPackages(op)
    ensures MemRep(MemAsk(m, op).0, Ask(s, op).0)
    ensures SameAnswer(MemAsk(m, op).1, Ask(s, op).1)
  {
    hide K.MemHolds, Indexed, M.MemHolds, StoreInv, K.Held;
    match op
    case Publish(r) => K.FreshPublishHolds(m.kps, s.kps, r);
    case ListFor(id) => K.ListIs(m.kps, s.kps, id);
    case ListAll => AllPackages(m.kps, s.kps);
    case GetPackage(ref) => K.LocateIsFind(m.kps, s.kps, ref);
    case RemovePackage(ref) =>
      K.LocateIsFind(m.kps, s.kps, ref);
      K.MemRemoveHolds(m.kps, s.kps, ref);
    case ConsumePackage(identifier) => K.MemConsumeHolds(m.kps, s.kps, identifier);
  }

  lemma AllPackages(ix: Index<KeyPackage>, s: K.Packages)
    requires K.MemHolds(ix, s)
    ensures multiset(Flatten(ix, ix.keys)) == multiset(s)
  {
    FlattenAll(ix, s, K.Owner());
  }

  lemma ListOf<R(!new)>(ix: Index<R>, s: seq<R>, key: R -> Name, k: Name)
    requires Indexed(ix, s, key)
    ensures Get(ix, k) == Pending(s, key, k)
  {
  }

  lemma MemWelcomes(m: Memory, s: Store, op: Op)
    requires QueuesRep(m, s) && StoreInv(s) && OnWelcomes(op)
    ensures QueuesRep(MemAsk(m, op).0, Ask(s, op).0)
    ensures MemAsk(m, op).1 == Ask(s, op).1
  {
    hide Indexed, M.MemHolds, StoreInv;
    match op
    case StoreWelcome(w) => PushIndexed(m.welcomes, s.welcomes, Target(), w);
    case FetchWelcomes(target, handled) =>
      MemRetireHolds(m.welcomes, s.welcomes, Target(), WelcomeAck(), target, handled);
      ListOf(MemAsk(m, op).0.welcomes, Ask(s, op).0.welcomes, Target(), target);
    case ExpireWelcomes(threshold) => MemExpireHolds(m.welcomes, s.welcomes, Target(), WelcomeAt(), threshold);
  }

  lemma MemJoins(m: Memory, s: Store, op: Op)
    requires QueuesRep(m, s) && StoreInv(s) && OnJoins(op)
    ensures QueuesRep(MemAsk(m, op).0, Ask(s, op).0)
    ensures MemAsk(m, op).1 == Ask(s, op).1
  {
    hide Indexed, M.MemHolds, J.UniqueEntries, J.WithinCap, J.Store, J.MemStore;
    match op
    case StoreJoin(j) => J.MemStoreHolds(m.joins, s.joins, j);
    case FetchJoins(g, accepted) =>
      MemRetireHolds(m.joins, s.joins, J.Group(), J.JoinAck(), g, accepted);
      ListOf(MemAsk(m, op).0.joins, Ask(s, op).0.joins, J.Group(), g);
    case FetchManyJoins(groups, acceptedIn) => J.MemFetchEachHolds(m.joins, s.joins, groups, acceptedIn);
    case ExpireJoins(threshold) => MemExpireHolds(m.joins, s.joins, J.Group(), J.Created(), threshold);
  }

  lemma MemMessages(m: Memory, s: Store, op: Op)
    requires QueuesRep(m, s) && OnMessages(op)
    ensures QueuesRep(MemAsk(m, op).0, Ask(s, op).0)
    ensures MemAsk(m, op).1 == Ask(s, op).1
  {
    hide Indexed, L.Dense;
    match op
    case AppendMessage(g, payload, at) => M.MemAppendHolds(m.groups, s.logs, g, payload, at);
    case FetchMessages(g, after) => assert M.LogOf(m.groups, g).messages == L.Log(s.logs, g);
    case FetchManyMessages(inputs) => M.MemFetchManyHolds(m.groups, s.logs, inputs);
  }

  /** Key packages and the rest live apart. */
  lemma Apart(m: Memory, s: Store, op: Op)
    ensures !OnPackages(op) ==> MemAsk(m, op).0.kps == m.kps && Ask(s, op).0.kps == s.kps
    ensures OnPackages(op) ==> MemAsk(m, op).0 == m.(kps := MemAsk(m, op).0.kps)
    ensures OnPackages(op) ==> Ask(s, op).0 == s.(kps := Ask(s, op).0.kps)
  {
    hide K.Held, K.Find, K.Choice, K.Consume, K.Remove, K.MemConsume, K.MemRemove, K.MemFind, J.Store, J.MemStore;
  }

  /** Whatever was published, the queues and logs in memory are the contract's. */
  lemma QueuesRefine(m: Memory, s: Store, op: Op)
    requires QueuesRep(m, s) && StoreInv(s)
    ensures QueuesRep(MemAsk(m, op).0, Ask(s, op).0)
    ensures !OnPackages(op) ==> MemAsk(m, op).1 == Ask(s, op).1
  {
    if OnPackages(op) {
      hide Indexed, M.MemHolds, StoreInv, MemAsk, Ask;
      Apart(m, s, op);
    } else {
      hide QueuesRep, StoreInv, MemAsk, Ask;
      if OnWelcomes(op) {
        MemWelcomes(m, s, op);
      } else if OnJoins(op) {
        MemJoins(m, s, op);
      } else {
        MemMessages(m, s, op);
      }
    }
  }

  /** Every in-memory operation is the contract's. */
  lemma MemRefines(m: Memory, s: Store, op: Op)
    requires MemRep(m, s) && StoreInv(s) && FreshRef(s, op)
    ensures MemRep(MemAsk(m, op).0, Ask(s, op).0)
    ensures SameAnswer(MemAsk(m, op).1, Ask(s, op).1)
  {
    if OnPackages(op) {
      hide MemRep, StoreInv, MemAsk, Ask;
      MemPackages(m, s, op);
    } else {
      hide QueuesRep, K.MemHolds, StoreInv, MemAsk, Ask;
      QueuesRefine(m, s, op);
      Apart(m, s, op);
    }
  }

  // ----- SQLite -----

  lemma Selected<R>(t: Table<R>, s: seq<R>, p: R -> bool)
    requires Tabled(t, s)
    ensures Select(t, p) == Filter(s, p)
  {
    RecsFilter(t.rows, p);
  }

  lemma DbPackages(d: Db, s: Store, op: Op)
    requires DbRep(d, s) && OnPackages(op)
    ensures DbRep(DbAsk(d, op).0, Ask(s, op).0)
    ensures DbAsk(d, op).1 == Ask(s, op).1
  {
    hide Tabled, M.SqlHolds, K.UniqueRefs, K.SqlPublish, K.Held, K.SqlFind, K.Find, Select;
    match op
    case Publish(r) => K.SqlPublishHolds(d.kps, s.kps, r);
    case ListFor(id) => Selected(d.kps, s.kps, K.Of(id));
    case ListAll => TabledRecs(d.kps, s.kps);
    case GetPackage(ref) => K.SqlFindIsFind(d.kps, s.kps, ref);
    case RemovePackage(ref) =>
      K.SqlFindIsFind(d.kps, s.kps, ref);
      K.SqlRemoveHolds(d.kps, s.kps, ref);
    case ConsumePackage(identifier) => K.SqlConsumeHolds(d.kps, s.kps, identifier);
  }

  lemma DbWelcomes(d: Db, s: Store, op: Op)
    requires DbRep(d, s) && OnWelcomes(op)
    ensures DbRep(DbAsk(d, op).0, Ask(s, op).0)
    ensures DbAsk(d, op).1 == Ask(s, op).1
  {
    hide Tabled, M.SqlHolds, K.SqlHolds, Select;
    match op
    case StoreWelcome(w) => InsertTabled(d.welcomes, s.welcomes, w);
    case FetchWelcomes(target, handled) =>
      SqlRetireHolds(d.welcomes, s.welcomes, Target(), WelcomeAck(), target, handled);
      Selected(DbAsk(d, op).0.welcomes, Ask(s, op).0.welcomes, KeyIs(Target(), target));
    case ExpireWelcomes(threshold) => SqlExpireHolds(d.welcomes, s.welcomes, WelcomeAt(), threshold);
  }

  lemma DbJoins(d: Db, s: Store, op: Op)
    requires DbRep(d, s) && OnJoins(op)
    ensures DbRep(DbAsk(d, op).0, Ask(s, op).0)
    ensures DbAsk(d, op).1 == Ask(s, op).1
  {
    hide Tabled, M.SqlHolds, K.SqlHolds, J.Store, J.SqlStore, Select;
    match op
    case StoreJoin(j) => J.SqlStoreHolds(d.joins, s.joins, j);
    case FetchJoins(g, accepted) =>
      SqlRetireHolds(d.joins, s.joins, J.Group(), J.JoinAck(), g, accepted);
      Selected(DbAsk(d, op).0.joins, Ask(s, op).0.joins, KeyIs(J.Group(), g));
    case FetchManyJoins(groups, acceptedIn) => J.SqlFetchEachHolds(d.joins, s.joins, groups, acceptedIn);
    case ExpireJoins(threshold) => SqlExpireHolds(d.joins, s.joins, J.Created(), threshold);
  }

  lemma DbMessages(d: Db, s: Store, op: Op)
    requires DbRep(d, s) && OnMessages(op)
    ensures DbRep(DbAsk(d, op).0, Ask(s, op).0)
    ensures DbAsk(d, op).1 == Ask(s, op).1
  {
    hide Tabled, M.SqlHolds, K.SqlHolds, M.SqlAppend, M.SqlFetch, L.Fetch;
    match op
    case AppendMessage(g, payload, at) => M.SqlAppendHolds(d.messages, s.logs, g, payload, at);
    case FetchMessages(g, after) => M.SqlFetchHolds(d.messages, s.logs, g, after);
    case FetchManyMessages(inputs) => M.SqlFetchManyHolds(d.messages, s.logs, inputs);
  }

  /** Every SQLite operation is the contract's, refused publishes included. */
  lemma DbRefines(d: Db, s: Store, op: Op)
    requires DbRep(d, s)
    ensures DbRep(DbAsk(d, op).0, Ask(s, op).0)
    ensures DbAsk(d, op).1 == Ask(s, op).1
  {
    hide DbRep, DbAsk, Ask;
    if OnPackages(op) {
      DbPackages(d, s, op);
    } else if OnWelcomes(op) {
      DbWelcomes(d, s, op);
    } else if OnJoins(op) {
      DbJoins(d, s, op);
    } else {
      DbMessages(d, s, op);
    }
  }

  // ----- Whole runs -----

  function Run(ops: seq<Op>): Store {
    if ops == [] then EmptyStore() else Ask(Run(Front(ops)), Last(ops)).0
  }

  function MemRun(ops: seq<Op>): Memory {
    if ops == [] then EmptyMemory() else MemAsk(MemRun(Front(ops)), Last(ops)).0
  }

  function DbRun(ops: seq<Op>): Db {
    if ops == [] then EmptyDb() else DbAsk(DbRun(Front(ops)), Last(ops)).0
  }

  /** Every publish of the run uses a reference that is not held at that moment. */
  ghost predicate FreshRun(ops: seq<Op>) {
    ops == [] || (FreshRun(Front(ops)) && FreshRef(Run(Front(ops)), Last(ops)))
  }

  lemma {:induction false} RunInv(ops: seq<Op>)
    ensures StoreInv(Run(ops))
  {
    if ops != [] {
      RunInv(Front(ops));
      AskInv(Run(Front(ops)), Last(ops));
    }
  }

  lemma {:induction false} DbRunRefines(ops: seq<Op>)
    ensures DbRep(DbRun(ops), Run(ops))
  {
    if ops != [] {
      DbRunRefines(Front(ops));
      DbRefines(DbRun(Front(ops)), Run(Front(ops)), Last(ops));
    }
  }

  lemma {:induction false} MemRunRefines(ops: seq<Op>)
    requires FreshRun(ops)
    ensures MemRep(MemRun(ops), Run(ops))
  {
    if ops != [] {
      MemRunRefines(Front(ops));
      RunInv(Front(ops));
      MemRefines(MemRun(Front(ops)), Run(Front(ops)), Last(ops));
    }
  }

  lemma {:induction false} QueuesRunRefine(ops: seq<Op>)
    ensures QueuesRep(MemRun(ops), Run(ops))
  {
    if ops != [] {
      hide QueuesRep, StoreInv, MemAsk, Ask;
      QueuesRunRefine(Front(ops));
      RunInv(Front(ops));
      QueuesRefine(MemRun(Front(ops)), Run(Front(ops)), Last(ops));
    }
  }

  /** Queues and logs: after every run, held references published or not, both backends
      answer alike whatever is asked of them. */
  lemma QueueParity(ops: seq<Op>, op: Op)
    requires !OnPackages(op)
    ensures MemAsk(MemRun(ops), op).1 == DbAsk(DbRun(ops), op).1 == Ask(Run(ops), op).1
  {
    hide MemAsk, DbAsk, Ask, QueuesRep, DbRep, StoreInv, MemRun, DbRun, Run;
    RunInv(ops);
    QueuesRunRefine(ops);
    DbRunRefines(ops);
    QueuesRefine(MemRun(ops), Run(ops), op);
    DbRefines(DbRun(ops), Run(ops), op);
  }

  /** Backend parity: after every run with fresh references, whatever is asked next
      (again with a fresh reference) is answered alike, and both backends go on
      representing the same store. */
  lemma BackendParity(ops: seq<Op>, op: Op)
    requires FreshRun(ops) && FreshRef(Run(ops), op)
    ensures MemRep(MemRun(ops), Run(ops)) && DbRep(DbRun(ops), Run(ops))
    ensures SameAnswer(MemAsk(MemRun(ops), op).1, DbAsk(DbRun(ops), op).1)
    ensures !op.ListAll? ==> MemAsk(MemRun(ops), op).1 == DbAsk(DbRun(ops), op).1
  {
    hide MemAsk, DbAsk, MemRep, DbRep, StoreInv, MemRun, DbRun, Run, FreshRun;
    RunInv(ops);
    MemRunRefines(ops);
    DbRunRefines(ops);
    MemRefines(MemRun(ops), Run(ops), op);
    DbRefines(DbRun(ops), Run(ops), op);
    OnlyListAllListsAll(Run(ops), op);
  }

  lemma OnlyListAllListsAll(s: Store, op: Op)
    ensures Ask(s, op).1.Everything? <==> op.ListAll?
  {
    hide K.Held, K.Find, K.Remove, K.Choice, K.Consume, J.Store, J.FetchEach;
  }

  /** A publish is answered alike exactly when its reference is not held. */
  lemma PublishAgreesIffFresh(ops: seq<Op>, r: KeyPackage)
    ensures MemAsk(MemRun(ops), Publish(r)).1 == DbAsk(DbRun(ops), Publish(r)).1 <==> !K.Held(Run(ops).kps, r.kpRef)
  {
    hide K.Held, DbRep;
    DbRunRefines(ops);
    DbRefines(DbRun(ops), Run(ops), Publish(r));
  }

  // ----- When full listings agree in order too -----

  /** No record of an earlier key comes after one of a later key. */
  ghost predicate InKeyOrder<R>(s: seq<R>, key: R -> Name, ks: seq<Name>) {
    forall i, j, a, b :: 0 <= i < j < |s| && 0 <= a < b < |ks| ==> !(key(s[i]) == ks[b] && key(s[j]) == ks[a])
  }

  function ByKeys<R>(s: seq<R>, key: R -> Name, ks: seq<Name>): seq<R> {
    if ks == [] then [] else ByKeys(s, key, Front(ks)) + Filter(s, KeyIs(key, Last(ks)))
  }

  lemma {:induction false} FlattenIsByKeys<R(!new)>(ix: Index<R>, s: seq<R>, key: R -> Name, ks: seq<Name>)
    requires Indexed(ix, s, key)
    ensures Flatten(ix, ks) == ByKeys(s, key, ks)
  {
    if ks != [] {
      FlattenIsByKeys(ix, s, key, Front(ks));
    }
  }

  lemma {:induction false} ByKeysMembers<R>(s: seq<R>, key: R -> Name, ks: seq<Name>)
    ensures forall i :: 0 <= i < |ByKeys(s, key, ks)| ==> key(ByKeys(s, key, ks)[i]) in ks
  {
    if ks != [] {
      ByKeysMembers(s, key, Front(ks));
      var tail := Filter(s, KeyIs(key, Last(ks)));
      FilterMembers(s, KeyIs(key, Last(ks)));
      assert forall i :: 0 <= i < |tail| ==> tail[i] in tail;
    }
  }

  /** Records of the last key behind records of the keys before it. */
  lemma InKeyOrderConcat<R>(a: seq<R>, b: seq<R>, key: R -> Name, ks: seq<Name>)
    requires ks != [] && Distinct(ks) && InKeyOrder(a, key, Front(ks))
    requires forall i :: 0 <= i < |a| ==> key(a[i]) in Front(ks)
    requires forall i :: 0 <= i < |b| ==> key(b[i]) == Last(ks)
    ensures InKeyOrder(a + b, key, ks)
  {
    var s, n := a + b, |ks| - 1;
    forall i, j, x, y | 0 <= i < j < |s| && 0 <= x < y < |ks|
      ensures !(key(s[i]) == ks[y] && key(s[j]) == ks[x])
    {
      if j >= |a| {
        assert key(s[j]) == key(b[j - |a|]) == ks[n] != ks[x];
      } else if y == n {
        var z :| 0 <= z < n && ks[z] == key(a[i]);
      } else {
        assert Front(ks)[x] == ks[x] && Front(ks)[y] == ks[y];
      }
    }
  }

  lemma {:induction false} ByKeysInOrder<R>(s: seq<R>, key: R -> Name, ks: seq<Name>)
    requires Distinct(ks)
    ensures InKeyOrder(ByKeys(s, key, ks), key, ks)
  {
    if ks != [] {
      hide InKeyOrder;
      ByKeysInOrder(s, key, Front(ks));
      ByKeysMembers(s, key, Front(ks));
      var tail := Filter(s, KeyIs(key, Last(ks)));
      FilterMembers(s, KeyIs(key, Last(ks)));
      assert forall i :: 0 <= i < |tail| ==> tail[i] in tail;
      InKeyOrderConcat(ByKeys(s, key, Front(ks)), tail, key, ks);
    }
  }

  /** A record of an earlier key last means that no record has the last key. */
  lemma NoneOfLastKey<R>(s: seq<R>, key: R -> Name, ks: seq<Name>, a: nat)
    requires InKeyOrder(s, key, ks) && forall r :: r in s ==> key(r) in ks
    requires s != [] && a < |ks| - 1 && ks[a] == key(Last(s)) && key(Last(s)) != Last(ks)
    ensures Filter(s, KeyIs(key, Last(ks))) == [] && Filter(s, KeyIn(key, Front(ks))) == s
  {
    assert forall i :: 0 <= i < |s| - 1 ==> key(s[i]) != ks[|ks| - 1];
    FilterNone(s, KeyIs(key, Last(ks)));
    assert forall k :: k in ks && k != Last(ks) ==> k in Front(ks);
    FilterAll(s, KeyIn(key, Front(ks)));
  }

  /** In key order, the records of the last key are the tail. */
  lemma {:induction false} TailOfLastKey<R>(s: seq<R>, key: R -> Name, ks: seq<Name>)
    requires ks != [] && Distinct(ks) && InKeyOrder(s, key, ks) && forall r :: r in s ==> key(r) in ks
    ensures s == Filter(s, KeyIn(key, Front(ks))) + Filter(s, KeyIs(key, Last(ks)))
  {
    hide InKeyOrder, Filter;
    if s == [] {
      FilterNone(s, KeyIn(key, Front(ks)));
      FilterNone(s, KeyIs(key, Last(ks)));
    } else {
      assert key(Last(s)) in ks;
      var a :| 0 <= a < |ks| && ks[a] == key(Last(s));
      if a < |ks| - 1 {
        NoneOfLastKey(s, key, ks, a);
      } else {
        assert !KeyIn(key, Front(ks))(Last(s));
        assert forall r :: r in Front(s) ==> r in s;
        FrontInOrder(s, key, ks);
        TailOfLastKey(Front(s), key, ks);
        TailGrows(Front(s), Last(s), KeyIn(key, Front(ks)), KeyIs(key, Last(ks)));
        assert s == Front(s) + [Last(s)];
      }
    }
  }

  lemma TailGrows<R>(s: seq<R>, x: R, p: R -> bool, q: R -> bool)
    requires s == Filter(s, p) + Filter(s, q) && !p(x) && q(x)
    ensures s + [x] == Filter(s + [x], p) + Filter(s + [x], q)
  {
    FilterPush(s, x, p);
    FilterPush(s, x, q);
  }

  lemma FrontInOrder<R>(s: seq<R>, key: R -> Name, ks: seq<Name>)
    requires s != [] && InKeyOrder(s, key, ks)
    ensures InKeyOrder(Front(s), key, ks)
  {
  }

  lemma {:induction false} SubKeys<R>(s: seq<R>, key: R -> Name, ks: seq<Name>, all: seq<Name>)
    requires forall k :: k in ks ==> k in all
    ensures ByKeys(Filter(s, KeyIn(key, all)), key, ks) == ByKeys(s, key, ks)
  {
    if ks != [] {
      SubKeys(s, key, Front(ks), all);
      FilterTwice(s, KeyIn(key, all), KeyIs(key, Last(ks)), KeyIs(key, Last(ks)));
    }
  }

  lemma {:induction false} OrderedByKeys<R>(s: seq<R>, key: R -> Name, ks: seq<Name>)
    requires Distinct(ks) && InKeyOrder(s, key, ks) && forall r :: r in s ==> key(r) in ks
    ensures ByKeys(s, key, ks) == s
    decreases |ks|
  {
    if ks == [] {
      FilterAll(s, KeyIn(key, ks));
      FilterNone(s, KeyIn(key, ks));
    } else {
      var head := Filter(s, KeyIn(key, Front(ks)));
      TailOfLastKey(s, key, ks);
      FilterMembers(s, KeyIn(key, Front(ks)));
      assert forall i :: 0 <= i < |head| ==> s[i] == head[i];
      OrderedByKeys(head, key, Front(ks));
      SubKeys(s, key, Front(ks), Front(ks));
    }
  }

  /** The two full listings agree in order exactly when the stored packages already
      stand in the order in which memory keeps the identities. */
  lemma ListingsAgreeIffGrouped(ops: seq<Op>)
    requires FreshRun(ops)
    ensures MemAsk(MemRun(ops), ListAll).1 == DbAsk(DbRun(ops), ListAll).1 <==>
            InKeyOrder(Run(ops).kps, K.Owner(), MemRun(ops).kps.keys)
  {
    hide InKeyOrder, Flatten, Recs, MemRun, DbRun, Run, FreshRun;
    MemRunRefines(ops);
    DbRunRefines(ops);
    var ix, s, key := MemRun(ops).kps, Run(ops).kps, K.Owner();
    TabledRecs(DbRun(ops).kps, s);
    FlattenIsByKeys(ix, s, key, ix.keys);
    ByKeysInOrder(s, key, ix.keys);
    if InKeyOrder(s, key, ix.keys) {
      forall r | r in s
        ensures key(r) in ix.keys
      {
        FiledUnderKey(ix, s, key, r);
      }
      OrderedByKeys(s, key, ix.keys);
    }
  }

  lemma Extend(ops: seq<Op>, op: Op)
    ensures Run(ops + [op]) == Ask(Run(ops), op).0
    ensures MemRun(ops + [op]) == MemAsk(MemRun(ops), op).0
    ensures DbRun(ops + [op]) == DbAsk(DbRun(ops), op).0
    ensures FreshRun(ops + [op]) <==> FreshRun(ops) && FreshRef(Run(ops), op)
  {
    assert Front(ops + [op]) == ops;
  }

  lemma MemThree(a: KeyPackage, b: KeyPackage, c: KeyPackage)
    requires a.stablePubkey == "alice" && b.stablePubkey == "bob" && c.stablePubkey == "alice"
    ensures K.MemPublish(K.MemPublish(K.MemPublish(NoKeys(), a), b), c) ==
            Index(["alice", "bob"], map["alice" := [a, c], "bob" := [b]])
  {
    var one := K.MemPublish(NoKeys(), a);
    assert [] + [a] == [a] && [] + [b] == [b] && [a] + [c] == [a, c];
    assert one == Index(["alice"], map["alice" := [a]]);
    var two := K.MemPublish(one, b);
    assert "alice" != "bob" && ["alice"] + ["bob"] == ["alice", "bob"];
    assert two == Index(["alice", "bob"], map["alice" := [a], "bob" := [b]]);
  }

  lemma PublishExtends(ops: seq<Op>, r: KeyPackage)
    requires FreshRun(ops) && !K.Held(Run(ops).kps, r.kpRef)
    ensures FreshRun(ops + [Publish(r)])
    ensures Run(ops + [Publish(r)]).kps == Run(ops).kps + [r]
    ensures MemRun(ops + [Publish(r)]).kps == K.MemPublish(MemRun(ops).kps, r)
  {
    hide K.Held, K.MemPublish, Run, MemRun, DbRun, FreshRun;
    Extend(ops, Publish(r));
  }

  lemma ListsAll(ops: seq<Op>)
    ensures MemAsk(MemRun(ops), ListAll).1 == Everything(Flatten(MemRun(ops).kps, MemRun(ops).kps.keys))
    ensures DbAsk(DbRun(ops), ListAll).1 == Everything(Run(ops).kps)
  {
    hide Run, MemRun, DbRun, Flatten, DbRep, DbAsk;
    DbRunRefines(ops);
    DbRefines(DbRun(ops), Run(ops), ListAll);
  }

  /** The order of a full listing does differ: alice, bob, alice. */
  lemma ListingOrderDiffers(a: KeyPackage, b: KeyPackage, c: KeyPackage)
    requires a.stablePubkey == "alice" && b.stablePubkey == "bob" && c.stablePubkey == "alice"
    requires a.kpRef == "1" && b.kpRef == "2" && c.kpRef == "3"
    ensures var ops := [] + [Publish(a)] + [Publish(b)] + [Publish(c)];
            && FreshRun(ops)
            && MemAsk(MemRun(ops), ListAll).1 == Everything([a, c, b])
            && DbAsk(DbRun(ops), ListAll).1 == Everything([a, b, c])
  {
    hide Run, MemRun, DbRun, FreshRun, Flatten, DbAsk, MemAsk, Ask, K.MemPublish;
    var one := [] + [Publish(a)];
    var two := one + [Publish(b)];
    var three := two + [Publish(c)];
    StartsEmpty();
    PublishExtends([], a);
    PublishExtends(one, b);
    assert Run(two).kps == [a, b];
    PublishExtends(two, c);
    assert Run(three).kps == [a, b, c];
    ListsAll(three);
    MemThree(a, b, c);
    FlattenTwo(MemRun(three).kps, "alice", "bob");
  }

  lemma StartsEmpty()
    ensures Run([]) == EmptyStore() && MemRun([]) == EmptyMemory() && DbRun([]) == EmptyDb() && FreshRun([])
  {
  }

  lemma FlattenTwo<R>(ix: Index<R>, j: Name, k: Name)
    ensures Flatten(ix, [j, k]) == Get(ix, j) + Get(ix, k)
  {
    assert Front([j, k]) == [j] && Front([j]) == [];
    assert Flatten(ix, [j]) == Get(ix, j);
  }
}
