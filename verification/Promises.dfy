/** What the storage interface promises, operation by operation and over all runs, in
    terms of what was stored: of the SQLite backend always, of the in-memory one for
    queues and logs always and for key packages with fresh references. */
module Promises {
  import opened Seqs
  import opened Records
  import opened Backends
  import opened Parity
  import opened QueueRuns
  import B = Queues
  import T = Tables
  import K = KeyStore
  import J = JoinQueues
  import L = GroupLogs
  import M = MessageStore
  import Q = Requests

  // ----- Messages -----

  function LogAfter(ops: seq<Op>, g: Name): seq<Message> {
    L.Log(Run(ops).logs, g)
  }

  /** The payloads and times posted to `g`, in order. */
  function PostsTo(ops: seq<Op>, g: Name): seq<(Bytes, int)> {
    if ops == [] then []
    else
      PostsTo(Front(ops), g) +
      if Last(ops).AppendMessage? && Last(ops).groupId == g then [(Last(ops).payload, Last(ops).at)] else []
  }

  /** A log holds exactly what was posted to its group, with cursors 1, 2, 3, ... */
  lemma {:induction false} LogsHoldThePosts(ops: seq<Op>, g: Name)
    ensures var log, posts := LogAfter(ops, g), PostsTo(ops, g);
            && |log| == |posts|
            && forall i :: 0 <= i < |log| ==> log[i] == Message(i + 1, g, posts[i].0, posts[i].1)
  {
    if ops != [] {
      LogsHoldThePosts(Front(ops), g);
      LogStep(Run(Front(ops)), Last(ops), g);
    }
  }

  lemma LogStep(s: Store, op: Op, g: Name)
    ensures var log, now := L.Log(s.logs, g), L.Log(Ask(s, op).0.logs, g);
            now == log + if op.AppendMessage? && op.groupId == g then [Message(|log| + 1, g, op.payload, op.at)] else []
  {
    hide K.Held, K.Find, K.Remove, K.Choice, K.Consume, J.Store, J.FetchEach;
  }

  /** The part of a log that a client asks for: all of it, or what comes after `c`. */
  function Page(log: seq<Message>, after: Option<int>): seq<Message> {
    match after
    case None => log
    case Some(c) => if c <= 0 then log else if c >= |log| then [] else log[c..]
  }

  lemma PageIsFetch(logs: L.Logs, g: Name, after: Option<int>)
    requires L.Dense(logs)
    ensures L.Fetch(logs, g, M.AfterOf(after)) == Page(L.Log(logs, g), after)
  {
    L.FetchIsSuffix(logs, g, M.AfterOf(after));
  }

  /** A fetch answers with the records after the cursor given, or with the whole log. */
  lemma FetchPromise(ops: seq<Op>, g: Name, after: Option<int>)
    ensures DbAsk(DbRun(ops), FetchMessages(g, after)).1 == MessageList(Page(LogAfter(ops, g), after))
    ensures MemAsk(MemRun(ops), FetchMessages(g, after)).1 == MessageList(Page(LogAfter(ops, g), after))
    ensures after == None ==> Page(LogAfter(ops, g), after) == LogAfter(ops, g)
    ensures var log := LogAfter(ops, g);
            after.Some? ==> forall m :: m in Page(log, after) <==> m in log && m.cursor > after.value
  {
    hide DbAsk, MemAsk, Run, DbRun, MemRun, L.Fetch, K.UniqueRefs, J.JoinInv, PostsTo;
    RunInv(ops);
    QueueParity(ops, FetchMessages(g, after));
    PageIsFetch(Run(ops).logs, g, after);
    LogsHoldThePosts(ops, g);
    PageMembers(LogAfter(ops, g), after);
  }

  lemma PageMembers(log: seq<Message>, after: Option<int>)
    requires forall i :: 0 <= i < |log| ==> log[i].cursor == i + 1
    ensures after.Some? ==> forall m :: m in Page(log, after) <==> m in log && m.cursor > after.value
  {
    if after.Some? {
      var page := Page(log, after);
      forall m | m in log && m.cursor > after.value
        ensures m in page
      {
        var i :| 0 <= i < |log| && log[i] == m;
        assert page[if after.value <= 0 then i else i - after.value] == m;
      }
    }
  }

  /** The pages of the entries, one after the other. */
  function Pages(ops: seq<Op>, inputs: seq<FetchInput>): seq<Message> {
    if inputs == [] then []
    else Pages(ops, Front(inputs)) + Page(LogAfter(ops, Last(inputs).groupId), Last(inputs).afterCursor)
  }

  lemma {:induction false} PagesAreFetched(ops: seq<Op>, inputs: seq<FetchInput>)
    requires L.Dense(Run(ops).logs)
    ensures L.FetchMany(Run(ops).logs, inputs) == Pages(ops, inputs)
  {
    if inputs != [] {
      PagesAreFetched(ops, Front(inputs));
      PageIsFetch(Run(ops).logs, Last(inputs).groupId, Last(inputs).afterCursor);
    }
  }

  /** A fetch over several groups answers with the page of each entry, in their order. */
  lemma FetchManyPromise(ops: seq<Op>, inputs: seq<FetchInput>)
    ensures DbAsk(DbRun(ops), FetchManyMessages(inputs)).1 == MessageList(Pages(ops, inputs))
    ensures MemAsk(MemRun(ops), FetchManyMessages(inputs)).1 == MessageList(Pages(ops, inputs))
  {
    hide DbAsk, MemAsk, Run, DbRun, MemRun, K.UniqueRefs, J.JoinInv;
    RunInv(ops);
    QueueParity(ops, FetchManyMessages(inputs));
    PagesAreFetched(ops, inputs);
  }

  /** A post is answered with a record of what was posted, under the next cursor, which
      the next fetch after the old end of the log returns. */
  lemma AppendPromise(ops: seq<Op>, g: Name, payload: Bytes, at: int)
    ensures var n, op := |LogAfter(ops, g)|, AppendMessage(g, payload, at);
            var m := Message(n + 1, g, payload, at);
            && DbAsk(DbRun(ops), op).1 == Appended(m) && MemAsk(MemRun(ops), op).1 == Appended(m)
            && DbAsk(DbRun(ops + [op]), FetchMessages(g, Some(n))).1 == MessageList([m])
  {
    hide DbAsk, MemAsk, DbRun, MemRun, Run, Ask;
    var n, op := |LogAfter(ops, g)|, AppendMessage(g, payload, at);
    QueueParity(ops, op);
    AskAppend(Run(ops), g, payload, at);
    RunNext(ops, op);
    LogStep(Run(ops), op, g);
    FetchPromise(ops + [op], g, Some(n));
  }

  lemma AskAppend(s: Store, g: Name, payload: Bytes, at: int)
    ensures Ask(s, AppendMessage(g, payload, at)).1 == Appended(Message(|L.Log(s.logs, g)| + 1, g, payload, at))
  {
  }

  /** A subscription starts where the last entry for a group says: after its cursor, or
      from the beginning. */
  lemma {:induction false} LastEntryCounts(groups: seq<FetchInput>, j: nat)
    requires j < |groups| && forall i :: j < i < |groups| ==> groups[i].groupId != groups[j].groupId
    ensures groups[j].groupId in Q.Cursors(groups)
    ensures Q.Cursors(groups)[groups[j].groupId] ==
            match groups[j].afterCursor case None => 0 case Some(c) => c
  {
    if j < |groups| - 1 {
      assert Front(groups)[j] == groups[j];
      LastEntryCounts(Front(groups), j);
    }
  }

  // ----- Paging -----

  datatype PageStep = Do(op: Op) | Poll

  /** What was asked so far and what the reader of `g` holds. */
  datatype Reader = Reader(ops: seq<Op>, got: seq<Message>)

  function Position(got: seq<Message>): Option<int> {
    if got == [] then None else Some(Last(got).cursor)
  }

  /** The reader polls after the last cursor it holds; anything else may be asked in between. */
  function PageAll(g: Name, steps: seq<PageStep>): Reader {
    if steps == [] then Reader([], [])
    else
      var r := PageAll(g, Front(steps));
      match Last(steps)
      case Do(op) => r.(ops := r.ops + [op])
      case Poll =>
        var answer := DbAsk(DbRun(r.ops), FetchMessages(g, Position(r.got))).1;
        if answer.MessageList? then r.(got := r.got + answer.messages) else r
  }

  /** However polls and operations interleave, the reader holds a prefix of the log, and
      the whole log right after a poll. */
  lemma {:induction false} PagingPromise(g: Name, steps: seq<PageStep>)
    ensures var r := PageAll(g, steps); r.got <= LogAfter(r.ops, g)
    ensures steps != [] && Last(steps).Poll? ==> PageAll(g, steps).got == LogAfter(PageAll(g, steps).ops, g)
  {
    if steps != [] {
      hide DbAsk, DbRun, LogAfter, Page, Position;
      PagingPromise(g, Front(steps));
      var r := PageAll(g, Front(steps));
      match Last(steps)
      case Do(op) => LogGrows(r.ops, op, g);
      case Poll =>
        FetchPromise(r.ops, g, Position(r.got));
        LogsHoldThePosts(r.ops, g);
        RestOfLog(LogAfter(r.ops, g), r.got);
    }
  }

  lemma LogGrows(ops: seq<Op>, op: Op, g: Name)
    ensures LogAfter(ops, g) <= LogAfter(ops + [op], g)
  {
    hide Ask;
    assert Front(ops + [op]) == ops;
    LogStep(Run(ops), op, g);
  }

  lemma RestOfLog(log: seq<Message>, got: seq<Message>)
    requires got <= log && forall i :: 0 <= i < |log| ==> log[i].cursor == i + 1
    ensures got + Page(log, Position(got)) == log
  {
  }

  /** Every operation leaves alone what it does not name. */
  lemma FramePromise(ops: seq<Op>, op: Op)
    ensures var was, now := Run(ops), Run(ops + [op]);
            && (!op.Publish? && !op.RemovePackage? && !op.ConsumePackage? ==> now.kps == was.kps)
            && (!op.StoreWelcome? && !op.FetchWelcomes? && !op.ExpireWelcomes? ==> now.welcomes == was.welcomes)
            && (!op.StoreJoin? && !op.FetchJoins? && !op.FetchManyJoins? && !op.ExpireJoins? ==> now.joins == was.joins)
            && (!op.AppendMessage? ==> now.logs == was.logs)
  {
    hide Run, K.Held, K.Find, K.Remove, K.Choice, K.Consume, J.Store, J.FetchEach;
    RunNext(ops, op);
  }

  // ----- Key packages -----

  function OwnedBy(id: Name): KeyPackage -> bool {
    (r: KeyPackage) => r.stablePubkey == id
  }

  function OtherThan(ref: Name): KeyPackage -> bool {
    (r: KeyPackage) => r.kpRef != ref
  }

  predicate Free(all: seq<KeyPackage>, ref: Name) {
    forall r :: r in all ==> r.kpRef != ref
  }

  lemma RunNext(ops: seq<Op>, op: Op)
    ensures Run(ops + [op]) == Ask(Run(ops), op).0
  {
    assert Front(ops + [op]) == ops;
  }

  lemma DbAnswers(ops: seq<Op>, op: Op)
    ensures DbAsk(DbRun(ops), op).1 == Ask(Run(ops), op).1
  {
    hide DbAsk, Ask, DbRep, Run, DbRun;
    DbRunRefines(ops);
    DbRefines(DbRun(ops), Run(ops), op);
  }

  /** A publish is refused when its reference is in use, and otherwise goes behind all
      that is stored; memory takes it in any case. */
  lemma PublishPromise(ops: seq<Op>, r: KeyPackage)
    ensures var all, op := Run(ops).kps, Publish(r);
            && DbAsk(DbRun(ops), op).1 == (if Free(all, r.kpRef) then Published(r) else Failed(Backend))
            && Run(ops + [op]).kps == (if Free(all, r.kpRef) then all + [r] else all)
            && MemAsk(MemRun(ops), op).1 == Published(r)
  {
    hide DbAsk, Run, DbRun, MemRun;
    DbAnswers(ops, Publish(r));
    RunNext(ops, Publish(r));
  }

  /** Listings are the stored packages, all of them or those of one owner, in the order
      of their publication. */
  lemma ListPromise(ops: seq<Op>, id: Name)
    ensures var all := Run(ops).kps;
            && DbAsk(DbRun(ops), ListAll).1 == Everything(all) && Run(ops + [ListAll]).kps == all
            && DbAsk(DbRun(ops), ListFor(id)).1 == Packages(Filter(all, OwnedBy(id)))
            && Run(ops + [ListFor(id)]).kps == all
    ensures FreshRun(ops) ==> MemAsk(MemRun(ops), ListFor(id)).1 == DbAsk(DbRun(ops), ListFor(id)).1
  {
    hide DbAsk, MemAsk, Run, DbRun, MemRun, FreshRun;
    DbAnswers(ops, ListAll);
    DbAnswers(ops, ListFor(id));
    RunNext(ops, ListAll);
    RunNext(ops, ListFor(id));
    FilterAgree(Run(ops).kps, K.Of(id), OwnedBy(id));
    if FreshRun(ops) {
      BackendParity(ops, ListFor(id));
    }
  }

  /** The package with the reference, if there is one. */
  ghost predicate Finds(all: seq<KeyPackage>, ref: Name, found: Option<KeyPackage>) {
    if found.None? then Free(all, ref) else found.value in all && found.value.kpRef == ref
  }

  lemma FoundAsPromised(all: seq<KeyPackage>, ref: Name)
    ensures Finds(all, ref, K.Find(all, ref))
  {
    K.FindMeaning(all, ref);
  }

  /** A look-up returns the package with the reference; a removal does the same and
      leaves all the others. */
  lemma RemovePromise(ops: seq<Op>, ref: Name)
    ensures var all, get, remove := Run(ops).kps, GetPackage(ref), RemovePackage(ref);
            && DbAsk(DbRun(ops), get).1.Perhaps? && Finds(all, ref, DbAsk(DbRun(ops), get).1.found)
            && DbAsk(DbRun(ops), remove).1 == DbAsk(DbRun(ops), get).1
            && Run(ops + [get]).kps == all && Run(ops + [remove]).kps == Filter(all, OtherThan(ref))
    ensures FreshRun(ops) ==> MemAsk(MemRun(ops), GetPackage(ref)).1 == DbAsk(DbRun(ops), GetPackage(ref)).1
    ensures FreshRun(ops) ==> MemAsk(MemRun(ops), RemovePackage(ref)).1 == DbAsk(DbRun(ops), RemovePackage(ref)).1
  {
    hide DbAsk, MemAsk, Run, DbRun, MemRun, FreshRun, K.Find, Free;
    DbAnswers(ops, GetPackage(ref));
    DbAnswers(ops, RemovePackage(ref));
    RunNext(ops, GetPackage(ref));
    RunNext(ops, RemovePackage(ref));
    FoundAsPromised(Run(ops).kps, ref);
    FilterAgree(Run(ops).kps, K.LacksRef(ref), OtherThan(ref));
    if FreshRun(ops) {
      BackendParity(ops, GetPackage(ref));
      BackendParity(ops, RemovePackage(ref));
    }
  }

  /** Package `i` is the first choice of its owner: the oldest regular one, or the newest
      one when all are last resorts. */
  ghost predicate FirstChoice(all: seq<KeyPackage>, i: nat) {
    i < |all| &&
    forall j :: 0 <= j < |all| && all[j].stablePubkey == all[i].stablePubkey ==>
      if all[i].isLastResort then all[j].isLastResort && j <= i else all[j].isLastResort || i <= j
  }

  /** What an identifier stands for: a reference, or else an owner. */
  ghost predicate Offers(all: seq<KeyPackage>, identifier: Name, out: Option<KeyPackage>) {
    if !Free(all, identifier) then out.Some? && Finds(all, identifier, out)
    else if forall r :: r in all ==> r.stablePubkey != identifier then out.None?
    else
      out.Some? &&
      exists i: nat :: FirstChoice(all, i) && all[i] == out.value && out.value.stablePubkey == identifier
  }

  function OwnRegular(id: Name): KeyPackage -> bool {
    (r: KeyPackage) => r.stablePubkey == id && !r.isLastResort
  }

  lemma OfferIsFirstChoice(all: seq<KeyPackage>, id: Name) returns (i: nat)
    requires K.Offer(all, id).Some?
    ensures FirstChoice(all, i) && K.Offer(all, id) == Some(all[i]) && all[i].stablePubkey == id
  {
    var mine := Filter(all, K.Of(id));
    var regular := Filter(mine, K.Regular());
    FilterTwice(all, K.Of(id), K.Regular(), OwnRegular(id));
    if regular != [] {
      i := FirstSelected(all, OwnRegular(id));
    } else {
      i := LastSelected(all, K.Of(id));
      FilterMembers(all, OwnRegular(id));
      assert forall j :: 0 <= j < |all| && all[j].stablePubkey == id ==> all[j] in all && all[j].isLastResort;
    }
  }

  lemma ChoiceAsPromised(all: seq<KeyPackage>, identifier: Name)
    ensures Offers(all, identifier, K.Choice(all, identifier))
  {
    hide FirstChoice, K.Offer;
    FoundAsPromised(all, identifier);
    K.FindMeaning(all, identifier);
    K.OfferMeaning(all, identifier);
    if K.Offer(all, identifier).Some? {
      var i := OfferIsFirstChoice(all, identifier);
    }
  }

  /** A consume hands out what the identifier stands for; a regular package leaves, a
      last resort stays. */
  lemma ConsumePromise(ops: seq<Op>, identifier: Name)
    ensures var all, op := Run(ops).kps, ConsumePackage(identifier);
            && DbAsk(DbRun(ops), op).1.Perhaps?
            && var out := DbAsk(DbRun(ops), op).1.found;
               && Offers(all, identifier, out)
               && Run(ops + [op]).kps ==
                  if out.Some? && !out.value.isLastResort then Filter(all, OtherThan(out.value.kpRef)) else all
    ensures FreshRun(ops) ==>
              MemAsk(MemRun(ops), ConsumePackage(identifier)).1 == DbAsk(DbRun(ops), ConsumePackage(identifier)).1
  {
    hide DbAsk, MemAsk, Run, DbRun, MemRun, FreshRun, Offers, K.Choice;
    var all, op := Run(ops).kps, ConsumePackage(identifier);
    DbAnswers(ops, op);
    RunNext(ops, op);
    ChoiceAsPromised(all, identifier);
    var out := K.Choice(all, identifier);
    if out.Some? {
      FilterAgree(all, K.LacksRef(out.value.kpRef), OtherThan(out.value.kpRef));
    }
    if FreshRun(ops) {
      BackendParity(ops, op);
    }
  }

  // ----- Queues -----

  function KeptWelcome(target: Name, handled: seq<ConsumedWelcome>): Welcome -> bool {
    (w: Welcome) => w.target != target || ConsumedWelcome(w.kpRef, w.createdAt) !in handled
  }

  function WelcomeFor(target: Name): Welcome -> bool {
    (w: Welcome) => w.target == target
  }

  /** A welcome is stored behind the others; a fetch drops what it acknowledges under its
      target and returns, in order, what is left for that target. */
  lemma WelcomePromise(ops: seq<Op>, w: Welcome, target: Name, handled: seq<ConsumedWelcome>)
    ensures var all, op := Run(ops).welcomes, StoreWelcome(w);
            && DbAsk(DbRun(ops), op).1 == WelcomeStored(w) && Run(ops + [op]).welcomes == all + [w]
            && MemAsk(MemRun(ops), op).1 == WelcomeStored(w)
    ensures var op := FetchWelcomes(target, handled);
            var left := Filter(Run(ops).welcomes, KeptWelcome(target, handled));
            && DbAsk(DbRun(ops), op).1 == Welcomes(Filter(left, WelcomeFor(target))) && Run(ops + [op]).welcomes == left
            && MemAsk(MemRun(ops), op).1 == DbAsk(DbRun(ops), op).1
  {
    hide DbAsk, MemAsk, Run, DbRun, MemRun;
    var fetch := FetchWelcomes(target, handled);
    QueueParity(ops, StoreWelcome(w));
    QueueParity(ops, fetch);
    RunNext(ops, StoreWelcome(w));
    RunNext(ops, fetch);
    WelcomesLeft(Run(ops).welcomes, target, handled);
  }

  lemma WelcomesLeft(all: seq<Welcome>, target: Name, handled: seq<ConsumedWelcome>)
    ensures var left := Filter(all, KeptWelcome(target, handled));
            && B.Retire(all, Target(), WelcomeAck(), target, handled) == left
            && B.Pending(left, Target(), target) == Filter(left, WelcomeFor(target))
  {
    FilterAgree(all, B.Unacked(Target(), WelcomeAck(), target, handled), KeptWelcome(target, handled));
    var left := Filter(all, KeptWelcome(target, handled));
    FilterAgree(left, T.KeyIs(Target(), target), WelcomeFor(target));
  }

  function YoungWelcome(threshold: int): Welcome -> bool {
    (w: Welcome) => w.createdAt >= threshold
  }

  function YoungJoin(threshold: int): JoinRequest -> bool {
    (j: JoinRequest) => j.createdAt >= threshold
  }

  /** An expiry keeps what is not older than a positive threshold, in order, and answers
      with how many records went. */
  lemma WelcomeExpiryPromise(ops: seq<Op>, threshold: int)
    ensures var all, op := Run(ops).welcomes, ExpireWelcomes(threshold);
            var left := if threshold <= 0 then all else Filter(all, YoungWelcome(threshold));
            && Run(ops + [op]).welcomes == left && DbAsk(DbRun(ops), op).1 == Deleted(|all| - |left|)
            && MemAsk(MemRun(ops), op).1 == DbAsk(DbRun(ops), op).1
  {
    hide DbAsk, MemAsk, Run, DbRun, MemRun;
    QueueParity(ops, ExpireWelcomes(threshold));
    RunNext(ops, ExpireWelcomes(threshold));
    FilterAgree(Run(ops).welcomes, B.NotBefore(WelcomeAt(), threshold), YoungWelcome(threshold));
  }

  lemma JoinExpiryPromise(ops: seq<Op>, threshold: int)
    ensures var all, op := Run(ops).joins, ExpireJoins(threshold);
            var left := if threshold <= 0 then all else Filter(all, YoungJoin(threshold));
            && Run(ops + [op]).joins == left && DbAsk(DbRun(ops), op).1 == Deleted(|all| - |left|)
            && MemAsk(MemRun(ops), op).1 == DbAsk(DbRun(ops), op).1
  {
    hide DbAsk, MemAsk, Run, DbRun, MemRun;
    QueueParity(ops, ExpireJoins(threshold));
    RunNext(ops, ExpireJoins(threshold));
    FilterAgree(Run(ops).joins, B.NotBefore(J.Created(), threshold), YoungJoin(threshold));
  }

  function JoinFor(g: Name): JoinRequest -> bool {
    (j: JoinRequest) => j.groupId == g
  }

  function KeptJoin(groups: seq<Name>, accepted: seq<ConsumedGroupJoin>): JoinRequest -> bool {
    (j: JoinRequest) => j.groupId !in groups || ConsumedGroupJoin(j.groupId, j.requester, j.createdAt) !in accepted
  }

  function KeptInGroup(g: Name, accepted: seq<ConsumedJoin>): JoinRequest -> bool {
    (j: JoinRequest) => j.groupId != g || ConsumedJoin(j.requester, j.createdAt) !in accepted
  }

  /** The pending requests of each group, one group after the other. */
  function JoinPages(all: seq<JoinRequest>, groups: seq<Name>): seq<JoinRequest> {
    if groups == [] then [] else JoinPages(all, Front(groups)) + Filter(all, JoinFor(Last(groups)))
  }

  lemma {:induction false} JoinPagesJoined(all: seq<JoinRequest>, groups: seq<Name>)
    ensures J.JoinGroups(all, groups) == JoinPages(all, groups)
  {
    if groups != [] {
      JoinPagesJoined(all, Front(groups));
      FilterAgree(all, T.KeyIs(J.Group(), Last(groups)), JoinFor(Last(groups)));
    }
  }

  lemma {:induction false} RetiredEach(all: seq<JoinRequest>, groups: seq<Name>, accepted: seq<ConsumedGroupJoin>)
    ensures J.RetireEach(all, groups, accepted) == Filter(all, KeptJoin(groups, accepted))
  {
    if groups == [] {
      FilterAll(all, KeptJoin(groups, accepted));
    } else {
      RetiredEach(all, Front(groups), accepted);
      var g := Last(groups);
      var q := B.Unacked(J.Group(), J.JoinAck(), g, J.Part(accepted, g));
      forall j | j in all
        ensures KeptJoin(groups, accepted)(j) <==> KeptJoin(Front(groups), accepted)(j) && q(j)
      {
        J.PartitionMeaning(accepted, g, ConsumedJoin(j.requester, j.createdAt));
        assert j.groupId in groups <==> j.groupId in Front(groups) || j.groupId == g;
      }
      FilterTwice(all, KeptJoin(Front(groups), accepted), q, KeptJoin(groups, accepted));
    }
  }

  /** A fetch of join requests drops what it acknowledges in its group and returns, in
      order, what is left there. */
  lemma JoinFetchPromise(ops: seq<Op>, g: Name, accepted: seq<ConsumedJoin>)
    ensures var op := FetchJoins(g, accepted); var left := Filter(Run(ops).joins, KeptInGroup(g, accepted));
            && DbAsk(DbRun(ops), op).1 == Joins(Filter(left, JoinFor(g))) && Run(ops + [op]).joins == left
            && MemAsk(MemRun(ops), op).1 == DbAsk(DbRun(ops), op).1
  {
    hide DbAsk, MemAsk, Run, DbRun, MemRun;
    var all := Run(ops).joins;
    QueueParity(ops, FetchJoins(g, accepted));
    RunNext(ops, FetchJoins(g, accepted));
    FilterAgree(all, B.Unacked(J.Group(), J.JoinAck(), g, accepted), KeptInGroup(g, accepted));
    FilterAgree(Filter(all, KeptInGroup(g, accepted)), T.KeyIs(J.Group(), g), JoinFor(g));
  }

  /** A fetch over several groups does the same in all of them and returns what is left
      in the order asked for, again for a group asked for again. */
  lemma JoinBatchPromise(ops: seq<Op>, groups: seq<Name>, accepted: seq<ConsumedGroupJoin>)
    ensures var op := FetchManyJoins(groups, accepted); var left := Filter(Run(ops).joins, KeptJoin(groups, accepted));
            && DbAsk(DbRun(ops), op).1 == Joins(JoinPages(left, groups)) && Run(ops + [op]).joins == left
            && MemAsk(MemRun(ops), op).1 == DbAsk(DbRun(ops), op).1
  {
    hide DbAsk, MemAsk, Run, DbRun, MemRun, J.FetchEach, J.RetireEach, J.JoinGroups, Filter;
    var all := Run(ops).joins;
    QueueParity(ops, FetchManyJoins(groups, accepted));
    RunNext(ops, FetchManyJoins(groups, accepted));
    J.BatchIsLoop(all, groups, accepted);
    RetiredEach(all, groups, accepted);
    JoinPagesJoined(Filter(all, KeptJoin(groups, accepted)), groups);
  }

  /** The requester's own entry in the group. */
  predicate IsEntry(all: seq<JoinRequest>, i: nat, j: JoinRequest) {
    i < |all| && all[i].groupId == j.groupId && all[i].requester == j.requester
  }

  /** A request takes the place of the requester's entry if there is one; else it is
      refused in a group with 100 entries, and stored behind the others in any other. */
  lemma JoinStorePromise(ops: seq<Op>, j: JoinRequest)
    ensures var all, now, op := Run(ops).joins, Run(ops + [StoreJoin(j)]).joins, StoreJoin(j);
            && (forall i: nat :: IsEntry(all, i, j) ==> now == all[i := j] && DbAsk(DbRun(ops), op).1 == JoinStored(j))
            && ((forall i: nat :: !IsEntry(all, i, j)) ==>
                  if |Filter(all, JoinFor(j.groupId))| >= 100
                  then now == all && DbAsk(DbRun(ops), op).1 == Failed(TooManyPendingJoinRequests)
                  else now == all + [j] && DbAsk(DbRun(ops), op).1 == JoinStored(j))
            && MemAsk(MemRun(ops), op).1 == DbAsk(DbRun(ops), op).1
  {
    hide DbAsk, MemAsk, Run, DbRun, MemRun, J.WithinCap;
    var all, op := Run(ops).joins, StoreJoin(j);
    RunInv(ops);
    QueueParity(ops, op);
    RunNext(ops, op);
    FilterAgree(all, T.KeyIs(J.Group(), j.groupId), JoinFor(j.groupId));
    J.FoundEntry(all, j);
    forall i: nat | IsEntry(all, i, j)
      ensures T.Mapped(all, J.Refresh(j)) == all[i := j] && Filter(all, J.SameEntry(j)) != []
    {
      RefreshedAt(all, i, j);
    }
    if Filter(all, J.SameEntry(j)) != [] {
      var x :| x in all && x.groupId == j.groupId && x.requester == j.requester;
      var i: nat :| i < |all| && all[i] == x;
      assert IsEntry(all, i, j);
    }
  }

  lemma RefreshedAt(all: seq<JoinRequest>, i: nat, j: JoinRequest)
    requires J.UniqueEntries(all) && IsEntry(all, i, j)
    ensures T.Mapped(all, J.Refresh(j)) == all[i := j] && Filter(all, J.SameEntry(j)) != []
  {
    hide T.Mapped;
    assert all[i] in all;
    J.FoundEntry(all, j);
    forall k | 0 <= k < |all|
      ensures J.Refresh(j)(all[k]) == all[i := j][k]
    {
    }
  }
}
