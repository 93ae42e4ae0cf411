/** The whole storage interface three times: the contract on sequences of records
    in storage order, the in-memory backend and the SQLite backend. */
module Backends {
  import opened Seqs
  import opened Records
  import opened Tables
  import opened Queues
  import K = KeyStore
  import J = JoinQueues
  import L = GroupLogs
  import M = MessageStore

  datatype Op =
    | Publish(record: KeyPackage)
    | ListFor(identity: Name)
    | ListAll
    | GetPackage(ref: Name)
    | RemovePackage(ref: Name)
    | ConsumePackage(identifier: Name)
    | StoreWelcome(welcome: Welcome)
    | FetchWelcomes(target: Name, handled: seq<ConsumedWelcome>)
    | ExpireWelcomes(threshold: int)
    | StoreJoin(request: JoinRequest)
    | FetchJoins(group: Name, accepted: seq<ConsumedJoin>)
    | FetchManyJoins(groups: seq<Name>, acceptedIn: seq<ConsumedGroupJoin>)
    | ExpireJoins(threshold: int)
    | AppendMessage(groupId: Name, payload: Bytes, at: int)
    | FetchMessages(groupId: Name, after: Option<int>)
    | FetchManyMessages(inputs: seq<FetchInput>)

  datatype Answer =
    | Failed(error: StorageError)
    | Published(record: KeyPackage)
    | Packages(records: seq<KeyPackage>)
    | Everything(all: seq<KeyPackage>)
    | Perhaps(found: Option<KeyPackage>)
    | WelcomeStored(welcome: Welcome)
    | Welcomes(welcomes: seq<Welcome>)
    | JoinStored(request: JoinRequest)
    | Joins(requests: seq<JoinRequest>)
    | Deleted(count: int)
    | Appended(message: Message)
    | MessageList(messages: seq<Message>)

  function Target(): Welcome -> Name {
    (w: Welcome) => w.target
  }

  function WelcomeAck(): Welcome -> ConsumedWelcome {
    (w: Welcome) => ConsumedWelcome(w.kpRef, w.createdAt)
  }

  function WelcomeAt(): Welcome -> int {
    (w: Welcome) => w.createdAt
  }

  // ----- The contract -----

  datatype Store = Store(kps: K.Packages, welcomes: seq<Welcome>, joins: J.Joins, logs: L.Logs)

  function EmptyStore(): Store {
    Store([], [], [], map[])
  }

  function Ask(s: Store, op: Op): (Store, Answer) {
    match op
    case Publish(r) => if K.Held(s.kps, r.kpRef) then (s, Failed(Backend)) else (s.(kps := s.kps + [r]), Published(r))
    case ListFor(id) => (s, Packages(Filter(s.kps, K.Of(id))))
    case ListAll => (s, Everything(s.kps))
    case GetPackage(ref) => (s, Perhaps(K.Find(s.kps, ref)))
    case RemovePackage(ref) => (s.(kps := K.Remove(s.kps, ref)), Perhaps(K.Find(s.kps, ref)))
    case ConsumePackage(identifier) =>
      (s.(kps := K.Consume(s.kps, identifier)), Perhaps(K.Choice(s.kps, identifier)))
    case StoreWelcome(w) => (s.(welcomes := s.welcomes + [w]), WelcomeStored(w))
    case FetchWelcomes(target, handled) =>
      var now := Retire(s.welcomes, Target(), WelcomeAck(), target, handled);
      (s.(welcomes := now), Welcomes(Pending(now, Target(), target)))
    case ExpireWelcomes(threshold) =>
      var now := Expire(s.welcomes, WelcomeAt(), threshold);
      (s.(welcomes := now), Deleted(|s.welcomes| - |now|))
    case StoreJoin(j) =>
      (match J.Store(s.joins, j)
       case None => (s, Failed(TooManyPendingJoinRequests))
       case Some(now) => (s.(joins := now), JoinStored(j)))
    case FetchJoins(g, accepted) =>
      var now := Retire(s.joins, J.Group(), J.JoinAck(), g, accepted);
      (s.(joins := now), Joins(Pending(now, J.Group(), g)))
    case FetchManyJoins(groups, acceptedIn) =>
      var fetched := J.FetchEach(s.joins, groups, acceptedIn);
      (s.(joins := fetched.0), Joins(fetched.1))
    case ExpireJoins(threshold) =>
      var now := Expire(s.joins, J.Created(), threshold);
      (s.(joins := now), Deleted(|s.joins| - |now|))
    case AppendMessage(g, payload, at) =>
      (s.(logs := L.Append(s.logs, g, payload, at)), Appended(L.NewRecord(s.logs, g, payload, at)))
    case FetchMessages(g, after) => (s, MessageList(L.Fetch(s.logs, g, M.AfterOf(after))))
    case FetchManyMessages(inputs) => (s, MessageList(L.FetchMany(s.logs, inputs)))
  }

  // ----- In memory -----

  datatype Memory = Memory(
    kps: Index<KeyPackage>, welcomes: Index<Welcome>, joins: Index<JoinRequest>, groups: M.MemLogs)

  function EmptyMemory(): Memory {
    Memory(NoKeys(), NoKeys(), NoKeys(), map[])
  }

  function MemAsk(m: Memory, op: Op): (Memory, Answer) {
    match op
    case Publish(r) => (m.(kps := K.MemPublish(m.kps, r)), Published(r))
    case ListFor(id) => (m, Packages(Get(m.kps, id)))
    case ListAll => (m, Everything(Flatten(m.kps, m.kps.keys)))
    case GetPackage(ref) => (m, Perhaps(K.MemFind(m.kps, ref)))
    case RemovePackage(ref) => (m.(kps := K.MemRemove(m.kps, ref)), Perhaps(K.MemFind(m.kps, ref)))
    case ConsumePackage(identifier) =>
      var consumed := K.MemConsume(m.kps, identifier);
      (m.(kps := consumed.0), Perhaps(consumed.1))
    case StoreWelcome(w) => (m.(welcomes := MemPush(m.welcomes, Target(), w)), WelcomeStored(w))
    case FetchWelcomes(target, handled) =>
      var now := MemRetire(m.welcomes, WelcomeAck(), target, handled);
      (m.(welcomes := now), Welcomes(Get(now, target)))
    case ExpireWelcomes(threshold) =>
      var expired := MemExpire(m.welcomes, WelcomeAt(), threshold);
      (m.(welcomes := expired.0), Deleted(expired.1))
    case StoreJoin(j) =>
      (match J.MemStore(m.joins, j)
       case None => (m, Failed(TooManyPendingJoinRequests))
       case Some(now) => (m.(joins := now), JoinStored(j)))
    case FetchJoins(g, accepted) =>
      var now := MemRetire(m.joins, J.JoinAck(), g, accepted);
      (m.(joins := now), Joins(Get(now, g)))
    case FetchManyJoins(groups, acceptedIn) =>
      var fetched := J.MemFetchEach(m.joins, groups, acceptedIn);
      (m.(joins := fetched.0), Joins(fetched.1))
    case ExpireJoins(threshold) =>
      var expired := MemExpire(m.joins, J.Created(), threshold);
      (m.(joins := expired.0), Deleted(expired.1))
    case AppendMessage(g, payload, at) =>
      (m.(groups := M.MemAppend(m.groups, g, payload, at)), Appended(M.MemRecord(m.groups, g, payload, at)))
    case FetchMessages(g, after) => (m, MessageList(M.MemFetch(m.groups, g, after)))
    case FetchManyMessages(inputs) => (m, MessageList(M.MemFetchMany(m.groups, inputs)))
  }

  // ----- SQLite -----

  datatype Db = Db(
    kps: Table<KeyPackage>, welcomes: Table<Welcome>, joins: Table<JoinRequest>, messages: M.Messages)

  function EmptyDb(): Db {
    Db(NoRows(), NoRows(), NoRows(), M.Messages(map[], NoRows()))
  }

  /** SELECT ... WHERE key = k ORDER BY id ASC. */
  function Select<R>(t: Table<R>, p: R -> bool): seq<R> {
    Recs(Filter(t.rows, RowIs(p)))
  }

  function DbAsk(d: Db, op: Op): (Db, Answer) {
    match op
    case Publish(r) =>
      (match K.SqlPublish(d.kps, r)
       case None => (d, Failed(Backend))
       case Some(now) => (d.(kps := now), Published(r)))
    case ListFor(id) => (d, Packages(Select(d.kps, K.Of(id))))
    case ListAll => (d, Everything(Recs(d.kps.rows)))
    case GetPackage(ref) => (d, Perhaps(K.SqlFind(d.kps, ref)))
    case RemovePackage(ref) => (d.(kps := K.SqlRemove(d.kps, ref)), Perhaps(K.SqlFind(d.kps, ref)))
    case ConsumePackage(identifier) =>
      var consumed := K.SqlConsume(d.kps, identifier);
      (d.(kps := consumed.0), Perhaps(consumed.1))
    case StoreWelcome(w) => (d.(welcomes := Insert(d.welcomes, w)), WelcomeStored(w))
    case FetchWelcomes(target, handled) =>
      var now := SqlRetire(d.welcomes, Target(), WelcomeAck(), target, handled);
      (d.(welcomes := now), Welcomes(Select(now, KeyIs(Target(), target))))
    case ExpireWelcomes(threshold) =>
      var expired := SqlExpire(d.welcomes, WelcomeAt(), threshold);
      (d.(welcomes := expired.0), Deleted(expired.1))
    case StoreJoin(j) =>
      (match J.SqlStore(d.joins, j)
       case None => (d, Failed(TooManyPendingJoinRequests))
       case Some(now) => (d.(joins := now), JoinStored(j)))
    case FetchJoins(g, accepted) =>
      var now := SqlRetire(d.joins, J.Group(), J.JoinAck(), g, accepted);
      (d.(joins := now), Joins(Select(now, KeyIs(J.Group(), g))))
    case FetchManyJoins(groups, acceptedIn) =>
      var fetched := J.SqlFetchEach(d.joins, groups, acceptedIn);
      (d.(joins := fetched.0), Joins(fetched.1))
    case ExpireJoins(threshold) =>
      var expired := SqlExpire(d.joins, J.Created(), threshold);
      (d.(joins := expired.0), Deleted(expired.1))
    case AppendMessage(g, payload, at) =>
      (match M.SqlAppend(d.messages, g, payload, at)
       case None => (d, Failed(Backend))
       case Some(now) => (d.(messages := now), Appended(M.SqlRecord(d.messages, g, payload, at))))
    case FetchMessages(g, after) => (d, MessageList(M.SqlFetch(d.messages, g, after)))
    case FetchManyMessages(inputs) => (d, MessageList(M.SqlFetchMany(d.messages, inputs)))
  }
}
