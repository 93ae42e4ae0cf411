/** Posting and subscribing as a step machine. A post is two steps under two
    locks (append, then fan out); a multi-group subscribe is three (register,
    fetch the backlog, replay and switch to live). A run is any interleaving of
    such steps by any number of clients. */
module Delivery {
  import opened Seqs
  import opened Records
  import opened GroupLogs
  import opened Requests
  import S = Streams
  import R = Registry

  /** Where a subscription stands. `backlog` is what its fetch returned;
      `snapshot` records the logs at that moment. */
  datatype Phase =
    | LiveTail
    | Registered
    | Fetched(backlog: seq<Message>, snapshot: Logs)
    | Streaming(backlog: seq<Message>, snapshot: Logs)

  /** `mark` is the number of records that had been fanned out when it registered. */
  datatype Client = Client(groups: seq<FetchInput>, ids: seq<Name>, mark: nat, phase: Phase)

  /** `pending` holds the posts between their two steps, `published` the history of fan-outs. */
  datatype Sys = Sys(
    logs: Logs, pending: set<Message>, published: seq<Message>, reg: R.Reg, clients: map<nat, Client>)

  datatype Action =
    | Append(groupId: Name, payload: Bytes, at: int)
    | Publish(record: Message)
    | SubscribeOne(group: Name)
    | Register(groups: seq<FetchInput>)
    | Fetch(id: nat)
    | FetchFails(id: nat)
    | Finish(id: nat)
    | Unsubscribe(id: nat)

  function Init(): Sys {
    Sys(map[], {}, [], R.Empty(), map[])
  }

  function Fresh(groups: seq<FetchInput>): S.Sub {
    S.Sub(true, Cursors(groups), true, [], [])
  }

  function Tail(): S.Sub {
    S.Sub(false, map[], false, [], [])
  }

  predicate Enabled(s: Sys, a: Action) {
    match a
    case Append(_, _, _) => true
    case Publish(m) => m in s.pending
    case SubscribeOne(_) => true
    case Register(_) => true
    case Fetch(id) => id in s.clients && s.clients[id].phase.Registered?
    case FetchFails(id) => id in s.clients && s.clients[id].phase.Registered?
    case Finish(id) => id in s.clients && s.clients[id].phase.Fetched?
    case Unsubscribe(id) => id in s.clients && (s.clients[id].phase.Streaming? || s.clients[id].phase.LiveTail?)
  }

  function Drop(s: Sys, id: nat): Sys
    requires id in s.clients
  {
    s.(reg := R.Remove(s.reg, id, s.clients[id].ids), clients := s.clients - {id})
  }

  function Do(s: Sys, a: Action): Sys
    requires Enabled(s, a)
  {
    match a
    case Append(g, payload, at) =>
      s.(logs := GroupLogs.Append(s.logs, g, payload, at),
         pending := s.pending + {NewRecord(s.logs, g, payload, at)})
    case Publish(m) =>
      s.(pending := s.pending - {m}, published := s.published + [m], reg := R.PublishLive(s.reg, m))
    case SubscribeOne(g) =>
      s.(reg := R.Register(s.reg, [g], Tail()),
         clients := s.clients[s.reg.nextId := Client([], [g], |s.published|, LiveTail)])
    case Register(groups) =>
      s.(reg := R.Register(s.reg, GroupIds(groups), Fresh(groups)),
         clients := s.clients[s.reg.nextId := Client(groups, GroupIds(groups), |s.published|, Registered)])
    case Fetch(id) =>
      var c := s.clients[id];
      s.(clients := s.clients[id := c.(phase := Fetched(FetchMany(s.logs, c.groups), s.logs))])
    case FetchFails(id) => Drop(s, id)
    case Finish(id) =>
      var c := s.clients[id];
      s.(reg := R.ReplayAndFinish(s.reg, id, c.phase.backlog),
         clients := s.clients[id := c.(phase := Streaming(c.phase.backlog, c.phase.snapshot))])
    case Unsubscribe(id) => Drop(s, id)
  }

  ghost predicate IsRun(acts: seq<Action>) {
    acts == [] || (IsRun(Front(acts)) && Enabled(After(Front(acts)), Last(acts)))
  }

  /** The state after a run (steps that are not enabled do nothing). */
  ghost function After(acts: seq<Action>): Sys {
    if acts == [] then Init()
    else if Enabled(After(Front(acts)), Last(acts)) then Do(After(Front(acts)), Last(acts))
    else After(Front(acts))
  }

  // ----- The invariant -----

  /** The records fanned out to the client since it registered. */
  function Heard(published: seq<Message>, c: Client): seq<Message>
    requires c.mark <= |published|
  {
    Filter(published[c.mark..], InGroups(Elems(c.ids)))
  }

  /** The state of a subscription is a function of what it fetched and heard. */
  function Expected(published: seq<Message>, c: Client): S.Sub
    requires c.mark <= |published|
  {
    var heard := Heard(published, c);
    match c.phase
    case LiveTail => S.EmitAll(Tail(), heard)
    case Registered => Fresh(c.groups).(buffer := heard)
    case Fetched(_, _) => Fresh(c.groups).(buffer := heard)
    case Streaming(backlog, _) => S.EmitAll(Fresh(c.groups).(buffering := false), backlog + heard)
  }

  function WantsOf(clients: map<nat, Client>): R.Wants {
    map id | id in clients :: Elems(clients[id].ids)
  }

  ghost predicate ViewOk(subs: map<nat, S.Sub>, published: seq<Message>, id: nat, c: Client) {
    && Distinct(c.ids)
    && c.mark <= |published|
    && id in subs
    && subs[id] == Expected(published, c)
  }

  ghost predicate ViewsOk(subs: map<nat, S.Sub>, published: seq<Message>, clients: map<nat, Client>) {
    forall id :: id in clients ==> ViewOk(subs, published, id, clients[id])
  }

  ghost predicate Extends(was: Logs, now: Logs) {
    forall g :: Log(was, g) <= Log(now, g)
  }

  ghost predicate Within(ms: seq<Message>, logs: Logs) {
    forall i :: 0 <= i < |ms| ==> ms[i].cursor <= |Log(logs, ms[i].groupId)|
  }

  /** What was fanned out before a client registered was in the logs it fetched. */
  ghost predicate ClientOk(logs: Logs, published: seq<Message>, c: Client) {
    && c.mark <= |published|
    && (!c.phase.LiveTail? ==> c.ids == GroupIds(c.groups))
    && (c.phase.Fetched? || c.phase.Streaming? ==>
          && c.phase.backlog == FetchMany(c.phase.snapshot, c.groups)
          && Dense(c.phase.snapshot)
          && Extends(c.phase.snapshot, logs)
          && Within(published[..c.mark], c.phase.snapshot))
  }

  ghost predicate ClientsOk(logs: Logs, published: seq<Message>, clients: map<nat, Client>) {
    forall id :: id in clients ==> ClientOk(logs, published, clients[id])
  }

  ghost predicate InLog(logs: Logs, m: Message) {
    var log := Log(logs, m.groupId);
    1 <= m.cursor <= |log| && log[m.cursor - 1] == m
  }

  /** Every record of a log has been fanned out once or is about to be. */
  ghost predicate PostsOk(logs: Logs, pending: set<Message>, published: seq<Message>) {
    && (forall m :: m in published ==> InLog(logs, m) && m !in pending)
    && (forall m :: m in pending ==> InLog(logs, m))
    && Distinct(published)
    && (forall m :: InLog(logs, m) ==> m in pending || m in published)
  }

  ghost predicate Inv(s: Sys) {
    && Dense(s.logs)
    && PostsOk(s.logs, s.pending, s.published)
    && R.Represents(s.reg, WantsOf(s.clients))
    && ViewsOk(s.reg.subscribers, s.published, s.clients)
    && ClientsOk(s.logs, s.published, s.clients)
  }

  lemma HeardPush(published: seq<Message>, m: Message, c: Client)
    requires c.mark <= |published|
    ensures Heard(published + [m], c) ==
            if m.groupId in c.ids then Heard(published, c) + [m] else Heard(published, c)
  {
    assert (published + [m])[c.mark..] == published[c.mark..] + [m];
    FilterPush(published[c.mark..], m, InGroups(Elems(c.ids)));
  }

  lemma {:induction false} TailEmits(heard: seq<Message>)
    ensures S.EmitAll(Tail(), heard) == Tail().(sent := heard)
  {
    if heard != [] {
      TailEmits(Front(heard));
    }
  }

  /** Emission neither reads nor writes the buffering fields. */
  lemma {:induction false} EmitAllKeeps(t: S.Sub, ms: seq<Message>, b: bool, buf: seq<Message>)
    ensures S.EmitAll(t, ms).buffering == t.buffering
    ensures S.EmitAll(t, ms).buffer == t.buffer
    ensures S.EmitAll(t.(buffering := b, buffer := buf), ms) == S.EmitAll(t, ms).(buffering := b, buffer := buf)
  {
    if ms != [] {
      EmitAllKeeps(t, Front(ms), b, buf);
    }
  }

  /** Past the buffering stage a fan-out is one more emission. */
  lemma EmitPush(t: S.Sub, was: seq<Message>, m: Message)
    requires !t.buffering
    ensures S.EmitAll(t, was + [m]) == S.Push(S.EmitAll(t, was), m)
  {
    EmitAllKeeps(t, was, false, t.buffer);
    S.EmitAllPush(t, was, m);
  }

  /** One fan-out moves a subscription exactly as its history says. */
  lemma ExpectedPush(published: seq<Message>, m: Message, c: Client)
    requires c.mark <= |published|
    ensures Expected(published + [m], c) ==
            if m.groupId in c.ids then S.Push(Expected(published, c), m) else Expected(published, c)
  {
    hide S.EmitAll, Heard;
    HeardPush(published, m, c);
    var heard := Heard(published, c);
    if m.groupId in c.ids {
      if c.phase.LiveTail? {
        EmitPush(Tail(), heard, m);
      } else if c.phase.Streaming? {
        var backlog := c.phase.backlog;
        EmitPush(Fresh(c.groups).(buffering := false), backlog + heard, m);
        assert backlog + (heard + [m]) == backlog + heard + [m];
      }
    }
  }

  lemma ExpectedFinish(published: seq<Message>, c: Client)
    requires c.mark <= |published| && c.phase.Fetched?
    ensures S.FinishBuffering(S.EmitAll(Expected(published, c), c.phase.backlog)) ==
            Expected(published, c.(phase := Streaming(c.phase.backlog, c.phase.snapshot)))
  {
    var heard, start, backlog := Heard(published, c), Fresh(c.groups), c.phase.backlog;
    EmitAllKeeps(start.(buffering := false), backlog, true, heard);
    S.EmitAllConcat(start.(buffering := false), backlog, heard);
  }

  // ----- Each step keeps it -----

  lemma PostsAppend(logs: Logs, pending: set<Message>, published: seq<Message>, g: Name, payload: Bytes, at: int)
    requires Dense(logs) && PostsOk(logs, pending, published)
    ensures PostsOk(GroupLogs.Append(logs, g, payload, at), pending + {NewRecord(logs, g, payload, at)}, published)
  {
    var logs', m := GroupLogs.Append(logs, g, payload, at), NewRecord(logs, g, payload, at);
    assert !InLog(logs, m);
    forall x: Message
      ensures InLog(logs', x) <==> InLog(logs, x) || x == m
    {
      assert Log(logs', x.groupId) == if x.groupId == g then Log(logs, g) + [m] else Log(logs, x.groupId);
    }
  }

  lemma PostsPublish(logs: Logs, pending: set<Message>, published: seq<Message>, m: Message)
    requires PostsOk(logs, pending, published) && m in pending
    ensures PostsOk(logs, pending - {m}, published + [m])
  {
  }

  lemma ClientAppend(logs: Logs, published: seq<Message>, c: Client, g: Name, payload: Bytes, at: int)
    requires ClientOk(logs, published, c)
    ensures ClientOk(GroupLogs.Append(logs, g, payload, at), published, c)
  {
    var logs' := GroupLogs.Append(logs, g, payload, at);
    assert forall h :: Log(logs, h) <= Log(logs', h);
  }

  lemma ClientPublish(logs: Logs, published: seq<Message>, c: Client, m: Message)
    requires ClientOk(logs, published, c)
    ensures ClientOk(logs, published + [m], c)
  {
    assert (published + [m])[..c.mark] == published[..c.mark];
  }

  lemma ClientFetch(logs: Logs, pending: set<Message>, published: seq<Message>, c: Client)
    requires Dense(logs) && PostsOk(logs, pending, published)
    requires ClientOk(logs, published, c) && c.phase.Registered?
    ensures ClientOk(logs, published, c.(phase := Fetched(FetchMany(logs, c.groups), logs)))
  {
    forall i | 0 <= i < c.mark
      ensures published[i].cursor <= |Log(logs, published[i].groupId)|
    {
      assert InLog(logs, published[i]);
    }
  }

  lemma WantsAdd(clients: map<nat, Client>, id: nat, c: Client)
    ensures WantsOf(clients[id := c]) == WantsOf(clients)[id := Elems(c.ids)]
  {
  }

  lemma WantsDrop(clients: map<nat, Client>, id: nat)
    ensures WantsOf(clients - {id}) == WantsOf(clients) - {id}
  {
  }

  /** A client that changes only its phase keeps its place in the registry. */
  lemma WantsKeep(clients: map<nat, Client>, id: nat, c: Client)
    requires id in clients && c.ids == clients[id].ids
    ensures WantsOf(clients[id := c]) == WantsOf(clients)
  {
  }

  lemma ViewsPublish(reg: R.Reg, published: seq<Message>, clients: map<nat, Client>, m: Message)
    requires R.Represents(reg, WantsOf(clients)) && ViewsOk(reg.subscribers, published, clients)
    ensures ViewsOk(R.PublishLive(reg, m).subscribers, published + [m], clients)
  {
    R.PublishRepresents(reg, WantsOf(clients), m);
    forall id | id in clients
      ensures ViewOk(R.PublishLive(reg, m).subscribers, published + [m], id, clients[id])
    {
      assert ViewOk(reg.subscribers, published, id, clients[id]) && id in WantsOf(clients);
      ExpectedPush(published, m, clients[id]);
    }
  }

  lemma ViewsUpdate(subs: map<nat, S.Sub>, published: seq<Message>, clients: map<nat, Client>, id: nat, c: Client)
    requires ViewsOk(subs, published, clients) && Distinct(c.ids) && c.mark <= |published|
    ensures ViewsOk(subs[id := Expected(published, c)], published, clients[id := c])
  {
    var subs' := subs[id := Expected(published, c)];
    forall i | i in clients && i != id
      ensures ViewOk(subs', published, i, clients[i])
    {
      assert ViewOk(subs, published, i, clients[i]);
    }
  }

  lemma ViewsDrop(subs: map<nat, S.Sub>, published: seq<Message>, clients: map<nat, Client>, id: nat)
    requires ViewsOk(subs, published, clients)
    ensures ViewsOk(subs - {id}, published, clients - {id})
  {
    forall i | i in clients && i != id
      ensures ViewOk(subs - {id}, published, i, clients[i])
    {
      assert ViewOk(subs, published, i, clients[i]);
    }
  }

  lemma PostStepInv(s: Sys, a: Action)
    requires Inv(s) && Enabled(s, a) && (a.Append? || a.Publish?)
    ensures Inv(Do(s, a))
  {
    match a
    case Append(g, payload, at) =>
      AppendKeepsDense(s.logs, g, payload, at);
      PostsAppend(s.logs, s.pending, s.published, g, payload, at);
      forall id | id in s.clients
        ensures ClientOk(Do(s, a).logs, s.published, s.clients[id])
      {
        ClientAppend(s.logs, s.published, s.clients[id], g, payload, at);
      }
    case Publish(m) =>
      PostsPublish(s.logs, s.pending, s.published, m);
      R.PublishRepresents(s.reg, WantsOf(s.clients), m);
      ViewsPublish(s.reg, s.published, s.clients, m);
      forall id | id in s.clients
        ensures ClientOk(s.logs, s.published + [m], s.clients[id])
      {
        ClientPublish(s.logs, s.published, s.clients[id], m);
      }
  }

  lemma ClientsUpdate(logs: Logs, published: seq<Message>, clients: map<nat, Client>, id: nat, c: Client)
    requires ClientsOk(logs, published, clients) && ClientOk(logs, published, c)
    ensures ClientsOk(logs, published, clients[id := c])
  {
  }

  lemma RegisterInv(s: Sys, c: Client)
    requires Inv(s) && Distinct(c.ids) && c.mark == |s.published|
    requires c.phase.LiveTail? || (c.phase.Registered? && c.ids == GroupIds(c.groups))
    ensures Inv(s.(reg := R.Register(s.reg, c.ids, Expected(s.published, c)), clients := s.clients[s.reg.nextId := c]))
  {
    var id, sub := s.reg.nextId, Expected(s.published, c);
    R.RegisterRepresents(s.reg, WantsOf(s.clients), c.ids, sub);
    WantsAdd(s.clients, id, c);
    ViewsUpdate(s.reg.subscribers, s.published, s.clients, id, c);
    ClientsUpdate(s.logs, s.published, s.clients, id, c);
  }

  lemma DropInv(s: Sys, id: nat)
    requires Inv(s) && id in s.clients
    ensures Inv(Drop(s, id))
  {
    assert ViewOk(s.reg.subscribers, s.published, id, s.clients[id]);
    R.RemoveRepresents(s.reg, WantsOf(s.clients), id, s.clients[id].ids);
    WantsDrop(s.clients, id);
    ViewsDrop(s.reg.subscribers, s.published, s.clients, id);
    assert ClientsOk(s.logs, s.published, s.clients - {id});
  }

  lemma PhaseInv(s: Sys, id: nat, c: Client)
    requires Inv(s) && id in s.clients && c == s.clients[id].(phase := c.phase)
    requires ClientOk(s.logs, s.published, c)
    ensures Inv(s.(reg := s.reg.(subscribers := s.reg.subscribers[id := Expected(s.published, c)]),
                   clients := s.clients[id := c]))
  {
    assert ViewOk(s.reg.subscribers, s.published, id, s.clients[id]);
    WantsKeep(s.clients, id, c);
    ViewsUpdate(s.reg.subscribers, s.published, s.clients, id, c);
    ClientsUpdate(s.logs, s.published, s.clients, id, c);
    assert s.reg.subscribers[id := Expected(s.published, c)].Keys == s.reg.subscribers.Keys;
  }

  lemma SameEntry(reg: R.Reg, id: nat, sub: S.Sub)
    requires id in reg.subscribers && reg.subscribers[id] == sub
    ensures reg.(subscribers := reg.subscribers[id := sub]) == reg
  {
    assert reg.subscribers[id := sub] == reg.subscribers;
  }

  lemma FetchInv(s: Sys, id: nat)
    requires Inv(s) && Enabled(s, Fetch(id))
    ensures Inv(Do(s, Fetch(id)))
  {
    var c := s.clients[id].(phase := Fetched(FetchMany(s.logs, s.clients[id].groups), s.logs));
    assert ViewOk(s.reg.subscribers, s.published, id, s.clients[id]);
    ClientFetch(s.logs, s.pending, s.published, s.clients[id]);
    SameEntry(s.reg, id, Expected(s.published, c));
    PhaseInv(s, id, c);
  }

  lemma FinishInv(s: Sys, id: nat)
    requires Inv(s) && Enabled(s, Finish(id))
    ensures Inv(Do(s, Finish(id)))
  {
    assert ViewOk(s.reg.subscribers, s.published, id, s.clients[id]);
    assert ClientOk(s.logs, s.published, s.clients[id]);
    ExpectedFinish(s.published, s.clients[id]);
    PhaseInv(s, id, Do(s, Finish(id)).clients[id]);
  }

  lemma SubscribeStepInv(s: Sys, a: Action)
    requires Inv(s) && Enabled(s, a) && !a.Append? && !a.Publish?
    ensures Inv(Do(s, a))
  {
    match a
    case SubscribeOne(g) =>
      var c := Client([], [g], |s.published|, LiveTail);
      assert Heard(s.published, c) == [];
      RegisterInv(s, c);
    case Register(groups) =>
      var c := Client(groups, GroupIds(groups), |s.published|, Registered);
      assert Heard(s.published, c) == [];
      GroupIdsDistinct(groups);
      RegisterInv(s, c);
    case Fetch(id) => FetchInv(s, id);
    case FetchFails(id) => DropInv(s, id);
    case Finish(id) => FinishInv(s, id);
    case Unsubscribe(id) => DropInv(s, id);
  }

  lemma StepInv(s: Sys, a: Action)
    requires Inv(s) && Enabled(s, a)
    ensures Inv(Do(s, a))
  {
    if a.Append? || a.Publish? {
      PostStepInv(s, a);
    } else {
      SubscribeStepInv(s, a);
    }
  }

  /** The invariant holds after every interleaving. */
  lemma {:induction false} RunInv(acts: seq<Action>)
    requires IsRun(acts)
    ensures Inv(After(acts))
  {
    if acts != [] {
      RunInv(Front(acts));
      StepInv(After(Front(acts)), Last(acts));
    }
  }
}
