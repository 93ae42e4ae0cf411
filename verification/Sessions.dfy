/** The registry over whole runs of the `Delivery` machine: what it holds, and
    that a subscription which comes and goes leaves nothing behind. */
module Sessions {
  import opened Seqs
  import opened Records
  import R = Registry
  import D = Delivery
  import Q = Requests
  import L = GroupLogs
  import S = Streams

  function NonEmptyClients(clients: map<nat, D.Client>): set<nat> {
    set id | id in clients && clients[id].ids != []
  }

  /** After every run: refcounts count group sets, no set is empty, a group's set
      holds exactly its live subscribers, ids stay below the next one to be given
      out, and the active count is the number of live non-empty subscriptions. */
  lemma RegistryIsExact(acts: seq<D.Action>)
    requires D.IsRun(acts)
    ensures var s := D.After(acts);
            && (forall g :: g in s.reg.groupSubscribers ==> s.reg.groupSubscribers[g] != {})
            && (forall g, id :: R.Listed(s.reg.groupSubscribers, g, id) <==> id in s.clients && g in s.clients[id].ids)
            && (forall id :: id in s.reg.subscribers <==> id in s.clients)
            && (forall id :: id in s.reg.refcounts <==> id in s.clients && s.clients[id].ids != [])
            && (forall id :: id in s.reg.refcounts ==> s.reg.refcounts[id] == |s.clients[id].ids|)
            && (forall id :: id in s.clients ==> id < s.reg.nextId)
            && R.ActiveCount(s.reg) == |NonEmptyClients(s.clients)|
  {
    D.RunInv(acts);
    var s := D.After(acts);
    var w := D.WantsOf(s.clients);
    forall id | id in s.clients
      ensures |w[id]| == |s.clients[id].ids| && (w[id] == {} <==> s.clients[id].ids == [])
    {
      assert D.ViewOk(s.reg.subscribers, s.published, id, s.clients[id]);
      DistinctSize(s.clients[id].ids);
    }
    forall g, id
      ensures R.Wanted(w, g, id) <==> id in s.clients && g in s.clients[id].ids
    {
    }
    KeysSize(s.reg.refcounts, NonEmptyClients(s.clients));
  }

  lemma KeysSize(m: map<nat, nat>, keys: set<nat>)
    requires forall id :: id in m <==> id in keys
    ensures |m| == |keys|
  {
    assert m.Keys == keys;
  }

  /** A step hands out at most the next id, and never an id given out before. */
  lemma IdsAreFresh(s: D.Sys, a: D.Action)
    requires D.Inv(s) && D.Enabled(s, a)
    ensures D.Do(s, a).reg.nextId >= s.reg.nextId
    ensures forall id :: id in D.Do(s, a).clients && id !in s.clients ==> s.reg.nextId <= id < D.Do(s, a).reg.nextId
  {
    D.StepInv(s, a);
    if a.SubscribeOne? {
      R.RegisterRepresents(s.reg, D.WantsOf(s.clients), [a.group], D.Tail());
    } else if a.Register? {
      Q.GroupIdsDistinct(a.groups);
      R.RegisterRepresents(s.reg, D.WantsOf(s.clients), Q.GroupIds(a.groups), D.Fresh(a.groups));
    } else {
      NextIdKept(s, a);
    }
  }

  lemma NextIdKept(s: D.Sys, a: D.Action)
    requires D.Inv(s) && D.Enabled(s, a) && !a.SubscribeOne? && !a.Register?
    ensures D.Do(s, a).reg.nextId == s.reg.nextId && D.Do(s, a).clients.Keys <= s.clients.Keys
  {
    if a.FetchFails? || a.Unsubscribe? {
      assert D.ViewOk(s.reg.subscribers, s.published, a.id, s.clients[a.id]);
      R.RemoveRepresents(s.reg, D.WantsOf(s.clients), a.id, s.clients[a.id].ids);
    }
  }

  /** The registry is a function of the live clients and the fan-out history. */
  lemma RegistryIsDetermined(s: D.Sys, t: D.Sys)
    requires D.Inv(s) && D.Inv(t)
    requires s.clients == t.clients && s.published == t.published && s.reg.nextId == t.reg.nextId
    ensures s.reg == t.reg
  {
    R.RepresentsUnique(s.reg, t.reg, D.WantsOf(s.clients));
    forall id | id in s.clients
      ensures id in s.reg.subscribers && id in t.reg.subscribers && s.reg.subscribers[id] == t.reg.subscribers[id]
    {
      assert D.ViewOk(s.reg.subscribers, s.published, id, s.clients[id]);
      assert D.ViewOk(t.reg.subscribers, t.published, id, t.clients[id]);
    }
    assert s.reg.subscribers.Keys == D.WantsOf(s.clients).Keys == t.reg.subscribers.Keys;
    assert s.reg.subscribers == t.reg.subscribers;
  }

  // ----- Coming and going -----

  predicate Touches(a: D.Action, k: nat) {
    (a.Fetch? || a.FetchFails? || a.Finish? || a.Unsubscribe?) && a.id == k
  }

  predicate Removes(a: D.Action, k: nat) {
    (a.FetchFails? || a.Unsubscribe?) && a.id == k
  }

  function Try(s: D.Sys, a: D.Action): D.Sys {
    if D.Enabled(s, a) then D.Do(s, a) else s
  }

  function TryAll(s: D.Sys, acts: seq<D.Action>): D.Sys {
    if acts == [] then s else Try(TryAll(s, Front(acts)), Last(acts))
  }

  function Without(acts: seq<D.Action>, k: nat): seq<D.Action> {
    if acts == [] then []
    else if Touches(Last(acts), k) then Without(Front(acts), k)
    else Without(Front(acts), k) + [Last(acts)]
  }

  /** `b` is `a` without client `k`. */
  ghost predicate Mirror(a: D.Sys, b: D.Sys, k: nat) {
    && k in a.clients && k < b.reg.nextId && k !in b.clients
    && a.logs == b.logs && a.pending == b.pending && a.published == b.published
    && a.reg.nextId == b.reg.nextId
    && a.clients == b.clients[k := a.clients[k]]
  }

  ghost predicate Twin(a: D.Sys, b: D.Sys, k: nat) {
    D.Inv(a) && D.Inv(b) && Mirror(a, b, k)
  }

  lemma TwinStep(a: D.Sys, b: D.Sys, k: nat, act: D.Action)
    requires Twin(a, b, k) && !Touches(act, k)
    ensures Twin(Try(a, act), Try(b, act), k)
  {
    hide D.Inv, D.Enabled, D.Do, Mirror;
    SameEnabled(a, b, k, act);
    if D.Enabled(a, act) {
      D.StepInv(a, act);
      D.StepInv(b, act);
      IdsAreFresh(b, act);
      SameCounter(a, b, k);
      SameNextId(a, b, act);
      MirrorStep(a, b, k, act);
    }
  }

  lemma SameEnabled(a: D.Sys, b: D.Sys, k: nat, act: D.Action)
    requires Mirror(a, b, k) && !Touches(act, k)
    ensures D.Enabled(a, act) <==> D.Enabled(b, act)
  {
  }

  lemma SameCounter(a: D.Sys, b: D.Sys, k: nat)
    requires Mirror(a, b, k)
    ensures a.reg.nextId == b.reg.nextId
  {
  }

  lemma SameNextId(a: D.Sys, b: D.Sys, act: D.Action)
    requires D.Inv(a) && D.Inv(b) && D.Enabled(a, act) && D.Enabled(b, act) && a.reg.nextId == b.reg.nextId
    ensures D.Do(a, act).reg.nextId == D.Do(b, act).reg.nextId
  {
    if act.SubscribeOne? {
      R.RegisterRepresents(a.reg, D.WantsOf(a.clients), [act.group], D.Tail());
      R.RegisterRepresents(b.reg, D.WantsOf(b.clients), [act.group], D.Tail());
    } else if act.Register? {
      Q.GroupIdsDistinct(act.groups);
      R.RegisterRepresents(a.reg, D.WantsOf(a.clients), Q.GroupIds(act.groups), D.Fresh(act.groups));
      R.RegisterRepresents(b.reg, D.WantsOf(b.clients), Q.GroupIds(act.groups), D.Fresh(act.groups));
    } else {
      NextIdKept(a, act);
      NextIdKept(b, act);
    }
  }

  lemma MirrorStep(a: D.Sys, b: D.Sys, k: nat, act: D.Action)
    requires Mirror(a, b, k) && D.Enabled(a, act) && D.Enabled(b, act) && !Touches(act, k)
    requires D.Do(a, act).reg.nextId == D.Do(b, act).reg.nextId >= b.reg.nextId
    ensures Mirror(D.Do(a, act), D.Do(b, act), k)
  {
    if act.FetchFails? || act.Unsubscribe? {
      MirrorDrop(b.clients, k, a.clients[k], act.id);
    } else if act.Fetch? || act.Finish? {
      MirrorSwap(b.clients, k, a.clients[k], act.id, D.Do(b, act).clients[act.id]);
    } else if act.SubscribeOne? || act.Register? {
      MirrorSwap(b.clients, k, a.clients[k], b.reg.nextId, D.Do(b, act).clients[b.reg.nextId]);
    }
  }

  lemma MirrorSwap(m: map<nat, D.Client>, k: nat, c: D.Client, id: nat, d: D.Client)
    requires id != k
    ensures m[k := c][id := d] == m[id := d][k := c]
  {
  }

  lemma MirrorDrop(m: map<nat, D.Client>, k: nat, c: D.Client, id: nat)
    requires id != k
    ensures m[k := c] - {id} == (m - {id})[k := c]
  {
  }

  lemma MirrorOwn(a: D.Sys, a': D.Sys, b: D.Sys, k: nat, c: D.Client)
    requires Mirror(a, b, k) && a'.reg.nextId == a.reg.nextId
    requires a' == a.(reg := a'.reg, clients := a.clients[k := c])
    ensures Mirror(a', b, k)
  {
  }

  lemma TwinOwnStep(a: D.Sys, b: D.Sys, k: nat, act: D.Action)
    requires Twin(a, b, k) && Touches(act, k) && !Removes(act, k)
    ensures Twin(Try(a, act), b, k)
  {
    if D.Enabled(a, act) {
      D.StepInv(a, act);
      NextIdKept(a, act);
      MirrorOwn(a, D.Do(a, act), b, k, D.Do(a, act).clients[k]);
    }
  }

  lemma {:induction false} TwinRun(a: D.Sys, b: D.Sys, k: nat, acts: seq<D.Action>)
    requires Twin(a, b, k) && forall i :: 0 <= i < |acts| ==> !Removes(acts[i], k)
    ensures Twin(TryAll(a, acts), TryAll(b, Without(acts, k)), k)
  {
    if acts != [] {
      TwinRun(a, b, k, Front(acts));
      assert !Removes(Last(acts), k);
      var x, y, rest := TryAll(a, Front(acts)), TryAll(b, Without(Front(acts), k)), Without(Front(acts), k);
      if Touches(Last(acts), k) {
        TwinOwnStep(x, y, k, Last(acts));
      } else {
        TwinStep(x, y, k, Last(acts));
        assert Front(rest + [Last(acts)]) == rest;
      }
    }
  }

  lemma TwinStart(s: D.Sys, a: D.Action)
    requires D.Inv(s) && (a.Register? || a.SubscribeOne?)
    ensures Twin(D.Do(s, a), s.(reg := s.reg.(nextId := s.reg.nextId + 1)), s.reg.nextId)
  {
    D.StepInv(s, a);
    SkipId(s);
    LiveIdsBelow(s);
    match a {
      case Register(groups) =>
        Q.GroupIdsDistinct(groups);
        RegisterTwin(s, Q.GroupIds(groups), D.Fresh(groups));
      case SubscribeOne(g) => RegisterTwin(s, [g], D.Tail());
    }
  }

  /** Using up an id keeps the invariant. */
  lemma SkipId(s: D.Sys)
    requires D.Inv(s)
    ensures D.Inv(s.(reg := s.reg.(nextId := s.reg.nextId + 1)))
  {
    hide D.PostsOk, L.Dense, D.ViewsOk, D.ClientsOk, R.GroupsOk, R.CountsOk;
  }

  lemma RegisterTwin(s: D.Sys, ids: seq<Name>, sub: S.Sub)
    requires D.Inv(s) && Distinct(ids)
    ensures R.Register(s.reg, ids, sub).nextId == s.reg.nextId + 1
  {
    R.RegisterRepresents(s.reg, D.WantsOf(s.clients), ids, sub);
  }

  lemma UpdateDrop(m: map<nat, D.Client>, k: nat, c: D.Client)
    requires k !in m
    ensures m[k := c] - {k} == m
  {
  }

  lemma TwinsMeet(x: D.Sys, y: D.Sys, k: nat)
    requires Twin(x, y, k)
    ensures D.Drop(x, k) == y
  {
    D.DropInv(x, k);
    assert D.ViewOk(x.reg.subscribers, x.published, k, x.clients[k]);
    R.RemoveRepresents(x.reg, D.WantsOf(x.clients), k, x.clients[k].ids);
    UpdateDrop(y.clients, k, x.clients[k]);
    RegistryIsDetermined(D.Drop(x, k), y);
  }

  lemma TwinRunsMeet(a: D.Sys, b: D.Sys, k: nat, acts: seq<D.Action>)
    requires Twin(a, b, k) && forall i :: 0 <= i < |acts| ==> !Removes(acts[i], k)
    ensures k in TryAll(a, acts).clients && D.Drop(TryAll(a, acts), k) == TryAll(b, Without(acts, k))
  {
    TwinRun(a, b, k, acts);
    TwinsMeet(TryAll(a, acts), TryAll(b, Without(acts, k)), k);
  }

  /** A subscription of either kind registers, anything at all happens in between (its
      own set-up and other clients' posts, subscriptions and removals included), and
      it unsubscribes or its fetch fails: the whole system is then as if it had never
      been there, except that its id is used up. */
  lemma LeavesNoTrace(s: D.Sys, start: D.Action, acts: seq<D.Action>, end: D.Action)
    requires D.Inv(s) && (start.Register? || start.SubscribeOne?)
    requires forall i :: 0 <= i < |acts| ==> !Removes(acts[i], s.reg.nextId)
    requires Removes(end, s.reg.nextId) && D.Enabled(TryAll(D.Do(s, start), acts), end)
    ensures var k := s.reg.nextId;
            D.Do(TryAll(D.Do(s, start), acts), end) == TryAll(s.(reg := s.reg.(nextId := k + 1)), Without(acts, k))
  {
    TwinStart(s, start);
    TwinRunsMeet(D.Do(s, start), s.(reg := s.reg.(nextId := s.reg.nextId + 1)), s.reg.nextId, acts);
  }

  // ----- Ids over runs -----

  lemma {:induction false} RunPrefix(acts: seq<D.Action>, k: nat)
    requires D.IsRun(acts) && k <= |acts|
    ensures D.IsRun(acts[..k])
  {
    if k == |acts| {
      assert acts[..k] == acts;
    } else {
      RunPrefix(Front(acts), k);
      assert Front(acts)[..k] == acts[..k];
    }
  }

  /** From any moment of a run on, no id is given out that was live at or before it:
      all of those are below the counter, and every newcomer is not. */
  lemma {:induction false} IdsNeverReused(acts: seq<D.Action>, k: nat)
    requires D.IsRun(acts) && k <= |acts|
    ensures D.IsRun(acts[..k])
    ensures D.After(acts[..k]).reg.nextId <= D.After(acts).reg.nextId
    ensures forall id :: id in D.After(acts[..k]).clients ==> id < D.After(acts[..k]).reg.nextId
    ensures forall id :: id in D.After(acts).clients && id !in D.After(acts[..k]).clients ==>
              D.After(acts[..k]).reg.nextId <= id < D.After(acts).reg.nextId
  {
    hide D.Do, D.Enabled;
    RunPrefix(acts, k);
    D.RunInv(acts[..k]);
    LiveIdsBelow(D.After(acts[..k]));
    if k == |acts| {
      assert acts[..k] == acts;
    } else {
      IdsNeverReused(Front(acts), k);
      assert Front(acts)[..k] == acts[..k];
      D.RunInv(Front(acts));
      IdsAreFresh(D.After(Front(acts)), Last(acts));
      LiveIdsBelow(D.After(Front(acts)));
    }
  }

  lemma LiveIdsBelow(s: D.Sys)
    requires D.Inv(s)
    ensures forall id :: id in s.clients ==> id < s.reg.nextId
  {
    assert forall id :: id in s.clients ==> id in D.WantsOf(s.clients);
  }
}
