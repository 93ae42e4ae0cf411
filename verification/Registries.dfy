/** The in-place registry: maps and subscriber objects updated under the
    coordinator's lock. Each method is proved against the function of the same
    name in `Registry`. */
module Registries {
  import opened Seqs
  import opened Records
  import opened Subscribers
  import S = Streams
  import R = Registry

  class SubscriberRegistry {
    var groupSubscribers: map<Name, set<nat>>
    var subscribers: map<nat, Subscriber>
    var refcounts: map<nat, nat>
    var nextId: nat

    /** Every id owns its subscriber object. */
    ghost predicate Valid()
      reads this
    {
      && (forall i, j :: i in subscribers && j in subscribers && i != j ==> subscribers[i] != subscribers[j])
      && (forall i :: i in subscribers ==> i < nextId)
    }

    ghost function Value(): R.Reg
      reads this, subscribers.Values
    {
      R.Reg(groupSubscribers, map id | id in subscribers :: subscribers[id].Value(), refcounts, nextId)
    }

    constructor ()
      ensures Valid() && Value() == R.Empty()
    {
      groupSubscribers, subscribers, refcounts, nextId := map[], map[], map[], 1;
    }

    /** Serves both `register_subscriber` (one group) and `register_many`. */
    method Register(groupIds: seq<Name>, sub: Subscriber) returns (id: nat)
      requires Valid() && sub !in subscribers.Values
      modifies this
      ensures Valid() && id == old(nextId)
      ensures subscribers == old(subscribers)[id := sub]
      ensures Value() == R.Register(old(Value()), groupIds, sub.Value())
    {
      id := Insert(sub);
      AddGroups(id, groupIds);
    }

    method Insert(sub: Subscriber) returns (id: nat)
      requires Valid() && sub !in subscribers.Values
      modifies this`subscribers, this`nextId
      ensures Valid() && id == old(nextId)
      ensures subscribers == old(subscribers)[id := sub]
      ensures Value() == old(Value()).(nextId := id + 1, subscribers := old(Value()).subscribers[id := sub.Value()])
    {
      id := nextId;
      nextId := nextId + 1;
      subscribers := subscribers[id := sub];
      assert Value().subscribers == old(Value()).subscribers[id := sub.Value()];
    }

    /** The index maps, beside the given subscribers. */
    ghost function Maps(subs: map<nat, S.Sub>): R.Reg
      reads this
    {
      R.Reg(groupSubscribers, subs, refcounts, nextId)
    }

    method AddGroups(id: nat, groupIds: seq<Name>)
      modifies this`groupSubscribers, this`refcounts
      ensures Value() == R.AddGroups(old(Value()), id, groupIds)
    {
      hide R.AddGroups;
      ghost var start := Value();
      R.NoGroups(start, id);
      for i := 0 to |groupIds|
        invariant Maps(start.subscribers) == R.AddGroups(start, id, groupIds[..i])
      {
        R.OneMoreGroup(start, id, groupIds[..i], groupIds[i]);
        assert groupIds[..i + 1] == groupIds[..i] + [groupIds[i]];
        AddGroup(id, groupIds[i], start.subscribers);
      }
      assert groupIds[..|groupIds|] == groupIds;
      assert Value().subscribers == start.subscribers;
    }

    method AddGroup(id: nat, g: Name, ghost subs: map<nat, S.Sub>)
      modifies this`groupSubscribers, this`refcounts
      ensures Maps(subs) == R.AddGroup(old(Maps(subs)), id, g)
    {
      groupSubscribers := groupSubscribers[g := (if g in groupSubscribers then groupSubscribers[g] else {}) + {id}];
      refcounts := refcounts[id := (if id in refcounts then refcounts[id] else 0) + 1];
    }

    method Remove(id: nat, groupIds: seq<Name>)
      requires Valid()
      modifies this
      ensures Valid()
      ensures forall i :: i in subscribers ==> i in old(subscribers) && subscribers[i] == old(subscribers)[i]
      ensures Value() == R.Remove(old(Value()), id, groupIds)
    {
      hide R.DropGroups;
      DropGroups(id, groupIds);
      if id !in refcounts {
        Forget(id);
      }
    }

    method Forget(id: nat)
      requires Valid()
      modifies this`subscribers
      ensures Valid() && subscribers == old(subscribers) - {id}
      ensures Value() == old(Value()).(subscribers := old(Value()).subscribers - {id})
    {
      ghost var subs := Value().subscribers;
      subscribers := subscribers - {id};
      assert Value().subscribers == subs - {id};
    }

    method DropGroups(id: nat, groupIds: seq<Name>)
      modifies this`groupSubscribers, this`refcounts
      ensures Value() == R.DropGroups(old(Value()), id, groupIds)
    {
      hide R.DropGroups;
      ghost var start := Value();
      R.NoGroups(start, id);
      for i := 0 to |groupIds|
        invariant Maps(start.subscribers) == R.DropGroups(start, id, groupIds[..i])
      {
        R.OneMoreGroup(start, id, groupIds[..i], groupIds[i]);
        assert groupIds[..i + 1] == groupIds[..i] + [groupIds[i]];
        DropGroup(id, groupIds[i], start.subscribers);
      }
      assert groupIds[..|groupIds|] == groupIds;
      assert Value().subscribers == start.subscribers;
    }

    method DropGroup(id: nat, g: Name, ghost subs: map<nat, S.Sub>)
      modifies this`groupSubscribers, this`refcounts
      ensures Maps(subs) == R.DropGroup(old(Maps(subs)), id, g)
    {
      if g in groupSubscribers {
        var rest := groupSubscribers[g] - {id};
        groupSubscribers := if rest == {} then groupSubscribers - {g} else groupSubscribers[g := rest];
      }
      if id in refcounts {
        refcounts := if refcounts[id] <= 1 then refcounts - {id} else refcounts[id := refcounts[id] - 1];
      }
    }

    method PublishLive(m: Message)
      requires Valid()
      modifies subscribers.Values
      ensures Valid() && Value() == R.PublishLive(old(Value()), m)
    {
      if m.groupId in groupSubscribers {
        PushAll(groupSubscribers[m.groupId], m);
      }
    }

    /** The hash set of ids is visited in an arbitrary order; the result does not depend on it. */
    method PushAll(ids: set<nat>, m: Message)
      requires Valid()
      modifies subscribers.Values
      ensures forall i :: i in subscribers ==>
                subscribers[i].Value() ==
                if i in ids then S.Push(old(subscribers[i].Value()), m) else old(subscribers[i].Value())
    {
      var todo := ids;
      while todo != {}
        invariant todo <= ids
        invariant forall i :: i in subscribers && i in ids && i !in todo ==>
                    subscribers[i].Value() == S.Push(old(subscribers[i].Value()), m)
        invariant forall i :: i in subscribers && (i !in ids || i in todo) ==>
                    subscribers[i].Value() == old(subscribers[i].Value())
        decreases |todo|
      {
        var id :| id in todo;
        todo := todo - {id};
        if id in subscribers {
          subscribers[id].Push(m);
        }
      }
    }

    method ReplayAndFinish(id: nat, backlog: seq<Message>)
      requires Valid()
      modifies subscribers.Values
      ensures Valid() && Value() == R.ReplayAndFinish(old(Value()), id, backlog)
    {
      if id in subscribers {
        subscribers[id].ReplayBacklog(backlog);
        subscribers[id].FinishBuffering();
        assert Value() == R.ReplayAndFinish(old(Value()), id, backlog);
      }
    }

    method ActiveSubscriptionCount() returns (n: nat)
      ensures n == R.ActiveCount(Value())
    {
      n := |refcounts|;
    }
  }
}
