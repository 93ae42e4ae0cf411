/** The subscriber registry (`SubscriberRegistry` in coordinator.rs) as values.
    `Represents` ties its maps to what the live subscriptions want, in both
    directions: every operation keeps it, so nothing is ever left behind. */
module Registry {
  import opened Seqs
  import opened Records
  import S = Streams

  datatype Reg = Reg(
    groupSubscribers: map<Name, set<nat>>, subscribers: map<nat, S.Sub>, refcounts: map<nat, nat>, nextId: nat)

  function Empty(): Reg {
    Reg(map[], map[], map[], 1)
  }

  // ----- Operations, as the code performs them -----

  function AddGroup(r: Reg, id: nat, g: Name): Reg {
    var ids := if g in r.groupSubscribers then r.groupSubscribers[g] else {};
    var n := if id in r.refcounts then r.refcounts[id] else 0;
    r.(groupSubscribers := r.groupSubscribers[g := ids + {id}], refcounts := r.refcounts[id := n + 1])
  }

  function AddGroups(r: Reg, id: nat, gs: seq<Name>): Reg {
    if gs == [] then r else AddGroup(AddGroups(r, id, Front(gs)), id, Last(gs))
  }

  function Register(r: Reg, gs: seq<Name>, sub: S.Sub): Reg {
    AddGroups(r.(nextId := r.nextId + 1, subscribers := r.subscribers[r.nextId := sub]), r.nextId, gs)
  }

  function DropGroup(r: Reg, id: nat, g: Name): Reg {
    var groups :=
      if g !in r.groupSubscribers then r.groupSubscribers
      else if r.groupSubscribers[g] - {id} == {} then r.groupSubscribers - {g}
      else r.groupSubscribers[g := r.groupSubscribers[g] - {id}];
    var counts :=
      if id !in r.refcounts then r.refcounts
      else if r.refcounts[id] <= 1 then r.refcounts - {id}
      else r.refcounts[id := r.refcounts[id] - 1];
    r.(groupSubscribers := groups, refcounts := counts)
  }

  function DropGroups(r: Reg, id: nat, gs: seq<Name>): Reg {
    if gs == [] then r else DropGroup(DropGroups(r, id, Front(gs)), id, Last(gs))
  }

  function Remove(r: Reg, id: nat, gs: seq<Name>): Reg {
    var d := DropGroups(r, id, gs);
    if id in d.refcounts then d else d.(subscribers := d.subscribers - {id})
  }

  function PublishLive(r: Reg, m: Message): Reg {
    if m.groupId !in r.groupSubscribers then r
    else
      var ids := r.groupSubscribers[m.groupId];
      r.(subscribers := map id | id in r.subscribers ::
           if id in ids then S.Push(r.subscribers[id], m) else r.subscribers[id])
  }

  lemma NoGroups(r: Reg, id: nat)
    ensures AddGroups(r, id, []) == r && DropGroups(r, id, []) == r
  {
  }

  lemma OneMoreGroup(r: Reg, id: nat, gs: seq<Name>, g: Name)
    ensures AddGroups(r, id, gs + [g]) == AddGroup(AddGroups(r, id, gs), id, g)
    ensures DropGroups(r, id, gs + [g]) == DropGroup(DropGroups(r, id, gs), id, g)
  {
    assert Front(gs + [g]) == gs;
  }

  /** The critical section that ends the set-up of a multi-group subscription. */
  function ReplayAndFinish(r: Reg, id: nat, backlog: seq<Message>): Reg {
    if id !in r.subscribers then r
    else r.(subscribers := r.subscribers[id := S.FinishBuffering(S.EmitAll(r.subscribers[id], backlog))])
  }

  function ActiveCount(r: Reg): nat {
    |r.refcounts|
  }

  // ----- What a registry says: which live id wants which groups -----

  type Wants = map<nat, set<Name>>

  ghost predicate Listed(gs: map<Name, set<nat>>, g: Name, id: nat) {
    g in gs && id in gs[g]
  }

  ghost predicate Wanted(w: Wants, g: Name, id: nat) {
    id in w && g in w[id]
  }

  /** A group's set holds exactly the live ids that want it, and is never empty. */
  ghost predicate GroupsOk(gs: map<Name, set<nat>>, w: Wants) {
    && NoEmptySet(gs)
    && (forall g, id :: Listed(gs, g, id) <==> Wanted(w, g, id))
  }

  /** A refcount is the number of groups wanted; ids that want none have none. */
  ghost predicate CountsOk(counts: map<nat, nat>, w: Wants) {
    && (forall id :: id in counts <==> id in w && w[id] != {})
    && (forall id :: id in counts ==> counts[id] == |w[id]|)
  }

  ghost predicate Represents(r: Reg, w: Wants) {
    && GroupsOk(r.groupSubscribers, w)
    && CountsOk(r.refcounts, w)
    && r.subscribers.Keys == w.Keys
    && forall id :: id in w ==> id < r.nextId
  }

  lemma GroupsIncluded(a: map<Name, set<nat>>, b: map<Name, set<nat>>, w: Wants, g: Name)
    requires GroupsOk(a, w) && GroupsOk(b, w) && g in a
    ensures g in b && a[g] <= b[g]
  {
    forall id | id in a[g]
      ensures g in b && id in b[g]
    {
      assert Listed(a, g, id);
      assert Listed(b, g, id);
    }
    var some :| some in a[g];
  }

  /** The live subscriptions determine both index maps completely. */
  lemma RepresentsUnique(r: Reg, q: Reg, w: Wants)
    requires Represents(r, w) && Represents(q, w)
    ensures r.groupSubscribers == q.groupSubscribers && r.refcounts == q.refcounts
  {
    var a, b := r.groupSubscribers, q.groupSubscribers;
    forall g | g in a
      ensures g in b && a[g] == b[g]
    {
      GroupsIncluded(a, b, w, g);
      GroupsIncluded(b, a, w, g);
    }
    forall g | g in b
      ensures g in a
    {
      GroupsIncluded(b, a, w, g);
    }
  }

  ghost predicate NoEmptySet(gs: map<Name, set<nat>>) {
    forall g :: g in gs ==> gs[g] != {}
  }

  lemma {:induction false} AddGroupsClosed(r: Reg, id: nat, gs: seq<Name>)
    ensures var q := AddGroups(r, id, gs);
            && q.subscribers == r.subscribers && q.nextId == r.nextId
            && q.refcounts == (if gs == [] then r.refcounts
                               else r.refcounts[id := (if id in r.refcounts then r.refcounts[id] else 0) + |gs|])
  {
    if gs != [] {
      AddGroupsClosed(r, id, Front(gs));
    }
  }

  lemma {:induction false} AddGroupsListed(r: Reg, id: nat, gs: seq<Name>)
    ensures forall h, i :: Listed(AddGroups(r, id, gs).groupSubscribers, h, i) <==>
                           Listed(r.groupSubscribers, h, i) || (i == id && h in gs)
    ensures NoEmptySet(r.groupSubscribers) ==> NoEmptySet(AddGroups(r, id, gs).groupSubscribers)
  {
    if gs != [] {
      AddGroupsListed(r, id, Front(gs));
      AddGroupListed(AddGroups(r, id, Front(gs)), id, Last(gs));
      assert gs == Front(gs) + [Last(gs)];
    }
  }

  lemma AddGroupListed(r: Reg, id: nat, g: Name)
    ensures forall h, i :: Listed(AddGroup(r, id, g).groupSubscribers, h, i) <==>
                           Listed(r.groupSubscribers, h, i) || (i == id && h == g)
    ensures NoEmptySet(r.groupSubscribers) ==> NoEmptySet(AddGroup(r, id, g).groupSubscribers)
  {
    var ids := if g in r.groupSubscribers then r.groupSubscribers[g] else {};
    assert id in ids + {id};
  }

  /** Dropping `gs` from an id that holds `|gs| + k` references leaves it `k`. */
  lemma {:induction false} DropGroupsClosed(r: Reg, id: nat, gs: seq<Name>, k: nat)
    requires if |gs| + k == 0 then id !in r.refcounts else id in r.refcounts && r.refcounts[id] == |gs| + k
    ensures var q := DropGroups(r, id, gs);
            && q.subscribers == r.subscribers && q.nextId == r.nextId
            && q.refcounts == (if k == 0 then r.refcounts - {id} else r.refcounts[id := k])
  {
    if gs != [] {
      DropGroupsClosed(r, id, Front(gs), k + 1);
    }
  }

  lemma {:induction false} DropGroupsListed(r: Reg, id: nat, gs: seq<Name>)
    ensures forall h, i :: Listed(DropGroups(r, id, gs).groupSubscribers, h, i) <==>
                           Listed(r.groupSubscribers, h, i) && !(i == id && h in gs)
    ensures NoEmptySet(r.groupSubscribers) ==> NoEmptySet(DropGroups(r, id, gs).groupSubscribers)
  {
    if gs != [] {
      DropGroupsListed(r, id, Front(gs));
      DropGroupListed(DropGroups(r, id, Front(gs)), id, Last(gs));
      assert gs == Front(gs) + [Last(gs)];
    }
  }

  lemma DropGroupListed(r: Reg, id: nat, g: Name)
    ensures forall h, i :: Listed(DropGroup(r, id, g).groupSubscribers, h, i) <==>
                           Listed(r.groupSubscribers, h, i) && !(i == id && h == g)
    ensures NoEmptySet(r.groupSubscribers) ==> NoEmptySet(DropGroup(r, id, g).groupSubscribers)
  {
    forall h, i
      ensures Listed(DropGroup(r, id, g).groupSubscribers, h, i) <==>
              Listed(r.groupSubscribers, h, i) && !(i == id && h == g)
    {
      if h == g && g in r.groupSubscribers {
        var rest := r.groupSubscribers[g] - {id};
        assert i in rest <==> i in r.groupSubscribers[g] && i != id;
      }
    }
  }

  lemma RegisterGroups(gs: map<Name, set<nat>>, now: map<Name, set<nat>>, w: Wants, id: nat, ids: seq<Name>)
    requires GroupsOk(gs, w) && id !in w && NoEmptySet(now)
    requires forall h, i :: Listed(now, h, i) <==> Listed(gs, h, i) || (i == id && h in ids)
    ensures GroupsOk(now, w[id := Elems(ids)])
  {
    var w' := w[id := Elems(ids)];
    forall h, i
      ensures Listed(now, h, i) <==> Wanted(w', h, i)
    {
      assert Listed(gs, h, i) <==> Wanted(w, h, i);
    }
  }

  lemma RegisterCounts(counts: map<nat, nat>, w: Wants, id: nat, ids: seq<Name>)
    requires CountsOk(counts, w) && id !in w && Distinct(ids)
    ensures CountsOk(if ids == [] then counts else counts[id := |ids|], w[id := Elems(ids)])
  {
    DistinctSize(ids);
    assert ids != [] ==> ids[0] in Elems(ids);
    assert ids == [] ==> Elems(ids) == {};
  }

  /** Registering under distinct groups adds exactly one live subscription. */
  lemma RegisterRepresents(r: Reg, w: Wants, gs: seq<Name>, sub: S.Sub)
    requires Represents(r, w) && Distinct(gs)
    ensures Represents(Register(r, gs, sub), w[r.nextId := Elems(gs)])
    ensures Register(r, gs, sub).subscribers == r.subscribers[r.nextId := sub]
    ensures Register(r, gs, sub).nextId == r.nextId + 1
  {
    hide AddGroups, GroupsOk, NoEmptySet, Listed, Elems;
    var id, q := r.nextId, r.(nextId := r.nextId + 1, subscribers := r.subscribers[r.nextId := sub]);
    AddGroupsClosed(q, id, gs);
    AddGroupsListed(q, id, gs);
    NoneIsEmpty(r.groupSubscribers, w);
    RegisterGroups(r.groupSubscribers, AddGroups(q, id, gs).groupSubscribers, w, id, gs);
    RegisterCounts(r.refcounts, w, id, gs);
  }

  lemma NoneIsEmpty(gs: map<Name, set<nat>>, w: Wants)
    requires GroupsOk(gs, w)
    ensures NoEmptySet(gs)
  {
  }

  /** Removing a subscription under the groups it registered leaves no trace of it. */
  lemma RemoveRepresents(r: Reg, w: Wants, id: nat, gs: seq<Name>)
    requires Represents(r, w) && id in w && Distinct(gs) && w[id] == Elems(gs)
    ensures Represents(Remove(r, id, gs), w - {id})
    ensures Remove(r, id, gs).subscribers == r.subscribers - {id}
    ensures Remove(r, id, gs).nextId == r.nextId
  {
    DistinctSize(gs);
    DropGroupsClosed(r, id, gs, 0);
    DropGroupsListed(r, id, gs);
    assert GroupsOk(Remove(r, id, gs).groupSubscribers, w - {id}) by {
      forall h, i
        ensures Wanted(w - {id}, h, i) <==> Wanted(w, h, i) && !(i == id && h in gs)
      {
      }
    }
  }

  /** Fan-out reaches exactly the subscriptions that want the record's group. */
  lemma PublishRepresents(r: Reg, w: Wants, m: Message)
    requires Represents(r, w)
    ensures Represents(PublishLive(r, m), w)
    ensures forall id :: id in w ==>
              PublishLive(r, m).subscribers[id] ==
              if m.groupId in w[id] then S.Push(r.subscribers[id], m) else r.subscribers[id]
  {
    forall id | id in w
      ensures Listed(r.groupSubscribers, m.groupId, id) <==> m.groupId in w[id]
    {
      assert Listed(r.groupSubscribers, m.groupId, id) <==> Wanted(w, m.groupId, id);
    }
  }
}
