/** Runs read off their actions alone: which client an action made, for which groups,
    what it has received, and what is left of it once it is gone. */
module Histories {
  import opened Seqs
  import opened Records
  import opened Requests
  import opened ExactlyOnce
  import opened GapFree
  import L = GroupLogs
  import D = Delivery
  import R = Registry
  import N = Sessions

  /** The records fanned out by the actions, in order. */
  function PublishedIn(acts: seq<D.Action>): seq<Message> {
    if acts == [] then []
    else PublishedIn(Front(acts)) + if Last(acts).Publish? then [Last(acts).record] else []
  }

  /** The payloads and times posted to `g` by the actions, in order. */
  function PostsTo(acts: seq<D.Action>, g: Name): seq<(Bytes, int)> {
    if acts == [] then []
    else
      PostsTo(Front(acts), g) +
      if Last(acts).Append? && Last(acts).groupId == g then [(Last(acts).payload, Last(acts).at)] else []
  }

  /** The id that the `i`-th action gives out, if it makes a client. */
  ghost function IdAt(acts: seq<D.Action>, i: nat): nat
    requires i < |acts|
  {
    D.After(acts[..i]).reg.nextId
  }

  /** No action from the `i`-th on removes `k`. */
  ghost predicate StaysFrom(acts: seq<D.Action>, i: nat, k: nat) {
    forall j :: i <= j < |acts| ==> !N.Removes(acts[j], k)
  }

  // ----- Logs and fan-outs -----

  lemma {:induction false} FanOutsAreRead(acts: seq<D.Action>)
    requires D.IsRun(acts)
    ensures D.After(acts).published == PublishedIn(acts)
  {
    if acts != [] {
      FanOutsAreRead(Front(acts));
    }
  }

  lemma {:induction false} PublishedConcat(a: seq<D.Action>, b: seq<D.Action>)
    ensures PublishedIn(a + b) == PublishedIn(a) + PublishedIn(b)
  {
    if b == [] {
      assert a + b == a;
    } else {
      assert Front(a + b) == a + Front(b) && Last(a + b) == Last(b);
      PublishedConcat(a, Front(b));
    }
  }

  /** The log of a group holds exactly what was posted to it: as many records as posts,
      in order, each with its own payload and time and the next cursor. */
  lemma {:induction false} LogsAreRead(acts: seq<D.Action>, g: Name)
    requires D.IsRun(acts)
    ensures var log, posts := L.Log(D.After(acts).logs, g), PostsTo(acts, g);
            && |log| == |posts|
            && forall i :: 0 <= i < |log| ==> log[i] == Message(i + 1, g, posts[i].0, posts[i].1)
  {
    if acts != [] {
      hide R.Register, R.Remove, R.PublishLive, R.ReplayAndFinish;
      LogsAreRead(Front(acts), g);
      LogStep(D.After(Front(acts)), Last(acts), g);
    }
  }

  /** Only a post to the group changes its log. */
  lemma LogStep(s: D.Sys, a: D.Action, g: Name)
    requires D.Enabled(s, a)
    ensures var log, now := L.Log(s.logs, g), L.Log(D.Do(s, a).logs, g);
            now == log + if a.Append? && a.groupId == g then [Message(|log| + 1, g, a.payload, a.at)] else []
  {
    hide R.Register, R.Remove, R.PublishLive, R.ReplayAndFinish;
  }

  // ----- The client that an action made -----

  /** What stays of a client while its phase changes. */
  ghost predicate SameClient(c: D.Client, d: D.Client) {
    c.groups == d.groups && c.ids == d.ids && c.mark == d.mark
  }

  lemma StepKeeps(s: D.Sys, a: D.Action, k: nat)
    requires D.Inv(s) && D.Enabled(s, a) && k in s.clients && !N.Removes(a, k)
    ensures k in D.Do(s, a).clients && SameClient(s.clients[k], D.Do(s, a).clients[k])
    ensures !N.Touches(a, k) ==> D.Do(s, a).clients[k] == s.clients[k]
  {
    hide D.PostsOk, D.ViewsOk, D.ClientsOk, L.Dense, R.Register, R.Remove, R.PublishLive, R.ReplayAndFinish;
    N.LiveIdsBelow(s);
  }

  lemma {:induction false} ClientStays(acts: seq<D.Action>, i: nat, k: nat)
    requires D.IsRun(acts) && i <= |acts| && StaysFrom(acts, i, k) && k in D.After(acts[..i]).clients
    ensures k in D.After(acts).clients && SameClient(D.After(acts[..i]).clients[k], D.After(acts).clients[k])
  {
    if i == |acts| {
      assert acts[..i] == acts;
    } else {
      hide D.Inv, D.Enabled, D.Do, N.Removes;
      assert Front(acts)[..i] == acts[..i];
      ClientStays(Front(acts), i, k);
      D.RunInv(Front(acts));
      StepKeeps(D.After(Front(acts)), Last(acts), k);
    }
  }

  lemma PrefixStep(acts: seq<D.Action>, i: nat)
    requires D.IsRun(acts) && i < |acts|
    ensures D.IsRun(acts[..i]) && D.IsRun(acts[..i + 1]) && D.Enabled(D.After(acts[..i]), acts[i])
    ensures D.After(acts[..i + 1]) == D.Do(D.After(acts[..i]), acts[i])
  {
    hide D.Enabled, D.Do;
    N.RunPrefix(acts, i);
    N.RunPrefix(acts, i + 1);
    assert Front(acts[..i + 1]) == acts[..i] && Last(acts[..i + 1]) == acts[i];
  }

  /** The client of a subscribe action has the groups that the action names, in the
      client table and in the registry. */
  lemma SubscribesAsAsked(acts: seq<D.Action>, i: nat)
    requires D.IsRun(acts) && i < |acts| && (acts[i].Register? || acts[i].SubscribeOne?)
    requires StaysFrom(acts, i + 1, IdAt(acts, i))
    ensures var k, s := IdAt(acts, i), D.After(acts);
            && k in s.clients && k in s.reg.subscribers && s.clients[k].mark == |D.After(acts[..i]).published|
            && (acts[i].Register? ==> s.clients[k].groups == acts[i].groups)
            && forall g :: R.Listed(s.reg.groupSubscribers, g, k) <==>
                 if acts[i].SubscribeOne? then g == acts[i].group
                 else exists j :: 0 <= j < |acts[i].groups| && acts[i].groups[j].groupId == g
  {
    hide D.Inv, R.Register;
    var k, s := IdAt(acts, i), D.After(acts);
    PrefixStep(acts, i);
    ClientStays(acts, i + 1, k);
    N.RegistryIsExact(acts);
    if acts[i].Register? {
      GroupIdsDistinct(acts[i].groups);
    }
  }

  // ----- What it has received -----

  /** How one step can move a phase: only forward, and never to another snapshot. */
  lemma PhaseStep(s: D.Sys, a: D.Action, k: nat)
    requires D.Inv(s) && D.Enabled(s, a) && k in s.clients && !N.Removes(a, k)
    ensures k in D.Do(s, a).clients
    ensures var was, now := s.clients[k].phase, D.Do(s, a).clients[k].phase;
            && (was.LiveTail? ==> now == was)
            && (was.Streaming? ==> now == was)
            && (was.Fetched? ==> (now.Fetched? || now.Streaming?) && now.snapshot == was.snapshot)
  {
    hide D.Inv, R.Register, R.Remove, R.PublishLive, R.ReplayAndFinish;
    StepKeeps(s, a, k);
  }

  /** A live tail, or a finished subscription, stays one until it is removed. */
  lemma {:induction false} FinalPhaseStays(acts: seq<D.Action>, i: nat, k: nat)
    requires D.IsRun(acts) && i <= |acts| && StaysFrom(acts, i, k) && k in D.After(acts[..i]).clients
    requires var was := D.After(acts[..i]).clients[k].phase; was.LiveTail? || was.Streaming?
    ensures k in D.After(acts).clients && D.After(acts).clients[k].phase == D.After(acts[..i]).clients[k].phase
  {
    if i == |acts| {
      assert acts[..i] == acts;
    } else {
      hide D.Inv, D.Do, D.Enabled, N.Removes;
      assert Front(acts)[..i] == acts[..i];
      FinalPhaseStays(Front(acts), i, k);
      D.RunInv(Front(acts));
      PhaseStep(D.After(Front(acts)), Last(acts), k);
    }
  }

  /** A fetched backlog is kept, with the logs it was fetched from. */
  lemma {:induction false} SnapshotStays(acts: seq<D.Action>, i: nat, k: nat)
    requires D.IsRun(acts) && i <= |acts| && StaysFrom(acts, i, k)
    requires k in D.After(acts[..i]).clients && D.After(acts[..i]).clients[k].phase.Fetched?
    ensures k in D.After(acts).clients
    ensures var was, now := D.After(acts[..i]).clients[k].phase, D.After(acts).clients[k].phase;
            (now.Fetched? || now.Streaming?) && now.snapshot == was.snapshot
  {
    if i == |acts| {
      assert acts[..i] == acts;
    } else {
      hide D.Inv, D.Do, D.Enabled, N.Removes;
      assert Front(acts)[..i] == acts[..i];
      SnapshotStays(Front(acts), i, k);
      D.RunInv(Front(acts));
      PhaseStep(D.After(Front(acts)), Last(acts), k);
    }
  }

  /** A single-group subscription has received exactly the records of its group that
      were fanned out by the actions after its own, in that order. */
  lemma TailReceives(acts: seq<D.Action>, i: nat)
    requires D.IsRun(acts) && i < |acts| && acts[i].SubscribeOne? && StaysFrom(acts, i + 1, IdAt(acts, i))
    ensures var k, s := IdAt(acts, i), D.After(acts);
            && k in s.reg.subscribers
            && s.reg.subscribers[k].sent == Filter(PublishedIn(acts[i + 1..]), OfGroup(acts[i].group))
  {
    hide D.Inv, R.Register, Filter, D.IsRun, D.After;
    var k, s, g := IdAt(acts, i), D.After(acts), acts[i].group;
    PrefixStep(acts, i);
    FinalPhaseStays(acts, i + 1, k);
    ClientStays(acts, i + 1, k);
    LiveTailIsExact(acts, k);
    TailOfFanOuts(acts, i);
    var rest := PublishedIn(acts[i + 1..]);
    assert s.clients[k].ids == [g];
    FilterAgree(rest, InGroups(Elems([g])), OfGroup(g));
  }

  lemma TailOfFanOuts(acts: seq<D.Action>, i: nat)
    requires D.IsRun(acts) && i < |acts| && !acts[i].Publish?
    ensures var before := D.After(acts[..i]).published;
            |before| <= |D.After(acts).published| && D.After(acts).published[|before|..] == PublishedIn(acts[i + 1..])
  {
    hide D.Do, D.Enabled, PublishedIn;
    N.RunPrefix(acts, i);
    FanOutsAreRead(acts);
    FanOutsAreRead(acts[..i]);
    assert acts == acts[..i] + ([acts[i]] + acts[i + 1..]);
    PublishedConcat(acts[..i], [acts[i]] + acts[i + 1..]);
    PublishedConcat([acts[i]], acts[i + 1..]);
    NotAFanOut(acts[i]);
  }

  lemma NotAFanOut(a: D.Action)
    requires !a.Publish?
    ensures PublishedIn([a]) == []
  {
    assert Front([a]) == [];
  }

  /** A multi-group subscription that was made by action `i`, fetched by action `e` and
      finished by action `f` streams what those three actions say. */
  lemma StreamsAsAsked(acts: seq<D.Action>, i: nat, e: nat, f: nat)
    requires D.IsRun(acts) && i < e < f < |acts| && acts[i].Register? && StaysFrom(acts, i + 1, IdAt(acts, i))
    requires acts[e] == D.Fetch(IdAt(acts, i)) && acts[f] == D.Finish(IdAt(acts, i))
    ensures var k, s := IdAt(acts, i), D.After(acts);
            && k in s.clients && s.clients[k].phase.Streaming? && s.clients[k].groups == acts[i].groups
            && s.clients[k].phase.snapshot == D.After(acts[..e]).logs
  {
    hide D.Inv, R.Register, R.Remove, R.PublishLive, R.ReplayAndFinish, L.FetchMany, D.IsRun, D.After;
    var k := IdAt(acts, i);
    SubscribesAsAsked(acts, i);
    PrefixStep(acts, e);
    SnapshotStays(acts, e + 1, k);
    PrefixStep(acts, f);
    FinalPhaseStays(acts, f + 1, k);
  }

  /** Exactly once, read off the actions: with serialised posts to `g` and none in flight,
      the stream holds every record of `g` above the cursor asked for last, once, in
      order, if and only if the first entry for `g` with anything to fetch, at the time
      of the fetch, did not start above it. */
  lemma ExactlyOnceAsAsked(acts: seq<D.Action>, i: nat, e: nat, f: nat, g: Name)
    requires D.IsRun(acts) && i < e < f < |acts| && acts[i].Register? && StaysFrom(acts, i + 1, IdAt(acts, i))
    requires acts[e] == D.Fetch(IdAt(acts, i)) && acts[f] == D.Finish(IdAt(acts, i))
    requires Serial(acts, g) && !InFlight(D.After(acts).pending, g) && g in Cursors(acts[i].groups)
    ensures var k, s, groups := IdAt(acts, i), D.After(acts), acts[i].groups;
            var log, first := L.Log(s.logs, g), FirstBelow(groups, g, |L.Log(D.After(acts[..e]).logs, g)|);
            && k in s.reg.subscribers
            && (Filter(s.reg.subscribers[k].sent, OfGroup(g)) == L.Between(log, Cursors(groups)[g], |log|) <==>
                first.None? || first.value <= Max(Cursors(groups)[g], 0))
  {
    hide D.Inv, D.IsRun, D.After, Serial, FirstBelow, L.Between, Filter;
    var k := IdAt(acts, i);
    StreamsAsAsked(acts, i, e, f);
    SubscribesAsAsked(acts, i);
    ClientIds(acts, k);
    InIds(acts[i].groups, g);
    StreamingClients(acts, k, g);
    ExactlyOnceIff(acts, k, g);
  }

  lemma ClientIds(acts: seq<D.Action>, k: nat)
    requires D.IsRun(acts) && k in D.After(acts).clients && !D.After(acts).clients[k].phase.LiveTail?
    ensures D.After(acts).clients[k].ids == GroupIds(D.After(acts).clients[k].groups)
  {
    hide D.IsRun, D.After;
    D.RunInv(acts);
    InvGives(D.After(acts), k);
  }

  // ----- What is left of it -----

  /** An unsubscribe, or a fetch that fails, takes the client out of every map of the
      registry, and leaves every other entry as it was. */
  lemma NothingIsLeft(acts: seq<D.Action>, a: D.Action, k: nat)
    requires D.IsRun(acts) && D.Enabled(D.After(acts), a) && (a == D.Unsubscribe(k) || a == D.FetchFails(k))
    ensures var was, now := D.After(acts).reg, D.Do(D.After(acts), a).reg;
            && now.subscribers == was.subscribers - {k} && now.refcounts == was.refcounts - {k}
            && forall h, j :: R.Listed(now.groupSubscribers, h, j) <==> R.Listed(was.groupSubscribers, h, j) && j != k
  {
    hide D.IsRun, D.After;
    var s := D.After(acts);
    D.RunInv(acts);
    InvGives(s, k);
    GoneFrom(s, k);
  }

  lemma GoneFrom(s: D.Sys, k: nat)
    requires D.Inv(s) && k in s.clients
    ensures var was, now := s.reg, D.Drop(s, k).reg;
            && now.subscribers == was.subscribers - {k} && now.refcounts == was.refcounts - {k}
            && forall h, j :: R.Listed(now.groupSubscribers, h, j) <==> R.Listed(was.groupSubscribers, h, j) && j != k
  {
    var ids, w := s.clients[k].ids, D.WantsOf(s.clients);
    InvGives(s, k);
    R.RemoveRepresents(s.reg, w, k, ids);
    RemoveListed(s.reg, w, k, ids);
    DistinctSize(ids);
    R.DropGroupsClosed(s.reg, k, ids, 0);
  }

  lemma RemoveListed(r: R.Reg, w: R.Wants, k: nat, ids: seq<Name>)
    requires R.Represents(r, w) && k in w && w[k] == Elems(ids)
    ensures forall h, j :: R.Listed(R.Remove(r, k, ids).groupSubscribers, h, j) <==>
                           R.Listed(r.groupSubscribers, h, j) && j != k
  {
    R.DropGroupsListed(r, k, ids);
    forall h, j
      ensures R.Listed(R.Remove(r, k, ids).groupSubscribers, h, j) <==> R.Listed(r.groupSubscribers, h, j) && j != k
    {
      assert R.Listed(r.groupSubscribers, h, j) <==> R.Wanted(w, h, j);
    }
  }

  /** A post or a subscription can start in any state, and only its other steps wait. */
  lemma StartIsAlwaysPossible(s: D.Sys)
    ensures forall a: D.Action :: a.Append? || a.SubscribeOne? || a.Register? ==> D.Enabled(s, a)
  {
  }

  lemma NextIsEnabled(s: D.Sys, a: D.Action)
    requires D.Enabled(s, a)
    ensures var t, k := D.Do(s, a), s.reg.nextId;
            && (a.Append? ==>
                  D.Enabled(t, D.Publish(Message(|L.Log(s.logs, a.groupId)| + 1, a.groupId, a.payload, a.at))))
            && (a.SubscribeOne? ==> D.Enabled(t, D.Unsubscribe(k)))
            && (a.Register? ==> D.Enabled(t, D.Fetch(k)) && D.Enabled(t, D.FetchFails(k)))
            && (a.Fetch? ==> D.Enabled(t, D.Finish(a.id)))
            && (a.Finish? ==> D.Enabled(t, D.Unsubscribe(a.id)))
  {
    hide R.Register, R.Remove, R.PublishLive, R.ReplayAndFinish, L.FetchMany, GroupIds, Cursors;
  }

  lemma PostsPush(acts: seq<D.Action>, g: Name)
    requires acts != [] && Last(acts).Append? && Last(acts).groupId == g
    ensures |PostsTo(acts, g)| == |PostsTo(acts[..|acts| - 1], g)| + 1
  {
    assert acts[..|acts| - 1] == Front(acts);
  }

  /** What follows each step of a post or a subscription can be taken next. */
  lemma NextStepIsPossible(acts: seq<D.Action>)
    requires D.IsRun(acts) && acts != []
    ensures var s, k, a := D.After(acts), IdAt(acts, |acts| - 1), Last(acts);
            && (a.Append? ==> D.Enabled(s, D.Publish(Message(|PostsTo(acts, a.groupId)|, a.groupId, a.payload, a.at))))
            && (a.SubscribeOne? ==> D.Enabled(s, D.Unsubscribe(k)))
            && (a.Register? ==> D.Enabled(s, D.Fetch(k)) && D.Enabled(s, D.FetchFails(k)))
            && (a.Fetch? ==> D.Enabled(s, D.Finish(a.id)))
            && (a.Finish? ==> D.Enabled(s, D.Unsubscribe(a.id)))
  {
    hide D.Do, D.Enabled, D.After, D.IsRun, PostsTo;
    var n := |acts| - 1;
    PrefixStep(acts, n);
    assert acts[..n + 1] == acts;
    NextIsEnabled(D.After(acts[..n]), acts[n]);
    if acts[n].Append? {
      LogsAreRead(acts[..n], acts[n].groupId);
      PostsPush(acts, acts[n].groupId);
    }
  }
}
