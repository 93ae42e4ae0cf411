/** What subscribers receive, over all runs of the `Delivery` machine. */
module ExactlyOnce {
  import opened Seqs
  import opened Records
  import opened Requests
  import L = GroupLogs
  import D = Delivery
  import S = Streams

  ghost predicate IsStreaming(s: D.Sys, id: nat, g: Name) {
    && id in s.clients && s.clients[id].phase.Streaming?
    && g in Cursors(s.clients[id].groups)
    && s.clients[id].mark <= |s.published|
    && id in s.reg.subscribers
  }

  /** The records of `g` in the stream of `id`, in order. */
  ghost function Received(s: D.Sys, id: nat, g: Name): seq<Message>
    requires IsStreaming(s, id, g)
  {
    Filter(s.reg.subscribers[id].sent, OfGroup(g))
  }

  /** The records of `g` fanned out since `id` registered, in fan-out order. */
  ghost function LiveOf(s: D.Sys, id: nat, g: Name): seq<Message>
    requires IsStreaming(s, id, g)
  {
    Filter(s.published[s.clients[id].mark..], OfGroup(g))
  }

  ghost function Requested(s: D.Sys, id: nat, g: Name): int
    requires IsStreaming(s, id, g)
  {
    Cursors(s.clients[id].groups)[g]
  }

  /** How many records the log of `g` held when `id` fetched its backlog. */
  ghost function Fetched(s: D.Sys, id: nat, g: Name): nat
    requires IsStreaming(s, id, g)
  {
    |L.Log(s.clients[id].phase.snapshot, g)|
  }

  /** Where delivery to `id` starts; see `DuplicatesLoseExactly` for when this is not `Requested`. */
  ghost function Start(s: D.Sys, id: nat, g: Name): int
    requires IsStreaming(s, id, g)
  {
    Effective(s.clients[id].groups, g, Fetched(s, id, g))
  }

  /** Every finished multi-group subscription qualifies, for each of its groups. */
  lemma StreamingClients(acts: seq<D.Action>, id: nat, g: Name)
    requires D.IsRun(acts)
    requires var s := D.After(acts); id in s.clients && s.clients[id].phase.Streaming? && g in s.clients[id].ids
    ensures IsStreaming(D.After(acts), id, g)
  {
    D.RunInv(acts);
    var s := D.After(acts);
    assert D.ViewOk(s.reg.subscribers, s.published, id, s.clients[id]);
    assert D.ClientOk(s.logs, s.published, s.clients[id]);
    InIds(s.clients[id].groups, g);
  }

  // ----- The exact stream -----

  lemma HeardOfGroup(published: seq<Message>, c: D.Client, g: Name)
    requires c.mark <= |published| && g in c.ids
    ensures Filter(D.Heard(published, c), OfGroup(g)) == Filter(published[c.mark..], OfGroup(g))
  {
    FilterTwice(published[c.mark..], InGroups(Elems(c.ids)), OfGroup(g), OfGroup(g));
  }

  lemma {:induction false} MaximaClamp(ms: seq<Message>, floor: int)
    requires forall m :: m in ms ==> m.cursor >= 1
    ensures S.Maxima(ms, floor) == S.Maxima(ms, Max(floor, 0))
    ensures Max(S.Top(ms, floor), 0) == S.Top(ms, Max(floor, 0))
  {
    if ms != [] {
      assert Last(ms) in ms;
      MaximaClamp(Front(ms), floor);
    }
  }

  /** Offering a backlog and then live records to a fresh subscription. */
  lemma OfferedTo(groups: seq<FetchInput>, snapshot: L.Logs, heard: seq<Message>, g: Name)
    requires L.Dense(snapshot) && g in Cursors(groups)
    requires forall m :: m in Filter(heard, OfGroup(g)) ==> m.cursor >= 1
    ensures var log := L.Log(snapshot, g); var last := Cursors(groups)[g];
            var offered := L.FetchMany(snapshot, groups) + heard;
            Filter(S.EmitAll(D.Fresh(groups).(buffering := false), offered).sent, OfGroup(g)) ==
            L.Between(log, Effective(groups, g, |log|), |log|) +
            S.Maxima(Filter(heard, OfGroup(g)), Max(last, |log|))
  {
    var backlog := L.FetchMany(snapshot, groups);
    S.EmitAllProjects(D.Fresh(groups).(buffering := false), backlog + heard, g);
    FilterConcat(backlog, heard, OfGroup(g));
    var mine := Filter(backlog, OfGroup(g));
    S.MaximaConcat(mine, Filter(heard, OfGroup(g)), Cursors(groups)[g]);
    BacklogDelivers(snapshot, groups, g);
    MaximaClamp(Filter(heard, OfGroup(g)), S.Top(mine, Cursors(groups)[g]));
  }

  lemma LiveRecords(logs: L.Logs, pending: set<Message>, published: seq<Message>, mark: nat, g: Name)
    requires D.PostsOk(logs, pending, published) && mark <= |published|
    ensures var live := Filter(published[mark..], OfGroup(g));
            && Distinct(live)
            && forall m :: m in live ==> D.InLog(logs, m) && m.groupId == g && m in published && m.cursor >= 1
  {
    var tail := published[mark..];
    DistinctTail(published, mark);
    FilterDistinct(tail, OfGroup(g));
    FilterMembers(tail, OfGroup(g));
    forall m | m in Filter(tail, OfGroup(g))
      ensures m in published && D.InLog(logs, m)
    {
      assert m in tail;
    }
  }

  lemma ExactClient(logs: L.Logs, published: seq<Message>, c: D.Client, g: Name)
    requires D.ClientOk(logs, published, c) && c.phase.Streaming? && g in Cursors(c.groups)
    requires forall m :: m in Filter(published[c.mark..], OfGroup(g)) ==> m.cursor >= 1
    ensures var n := |L.Log(c.phase.snapshot, g)|;
            && L.Log(c.phase.snapshot, g) <= L.Log(logs, g)
            && Filter(D.Expected(published, c).sent, OfGroup(g)) ==
               L.Between(L.Log(logs, g), Effective(c.groups, g, n), n) +
               S.Maxima(Filter(published[c.mark..], OfGroup(g)), Max(Cursors(c.groups)[g], n))
  {
    hide Filter, S.Maxima, S.EmitAll, L.Between, Effective, D.Heard, L.FetchMany, D.Extends;
    InIds(c.groups, g);
    HeardOfGroup(published, c, g);
    OfferedTo(c.groups, c.phase.snapshot, D.Heard(published, c), g);
    SnapshotPrefix(c.phase.snapshot, logs, g);
    var n := |L.Log(c.phase.snapshot, g)|;
    BetweenOfPrefix(L.Log(c.phase.snapshot, g), L.Log(logs, g), Effective(c.groups, g, n));
  }

  lemma InIds(groups: seq<FetchInput>, g: Name)
    ensures g in GroupIds(groups) <==> g in Cursors(groups)
  {
    GroupIdsDistinct(groups);
  }

  lemma SnapshotPrefix(snapshot: L.Logs, logs: L.Logs, g: Name)
    requires D.Extends(snapshot, logs)
    ensures L.Log(snapshot, g) <= L.Log(logs, g)
  {
  }

  lemma BetweenOfPrefix(short: seq<Message>, long: seq<Message>, lo: int)
    requires short <= long
    ensures L.Between(short, lo, |short|) == L.Between(long, lo, |short|)
  {
  }

  lemma InvGives(s: D.Sys, id: nat)
    requires D.Inv(s) && id in s.clients
    ensures D.ViewOk(s.reg.subscribers, s.published, id, s.clients[id])
    ensures D.ClientOk(s.logs, s.published, s.clients[id])
    ensures D.PostsOk(s.logs, s.pending, s.published) && L.Dense(s.logs)
  {
  }

  lemma ExactState(s: D.Sys, id: nat, g: Name)
    requires D.Inv(s) && IsStreaming(s, id, g)
    ensures Received(s, id, g) ==
            L.Between(L.Log(s.logs, g), Start(s, id, g), Fetched(s, id, g)) +
            S.Maxima(LiveOf(s, id, g), Max(Requested(s, id, g), Fetched(s, id, g)))
    ensures L.Log(s.clients[id].phase.snapshot, g) <= L.Log(s.logs, g)
  {
    InvGives(s, id);
    LiveRecords(s.logs, s.pending, s.published, s.clients[id].mark, g);
    ExactClient(s.logs, s.published, s.clients[id], g);
  }

  /** In every run, without any assumption on how posts interleave, a finished
      subscription has received of each group exactly the fetched records above
      its start, followed by those later fan-outs that beat every earlier one. */
  lemma StreamIsExact(acts: seq<D.Action>, id: nat, g: Name)
    requires D.IsRun(acts) && IsStreaming(D.After(acts), id, g)
    ensures var s := D.After(acts);
            Received(s, id, g) ==
            L.Between(L.Log(s.logs, g), Start(s, id, g), Fetched(s, id, g)) +
            S.Maxima(LiveOf(s, id, g), Max(Requested(s, id, g), Fetched(s, id, g)))
  {
    D.RunInv(acts);
    ExactState(D.After(acts), id, g);
  }

  lemma StartAtLeast(s: D.Sys, id: nat, g: Name)
    requires IsStreaming(s, id, g)
    ensures Start(s, id, g) >= Requested(s, id, g)
    ensures Start(s, id, g) > Fetched(s, id, g) ==> Start(s, id, g) == Requested(s, id, g)
  {
    FirstBelowIsBelow(s.clients[id].groups, g, Fetched(s, id, g));
  }

  lemma AscendingConcat(a: seq<Message>, b: seq<Message>, mid: int)
    requires S.Ascending(a) && S.Ascending(b)
    requires forall m :: m in a ==> m.cursor <= mid
    requires forall m :: m in b ==> m.cursor > mid
    ensures S.Ascending(a + b)
  {
    forall i, j | 0 <= i < j < |a + b|
      ensures (a + b)[i].cursor < (a + b)[j].cursor
    {
      if i < |a| <= j {
        assert a[i] in a && b[j - |a|] in b;
      }
    }
  }

  lemma OrderedParts(logs: L.Logs, live: seq<Message>, g: Name, start: int, n: int, last: int)
    requires L.Dense(logs) && start >= last
    requires forall m :: m in live ==> D.InLog(logs, m)
    ensures var all := L.Between(L.Log(logs, g), start, n) + S.Maxima(live, Max(last, n));
            S.Ascending(all) && forall m :: m in all ==> D.InLog(logs, m) && m.cursor > last
  {
    var a, b := L.Between(L.Log(logs, g), start, n), S.Maxima(live, Max(last, n));
    L.BetweenMeaning(L.Log(logs, g), g, start, n);
    S.MaximaAscend(live, Max(last, n));
    AscendingConcat(a, b, n);
    forall m | m in a
      ensures D.InLog(logs, m)
    {
      var i :| 0 <= i < |L.Log(logs, g)| && L.Log(logs, g)[i] == m;
    }
  }

  /** In every run a stream is strictly ascending per group (so nothing arrives
      twice) and carries only log records of that group above the requested cursor. */
  lemma StreamIsOrdered(acts: seq<D.Action>, id: nat, g: Name)
    requires D.IsRun(acts) && IsStreaming(D.After(acts), id, g)
    ensures var s := D.After(acts);
            && S.Ascending(Received(s, id, g))
            && forall m :: m in Received(s, id, g) ==> D.InLog(s.logs, m) && m.cursor > Requested(s, id, g)
  {
    D.RunInv(acts);
    OrderedState(D.After(acts), id, g);
  }

  lemma OrderedState(s: D.Sys, id: nat, g: Name)
    requires D.Inv(s) && IsStreaming(s, id, g)
    ensures S.Ascending(Received(s, id, g))
    ensures forall m :: m in Received(s, id, g) ==> D.InLog(s.logs, m) && m.cursor > Requested(s, id, g)
  {
    ExactState(s, id, g);
    StartAtLeast(s, id, g);
    LiveRecords(s.logs, s.pending, s.published, s.clients[id].mark, g);
    OrderedParts(s.logs, LiveOf(s, id, g), g, Start(s, id, g), Fetched(s, id, g), Requested(s, id, g));
  }

  /** In every run the stream is first what the backlog brought, then what it did
      not: no fetched record follows one that was not fetched, in any group. */
  lemma BacklogComesFirst(acts: seq<D.Action>, id: nat)
    requires D.IsRun(acts)
    requires var s := D.After(acts); id in s.clients && s.clients[id].phase.Streaming? && id in s.reg.subscribers
    ensures var s := D.After(acts); BacklogThenRest(s.clients[id].phase.backlog, s.reg.subscribers[id].sent)
  {
    D.RunInv(acts);
    var s := D.After(acts);
    InvGives(s, id);
    BacklogSplits(D.Fresh(s.clients[id].groups).(buffering := false), s.clients[id].phase.backlog,
                  D.Heard(s.published, s.clients[id]));
  }

  ghost predicate SplitAt(backlog: seq<Message>, early: seq<Message>, late: seq<Message>) {
    && (forall m :: m in early ==> m in backlog)
    && (forall m :: m in late ==> m !in backlog)
  }

  ghost predicate BacklogThenRest(backlog: seq<Message>, sent: seq<Message>) {
    exists k: nat :: k <= |sent| && SplitAt(backlog, sent[..k], sent[k..])
  }

  lemma {:induction false} BacklogSplits(start: S.Sub, backlog: seq<Message>, heard: seq<Message>)
    requires start.dedup && start.sent == []
    ensures BacklogThenRest(backlog, S.EmitAll(start, backlog + heard).sent)
  {
    var mid := S.EmitAll(start, backlog);
    var sent, k := S.EmitAll(mid, heard).sent, |mid.sent|;
    S.EmitAllConcat(start, backlog, heard);
    S.EmitAllExtends(start, backlog);
    S.EmitAllExtends(mid, heard);
    forall m | m in sent[k..]
      ensures m !in backlog
    {
      LateRecord(start, backlog, heard, sent[k..], m);
    }
    assert SplitAt(backlog, sent[..k], sent[k..]);
  }

  lemma LateRecord(start: S.Sub, backlog: seq<Message>, heard: seq<Message>, late: seq<Message>, m: Message)
    requires start.dedup && m in late
    requires S.EmitAll(S.EmitAll(start, backlog), heard).sent == S.EmitAll(start, backlog).sent + late
    ensures m !in backlog
  {
    S.EmitAllProjects(start, backlog, m.groupId);
    S.EmitAllProjects(S.EmitAll(start, backlog), heard, m.groupId);
    LateIsNew(S.EmitAll(start, backlog).sent, late, backlog, Filter(heard, OfGroup(m.groupId)),
              S.Seen(start, m.groupId), m);
  }

  lemma LateIsNew(
    early: seq<Message>, late: seq<Message>, backlog: seq<Message>, mine: seq<Message>, floor: int, m: Message)
    requires m in late
    requires Filter(early + late, OfGroup(m.groupId)) ==
             Filter(early, OfGroup(m.groupId)) + S.Maxima(mine, S.Top(Filter(backlog, OfGroup(m.groupId)), floor))
    ensures m !in backlog
  {
    var g := m.groupId;
    FilterConcat(early, late, OfGroup(g));
    FilterMembers(late, OfGroup(g));
    FilterMembers(backlog, OfGroup(g));
    S.TopBounds(Filter(backlog, OfGroup(g)), floor);
    S.MaximaAscend(mine, S.Top(Filter(backlog, OfGroup(g)), floor));
    var a := Filter(early, OfGroup(g));
    assert a + Filter(late, OfGroup(g)) == a + S.Maxima(mine, S.Top(Filter(backlog, OfGroup(g)), floor));
    assert (a + Filter(late, OfGroup(g)))[|a|..] == Filter(late, OfGroup(g));
  }

  /** A single-group subscription receives every fan-out of its group since it
      registered, once each, in fan-out order, and nothing else. */
  lemma LiveTailIsExact(acts: seq<D.Action>, id: nat)
    requires D.IsRun(acts)
    requires var s := D.After(acts); id in s.clients && s.clients[id].phase.LiveTail?
    ensures var s := D.After(acts); var c := s.clients[id];
            && id in s.reg.subscribers && c.mark <= |s.published|
            && s.reg.subscribers[id].sent == Filter(s.published[c.mark..], InGroups(Elems(c.ids)))
            && Distinct(s.reg.subscribers[id].sent)
  {
    D.RunInv(acts);
    var s := D.After(acts);
    var c := s.clients[id];
    InvGives(s, id);
    D.TailEmits(D.Heard(s.published, c));
    DistinctTail(s.published, c.mark);
    FilterDistinct(s.published[c.mark..], InGroups(Elems(c.ids)));
  }

  lemma DistinctTail(ms: seq<Message>, k: nat)
    requires Distinct(ms) && k <= |ms|
    ensures Distinct(ms[k..])
  {
  }
}
