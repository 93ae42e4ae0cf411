/** When nothing is missing: serialised posts, and exactly which fan-out orders. */
module GapFree {
  import opened Seqs
  import opened Records
  import opened Requests
  import opened ExactlyOnce
  import L = GroupLogs
  import D = Delivery
  import S = Streams

  ghost predicate InFlight(pending: set<Message>, g: Name) {
    exists m :: m in pending && m.groupId == g
  }

  /** How much of the log of `g` has been fanned out when posts to `g` are serialised. */
  ghost function Settled(logs: L.Logs, pending: set<Message>, g: Name): int {
    |L.Log(logs, g)| - if InFlight(pending, g) then 1 else 0
  }

  /** The single-writer assumption of storage/mod.rs, for one group: no post to it
      starts while another post to it is between its two steps. */
  ghost predicate Serial(acts: seq<D.Action>, g: Name) {
    acts != [] ==>
      && Serial(Front(acts), g)
      && (Last(acts).Append? && Last(acts).groupId == g ==> !InFlight(D.After(Front(acts)).pending, g))
  }

  ghost predicate InOrder(logs: L.Logs, pending: set<Message>, published: seq<Message>, g: Name) {
    && (forall m :: m in pending && m.groupId == g ==> D.InLog(logs, m) && m.cursor == |L.Log(logs, g)|)
    && Filter(published, OfGroup(g)) == L.Between(L.Log(logs, g), 0, Settled(logs, pending, g))
  }

  lemma InOrderAppend(
    logs: L.Logs, pending: set<Message>, published: seq<Message>, g: Name, h: Name, payload: Bytes, at: int)
    requires InOrder(logs, pending, published, g) && (h == g ==> !InFlight(pending, g))
    ensures InOrder(L.Append(logs, h, payload, at), pending + {L.NewRecord(logs, h, payload, at)}, published, g)
  {
    var m := L.NewRecord(logs, h, payload, at);
    assert m in pending + {m} && m.groupId == h;
    assert h != g ==> (InFlight(pending + {m}, g) <==> InFlight(pending, g));
  }

  lemma InOrderPublish(logs: L.Logs, pending: set<Message>, published: seq<Message>, g: Name, m: Message)
    requires InOrder(logs, pending, published, g) && m in pending
    ensures InOrder(logs, pending - {m}, published + [m], g)
  {
    FilterPush(published, m, OfGroup(g));
    if m.groupId == g {
      assert !InFlight(pending - {m}, g) && InFlight(pending, g);
    } else {
      assert InFlight(pending - {m}, g) <==> InFlight(pending, g);
    }
  }

  /** Serialised posts are fanned out in cursor order. */
  lemma {:induction false} SerialRunInOrder(acts: seq<D.Action>, g: Name)
    requires D.IsRun(acts) && Serial(acts, g)
    ensures var s := D.After(acts); InOrder(s.logs, s.pending, s.published, g)
  {
    if acts != [] {
      SerialRunInOrder(Front(acts), g);
      var s := D.After(Front(acts));
      match Last(acts) {
        case Append(h, payload, at) => InOrderAppend(s.logs, s.pending, s.published, g, h, payload, at);
        case Publish(m) => InOrderPublish(s.logs, s.pending, s.published, g, m);
        case _ =>
      }
    }
  }

  /** Two adjoining stretches of a log make one. */
  lemma BetweenJoin(log: seq<Message>, start: int, n: int, last: int, hi: int)
    requires last <= start && (start > n ==> start == last) && 0 <= n <= |log| && hi <= |log|
    ensures L.Between(log, start, n) + L.Between(log, Max(last, n), hi) == L.Between(log, start, Max(n, hi))
  {
  }

  lemma {:induction false} BetweenOfTail(log: seq<Message>, early: seq<Message>, live: seq<Message>, hi: int)
    requires early + live == L.Between(log, 0, hi)
    ensures live == L.Between(log, |early|, hi)
    ensures early != [] ==> |early| <= |log| && Last(early) == log[|early| - 1]
  {
    assert live == (early + live)[|early|..];
    if early != [] {
      assert Last(early) == (early + live)[|early| - 1];
    }
  }

  /** What the client heard of `g` is the stretch of the log fanned out since it
      registered, and that stretch begins inside its snapshot. */
  lemma SerialLive(logs: L.Logs, pending: set<Message>, published: seq<Message>, c: D.Client, g: Name) returns (p: nat)
    requires L.Dense(logs) && InOrder(logs, pending, published, g)
    requires D.ClientOk(logs, published, c) && c.phase.Streaming?
    ensures Filter(published[c.mark..], OfGroup(g)) == L.Between(L.Log(logs, g), p, Settled(logs, pending, g))
    ensures p <= |L.Log(c.phase.snapshot, g)|
  {
    var before, tail := published[..c.mark], published[c.mark..];
    var early, live := Filter(before, OfGroup(g)), Filter(tail, OfGroup(g));
    assert published == before + tail;
    FilterConcat(before, tail, OfGroup(g));
    BetweenOfTail(L.Log(logs, g), early, live, Settled(logs, pending, g));
    p := |early|;
    if early != [] {
      FilterMembers(before, OfGroup(g));
      assert Last(early) in before;
      var i :| 0 <= i < |before| && before[i] == Last(early);
    }
  }

  /** When posts to a group are serialised, whatever happens in other groups, each
      stream holds of it one contiguous stretch of the log: from its start up to the
      last fan-out (or further, if its backlog already held the record in flight). */
  lemma SerialDelivery(acts: seq<D.Action>, id: nat, g: Name)
    requires D.IsRun(acts) && Serial(acts, g) && IsStreaming(D.After(acts), id, g)
    ensures var s := D.After(acts);
            Received(s, id, g) ==
            L.Between(L.Log(s.logs, g), Start(s, id, g), Max(Fetched(s, id, g), Settled(s.logs, s.pending, g)))
  {
    D.RunInv(acts);
    SerialRunInOrder(acts, g);
    var s := D.After(acts);
    ExactState(s, id, g);
    StartAtLeast(s, id, g);
    InvGives(s, id);
    var p := SerialLive(s.logs, s.pending, s.published, s.clients[id], g);
    StretchJoins(L.Log(s.logs, g), g, p, Start(s, id, g), Fetched(s, id, g), Requested(s, id, g),
                 Settled(s.logs, s.pending, g));
  }

  lemma StretchJoins(log: seq<Message>, g: Name, p: nat, start: int, n: nat, last: int, hi: int)
    requires L.DenseLog(log, g) && p <= n <= |log| && hi <= |log|
    requires last <= start && (start > n ==> start == last)
    ensures L.Between(log, start, n) + S.Maxima(L.Between(log, p, hi), Max(last, n)) ==
            L.Between(log, start, Max(n, hi))
  {
    if hi >= 0 {
      MaximaBetween(log, g, p, hi, Max(last, n));
    }
    BetweenJoin(log, start, n, last, hi);
  }

  lemma StartLosesIff(groups: seq<FetchInput>, log: seq<Message>, g: Name, n: nat)
    requires g in Cursors(groups) && n <= |log|
    ensures var first, last := FirstBelow(groups, g, n), Cursors(groups)[g];
            L.Between(log, Effective(groups, g, n), |log|) == L.Between(log, last, |log|) <==>
            first.None? || first.value <= Max(last, 0)
  {
    FirstBelowIsBelow(groups, g, n);
    var first, last := FirstBelow(groups, g, n), Cursors(groups)[g];
    if first.Some? && first.value > Max(last, 0) {
      assert |L.Between(log, first.value, |log|)| < |L.Between(log, last, |log|)|;
    }
  }

  /** Exactly once, and exactly when: with serialised posts to `g` and none in flight,
      a stream holds every record of `g` above the requested cursor, once, in order,
      if and only if the first entry for `g` that had anything to fetch did not
      start above the (non-negative) last one. */
  lemma ExactlyOnceIff(acts: seq<D.Action>, id: nat, g: Name)
    requires D.IsRun(acts) && Serial(acts, g) && IsStreaming(D.After(acts), id, g)
    requires !InFlight(D.After(acts).pending, g)
    ensures var s := D.After(acts);
            var first := FirstBelow(s.clients[id].groups, g, Fetched(s, id, g));
            Received(s, id, g) == L.Between(L.Log(s.logs, g), Requested(s, id, g), |L.Log(s.logs, g)|) <==>
            first.None? || first.value <= Max(Requested(s, id, g), 0)
  {
    D.RunInv(acts);
    var s := D.After(acts);
    SerialDelivery(acts, id, g);
    ExactState(s, id, g);
    StartLosesIff(s.clients[id].groups, L.Log(s.logs, g), g, Fetched(s, id, g));
  }

  /** So a list whose first entry for `g` does not start above its last one never
      loses anything, in any run. */
  lemma ExactlyOnceDelivery(acts: seq<D.Action>, id: nat, g: Name)
    requires D.IsRun(acts) && Serial(acts, g) && IsStreaming(D.After(acts), id, g)
    requires !InFlight(D.After(acts).pending, g)
    requires var s := D.After(acts); First(s.clients[id].groups, g) <= Max(Requested(s, id, g), 0)
    ensures var s := D.After(acts);
            Received(s, id, g) == L.Between(L.Log(s.logs, g), Requested(s, id, g), |L.Log(s.logs, g)|)
  {
    var s := D.After(acts);
    var groups, n := s.clients[id].groups, Fetched(s, id, g);
    ExactlyOnceIff(acts, id, g);
    FirstBelowIsBelow(groups, g, n);
    if Max(First(groups, g), 0) < n {
      FirstBelowFirst(groups, g, n);
    }
  }

  // ----- Which fan-out orders are gap-free -----

  lemma LastIsTop(a: seq<Message>, m: Message)
    requires S.Ascending(a) && m in a
    ensures m.cursor <= Last(a).cursor && (m.cursor == Last(a).cursor ==> m == Last(a))
    ensures forall x :: x in Front(a) <==> x in a && x != Last(a)
  {
    forall x | x in a && x != Last(a)
      ensures x in Front(a)
    {
      var i :| 0 <= i < |a| && a[i] == x;
      assert Front(a)[i] == x;
    }
  }

  lemma {:induction false} AscendingUnique(a: seq<Message>, b: seq<Message>)
    requires S.Ascending(a) && S.Ascending(b) && |a| == |b|
    requires forall m :: m in a <==> m in b
    ensures a == b
  {
    if a != [] {
      assert Last(a) in b && Last(b) in a;
      LastIsTop(a, Last(b));
      LastIsTop(b, Last(a));
      AscendingUnique(Front(a), Front(b));
      assert a == Front(a) + [Last(a)] && b == Front(b) + [Last(b)];
    }
  }

  /** With nothing in flight, the live records above the snapshot are, as a set,
      the rest of the log. */
  lemma QuiescentLive(logs: L.Logs, pending: set<Message>, published: seq<Message>, c: D.Client, g: Name, floor: int)
    requires L.Dense(logs) && D.PostsOk(logs, pending, published) && !InFlight(pending, g)
    requires D.ClientOk(logs, published, c) && c.phase.Streaming? && floor >= |L.Log(c.phase.snapshot, g)|
    ensures var kept := Filter(Filter(published[c.mark..], OfGroup(g)), Above(floor));
            var rest := L.Between(L.Log(logs, g), floor, |L.Log(logs, g)|);
            Distinct(kept) && |kept| == |rest| && forall m :: m in kept <==> m in rest
  {
    var live := Filter(published[c.mark..], OfGroup(g));
    var kept, rest := Filter(live, Above(floor)), L.Between(L.Log(logs, g), floor, |L.Log(logs, g)|);
    LiveRecords(logs, pending, published, c.mark, g);
    FilterDistinct(live, Above(floor));
    FilterMembers(live, Above(floor));
    L.BetweenMeaning(L.Log(logs, g), g, floor, |L.Log(logs, g)|);
    forall m | m in rest
      ensures m in kept
    {
      RestWasPublished(logs, pending, published, c, g, m);
    }
    forall m | m in kept
      ensures m in rest
    {
      assert m in live && D.InLog(logs, m);
    }
    DistinctSize(kept);
    DistinctSize(rest);
    assert Elems(kept) == Elems(rest);
  }

  lemma RestWasPublished(logs: L.Logs, pending: set<Message>, published: seq<Message>, c: D.Client, g: Name, m: Message)
    requires L.Dense(logs) && D.PostsOk(logs, pending, published) && !InFlight(pending, g)
    requires D.ClientOk(logs, published, c) && c.phase.Streaming?
    requires m in L.Log(logs, g) && m.cursor > |L.Log(c.phase.snapshot, g)|
    ensures m in Filter(published[c.mark..], OfGroup(g))
  {
    hide L.FetchMany, D.Extends, Filter;
    forall k | 0 <= k < c.mark
      ensures published[k].cursor <= |L.Log(c.phase.snapshot, published[k].groupId)|
    {
      assert published[..c.mark][k] == published[k];
    }
    var j := WasPublished(logs, pending, published, g, m);
    assert published[c.mark..][j - c.mark] == m;
    FilterMembers(published[c.mark..], OfGroup(g));
  }

  /** A record of a group with nothing in flight has been fanned out. */
  lemma WasPublished(logs: L.Logs, pending: set<Message>, published: seq<Message>, g: Name, m: Message) returns (j: nat)
    requires L.Dense(logs) && D.PostsOk(logs, pending, published) && !InFlight(pending, g) && m in L.Log(logs, g)
    ensures j < |published| && published[j] == m && m.groupId == g
  {
    var i :| 0 <= i < |L.Log(logs, g)| && L.Log(logs, g)[i] == m;
    assert D.InLog(logs, m);
    assert m !in pending;
    j :| 0 <= j < |published| && published[j] == m;
  }

  lemma CompleteIffOrdered(live: seq<Message>, rest: seq<Message>, floor: int)
    requires S.Ascending(rest)
    requires |Filter(live, Above(floor))| == |rest| && forall m :: m in Filter(live, Above(floor)) <==> m in rest
    ensures S.Maxima(live, floor) == rest <==> S.Ascending(Filter(live, Above(floor)))
  {
    S.MaximaComplete(live, floor);
    if S.Ascending(Filter(live, Above(floor))) {
      AscendingUnique(Filter(live, Above(floor)), rest);
    }
  }

  /** For every run, serialised or not: with no post to `g` in flight, the stream is
      gap-free if and only if the records beyond its backlog were fanned out in
      cursor order. */
  lemma GapFreeIffOrdered(acts: seq<D.Action>, id: nat, g: Name)
    requires D.IsRun(acts) && IsStreaming(D.After(acts), id, g)
    requires !InFlight(D.After(acts).pending, g)
    ensures var s := D.After(acts); var log := L.Log(s.logs, g);
            Received(s, id, g) == L.Between(log, Start(s, id, g), |log|) <==>
            S.Ascending(Filter(LiveOf(s, id, g), Above(Max(Requested(s, id, g), Fetched(s, id, g)))))
  {
    D.RunInv(acts);
    var s := D.After(acts);
    var log, n, last, start := L.Log(s.logs, g), Fetched(s, id, g), Requested(s, id, g), Start(s, id, g);
    var floor := Max(last, n);
    ExactState(s, id, g);
    StartAtLeast(s, id, g);
    InvGives(s, id);
    QuiescentLive(s.logs, s.pending, s.published, s.clients[id], g, floor);
    var rest := L.Between(log, floor, |log|);
    L.BetweenMeaning(log, g, floor, |log|);
    CompleteIffOrdered(LiveOf(s, id, g), rest, floor);
    BetweenJoin(log, start, n, last, |log|);
    Cancel(L.Between(log, start, n), S.Maxima(LiveOf(s, id, g), floor), rest);
  }

  lemma Cancel(a: seq<Message>, b: seq<Message>, c: seq<Message>)
    ensures a + b == a + c <==> b == c
  {
    if a + b == a + c {
      assert b == (a + b)[|a|..] && c == (a + c)[|a|..];
    }
  }

  // ----- Two unserialised posts -----

  function Posted(c: int): Message {
    Message(c, "g", [], 0)
  }

  /** After `acts` the one client streams "g" from the start, and these posts were made. */
  ghost predicate At(acts: seq<D.Action>, log: seq<Message>, pending: set<Message>, published: seq<Message>) {
    var s := D.After(acts);
    && D.IsRun(acts)
    && L.Log(s.logs, "g") == log && s.pending == pending && s.published == published
    && 1 in s.clients && s.clients[1] == D.Client([FetchInput("g", None)], ["g"], 0, D.Streaming([], map[]))
  }

  lemma RunGrows(acts: seq<D.Action>, a: D.Action)
    requires D.IsRun(acts) && D.Enabled(D.After(acts), a)
    ensures D.IsRun(acts + [a]) && D.After(acts + [a]) == D.Do(D.After(acts), a)
  {
    assert Front(acts + [a]) == acts;
  }

  lemma OneClient() returns (acts: seq<D.Action>)
    ensures At(acts, [], {}, [])
  {
    var group := FetchInput("g", None);
    assert Front([group]) == [] && GroupIds([group]) == ["g"];
    assert L.FetchMany(map[], [group]) == [] by {
      assert L.FetchMany(map[], []) == [];
    }
    acts := [];
    RunGrows(acts, D.Register([group]));
    acts := acts + [D.Register([group])];
    RunGrows(acts, D.Fetch(1));
    acts := acts + [D.Fetch(1)];
    RunGrows(acts, D.Finish(1));
    acts := acts + [D.Finish(1)];
  }

  lemma AtAppend(acts: seq<D.Action>, log: seq<Message>, pending: set<Message>, published: seq<Message>)
    requires At(acts, log, pending, published)
    ensures At(acts + [D.Append("g", [], 0)], log + [Posted(|log| + 1)], pending + {Posted(|log| + 1)}, published)
  {
    RunGrows(acts, D.Append("g", [], 0));
  }

  lemma AtPublish(acts: seq<D.Action>, log: seq<Message>, pending: set<Message>, published: seq<Message>, m: Message)
    requires At(acts, log, pending, published) && m in pending
    ensures At(acts + [D.Publish(m)], log, pending - {m}, published + [m])
  {
    RunGrows(acts, D.Publish(m));
  }

  lemma Overtaking() returns (acts: seq<D.Action>)
    ensures At(acts, [Posted(1), Posted(2)], {}, [Posted(2), Posted(1)])
  {
    hide At;
    var a, b := Posted(1), Posted(2);
    assert [] + [a] == [a] && [a] + [b] == [a, b] && [] + [b] == [b] && [b] + [a] == [b, a];
    assert {} + {a} == {a} && {a} + {b} == {a, b} && {a, b} - {b} == {a} && {a} - {a} == {};
    acts := OneClient();
    AtAppend(acts, [], {}, []);
    acts := acts + [D.Append("g", [], 0)];
    AtAppend(acts, [a], {a}, []);
    acts := acts + [D.Append("g", [], 0)];
    AtPublish(acts, [a, b], {a, b}, [], b);
    acts := acts + [D.Publish(b)];
    AtPublish(acts, [a, b], {a}, [b], a);
    acts := acts + [D.Publish(a)];
  }

  lemma NoMaxima()
    ensures S.Maxima([], 0) == [] && S.Top([], 0) == 0
  {
  }

  lemma OvertakenMaxima()
    ensures S.Maxima([Posted(2), Posted(1)], 0) == [Posted(2)]
    ensures Filter([Posted(2), Posted(1)], OfGroup("g")) == [Posted(2), Posted(1)]
  {
    hide S.Maxima, S.Top, Filter;
    NoMaxima();
    S.MaximaPush([], Posted(2), 0);
    assert [] + [Posted(2)] == [Posted(2)];
    S.MaximaPush([Posted(2)], Posted(1), 0);
    assert [Posted(2)] + [Posted(1)] == [Posted(2), Posted(1)];
    FilterAll([Posted(2), Posted(1)], OfGroup("g"));
  }

  /** The single-writer assumption is needed: there is a run with two posts to one
      group that append in one order and fan out in the other, after which, with
      nothing in flight, the first record has not reached the subscriber. */
  lemma OvertakingLosesARecord() returns (acts: seq<D.Action>)
    ensures D.IsRun(acts) && IsStreaming(D.After(acts), 1, "g") && !InFlight(D.After(acts).pending, "g")
    ensures L.Log(D.After(acts).logs, "g") == [Posted(1), Posted(2)] && Requested(D.After(acts), 1, "g") == 0
    ensures Received(D.After(acts), 1, "g") == [Posted(2)]
  {
    acts := Overtaking();
    var s := D.After(acts);
    assert Cursors([FetchInput("g", None)]) == map["g" := 0] by {
      assert Front([FetchInput("g", None)]) == [];
    }
    StreamingClients(acts, 1, "g");
    StreamIsExact(acts, 1, "g");
    OvertakenMaxima();
    assert s.published[0..] == [Posted(2), Posted(1)];
  }

  // ----- A group listed twice -----

  /** After `acts`, with nothing in flight and nobody subscribed, "g" has this log. */
  ghost predicate Quiet(acts: seq<D.Action>, log: seq<Message>) {
    var s := D.After(acts);
    && D.IsRun(acts) && Serial(acts, "g")
    && L.Log(s.logs, "g") == log && s.pending == {} && s.clients == map[] && s.reg.nextId == 1
  }

  lemma SerialGrows(acts: seq<D.Action>, a: D.Action)
    requires Serial(acts, "g") && (a.Append? ==> D.After(acts).pending == {})
    ensures Serial(acts + [a], "g")
  {
    assert Front(acts + [a]) == acts;
  }

  /** One whole post. */
  lemma QuietPost(acts: seq<D.Action>, log: seq<Message>)
    requires Quiet(acts, log)
    ensures Quiet(acts + [D.Append("g", [], 0)] + [D.Publish(Posted(|log| + 1))], log + [Posted(|log| + 1)])
  {
    var a, b := D.Append("g", [], 0), D.Publish(Posted(|log| + 1));
    RunGrows(acts, a);
    SerialGrows(acts, a);
    RunGrows(acts + [a], b);
    SerialGrows(acts + [a], b);
    PublishKeepsNextId(D.After(acts + [a]), Posted(|log| + 1));
  }

  lemma PublishKeepsNextId(s: D.Sys, m: Message)
    requires m in s.pending
    ensures D.Do(s, D.Publish(m)).reg.nextId == s.reg.nextId
  {
  }

  function Twice(): seq<FetchInput> {
    [] + [FetchInput("g", Some(1))] + [FetchInput("g", None)]
  }

  lemma TwiceFacts()
    ensures Cursors(Twice()) == map["g" := 0] && GroupIds(Twice()) == ["g"] && FirstBelow(Twice(), "g", 2) == Some(1)
  {
    var one := [] + [FetchInput("g", Some(1))];
    assert Front(Twice()) == one && Front(one) == [];
    assert GroupIds(one) == ["g"];
  }

  /** Subscribe with the list: register, fetch, replay and go live. */
  lemma SubscribeTwice(acts: seq<D.Action>, log: seq<Message>) returns (run: seq<D.Action>)
    requires Quiet(acts, log)
    ensures D.IsRun(run) && Serial(run, "g") && D.After(run).logs == D.After(acts).logs && D.After(run).pending == {}
    ensures 1 in D.After(run).clients
    ensures var c := D.After(run).clients[1];
            c.groups == Twice() && c.ids == ["g"] && c.phase.Streaming? && c.phase.snapshot == D.After(acts).logs
  {
    TwiceFacts();
    run := acts;
    RunGrows(run, D.Register(Twice()));
    SerialGrows(run, D.Register(Twice()));
    run := run + [D.Register(Twice())];
    RunGrows(run, D.Fetch(1));
    SerialGrows(run, D.Fetch(1));
    run := run + [D.Fetch(1)];
    RunGrows(run, D.Finish(1));
    SerialGrows(run, D.Finish(1));
    run := run + [D.Finish(1)];
  }

  /** Two records are posted, then a client asks for "g" after 1 and, again, from the
      start: it is taken to want everything, and never gets the first record. */
  lemma DuplicateGroupLosesARecord() returns (acts: seq<D.Action>)
    ensures D.IsRun(acts) && Serial(acts, "g") && IsStreaming(D.After(acts), 1, "g")
    ensures !InFlight(D.After(acts).pending, "g") && D.After(acts).clients[1].groups == Twice()
    ensures L.Log(D.After(acts).logs, "g") == [Posted(1), Posted(2)] && Requested(D.After(acts), 1, "g") == 0
    ensures Received(D.After(acts), 1, "g") == [Posted(2)]
  {
    hide D.IsRun, D.After, Serial;
    StartsQuiet();
    QuietPost([], []);
    var one := [] + [D.Append("g", [], 0)] + [D.Publish(Posted(1))];
    assert Quiet(one, [Posted(1)]);
    QuietPost(one, [Posted(1)]);
    var two := one + [D.Append("g", [], 0)] + [D.Publish(Posted(2))];
    acts := SubscribeTwice(two, [Posted(1), Posted(2)]);
    TwiceFacts();
    StreamingClients(acts, 1, "g");
    SerialDelivery(acts, 1, "g");
  }

  lemma StartsQuiet()
    ensures Quiet([], [])
  {
  }
}
