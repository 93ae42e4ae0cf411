/** What the queues promise over whole runs: a record stays, and is returned by
    every fetch of its queue, until it is acknowledged by its exact key and
    timestamp, replaced by its own requester, or expired. */
module QueueRuns {
  import opened Seqs
  import opened Records
  import opened Tables
  import opened Queues
  import opened Backends
  import opened Parity
  import K = KeyStore
  import J = JoinQueues

  lemma RetireMembers<R, C>(s: seq<R>, key: R -> Name, ack: R -> C, k: Name, consumed: seq<C>, r: R)
    ensures r in Retire(s, key, ack, k, consumed) <==> r in s && !(key(r) == k && ack(r) in consumed)
  {
    FilterMembers(s, Unacked(key, ack, k, consumed));
  }

  lemma ExpireMembers<R>(s: seq<R>, at: R -> int, threshold: int, r: R)
    ensures r in Expire(s, at, threshold) <==> r in s && !(threshold > 0 && at(r) < threshold)
  {
    FilterMembers(s, NotBefore(at, threshold));
  }

  // ----- Welcomes -----

  predicate RetiresWelcome(w: Welcome, op: Op) {
    || (op.FetchWelcomes? && op.target == w.target && ConsumedWelcome(w.kpRef, w.createdAt) in op.handled)
    || (op.ExpireWelcomes? && op.threshold > 0 && w.createdAt < op.threshold)
  }

  lemma WelcomeStep(s: Store, op: Op, w: Welcome)
    ensures w in Ask(s, op).0.welcomes <==> (w in s.welcomes && !RetiresWelcome(w, op)) || op == StoreWelcome(w)
  {
    hide K.Held, K.Remove, K.Consume, K.Find, K.Choice, J.Store, J.FetchEach, Retire, Expire, Pending;
    match op
    case FetchWelcomes(target, handled) => RetireMembers(s.welcomes, Target(), WelcomeAck(), target, handled, w);
    case ExpireWelcomes(threshold) => ExpireMembers(s.welcomes, WelcomeAt(), threshold, w);
    case _ =>
  }

  /** Stored at step `i` and not retired since. */
  ghost predicate WelcomeLives(ops: seq<Op>, w: Welcome, i: nat) {
    i < |ops| && ops[i] == StoreWelcome(w) && forall j :: i < j < |ops| ==> !RetiresWelcome(w, ops[j])
  }

  lemma WelcomeLivesLonger(ops: seq<Op>, w: Welcome, i: nat)
    requires ops != []
    ensures WelcomeLives(ops, w, i) <==>
            if i < |ops| - 1 then WelcomeLives(Front(ops), w, i) && !RetiresWelcome(w, Last(ops))
            else i == |ops| - 1 && Last(ops) == StoreWelcome(w)
    ensures WelcomeLives(Front(ops), w, i) ==> i < |ops| - 1
  {
    hide RetiresWelcome;
  }

  lemma {:induction false} WelcomePendingIff(ops: seq<Op>, w: Welcome)
    ensures w in Run(ops).welcomes <==> exists i: nat :: WelcomeLives(ops, w, i)
  {
    if ops != [] {
      hide Ask, RetiresWelcome, WelcomeLives;
      WelcomePendingIff(Front(ops), w);
      WelcomeStep(Run(Front(ops)), Last(ops), w);
      WelcomeLivesLonger(ops, w, |ops| - 1);
      forall i: nat
        ensures WelcomeLives(ops, w, i) ==> w in Run(ops).welcomes
        ensures WelcomeLives(Front(ops), w, i) && !RetiresWelcome(w, Last(ops)) ==> WelcomeLives(ops, w, i)
      {
        WelcomeLivesLonger(ops, w, i);
      }
    }
  }

  /** Every fetch of its queue returns a live welcome, on either backend, unless the
      fetch itself acknowledges it. */
  lemma WelcomeFetchedUntilAcked(ops: seq<Op>, w: Welcome, handled: seq<ConsumedWelcome>)
    ensures var answer := DbAsk(DbRun(ops), FetchWelcomes(w.target, handled)).1;
            answer.Welcomes? && (w in answer.welcomes <==>
              (exists i: nat :: WelcomeLives(ops, w, i)) && ConsumedWelcome(w.kpRef, w.createdAt) !in handled)
    ensures var op := FetchWelcomes(w.target, handled);
            MemAsk(MemRun(ops), op).1 == DbAsk(DbRun(ops), op).1
  {
    hide DbAsk, MemAsk, Run, DbRun, MemRun, WelcomeLives, Retire;
    var op := FetchWelcomes(w.target, handled);
    QueueParity(ops, op);
    WelcomePendingIff(ops, w);
    RetireMembers(Run(ops).welcomes, Target(), WelcomeAck(), w.target, handled, w);
    FilterMembers(Retire(Run(ops).welcomes, Target(), WelcomeAck(), w.target, handled), KeyIs(Target(), w.target));
  }

  /** The threshold of the periodic cleanup; no age limit gives zero. */
  function CleanupThreshold(now: int, maxAge: int): int {
    if maxAge > 0 then now - maxAge else 0
  }

  /** A cleanup spares exactly the records that are not over age, and everything when
      no age is set or the clock has not yet reached it. */
  lemma CleanupSparesTheYoung(s: Store, now: int, maxAge: int, w: Welcome, j: JoinRequest)
    ensures var threshold := CleanupThreshold(now, maxAge);
            && (w in Ask(s, ExpireWelcomes(threshold)).0.welcomes <==>
                w in s.welcomes && (maxAge <= 0 || now <= maxAge || now - w.createdAt <= maxAge))
            && (j in Ask(s, ExpireJoins(threshold)).0.joins <==>
                j in s.joins && (maxAge <= 0 || now <= maxAge || now - j.createdAt <= maxAge))
  {
    ExpireMembers(s.welcomes, WelcomeAt(), CleanupThreshold(now, maxAge), w);
    ExpireMembers(s.joins, J.Created(), CleanupThreshold(now, maxAge), j);
  }

  // ----- Join requests -----

  predicate RetiresJoin(j: JoinRequest, op: Op) {
    || (op.FetchJoins? && op.group == j.groupId && ConsumedJoin(j.requester, j.createdAt) in op.accepted)
    || (op.FetchManyJoins? && j.groupId in op.groups &&
        ConsumedGroupJoin(j.groupId, j.requester, j.createdAt) in op.acceptedIn)
    || (op.ExpireJoins? && op.threshold > 0 && j.createdAt < op.threshold)
  }

  /** The requester asked again with another package or at another time. */
  predicate ReplacesJoin(j: JoinRequest, op: Op) {
    op.StoreJoin? && op.request != j && op.request.groupId == j.groupId && op.request.requester == j.requester
  }

  predicate Leaves(j: JoinRequest, op: Op) {
    !RetiresJoin(j, op) && !ReplacesJoin(j, op)
  }

  lemma {:induction false} FetchEachMembers(
    s: J.Joins, groups: seq<Name>, consumed: seq<ConsumedGroupJoin>, j: JoinRequest)
    ensures j in J.FetchEach(s, groups, consumed).0 <==>
            j in s && !(j.groupId in groups && ConsumedGroupJoin(j.groupId, j.requester, j.createdAt) in consumed)
  {
    if groups != [] {
      var g := Last(groups);
      FetchEachMembers(s, Front(groups), consumed, j);
      RetireMembers(J.FetchEach(s, Front(groups), consumed).0, J.Group(), J.JoinAck(), g, J.Part(consumed, g), j);
      J.PartitionMeaning(consumed, g, ConsumedJoin(j.requester, j.createdAt));
      assert j.groupId in groups <==> j.groupId in Front(groups) || j.groupId == g;
    }
  }

  lemma StoreMembers(s: J.Joins, r: JoinRequest, j: JoinRequest)
    requires J.Store(s, r).Some?
    ensures j in J.Store(s, r).value <==>
            j == r || (j in s && !(r.groupId == j.groupId && r.requester == j.requester))
  {
    J.FoundEntry(s, r);
    if Filter(s, J.SameEntry(r)) != [] {
      var t := Mapped(s, J.Refresh(r));
      if j in t {
        var i :| 0 <= i < |t| && t[i] == j;
        assert s[i] in s;
      }
      if i :| 0 <= i < |s| && s[i].groupId == r.groupId && s[i].requester == r.requester {
        assert t[i] == r;
      }
      if i :| 0 <= i < |s| && s[i] == j && !J.SameEntry(r)(j) {
        assert t[i] == j;
      }
    }
  }

  lemma JoinStep(s: Store, op: Op, j: JoinRequest)
    ensures j in Ask(s, op).0.joins <==>
            (|| (j in s.joins && Leaves(j, op))
             || (op == StoreJoin(j) && Ask(s, op).1.JoinStored?))
  {
    hide K.Held, K.Remove, K.Consume, K.Find, K.Choice, J.Store, J.FetchEach, Retire, Expire, Pending;
    match op
    case StoreJoin(r) =>
      if J.Store(s.joins, r).Some? {
        StoreMembers(s.joins, r, j);
      } else {
        RefusedHasNoEntry(s.joins, r, j);
      }
    case FetchJoins(g, accepted) => RetireMembers(s.joins, J.Group(), J.JoinAck(), g, accepted, j);
    case FetchManyJoins(groups, acceptedIn) => FetchEachMembers(s.joins, groups, acceptedIn, j);
    case ExpireJoins(threshold) => ExpireMembers(s.joins, J.Created(), threshold, j);
    case _ =>
  }

  lemma RefusedHasNoEntry(s: J.Joins, r: JoinRequest, j: JoinRequest)
    requires J.Store(s, r).None?
    ensures j in s ==> r.groupId != j.groupId || r.requester != j.requester
  {
    J.FoundEntry(s, r);
  }

  /** Accepted at step `i`, not acknowledged, expired or replaced since. */
  ghost predicate JoinLives(ops: seq<Op>, j: JoinRequest, i: nat) {
    && i < |ops| && ops[i] == StoreJoin(j) && Ask(Run(ops[..i]), ops[i]).1.JoinStored?
    && forall k :: i < k < |ops| ==> Leaves(j, ops[k])
  }

  lemma JoinLivesLonger(ops: seq<Op>, j: JoinRequest, i: nat)
    requires ops != []
    ensures JoinLives(ops, j, i) <==>
            if i < |ops| - 1 then JoinLives(Front(ops), j, i) && Leaves(j, Last(ops))
            else i == |ops| - 1 && Last(ops) == StoreJoin(j) && Ask(Run(Front(ops)), Last(ops)).1.JoinStored?
    ensures JoinLives(Front(ops), j, i) ==> i < |ops| - 1
  {
    hide Ask, Run, Leaves;
    if i < |ops| - 1 {
      assert Front(ops)[..i] == ops[..i];
    } else if i == |ops| - 1 {
      assert ops[..i] == Front(ops);
    }
  }

  lemma {:induction false} JoinPendingIff(ops: seq<Op>, j: JoinRequest)
    ensures j in Run(ops).joins <==> exists i: nat :: JoinLives(ops, j, i)
  {
    if ops != [] {
      hide Ask, JoinLives, Leaves;
      JoinPendingIff(Front(ops), j);
      JoinStep(Run(Front(ops)), Last(ops), j);
      JoinLivesLonger(ops, j, |ops| - 1);
      forall i: nat
        ensures JoinLives(ops, j, i) ==> j in Run(ops).joins
        ensures JoinLives(Front(ops), j, i) && Leaves(j, Last(ops)) ==> JoinLives(ops, j, i)
      {
        JoinLivesLonger(ops, j, i);
      }
    }
  }

  /** Every fetch of its group returns a live request, on either backend, unless the
      fetch itself acknowledges it; an acknowledgement of another timestamp, such
      as the one before a refresh, does not. */
  lemma JoinFetchedUntilAcked(ops: seq<Op>, j: JoinRequest, accepted: seq<ConsumedJoin>)
    ensures var answer := DbAsk(DbRun(ops), FetchJoins(j.groupId, accepted)).1;
            answer.Joins? && (j in answer.requests <==>
              (exists i: nat :: JoinLives(ops, j, i)) && ConsumedJoin(j.requester, j.createdAt) !in accepted)
    ensures var op := FetchJoins(j.groupId, accepted);
            MemAsk(MemRun(ops), op).1 == DbAsk(DbRun(ops), op).1
  {
    hide DbAsk, MemAsk, Run, DbRun, MemRun, JoinLives, Retire;
    var op := FetchJoins(j.groupId, accepted);
    QueueParity(ops, op);
    JoinPendingIff(ops, j);
    RetireMembers(Run(ops).joins, J.Group(), J.JoinAck(), j.groupId, accepted, j);
    FilterMembers(Retire(Run(ops).joins, J.Group(), J.JoinAck(), j.groupId, accepted), KeyIs(J.Group(), j.groupId));
  }

  lemma {:induction false} JoinGroupsMembers(s: J.Joins, groups: seq<Name>, j: JoinRequest)
    ensures j in J.JoinGroups(s, groups) <==> j in s && j.groupId in groups
  {
    if groups != [] {
      JoinGroupsMembers(s, Front(groups), j);
      FilterMembers(s, KeyIs(J.Group(), Last(groups)));
      assert j.groupId in groups <==> j.groupId in Front(groups) || j.groupId == Last(groups);
    }
  }

  /** The same for a fetch over several groups: it returns exactly the live requests of
      the groups asked for that it does not acknowledge itself. */
  lemma JoinFetchedInBatch(ops: seq<Op>, j: JoinRequest, groups: seq<Name>, accepted: seq<ConsumedGroupJoin>)
    ensures var answer := DbAsk(DbRun(ops), FetchManyJoins(groups, accepted)).1;
            answer.Joins? && (j in answer.requests <==>
              && j.groupId in groups && (exists i: nat :: JoinLives(ops, j, i))
              && ConsumedGroupJoin(j.groupId, j.requester, j.createdAt) !in accepted)
    ensures var op := FetchManyJoins(groups, accepted);
            MemAsk(MemRun(ops), op).1 == DbAsk(DbRun(ops), op).1
  {
    hide DbAsk, MemAsk, Run, DbRun, MemRun, JoinLives, J.FetchEach;
    var op := FetchManyJoins(groups, accepted);
    QueueParity(ops, op);
    var s := Run(ops).joins;
    JoinPendingIff(ops, j);
    J.BatchIsLoop(s, groups, accepted);
    FetchEachMembers(s, groups, accepted, j);
    JoinGroupsMembers(J.FetchEach(s, groups, accepted).0, groups, j);
  }

  /** After every run: one entry per requester and group, at most 100 per group; and
      a request is refused exactly when it is a new entry for a full group. */
  lemma CapOnlyStopsNewEntries(ops: seq<Op>, j: JoinRequest)
    ensures J.JoinInv(Run(ops).joins)
    ensures MemAsk(MemRun(ops), StoreJoin(j)).1 == DbAsk(DbRun(ops), StoreJoin(j)).1
    ensures DbAsk(DbRun(ops), StoreJoin(j)).1 == Failed(TooManyPendingJoinRequests) <==>
            && |Pending(Run(ops).joins, J.Group(), j.groupId)| == 100
            && forall x :: x in Run(ops).joins ==> x.groupId != j.groupId || x.requester != j.requester
  {
    hide DbAsk, MemAsk, Run, DbRun, MemRun, Pending, J.UniqueEntries;
    RunInv(ops);
    QueueParity(ops, StoreJoin(j));
    J.FoundEntry(Run(ops).joins, j);
    assert |Pending(Run(ops).joins, J.Group(), j.groupId)| <= J.MAX_PENDING;
  }

  // ----- Queue positions -----

  /** The entry of `a` stands before the entry of `b`. */
  ghost predicate Before(s: J.Joins, a: JoinRequest, b: JoinRequest) {
    exists i, k :: 0 <= i < k < |s| && J.SameEntry(a)(s[i]) && J.SameEntry(b)(s[k])
  }

  ghost predicate Present(s: J.Joins, a: JoinRequest) {
    exists x :: x in s && J.SameEntry(a)(x)
  }

  lemma EntryAt(s: J.Joins, q: JoinRequest -> bool, a: JoinRequest, i: nat)
    requires J.UniqueEntries(s) && i < |s| && J.SameEntry(a)(s[i]) && Present(Filter(s, q), a)
    ensures q(s[i])
  {
    hide J.UniqueEntries;
    FilterMembers(s, q);
    var x :| x in Filter(s, q) && J.SameEntry(a)(x);
    OneEntry(s, x, s[i]);
  }

  lemma OneEntry(s: J.Joins, x: JoinRequest, y: JoinRequest)
    requires J.UniqueEntries(s) && x in s && y in s && x.groupId == y.groupId && x.requester == y.requester
    ensures x == y
  {
  }

  lemma FilterKeepsOrder(s: J.Joins, q: JoinRequest -> bool, a: JoinRequest, b: JoinRequest)
    requires J.UniqueEntries(s) && Before(s, a, b)
    requires Present(Filter(s, q), a) && Present(Filter(s, q), b)
    ensures Before(Filter(s, q), a, b)
  {
    var i, k :| 0 <= i < k < |s| && J.SameEntry(a)(s[i]) && J.SameEntry(b)(s[k]);
    EntryAt(s, q, a, i);
    EntryAt(s, q, b, k);
    var u, v := FilterOrder(s, q, i, k);
  }

  lemma StoreKeepsOrder(s: J.Joins, r: JoinRequest, a: JoinRequest, b: JoinRequest)
    requires Before(s, a, b) && J.Store(s, r).Some?
    ensures Before(J.Store(s, r).value, a, b)
  {
    var i, k :| 0 <= i < k < |s| && J.SameEntry(a)(s[i]) && J.SameEntry(b)(s[k]);
    var t := J.Store(s, r).value;
    assert J.SameEntry(a)(t[i]) && J.SameEntry(b)(t[k]);
  }

  lemma {:induction false} RetireEachPresent(
    s: J.Joins, groups: seq<Name>, consumed: seq<ConsumedGroupJoin>, a: JoinRequest)
    requires groups != [] && Present(J.RetireEach(s, groups, consumed), a)
    ensures Present(J.RetireEach(s, Front(groups), consumed), a)
  {
    FilterMembers(J.RetireEach(s, Front(groups), consumed),
                  Unacked(J.Group(), J.JoinAck(), Last(groups), J.Part(consumed, Last(groups))));
  }

  lemma {:induction false} RetireEachKeepsOrder(
    s: J.Joins, groups: seq<Name>, consumed: seq<ConsumedGroupJoin>, a: JoinRequest, b: JoinRequest)
    requires J.UniqueEntries(s) && Before(s, a, b)
    requires Present(J.RetireEach(s, groups, consumed), a) && Present(J.RetireEach(s, groups, consumed), b)
    ensures J.UniqueEntries(J.RetireEach(s, groups, consumed)) && Before(J.RetireEach(s, groups, consumed), a, b)
  {
    hide Before, Present, J.UniqueEntries;
    if groups != [] {
      RetireEachPresent(s, groups, consumed, a);
      RetireEachPresent(s, groups, consumed, b);
      RetireEachKeepsOrder(s, Front(groups), consumed, a, b);
      var q := Unacked(J.Group(), J.JoinAck(), Last(groups), J.Part(consumed, Last(groups)));
      J.UniqueFilter(J.RetireEach(s, Front(groups), consumed), q);
      FilterKeepsOrder(J.RetireEach(s, Front(groups), consumed), q, a, b);
    }
  }

  /** No step lets one entry overtake another: a refreshed request keeps its place. */
  lemma StepKeepsOrder(s: Store, op: Op, a: JoinRequest, b: JoinRequest)
    requires StoreInv(s) && Before(s.joins, a, b)
    requires Present(Ask(s, op).0.joins, a) && Present(Ask(s, op).0.joins, b)
    ensures Before(Ask(s, op).0.joins, a, b)
  {
    hide Before, Present, J.UniqueEntries, J.Store, K.Held, K.Consume, K.Choice, K.Find, K.Remove;
    match op
    case StoreJoin(r) =>
      if J.Store(s.joins, r).Some? {
        StoreKeepsOrder(s.joins, r, a, b);
      }
    case FetchJoins(g, accepted) => FilterKeepsOrder(s.joins, Unacked(J.Group(), J.JoinAck(), g, accepted), a, b);
    case FetchManyJoins(groups, acceptedIn) =>
      J.BatchIsLoop(s.joins, groups, acceptedIn);
      RetireEachKeepsOrder(s.joins, groups, acceptedIn, a, b);
    case ExpireJoins(threshold) =>
      if threshold > 0 {
        FilterKeepsOrder(s.joins, NotBefore(J.Created(), threshold), a, b);
      }
    case _ =>
  }

  /** Both entries are in the queue after each of the steps. */
  ghost predicate StayPresent(ops: seq<Op>, more: seq<Op>, a: JoinRequest, b: JoinRequest) {
    forall k :: 0 <= k <= |more| ==> Present(Run(ops + more[..k]).joins, a) && Present(Run(ops + more[..k]).joins, b)
  }

  /** Queue order is kept over whole runs, for as long as both entries stay. */
  lemma {:induction false} OrderIsKept(ops: seq<Op>, more: seq<Op>, a: JoinRequest, b: JoinRequest)
    requires Before(Run(ops).joins, a, b) && StayPresent(ops, more, a, b)
    ensures Before(Run(ops + more).joins, a, b)
    decreases |more|
  {
    hide Before, Present, Ask, StoreInv;
    if more == [] {
      assert ops + more == ops;
    } else {
      var before := Front(more);
      forall k | 0 <= k <= |before|
        ensures Present(Run(ops + before[..k]).joins, a) && Present(Run(ops + before[..k]).joins, b)
      {
        assert before[..k] == more[..k];
      }
      OrderIsKept(ops, before, a, b);
      RunInv(ops + before);
      assert more[..|more|] == more;
      assert Front(ops + more) == ops + before && Last(ops + more) == Last(more);
      StepKeepsOrder(Run(ops + before), Last(more), a, b);
    }
  }
}
