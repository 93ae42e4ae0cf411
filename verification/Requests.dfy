/** The group list of a multi-group subscription, duplicates included: the map of
    starting cursors built from it (last entry wins) and the backlog fetched for
    it (every entry counts), and what the two together let through. */
module Requests {
  import opened Seqs
  import opened Records
  import opened GroupLogs
  import S = Streams

  function Cursors(groups: seq<FetchInput>): map<Name, int> {
    if groups == [] then map[] else Cursors(Front(groups))[Last(groups).groupId := Last(groups).After()]
  }

  /** The distinct group ids, in order of first appearance. */
  function GroupIds(groups: seq<FetchInput>): seq<Name> {
    if groups == [] then []
    else if Last(groups).groupId in GroupIds(Front(groups)) then GroupIds(Front(groups))
    else GroupIds(Front(groups)) + [Last(groups).groupId]
  }

  lemma {:induction false} GroupIdsDistinct(groups: seq<FetchInput>)
    ensures Distinct(GroupIds(groups))
    ensures forall g :: g in GroupIds(groups) <==> g in Cursors(groups)
    ensures forall g :: g in Cursors(groups) <==> exists i :: 0 <= i < |groups| && groups[i].groupId == g
  {
    if groups != [] {
      GroupIdsDistinct(Front(groups));
      var f := Front(groups);
      assert Last(groups) == groups[|groups| - 1];
      forall g | g in Cursors(f)
        ensures exists i :: 0 <= i < |groups| && groups[i].groupId == g
      {
        var i :| 0 <= i < |f| && f[i].groupId == g;
        assert groups[i].groupId == g;
      }
      forall i | 0 <= i < |groups|
        ensures groups[i].groupId in Cursors(groups)
      {
        if i < |f| {
          assert f[i].groupId == groups[i].groupId;
        }
      }
    }
  }

  /** The loop at the head of `subscribe_many_group_messages`: an insertion-ordered
      map is a map plus the order in which its keys first arrived. */
  method Collect(groups: seq<FetchInput>) returns (ids: seq<Name>, cursors: map<Name, int>)
    ensures ids == GroupIds(groups) && cursors == Cursors(groups)
    ensures Distinct(ids) && forall g :: g in ids <==> g in cursors
  {
    ids, cursors := [], map[];
    for i := 0 to |groups|
      invariant ids == GroupIds(groups[..i]) && cursors == Cursors(groups[..i])
    {
      var g := groups[i].groupId;
      GroupIdsDistinct(groups[..i]);
      if g !in cursors {
        ids := ids + [g];
      }
      cursors := cursors[g := groups[i].After()];
      assert Front(groups[..i + 1]) == groups[..i];
    }
    assert groups[..|groups|] == groups;
    GroupIdsDistinct(groups);
  }

  // ----- What reaches the stream from the backlog -----

  /** The first entry for `g` with anything to fetch from a log of `n` records, if any. */
  function FirstBelow(groups: seq<FetchInput>, g: Name, n: int): Option<int> {
    if groups == [] then None
    else if FirstBelow(Front(groups), g, n).Some? then FirstBelow(Front(groups), g, n)
    else if Last(groups).groupId == g && Max(Last(groups).After(), 0) < n then Some(Last(groups).After())
    else None
  }

  /** The cursor above which records of `g` are really delivered when its log
      holds `n` records at the time of the backlog fetch. */
  function Effective(groups: seq<FetchInput>, g: Name, n: int): int
    requires g in Cursors(groups)
  {
    match FirstBelow(groups, g, n)
    case None => Cursors(groups)[g]
    case Some(a) => Max(a, Cursors(groups)[g])
  }

  lemma {:induction false} NoneBelow(groups: seq<FetchInput>, g: Name, n: int)
    requires g in Cursors(groups) && FirstBelow(groups, g, n).None?
    ensures Max(Cursors(groups)[g], 0) >= n
  {
    if Last(groups).groupId != g {
      NoneBelow(Front(groups), g, n);
    }
  }

  lemma {:induction false} FirstBelowIsBelow(groups: seq<FetchInput>, g: Name, n: int)
    ensures FirstBelow(groups, g, n).Some? ==> Max(FirstBelow(groups, g, n).value, 0) < n
  {
    if groups != [] {
      FirstBelowIsBelow(Front(groups), g, n);
    }
  }

  lemma {:induction false} MaximaBetween(log: seq<Message>, g: Name, lo: int, hi: nat, floor: int)
    requires DenseLog(log, g) && hi <= |log|
    ensures S.Maxima(Between(log, lo, hi), floor) == Between(log, Max(lo, floor), hi)
    ensures S.Top(Between(log, lo, hi), floor) == if Max(lo, 0) < hi then Max(floor, hi) else floor
  {
    if hi > 0 {
      MaximaBetween(log, g, lo, hi - 1, floor);
      BetweenGrows(log, lo, hi);
      BetweenGrows(log, Max(lo, floor), hi);
      S.MaximaPush(Between(log, lo, hi - 1), log[hi - 1], floor);
    }
  }

  lemma FetchOfGroup(logs: Logs, h: Name, after: int, g: Name)
    requires Dense(logs)
    ensures Filter(Fetch(logs, h, after), OfGroup(g)) ==
            if h == g then Between(Log(logs, g), after, |Log(logs, g)|) else []
  {
    FetchIsSuffix(logs, h, after);
    var ms := Fetch(logs, h, after);
    assert forall m :: m in ms ==> m.groupId == h;
    if h == g {
      FilterAll(ms, OfGroup(g));
    } else {
      FilterNone(ms, OfGroup(g));
    }
  }

  /** From the first entry below `n` on, the stream has everything up to `n`, so
      later entries for the same group add nothing. */
  lemma {:induction false} BacklogMaxima(logs: Logs, groups: seq<FetchInput>, g: Name, floor: int)
    requires Dense(logs)
    ensures var n := |Log(logs, g)|; var first := FirstBelow(groups, g, n);
            var mine := Filter(FetchMany(logs, groups), OfGroup(g));
            && S.Maxima(mine, floor) == (if first.None? then [] else Between(Log(logs, g), Max(first.value, floor), n))
            && S.Top(mine, floor) == (if first.None? then floor else Max(floor, n))
  {
    if groups != [] {
      var log, e := Log(logs, g), Last(groups);
      var n := |log|;
      BacklogMaxima(logs, Front(groups), g, floor);
      FetchOfGroup(logs, e.groupId, e.After(), g);
      FilterConcat(FetchMany(logs, Front(groups)), Fetch(logs, e.groupId, e.After()), OfGroup(g));
      var mine := Filter(FetchMany(logs, Front(groups)), OfGroup(g));
      BacklogStep(log, g, mine, e, floor, FirstBelow(Front(groups), g, n));
    } else {
      assert Filter(FetchMany(logs, groups), OfGroup(g)) == [];
    }
  }

  lemma BacklogStep(log: seq<Message>, g: Name, mine: seq<Message>, e: FetchInput, floor: int, first: Option<int>)
    requires DenseLog(log, g)
    requires S.Maxima(mine, floor) == (if first.None? then [] else Between(log, Max(first.value, floor), |log|))
    requires S.Top(mine, floor) == (if first.None? then floor else Max(floor, |log|))
    ensures var first' := if first.Some? then first
                          else if e.groupId == g && Max(e.After(), 0) < |log| then Some(e.After()) else None;
            var mine' := mine + if e.groupId == g then Between(log, e.After(), |log|) else [];
            && S.Maxima(mine', floor) == (if first'.None? then [] else Between(log, Max(first'.value, floor), |log|))
            && S.Top(mine', floor) == (if first'.None? then floor else Max(floor, |log|))
  {
    var n := |log|;
    if e.groupId == g {
      var seg := Between(log, e.After(), n);
      S.MaximaConcat(mine, seg, floor);
      MaximaBetween(log, g, e.After(), n, S.Top(mine, floor));
    } else {
      assert mine + [] == mine;
    }
  }

  /** The backlog contributes exactly the records above `Effective`. */
  lemma BacklogDelivers(logs: Logs, groups: seq<FetchInput>, g: Name)
    requires Dense(logs) && g in Cursors(groups)
    ensures var log := Log(logs, g); var mine := Filter(FetchMany(logs, groups), OfGroup(g));
            && S.Maxima(mine, Cursors(groups)[g]) == Between(log, Effective(groups, g, |log|), |log|)
            && Max(S.Top(mine, Cursors(groups)[g]), 0) == Max(Cursors(groups)[g], |log|)
  {
    var n := |Log(logs, g)|;
    BacklogMaxima(logs, groups, g, Cursors(groups)[g]);
    if FirstBelow(groups, g, n).None? {
      NoneBelow(groups, g, n);
    }
  }

  // ----- When duplicate entries lose records -----

  /** The first entry for `g`. */
  function First(groups: seq<FetchInput>, g: Name): int
    requires g in Cursors(groups)
  {
    if g in Cursors(Front(groups)) then First(Front(groups), g) else Last(groups).After()
  }

  ghost predicate BacklogComplete(logs: Logs, groups: seq<FetchInput>, g: Name)
    requires g in Cursors(groups)
  {
    var log := Log(logs, g);
    S.Maxima(Filter(FetchMany(logs, groups), OfGroup(g)), Cursors(groups)[g]) == Between(log, Cursors(groups)[g], |log|)
  }

  lemma {:induction false} FirstBelowFirst(groups: seq<FetchInput>, g: Name, n: int)
    requires g in Cursors(groups) && Max(First(groups, g), 0) < n
    ensures FirstBelow(groups, g, n) == Some(First(groups, g))
  {
    if g in Cursors(Front(groups)) {
      FirstBelowFirst(Front(groups), g, n);
    } else {
      NotListed(Front(groups), g, n);
    }
  }

  lemma {:induction false} NotListed(groups: seq<FetchInput>, g: Name, n: int)
    requires g !in Cursors(groups)
    ensures FirstBelow(groups, g, n).None?
  {
    if groups != [] {
      NotListed(Front(groups), g, n);
    }
  }

  /** For one log: records are lost exactly when the first entry below the end of
      the log starts above the (non-negative) last cursor, and that one counts. */
  lemma CompleteForLog(logs: Logs, groups: seq<FetchInput>, g: Name)
    requires Dense(logs) && g in Cursors(groups)
    ensures var n := |Log(logs, g)|; var first := FirstBelow(groups, g, n);
            BacklogComplete(logs, groups, g) <==>
            first.None? || first.value <= Max(Cursors(groups)[g], 0) || n <= Cursors(groups)[g]
  {
    var log, last := Log(logs, g), Cursors(groups)[g];
    var n, first := |log|, FirstBelow(groups, g, |log|);
    BacklogDelivers(logs, groups, g);
    FirstBelowIsBelow(groups, g, n);
    if first.Some? && first.value > Max(last, 0) && n > last {
      assert |Between(log, first.value, n)| < |Between(log, last, n)|;
    }
  }

  function Ramp(g: Name, n: nat): seq<Message> {
    if n == 0 then [] else Ramp(g, n - 1) + [Message(n, g, [], 0)]
  }

  lemma {:induction false} RampDense(g: Name, n: nat)
    ensures |Ramp(g, n)| == n && DenseLog(Ramp(g, n), g)
  {
    if n > 0 {
      RampDense(g, n - 1);
    }
  }

  lemma LongLogLoses(groups: seq<FetchInput>, g: Name)
    requires g in Cursors(groups) && First(groups, g) > Max(Cursors(groups)[g], 0)
    ensures exists logs: Logs :: Dense(logs) && !BacklogComplete(logs, groups, g)
  {
    var n := First(groups, g) + 1;
    RampDense(g, n);
    var logs: Logs := map[g := Ramp(g, n)];
    FirstBelowFirst(groups, g, n);
    CompleteForLog(logs, groups, g);
  }

  lemma OrderedListKeeps(logs: Logs, groups: seq<FetchInput>, g: Name)
    requires Dense(logs) && g in Cursors(groups) && First(groups, g) <= Max(Cursors(groups)[g], 0)
    ensures BacklogComplete(logs, groups, g)
  {
    CompleteForLog(logs, groups, g);
    FirstBelowIsBelow(groups, g, |Log(logs, g)|);
    if Max(First(groups, g), 0) < |Log(logs, g)| {
      FirstBelowFirst(groups, g, |Log(logs, g)|);
    }
  }

  /** For all logs: a group list never loses backlog of `g` if and only if its
      first entry for `g` does not start above its last one. */
  lemma DuplicatesLoseExactly(groups: seq<FetchInput>, g: Name)
    requires g in Cursors(groups)
    ensures (forall logs: Logs :: Dense(logs) ==> BacklogComplete(logs, groups, g)) <==>
            First(groups, g) <= Max(Cursors(groups)[g], 0)
  {
    if First(groups, g) > Max(Cursors(groups)[g], 0) {
      LongLogLoses(groups, g);
    } else {
      forall logs: Logs | Dense(logs)
        ensures BacklogComplete(logs, groups, g)
      {
        OrderedListKeeps(logs, groups, g);
      }
    }
  }

  /** A list without repeated groups never loses anything. */
  lemma {:induction false} DistinctListsAgree(groups: seq<FetchInput>, g: Name)
    requires g in Cursors(groups)
    requires forall i, j :: 0 <= i < j < |groups| ==> groups[i].groupId != groups[j].groupId
    ensures First(groups, g) == Cursors(groups)[g]
  {
    var f := Front(groups);
    GroupIdsDistinct(f);
    if g in Cursors(f) {
      var i :| 0 <= i < |f| && f[i].groupId == g;
      assert groups[i].groupId == g && Last(groups) == groups[|groups| - 1];
      assert forall i, j :: 0 <= i < j < |f| ==> f[i] == groups[i] && f[j] == groups[j];
      DistinctListsAgree(f, g);
    }
  }
}
