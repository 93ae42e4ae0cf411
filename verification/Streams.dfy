/** One live subscription (`Subscriber` in coordinator.rs): per-group cursor
    de-duplication, buffering of live records while the backlog is replayed, and
    the stream that reaches the receiver, as values. */
module Streams {
  import opened Seqs
  import opened Records

  datatype Sub = Sub(
    dedup: bool, cursors: map<Name, int>, buffering: bool, buffer: seq<Message>, sent: seq<Message>)

  /** The cursor above which a record of group `g` counts as new. */
  function Seen(s: Sub, g: Name): int {
    if g in s.cursors then s.cursors[g] else 0
  }

  function EmitIfNew(s: Sub, m: Message): Sub {
    if !s.dedup then s.(sent := s.sent + [m])
    else if m.cursor > Seen(s, m.groupId) then
      s.(cursors := s.cursors[m.groupId := m.cursor], sent := s.sent + [m])
    else s
  }

  function EmitAll(s: Sub, ms: seq<Message>): Sub {
    if ms == [] then s else EmitIfNew(EmitAll(s, Front(ms)), Last(ms))
  }

  function Push(s: Sub, m: Message): Sub {
    if s.buffering then s.(buffer := s.buffer + [m]) else EmitIfNew(s, m)
  }

  function FinishBuffering(s: Sub): Sub {
    EmitAll(s.(buffering := false, buffer := []), s.buffer)
  }

  lemma EmitAllPush(s: Sub, ms: seq<Message>, m: Message)
    ensures EmitAll(s, ms + [m]) == EmitIfNew(EmitAll(s, ms), m)
  {
    assert Front(ms + [m]) == ms;
  }

  lemma {:induction false} EmitAllConcat(s: Sub, ms: seq<Message>, ns: seq<Message>)
    ensures EmitAll(s, ms + ns) == EmitAll(EmitAll(s, ms), ns)
  {
    if ns == [] {
      assert ms + ns == ms;
    } else {
      assert Front(ms + ns) == ms + Front(ns) && Last(ms + ns) == Last(ns);
      EmitAllConcat(s, ms, Front(ns));
    }
  }

  // ----- What de-duplication by cursor keeps: the running maxima -----

  /** The largest of `floor` and the cursors in `ms`. */
  function Top(ms: seq<Message>, floor: int): int {
    if ms == [] then floor else Max(Top(Front(ms), floor), Last(ms).cursor)
  }

  /** The records of `ms` whose cursor exceeds `floor` and every earlier cursor. */
  function Maxima(ms: seq<Message>, floor: int): seq<Message> {
    if ms == [] then []
    else if Last(ms).cursor > Top(Front(ms), floor) then Maxima(Front(ms), floor) + [Last(ms)]
    else Maxima(Front(ms), floor)
  }

  lemma MaximaPush(ms: seq<Message>, m: Message, floor: int)
    ensures Top(ms + [m], floor) == Max(Top(ms, floor), m.cursor)
    ensures Maxima(ms + [m], floor) == if m.cursor > Top(ms, floor) then Maxima(ms, floor) + [m] else Maxima(ms, floor)
  {
    assert Front(ms + [m]) == ms;
  }

  /** One emission, seen from one group. */
  lemma EmitProjects(t: Sub, m: Message, g: Name, before: seq<Message>, mine: seq<Message>, floor: int)
    requires t.dedup
    requires Seen(t, g) == Top(mine, floor)
    requires Filter(t.sent, OfGroup(g)) == before + Maxima(mine, floor)
    ensures EmitIfNew(t, m).dedup
    ensures Seen(EmitIfNew(t, m), g) == Top(if m.groupId == g then mine + [m] else mine, floor)
    ensures Filter(EmitIfNew(t, m).sent, OfGroup(g)) ==
            before + Maxima(if m.groupId == g then mine + [m] else mine, floor)
  {
    hide Maxima, Top, Filter;
    FilterPush(t.sent, m, OfGroup(g));
    if m.groupId == g {
      MaximaPush(mine, m, floor);
    }
  }

  /** De-duplication acts on each group alone: the records of `g` that reach the
      stream are the running maxima of the records of `g` offered to it. */
  lemma {:induction false} EmitAllProjects(s: Sub, ms: seq<Message>, g: Name)
    requires s.dedup
    ensures EmitAll(s, ms).dedup
    ensures Seen(EmitAll(s, ms), g) == Top(Filter(ms, OfGroup(g)), Seen(s, g))
    ensures Filter(EmitAll(s, ms).sent, OfGroup(g)) ==
            Filter(s.sent, OfGroup(g)) + Maxima(Filter(ms, OfGroup(g)), Seen(s, g))
  {
    if ms != [] {
      EmitAllProjects(s, Front(ms), g);
      EmitProjects(EmitAll(s, Front(ms)), Last(ms), g,
                   Filter(s.sent, OfGroup(g)), Filter(Front(ms), OfGroup(g)), Seen(s, g));
    }
  }

  /** The stream only grows, and only by records that were offered. */
  lemma {:induction false} EmitAllExtends(s: Sub, ms: seq<Message>)
    ensures s.sent <= EmitAll(s, ms).sent
    ensures forall m :: m in EmitAll(s, ms).sent ==> m in s.sent || m in ms
  {
    if ms != [] {
      EmitAllExtends(s, Front(ms));
      assert ms == Front(ms) + [Last(ms)];
    }
  }

  lemma {:induction false} TopBounds(ms: seq<Message>, floor: int)
    ensures Top(ms, floor) >= floor
    ensures forall m :: m in ms ==> m.cursor <= Top(ms, floor)
    ensures Top(ms, floor) == floor || exists m :: m in ms && m.cursor == Top(ms, floor)
  {
    if ms != [] {
      TopBounds(Front(ms), floor);
      assert ms == Front(ms) + [Last(ms)];
    }
  }

  lemma {:induction false} MaximaConcat(ms: seq<Message>, ns: seq<Message>, floor: int)
    ensures Maxima(ms + ns, floor) == Maxima(ms, floor) + Maxima(ns, Top(ms, floor))
    ensures Top(ms + ns, floor) == Top(ns, Top(ms, floor))
  {
    if ns == [] {
      assert ms + ns == ms;
    } else {
      assert Front(ms + ns) == ms + Front(ns) && Last(ms + ns) == Last(ns);
      MaximaConcat(ms, Front(ns), floor);
    }
  }

  predicate Ascending(ms: seq<Message>) {
    forall i, j :: 0 <= i < j < |ms| ==> ms[i].cursor < ms[j].cursor
  }

  /** Maxima are ascending, above the floor, taken from the input, and end at its top. */
  lemma {:induction false} MaximaAscend(ms: seq<Message>, floor: int)
    ensures Ascending(Maxima(ms, floor))
    ensures forall m :: m in Maxima(ms, floor) ==> m in ms && floor < m.cursor <= Top(ms, floor)
  {
    if ms != [] {
      MaximaAscend(Front(ms), floor);
      TopBounds(Front(ms), floor);
      assert ms == Front(ms) + [Last(ms)];
    }
  }

  lemma {:induction false} TopBelow(ms: seq<Message>, floor: int, c: int)
    ensures Top(ms, floor) < c <==> floor < c && forall j :: 0 <= j < |ms| ==> ms[j].cursor < c
  {
    if ms != [] {
      TopBelow(Front(ms), floor, c);
      assert forall j :: 0 <= j < |ms| - 1 ==> Front(ms)[j] == ms[j];
      assert Last(ms) == ms[|ms| - 1];
    }
  }

  /** A record is kept exactly when it beats the floor and everything before it. */
  lemma {:induction false} MaximaKeep(ms: seq<Message>, floor: int, i: nat)
    requires i < |ms| && Distinct(ms)
    ensures ms[i] in Maxima(ms, floor) <==>
            ms[i].cursor > floor && forall j :: 0 <= j < i ==> ms[j].cursor < ms[i].cursor
  {
    hide Maxima, Top, Distinct;
    var front := Front(ms);
    LastApart(ms);
    MaximaMember(ms, floor, ms[i]);
    assert forall j :: 0 <= j < |front| ==> front[j] == ms[j];
    if i < |front| {
      assert front[i] in front;
      MaximaKeep(front, floor, i);
    } else {
      MaximaAscend(front, floor);
      TopBelow(front, floor, ms[i].cursor);
    }
  }

  lemma LastApart(ms: seq<Message>)
    requires ms != [] && Distinct(ms)
    ensures Distinct(Front(ms)) && Last(ms) !in Front(ms)
  {
  }

  lemma MaximaMember(ms: seq<Message>, floor: int, m: Message)
    requires ms != []
    ensures m in Maxima(ms, floor) <==>
            m in Maxima(Front(ms), floor) || (m == Last(ms) && m.cursor > Top(Front(ms), floor))
  {
  }

  lemma AscendingPush(ms: seq<Message>, m: Message)
    ensures Ascending(ms + [m]) <==> Ascending(ms) && forall x :: x in ms ==> x.cursor < m.cursor
  {
    var all := ms + [m];
    assert forall i :: 0 <= i < |ms| ==> all[i] == ms[i];
    assert all[|ms|] == m;
    if Ascending(all) {
      forall x | x in ms
        ensures x.cursor < m.cursor
      {
        var i :| 0 <= i < |ms| && ms[i] == x;
        assert all[i] == x;
      }
    }
  }

  /** Maxima are a subsequence of everything above the floor, so they are all of
      it exactly when the records above the floor arrive in cursor order. */
  lemma {:induction false} MaximaComplete(ms: seq<Message>, floor: int)
    ensures |Maxima(ms, floor)| <= |Filter(ms, Above(floor))|
    ensures |Maxima(ms, floor)| == |Filter(ms, Above(floor))| ==> Maxima(ms, floor) == Filter(ms, Above(floor))
    ensures Maxima(ms, floor) == Filter(ms, Above(floor)) <==> Ascending(Filter(ms, Above(floor)))
  {
    if ms != [] {
      hide Ascending;
      MaximaComplete(Front(ms), floor);
      TopBounds(Front(ms), floor);
      var kept, m := Filter(Front(ms), Above(floor)), Last(ms);
      FilterMembers(Front(ms), Above(floor));
      AscendingPush(kept, m);
      if floor < m.cursor <= Top(Front(ms), floor) {
        var x :| x in Front(ms) && x.cursor == Top(Front(ms), floor);
        assert x in kept;
      }
    }
  }
}
