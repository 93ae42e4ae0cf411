/** The SQLite backend as the program runs it: each method is one transaction of
    statements over the tables, proved to be the corresponding `DbAsk` step. */
module SqliteStorage {
  import opened Seqs
  import opened Records
  import opened Tables
  import opened Queues
  import opened Backends
  import opened SqlJoins
  import K = KeyStore
  import J = JoinQueues
  import M = MessageStore

  /** SELECT ... LIMIT 1 in id order. */
  method SelectFirst<R>(t: Table<R>, p: R -> bool) returns (out: Option<R>)
    ensures out == var found := Filter(t.rows, RowIs(p)); if found == [] then None else Some(found[0].rec)
  {
    for i := 0 to |t.rows|
      invariant Filter(t.rows[..i], RowIs(p)) == []
    {
      assert t.rows[..i + 1] == t.rows[..i] + [t.rows[i]];
      FilterPush(t.rows[..i], t.rows[i], RowIs(p));
      if p(t.rows[i].rec) {
        assert t.rows == t.rows[..i + 1] + t.rows[i + 1..];
        FilterConcat(t.rows[..i + 1], t.rows[i + 1..], RowIs(p));
        return Some(t.rows[i].rec);
      }
    }
    assert t.rows[..|t.rows|] == t.rows;
    out := None;
  }

  /** SELECT ... ORDER BY id: rows are read one by one. */
  method SelectAll<R>(t: Table<R>, p: R -> bool) returns (out: seq<R>)
    ensures out == Select(t, p)
  {
    out := [];
    for i := 0 to |t.rows|
      invariant out == Filter(Recs(t.rows[..i]), p)
    {
      assert t.rows[..i + 1] == t.rows[..i] + [t.rows[i]];
      assert Recs(t.rows[..i + 1]) == Recs(t.rows[..i]) + [t.rows[i].rec];
      FilterPush(Recs(t.rows[..i]), t.rows[i].rec, p);
      if p(t.rows[i].rec) {
        out := out + [t.rows[i].rec];
      }
    }
    assert t.rows[..|t.rows|] == t.rows;
    RecsFilter(t.rows, p);
  }

  /** The pairs of a join, met row by row. */
  method CollectMatches<Q, R>(requests: seq<Q>, rows: seq<Row<R>>, on: (Q, R) -> bool, rank: Row<R> -> int)
    returns (out: seq<Match<R>>)
    ensures out == Matches(requests, rows, on, rank)
  {
    out := [];
    for i := 0 to |rows|
      invariant out == Matches(requests, rows[..i], on, rank)
    {
      var found := [];
      for j := 0 to |requests|
        invariant found == RowMatches(requests[..j], rows[i], on, rank)
      {
        assert Front(requests[..j + 1]) == requests[..j];
        if on(requests[j], rows[i].rec) {
          found := found + [Match(j, rank(rows[i]), rows[i].rec)];
        }
      }
      assert requests[..|requests|] == requests && Front(rows[..i + 1]) == rows[..i];
      out := out + found;
    }
    assert rows[..|rows|] == rows;
  }

  /** SELECT from the requests joined with a table, ordered by request and rank. */
  method SelectJoined<Q, R>(requests: seq<Q>, rows: seq<Row<R>>, on: (Q, R) -> bool, rank: Row<R> -> int)
    returns (out: seq<R>)
    ensures out == Joined(requests, rows, on, rank)
  {
    hide Matches, InsertMatch;
    var matches := CollectMatches(requests, rows, on, rank);
    var sorted: seq<Match<R>> := [];
    for i := 0 to |matches|
      invariant sorted == OrderBy(matches[..i])
    {
      assert Front(matches[..i + 1]) == matches[..i];
      sorted := InsertMatch(sorted, matches[i]);
    }
    assert matches[..|matches|] == matches;
    out := [];
    for i := 0 to |sorted|
      invariant out == Project(sorted[..i])
    {
      assert Front(sorted[..i + 1]) == sorted[..i];
      out := out + [sorted[i].rec];
    }
    assert sorted[..|sorted|] == sorted;
  }

  /** One DELETE per acknowledgement. */
  method DeleteAcked<R, C(==)>(
    t: Table<R>, key: R -> Name, ack: R -> C, k: Name, consumed: seq<C>) returns (out: Table<R>)
    ensures out == SqlRetire(t, key, ack, k, consumed)
  {
    hide Keep;
    out := t;
    for i := 0 to |consumed|
      invariant out == SqlRetire(t, key, ack, k, consumed[..i])
    {
      assert Front(consumed[..i + 1]) == consumed[..i];
      out := Keep(out, NotThis(key, ack, k, consumed[i]));
    }
    assert consumed[..|consumed|] == consumed;
  }

  /** The consume query: the first row of its ORDER BY, found in one pass. */
  method SelectBest(t: Table<KeyPackage>, id: Name) returns (out: Option<KeyPackage>)
    ensures out == K.SqlOffer(t, id)
  {
    var best: Option<Row<KeyPackage>> := None;
    for i := 0 to |t.rows|
      invariant var mine := Filter(t.rows[..i], RowIs(K.Of(id)));
                if mine == [] then best == None else best == Some(K.Best(mine))
    {
      var row := t.rows[i];
      ghost var mine := Filter(t.rows[..i], RowIs(K.Of(id)));
      assert t.rows[..i + 1] == t.rows[..i] + [row];
      FilterPush(t.rows[..i], row, RowIs(K.Of(id)));
      if row.rec.stablePubkey == id {
        BestPush(mine, row);
        if best.None? || K.Precedes(row, best.value) {
          best := Some(row);
        }
      }
    }
    assert t.rows[..|t.rows|] == t.rows;
    out := if best.None? then None else Some(best.value.rec);
  }

  lemma BestPush(rows: seq<Row<KeyPackage>>, row: Row<KeyPackage>)
    ensures K.Best(rows + [row]) == if rows == [] || K.Precedes(row, K.Best(rows)) then row else K.Best(rows)
  {
    if rows != [] {
      assert Front(rows + [row]) == rows;
    }
  }

  class SqliteCoordinatorStorage {
    var kps: Table<KeyPackage>
    var welcomes: Table<Welcome>
    var joins: Table<JoinRequest>
    var messages: M.Messages

    ghost function State(): Db
      reads this
    {
      Db(kps, welcomes, joins, messages)
    }

    constructor ()
      ensures State() == EmptyDb()
    {
      kps, welcomes, joins, messages := NoRows(), NoRows(), NoRows(), M.Messages(map[], NoRows());
    }

    method PublishKeyPackage(r: KeyPackage) returns (out: Answer)
      modifies this
      ensures (State(), out) == DbAsk(old(State()), Publish(r))
    {
      var clash := SelectFirst(kps, K.HasRef(r.kpRef));
      if clash.Some? {
        return Failed(Backend);
      }
      kps := Insert(kps, r);
      out := Published(r);
    }

    method ListKeyPackagesForIdentity(id: Name) returns (out: seq<KeyPackage>)
      ensures (State(), Packages(out)) == DbAsk(State(), ListFor(id))
    {
      out := SelectAll(kps, K.Of(id));
    }

    method ListAllKeyPackages() returns (out: seq<KeyPackage>)
      ensures (State(), Everything(out)) == DbAsk(State(), ListAll)
    {
      out := Recs(kps.rows);
    }

    method GetKeyPackage(ref: Name) returns (out: Option<KeyPackage>)
      ensures (State(), Perhaps(out)) == DbAsk(State(), GetPackage(ref))
    {
      out := SelectFirst(kps, K.HasRef(ref));
    }

    method RemoveKeyPackage(ref: Name) returns (out: Option<KeyPackage>)
      modifies this
      ensures (State(), Perhaps(out)) == DbAsk(old(State()), RemovePackage(ref))
    {
      out := SelectFirst(kps, K.HasRef(ref));
      if out.Some? {
        kps := Keep(kps, K.LacksRef(ref));
      }
    }

    method ConsumeKeyPackage(identifier: Name) returns (out: Option<KeyPackage>)
      modifies this
      ensures (State(), Perhaps(out)) == DbAsk(old(State()), ConsumePackage(identifier))
    {
      hide Keep;
      out := SelectFirst(kps, K.HasRef(identifier));
      if out.Some? {
        if !out.value.isLastResort {
          kps := Keep(kps, K.LacksRef(identifier));
        }
        return;
      }
      out := SelectBest(kps, identifier);
      if out.Some? && !out.value.isLastResort {
        kps := Keep(kps, K.LacksRef(out.value.kpRef));
      }
    }

    method StoreWelcomeRecord(w: Welcome) returns (out: Welcome)
      modifies this
      ensures (State(), WelcomeStored(out)) == DbAsk(old(State()), StoreWelcome(w))
    {
      welcomes := Insert(welcomes, w);
      out := w;
    }

    method FetchPendingWelcomes(target: Name, handled: seq<ConsumedWelcome>) returns (out: seq<Welcome>)
      modifies this
      ensures (State(), Welcomes(out)) == DbAsk(old(State()), FetchWelcomes(target, handled))
    {
      welcomes := DeleteAcked(welcomes, Target(), WelcomeAck(), target, handled);
      out := SelectAll(welcomes, KeyIs(Target(), target));
    }

    method DeleteExpiredWelcomes(threshold: int) returns (deleted: int)
      modifies this
      ensures (State(), Deleted(deleted)) == DbAsk(old(State()), ExpireWelcomes(threshold))
    {
      if threshold <= 0 {
        return 0;
      }
      var before := |welcomes.rows|;
      welcomes := Keep(welcomes, NotBefore(WelcomeAt(), threshold));
      deleted := before - |welcomes.rows|;
    }

    method StoreJoinRequest(j: JoinRequest) returns (out: Answer)
      modifies this
      ensures (State(), out) == DbAsk(old(State()), StoreJoin(j))
    {
      hide Update, Insert;
      var existing := SelectFirst(joins, J.SameEntry(j));
      if existing.Some? {
        joins := Update(joins, J.Refresh(j));
        return JoinStored(j);
      }
      var inGroup := SelectAll(joins, KeyIs(J.Group(), j.groupId));
      if |inGroup| >= J.MAX_PENDING {
        return Failed(TooManyPendingJoinRequests);
      }
      joins := Insert(joins, j);
      out := JoinStored(j);
    }

    method FetchPendingJoins(g: Name, accepted: seq<ConsumedJoin>) returns (out: seq<JoinRequest>)
      modifies this
      ensures (State(), Joins(out)) == DbAsk(old(State()), FetchJoins(g, accepted))
    {
      joins := DeleteAcked(joins, J.Group(), J.JoinAck(), g, accepted);
      out := SelectAll(joins, KeyIs(J.Group(), g));
    }

    /** Retire for every group first, then join the groups with what is left, in one query. */
    method FetchManyPendingJoins(ids: seq<Name>, accepted: seq<ConsumedGroupJoin>) returns (out: seq<JoinRequest>)
      modifies this
      ensures (State(), Joins(out)) == DbAsk(old(State()), FetchManyJoins(ids, accepted))
    {
      hide SqlRetire, Joined;
      if ids == [] {
        NothingJoined(joins.rows);
        return [];
      }
      for i := 0 to |ids|
        invariant State() == old(State()).(joins := J.SqlRetireEach(old(joins), ids[..i], accepted))
      {
        assert Front(ids[..i + 1]) == ids[..i];
        joins := DeleteAcked(joins, J.Group(), J.JoinAck(), ids[i], J.Part(accepted, ids[i]));
      }
      assert ids[..|ids|] == ids;
      out := SelectJoined(ids, joins.rows, J.InGroup(), J.IdOf());
    }

    method DeleteExpiredJoins(threshold: int) returns (deleted: int)
      modifies this
      ensures (State(), Deleted(deleted)) == DbAsk(old(State()), ExpireJoins(threshold))
    {
      if threshold <= 0 {
        return 0;
      }
      var before := |joins.rows|;
      joins := Keep(joins, NotBefore(J.Created(), threshold));
      deleted := before - |joins.rows|;
    }

    /** Read the last cursor, insert the message, write the cursor back. */
    method AppendGroupMessage(g: Name, payload: Bytes, at: int) returns (out: Answer)
      modifies this
      ensures (State(), out) == DbAsk(old(State()), AppendMessage(g, payload, at))
    {
      hide Insert, Filter, DbAsk;
      AppendAsk(State(), g, payload, at);
      var last := if g in messages.routing then messages.routing[g] else 0;
      var cursor := last + 1;
      if cursor <= 0 {
        return Failed(Backend);
      }
      var clash := SelectFirst(messages.table, M.At(g, cursor));
      if clash.Some? {
        return Failed(Backend);
      }
      var m := Message(cursor, g, payload, at);
      messages := messages.(table := Insert(messages.table, m));
      messages := messages.(routing := messages.routing[g := cursor]);
      out := Appended(m);
    }

    method FetchGroupMessages(g: Name, after: Option<int>) returns (out: seq<Message>)
      ensures (State(), MessageList(out)) == DbAsk(State(), FetchMessages(g, after))
    {
      var found := SelectAll(messages.table, M.Beyond(g, M.AfterOf(after)));
      out := M.ByCursor(found);
    }

    method FetchManyGroupMessages(inputs: seq<FetchInput>) returns (out: seq<Message>)
      ensures (State(), MessageList(out)) == DbAsk(State(), FetchManyMessages(inputs))
    {
      hide Joined;
      if inputs == [] {
        NothingWanted(messages.table.rows);
        return [];
      }
      out := SelectJoined(inputs, messages.table.rows, M.Wanted(), M.CursorOf());
    }
  }

  lemma AppendAsk(d: Db, g: Name, payload: Bytes, at: int)
    ensures DbAsk(d, AppendMessage(g, payload, at)) ==
            match M.SqlAppend(d.messages, g, payload, at)
            case None => (d, Failed(Backend))
            case Some(now) => (d.(messages := now), Appended(M.SqlRecord(d.messages, g, payload, at)))
  {
  }

  lemma NothingJoined(rows: seq<Row<JoinRequest>>)
    ensures Joined([], rows, J.InGroup(), J.IdOf()) == []
  {
    NoMatches<Name, JoinRequest>(rows, J.InGroup(), J.IdOf());
  }

  lemma NothingWanted(rows: seq<Row<Message>>)
    ensures Joined([], rows, M.Wanted(), M.CursorOf()) == []
  {
    NoMatches<FetchInput, Message>(rows, M.Wanted(), M.CursorOf());
  }

  lemma {:induction false} NoMatches<Q, R>(rows: seq<Row<R>>, on: (Q, R) -> bool, rank: Row<R> -> int)
    ensures Matches([], rows, on, rank) == []
  {
    if rows != [] {
      NoMatches(Front(rows), on, rank);
    }
  }
}
