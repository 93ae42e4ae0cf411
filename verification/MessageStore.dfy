/** Group messages in the two backends: a counter and a list per group in memory;
    one message table and a routing table of last cursors in SQLite. */
module MessageStore {
  import opened Seqs
  import opened Records
  import opened GroupLogs
  import opened Tables
  import opened SqlJoins

  function AfterOf(after: Option<int>): int {
    if after.None? then 0 else after.value
  }

  // ----- In memory -----

  datatype GroupLog = GroupLog(nextCursor: int, messages: seq<Message>)

  type MemLogs = map<Name, GroupLog>

  function LogOf(m: MemLogs, g: Name): GroupLog {
    if g in m then m[g] else GroupLog(1, [])
  }

  function MemRecord(m: MemLogs, g: Name, payload: Bytes, at: int): Message {
    Message(LogOf(m, g).nextCursor, g, payload, at)
  }

  function MemAppend(m: MemLogs, g: Name, payload: Bytes, at: int): MemLogs {
    var log := LogOf(m, g);
    m[g := GroupLog(log.nextCursor + 1, log.messages + [MemRecord(m, g, payload, at)])]
  }

  function MemFetch(m: MemLogs, g: Name, after: Option<int>): seq<Message> {
    Filter(LogOf(m, g).messages, Above(AfterOf(after)))
  }

  function MemFetchMany(m: MemLogs, groups: seq<FetchInput>): seq<Message> {
    if groups == [] then []
    else MemFetchMany(m, Front(groups)) + MemFetch(m, Last(groups).groupId, Last(groups).afterCursor)
  }

  ghost predicate MemHolds(m: MemLogs, logs: Logs) {
    && Dense(logs)
    && forall g :: LogOf(m, g) == GroupLog(|Log(logs, g)| + 1, Log(logs, g))
  }

  lemma MemAppendHolds(m: MemLogs, logs: Logs, g: Name, payload: Bytes, at: int)
    requires MemHolds(m, logs)
    ensures MemHolds(MemAppend(m, g, payload, at), Append(logs, g, payload, at))
    ensures MemRecord(m, g, payload, at) == NewRecord(logs, g, payload, at)
  {
    AppendKeepsDense(logs, g, payload, at);
    assert LogOf(m, g) == GroupLog(|Log(logs, g)| + 1, Log(logs, g));
    forall h
      ensures LogOf(MemAppend(m, g, payload, at), h) ==
              var log := Log(Append(logs, g, payload, at), h); GroupLog(|log| + 1, log)
    {
      assert LogOf(m, h) == GroupLog(|Log(logs, h)| + 1, Log(logs, h));
    }
  }

  lemma {:induction false} MemFetchManyHolds(m: MemLogs, logs: Logs, groups: seq<FetchInput>)
    requires MemHolds(m, logs)
    ensures MemFetchMany(m, groups) == FetchMany(logs, groups)
  {
    if groups != [] {
      MemFetchManyHolds(m, logs, Front(groups));
      assert LogOf(m, Last(groups).groupId).messages == Log(logs, Last(groups).groupId);
    }
  }

  // ----- SQLite -----

  datatype Messages = Messages(routing: map<Name, int>, table: Table<Message>)

  function LastCursor(db: Messages, g: Name): int {
    if g in db.routing then db.routing[g] else 0
  }

  function At(g: Name, cursor: int): Message -> bool {
    (m: Message) => m.groupId == g && m.cursor == cursor
  }

  function Beyond(g: Name, cursor: int): Message -> bool {
    (m: Message) => m.groupId == g && m.cursor > cursor
  }

  function SqlRecord(db: Messages, g: Name, payload: Bytes, at: int): Message {
    Message(LastCursor(db, g) + 1, g, payload, at)
  }

  /** Refused when no cursor can be allocated or the unique (group, cursor) index
      already has it. */
  function SqlAppend(db: Messages, g: Name, payload: Bytes, at: int): Option<Messages> {
    var m := SqlRecord(db, g, payload, at);
    if m.cursor <= 0 || Filter(db.table.rows, RowIs(At(g, m.cursor))) != [] then None
    else Some(Messages(db.routing[g := m.cursor], Insert(db.table, m)))
  }

  function InsertByCursor(s: seq<Message>, m: Message): seq<Message> {
    if s == [] || Last(s).cursor <= m.cursor then s + [m] else InsertByCursor(Front(s), m) + [Last(s)]
  }

  /** ORDER BY cursor ASC. */
  function ByCursor(s: seq<Message>): seq<Message> {
    if s == [] then [] else InsertByCursor(ByCursor(Front(s)), Last(s))
  }

  function SqlFetch(db: Messages, g: Name, after: Option<int>): seq<Message> {
    ByCursor(Recs(Filter(db.table.rows, RowIs(Beyond(g, AfterOf(after))))))
  }

  function Wanted(): (FetchInput, Message) -> bool {
    (g: FetchInput, m: Message) => m.groupId == g.groupId && m.cursor > g.After()
  }

  function CursorOf(): Row<Message> -> int {
    (row: Row<Message>) => row.rec.cursor
  }

  /** The join of the requested groups with the message table, ordered by request and cursor. */
  function SqlFetchMany(db: Messages, groups: seq<FetchInput>): seq<Message> {
    Joined(groups, db.table.rows, Wanted(), CursorOf())
  }

  ghost predicate SqlHolds(db: Messages, logs: Logs) {
    && Dense(logs)
    && TableOk(db.table)
    && (forall g :: LastCursor(db, g) == |Log(logs, g)|)
    && (forall g :: Filter(Recs(db.table.rows), OfGroup(g)) == Log(logs, g))
  }

  ghost predicate NonDecreasing(s: seq<Message>) {
    forall i, j :: 0 <= i < j < |s| ==> s[i].cursor <= s[j].cursor
  }

  lemma {:induction false} InsertByCursorAdds(s: seq<Message>, m: Message)
    ensures multiset(InsertByCursor(s, m)) == multiset(s) + multiset{m}
  {
    if s != [] && Last(s).cursor > m.cursor {
      InsertByCursorAdds(Front(s), m);
      assert s == Front(s) + [Last(s)];
    }
  }

  lemma {:induction false} InsertByCursorSorts(s: seq<Message>, m: Message)
    requires NonDecreasing(s)
    ensures NonDecreasing(InsertByCursor(s, m))
  {
    if s != [] && Last(s).cursor > m.cursor {
      InsertByCursorSorts(Front(s), m);
      var t := InsertByCursor(Front(s), m);
      InsertByCursorAdds(Front(s), m);
      forall i | 0 <= i < |t|
        ensures t[i].cursor <= Last(s).cursor
      {
        assert t[i] in multiset(t);
        assert t[i] == m || t[i] in Front(s);
      }
    }
  }

  lemma {:induction false} ByCursorSorts(s: seq<Message>)
    ensures NonDecreasing(ByCursor(s))
    ensures multiset(ByCursor(s)) == multiset(s)
  {
    if s != [] {
      ByCursorSorts(Front(s));
      InsertByCursorSorts(ByCursor(Front(s)), Last(s));
      InsertByCursorAdds(ByCursor(Front(s)), Last(s));
      assert s == Front(s) + [Last(s)];
    }
  }

  lemma {:induction false} ByCursorKeeps(s: seq<Message>)
    requires NonDecreasing(s)
    ensures ByCursor(s) == s
  {
    if s != [] {
      ByCursorKeeps(Front(s));
    }
  }

  lemma {:induction false} FilterNonDecreasing(s: seq<Message>, q: Message -> bool)
    requires NonDecreasing(s)
    ensures NonDecreasing(Filter(s, q))
  {
    if s != [] {
      FilterNonDecreasing(Front(s), q);
      FilterMembers(Front(s), q);
      forall x | x in Filter(Front(s), q)
        ensures x.cursor <= Last(s).cursor
      {
        assert x in Front(s);
      }
    }
  }

  lemma SqlFetchHolds(db: Messages, logs: Logs, g: Name, after: Option<int>)
    requires SqlHolds(db, logs)
    ensures SqlFetch(db, g, after) == Fetch(logs, g, AfterOf(after))
  {
    var recs, c := Recs(db.table.rows), AfterOf(after);
    RecsFilter(db.table.rows, Beyond(g, c));
    FilterTwice(recs, OfGroup(g), Above(c), Beyond(g, c));
    assert Filter(recs, OfGroup(g)) == Log(logs, g);
    FilterNonDecreasing(Log(logs, g), Above(c));
    ByCursorKeeps(Fetch(logs, g, c));
  }

  /** Messages of one group stand in the table in cursor order. */
  lemma CursorsClimb(db: Messages, logs: Logs)
    requires SqlHolds(db, logs)
    ensures Climbs(db.table.rows, Wanted(), CursorOf())
  {
    var rows, recs := db.table.rows, Recs(db.table.rows);
    forall g: FetchInput, i, j | 0 <= i < j < |rows| && Wanted()(g, rows[i].rec) && Wanted()(g, rows[j].rec)
      ensures CursorOf()(rows[i]) < CursorOf()(rows[j])
    {
      var u, v := FilterOrder(recs, OfGroup(g.groupId), i, j);
      assert Filter(recs, OfGroup(g.groupId)) == Log(logs, g.groupId);
    }
  }

  lemma {:induction false} RequestsFetch(db: Messages, logs: Logs, groups: seq<FetchInput>)
    requires SqlHolds(db, logs)
    ensures PerRequest(groups, Recs(db.table.rows), Wanted()) == FetchMany(logs, groups)
  {
    if groups != [] {
      RequestsFetch(db, logs, Front(groups));
      var recs, g, c := Recs(db.table.rows), Last(groups).groupId, Last(groups).After();
      FilterTwice(recs, OfGroup(g), Above(c), On(Wanted(), Last(groups)));
      assert Filter(recs, OfGroup(g)) == Log(logs, g);
    }
  }

  /** The one join over all requested groups is the merged page of the contract. */
  lemma SqlFetchManyHolds(db: Messages, logs: Logs, groups: seq<FetchInput>)
    requires SqlHolds(db, logs)
    ensures SqlFetchMany(db, groups) == FetchMany(logs, groups)
  {
    hide Climbs, Joined, SqlHolds;
    CursorsClimb(db, logs);
    JoinIsPerRequest(groups, db.table.rows, Wanted(), CursorOf());
    RequestsFetch(db, logs, groups);
  }

  /** No cursor of a group is taken beyond its last one. */
  lemma CursorIsFree(db: Messages, logs: Logs, g: Name)
    requires SqlHolds(db, logs)
    ensures Filter(db.table.rows, RowIs(At(g, LastCursor(db, g) + 1))) == []
  {
    var recs, c := Recs(db.table.rows), LastCursor(db, g) + 1;
    RecsFilter(db.table.rows, At(g, c));
    FilterMembers(recs, OfGroup(g));
    assert Filter(recs, OfGroup(g)) == Log(logs, g);
    FilterNone(recs, At(g, c));
  }

  lemma InsertedFor(t: Table<Message>, log: seq<Message>, m: Message, h: Name)
    requires Filter(Recs(t.rows), OfGroup(h)) == log
    ensures Filter(Recs(Insert(t, m).rows), OfGroup(h)) == if m.groupId == h then log + [m] else log
  {
    assert Recs(Insert(t, m).rows) == Recs(t.rows) + [m];
    FilterPush(Recs(t.rows), m, OfGroup(h));
  }

  /** SQLite never refuses an append, and allocates the cursor the contract asks for. */
  lemma SqlAppendHolds(db: Messages, logs: Logs, g: Name, payload: Bytes, at: int)
    requires SqlHolds(db, logs)
    ensures SqlAppend(db, g, payload, at).Some?
    ensures SqlHolds(SqlAppend(db, g, payload, at).value, Append(logs, g, payload, at))
    ensures SqlRecord(db, g, payload, at) == NewRecord(logs, g, payload, at)
  {
    hide Filter, Recs, DenseLog;
    var m, logs' := SqlRecord(db, g, payload, at), Append(logs, g, payload, at);
    CursorIsFree(db, logs, g);
    AppendKeepsDense(logs, g, payload, at);
    assert LastCursor(db, g) == |Log(logs, g)|;
    var db' := SqlAppend(db, g, payload, at).value;
    forall h
      ensures LastCursor(db', h) == |Log(logs', h)|
    {
      assert LastCursor(db, h) == |Log(logs, h)|;
    }
    forall h
      ensures Filter(Recs(db'.table.rows), OfGroup(h)) == Log(logs', h)
    {
      InsertedFor(db.table, Log(logs, h), m, h);
    }
  }
}
