/** Per-group message logs with per-group cursors: the part of the storage
    contract (storage/mod.rs) that delivery relies on. Both backends are shown to
    implement these functions in `Parity`. */
module GroupLogs {
  import opened Seqs
  import opened Records
  import S = Streams

  type Logs = map<Name, seq<Message>>

  function Log(logs: Logs, g: Name): seq<Message> {
    if g in logs then logs[g] else []
  }

  function NewRecord(logs: Logs, g: Name, payload: Bytes, at: int): Message {
    Message(|Log(logs, g)| + 1, g, payload, at)
  }

  function Append(logs: Logs, g: Name, payload: Bytes, at: int): Logs {
    logs[g := Log(logs, g) + [NewRecord(logs, g, payload, at)]]
  }

  function Fetch(logs: Logs, g: Name, after: int): seq<Message> {
    Filter(Log(logs, g), Above(after))
  }

  function FetchMany(logs: Logs, groups: seq<FetchInput>): seq<Message> {
    if groups == [] then []
    else FetchMany(logs, Front(groups)) + Fetch(logs, Last(groups).groupId, Last(groups).After())
  }

  /** A log of `g` carries the cursors 1, 2, 3, ... without a gap. */
  ghost predicate DenseLog(log: seq<Message>, g: Name) {
    forall i :: 0 <= i < |log| ==> log[i].cursor == i + 1 && log[i].groupId == g
  }

  ghost predicate Dense(logs: Logs) {
    forall g :: g in logs ==> DenseLog(logs[g], g)
  }

  /** Cursors are allocated per group, densely, whatever the other groups do. */
  lemma AppendKeepsDense(logs: Logs, g: Name, payload: Bytes, at: int)
    requires Dense(logs)
    ensures Dense(Append(logs, g, payload, at))
    ensures forall h :: Log(Append(logs, g, payload, at), h) ==
              if h == g then Log(logs, g) + [NewRecord(logs, g, payload, at)] else Log(logs, h)
  {
  }

  /** The records of a dense log with cursor in (lo, hi]. */
  function Between(log: seq<Message>, lo: int, hi: int): seq<Message> {
    if Max(lo, 0) >= Min(hi, |log|) then [] else log[Max(lo, 0)..Min(hi, |log|)]
  }

  /** `Between` means what its name says. */
  lemma BetweenMeaning(log: seq<Message>, g: Name, lo: int, hi: int)
    requires DenseLog(log, g)
    ensures S.Ascending(Between(log, lo, hi))
    ensures forall m :: m in Between(log, lo, hi) <==> m in log && lo < m.cursor <= hi
  {
    forall m | m in log && lo < m.cursor <= hi
      ensures m in Between(log, lo, hi)
    {
      var i :| 0 <= i < |log| && log[i] == m;
      assert Between(log, lo, hi)[i - Max(lo, 0)] == m;
    }
  }

  lemma BetweenGrows(log: seq<Message>, lo: int, hi: nat)
    requires 0 < hi <= |log|
    ensures Between(log, lo, hi) == if lo < hi then Between(log, lo, hi - 1) + [log[hi - 1]] else []
  {
  }

  lemma {:induction false} FilterPrefix(log: seq<Message>, g: Name, c: int, k: nat)
    requires DenseLog(log, g) && k <= |log|
    ensures Filter(log[..k], Above(c)) == Between(log, c, k)
  {
    if k > 0 {
      hide Between, Filter;
      FilterPrefix(log, g, c, k - 1);
      assert log[k - 1].cursor == k;
      assert log[..k] == log[..k - 1] + [log[k - 1]];
      FilterPush(log[..k - 1], log[k - 1], Above(c));
      BetweenGrows(log, c, k);
      NothingBetween(log, c, k - 1);
    }
  }

  lemma NothingBetween(log: seq<Message>, lo: int, hi: int)
    ensures lo >= hi ==> Between(log, lo, hi) == []
  {
  }

  /** A fetch after `c` is exactly the part of the log beyond `c`. */
  lemma FetchIsSuffix(logs: Logs, g: Name, c: int)
    requires Dense(logs)
    ensures Fetch(logs, g, c) == Between(Log(logs, g), c, |Log(logs, g)|)
    ensures 0 <= c <= |Log(logs, g)| ==> Fetch(logs, g, c) == Log(logs, g)[c..]
  {
    var log := Log(logs, g);
    FilterPrefix(log, g, c, |log|);
    assert log[..|log|] == log;
  }

  // ----- Paging -----

  datatype PageStep = Post(groupId: Name, payload: Bytes, at: int) | Poll

  datatype Reader = Reader(logs: Logs, got: seq<Message>)

  function Position(got: seq<Message>): int {
    if got == [] then 0 else Last(got).cursor
  }

  /** The reader of `g` fetches after the last cursor it holds; posts are to any group. */
  function Page(r: Reader, g: Name, step: PageStep): Reader {
    match step
    case Post(h, payload, at) => r.(logs := Append(r.logs, h, payload, at))
    case Poll => r.(got := r.got + Fetch(r.logs, g, Position(r.got)))
  }

  function PageAll(g: Name, steps: seq<PageStep>): Reader {
    if steps == [] then Reader(map[], []) else Page(PageAll(g, Front(steps)), g, Last(steps))
  }

  /** However posts and polls interleave, the reader holds a prefix of the log:
      nothing twice, nothing skipped, and everything right after a poll. */
  lemma {:induction false} PagingIsExact(g: Name, steps: seq<PageStep>)
    ensures var r := PageAll(g, steps); Dense(r.logs) && r.got <= Log(r.logs, g)
    ensures steps != [] && Last(steps).Poll? ==> PageAll(g, steps).got == Log(PageAll(g, steps).logs, g)
  {
    if steps != [] {
      PagingIsExact(g, Front(steps));
      var r := PageAll(g, Front(steps));
      match Last(steps)
      case Post(h, payload, at) => AppendKeepsDense(r.logs, h, payload, at);
      case Poll => PollIsExact(r.logs, r.got, g);
    }
  }

  /** A poll after the last cursor held completes a prefix of the log. */
  lemma PollIsExact(logs: Logs, got: seq<Message>, g: Name)
    requires Dense(logs) && got <= Log(logs, g)
    ensures got + Fetch(logs, g, Position(got)) == Log(logs, g)
  {
    hide Fetch;
    assert Position(got) == |got|;
    FetchIsSuffix(logs, g, |got|);
    assert got + Log(logs, g)[|got|..] == Log(logs, g);
  }
}
