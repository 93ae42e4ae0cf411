/** A join of requested items with a table: the pairs that match, in whatever order
    the scan meets them, sorted by the position of the request and then by a key
    of the row (WITH requested ... JOIN ... ORDER BY in sqlite.rs). */
module SqlJoins {
  import opened Seqs
  import opened Tables

  datatype Match<R> = Match(order: nat, sortKey: int, rec: R)

  predicate Comes<R>(a: Match<R>, b: Match<R>) {
    a.order < b.order || (a.order == b.order && a.sortKey < b.sortKey)
  }

  /** The pairs of one row with every request it matches. */
  function RowMatches<Q, R>(requests: seq<Q>, row: Row<R>, on: (Q, R) -> bool, rank: Row<R> -> int): seq<Match<R>> {
    if requests == [] then []
    else
      RowMatches(Front(requests), row, on, rank) +
      if on(Last(requests), row.rec) then [Match(|requests| - 1, rank(row), row.rec)] else []
  }

  /** All pairs, met row by row. */
  function Matches<Q, R>(requests: seq<Q>, rows: seq<Row<R>>, on: (Q, R) -> bool, rank: Row<R> -> int): seq<Match<R>> {
    if rows == [] then [] else Matches(requests, Front(rows), on, rank) + RowMatches(requests, Last(rows), on, rank)
  }

  function InsertMatch<R>(s: seq<Match<R>>, m: Match<R>): seq<Match<R>> {
    if s == [] || !Comes(m, Last(s)) then s + [m] else InsertMatch(Front(s), m) + [Last(s)]
  }

  /** ORDER BY group_order ASC, key ASC. */
  function OrderBy<R>(s: seq<Match<R>>): seq<Match<R>> {
    if s == [] then [] else InsertMatch(OrderBy(Front(s)), Last(s))
  }

  function Project<R>(s: seq<Match<R>>): seq<R> {
    if s == [] then [] else Project(Front(s)) + [Last(s).rec]
  }

  function Joined<Q, R>(requests: seq<Q>, rows: seq<Row<R>>, on: (Q, R) -> bool, rank: Row<R> -> int): seq<R> {
    Project(OrderBy(Matches(requests, rows, on, rank)))
  }

  // ----- What the join is: request by request -----

  function On<Q, R>(on: (Q, R) -> bool, q: Q): R -> bool {
    (r: R) => on(q, r)
  }

  function PerRequest<Q, R>(requests: seq<Q>, recs: seq<R>, on: (Q, R) -> bool): seq<R> {
    if requests == [] then [] else PerRequest(Front(requests), recs, on) + Filter(recs, On(on, Last(requests)))
  }

  /** The pairs of the `i`-th request, in table order. */
  function Block<Q, R>(i: nat, q: Q, rows: seq<Row<R>>, on: (Q, R) -> bool, rank: Row<R> -> int): seq<Match<R>> {
    if rows == [] then []
    else
      Block(i, q, Front(rows), on, rank) +
      if on(q, Last(rows).rec) then [Match(i, rank(Last(rows)), Last(rows).rec)] else []
  }

  function Blocks<Q, R>(requests: seq<Q>, rows: seq<Row<R>>, on: (Q, R) -> bool, rank: Row<R> -> int): seq<Match<R>> {
    if requests == [] then []
    else Blocks(Front(requests), rows, on, rank) + Block(|requests| - 1, Last(requests), rows, on, rank)
  }

  ghost predicate Ordered<R>(s: seq<Match<R>>) {
    forall i, j :: 0 <= i < j < |s| ==> !Comes(s[j], s[i])
  }

  ghost predicate StrictlyOrdered<R>(s: seq<Match<R>>) {
    forall i, j :: 0 <= i < j < |s| ==> Comes(s[i], s[j])
  }

  lemma {:induction false} InsertAdds<R>(s: seq<Match<R>>, m: Match<R>)
    ensures multiset(InsertMatch(s, m)) == multiset(s) + multiset{m}
  {
    if s != [] && Comes(m, Last(s)) {
      InsertAdds(Front(s), m);
      assert s == Front(s) + [Last(s)];
    }
  }

  lemma {:induction false} InsertOrders<R>(s: seq<Match<R>>, m: Match<R>)
    requires Ordered(s)
    ensures Ordered(InsertMatch(s, m))
  {
    if s != [] && Comes(m, Last(s)) {
      InsertOrders(Front(s), m);
      var t := InsertMatch(Front(s), m);
      InsertAdds(Front(s), m);
      forall i | 0 <= i < |t|
        ensures !Comes(Last(s), t[i])
      {
        assert t[i] in multiset(t);
        assert t[i] == m || t[i] in Front(s);
      }
    } else if s != [] {
      forall i | 0 <= i < |s|
        ensures !Comes(m, s[i])
      {
        assert i < |s| - 1 ==> !Comes(Last(s), s[i]);
      }
    }
  }

  /** The modelled ORDER BY is a sort. */
  lemma {:induction false} OrderBySorts<R>(s: seq<Match<R>>)
    ensures Ordered(OrderBy(s)) && multiset(OrderBy(s)) == multiset(s)
  {
    if s != [] {
      OrderBySorts(Front(s));
      InsertOrders(OrderBy(Front(s)), Last(s));
      InsertAdds(OrderBy(Front(s)), Last(s));
      assert s == Front(s) + [Last(s)];
    }
  }

  lemma LastAgrees<R>(a: seq<Match<R>>, b: seq<Match<R>>)
    requires Ordered(a) && StrictlyOrdered(b) && multiset(a) == multiset(b) && a != [] && b != []
    ensures Last(a) == Last(b)
  {
    assert Last(a) in multiset(a) && Last(b) in multiset(b);
    var i :| 0 <= i < |b| && b[i] == Last(a);
    var j :| 0 <= j < |a| && a[j] == Last(b);
    assert i < |b| - 1 ==> Comes(b[i], b[|b| - 1]);
    assert j < |a| - 1 ==> !Comes(a[|a| - 1], a[j]);
  }

  /** A strict order leaves only one way to sort. */
  lemma {:induction false} SortIsUnique<R>(a: seq<Match<R>>, b: seq<Match<R>>)
    requires Ordered(a) && StrictlyOrdered(b) && multiset(a) == multiset(b)
    ensures a == b
  {
    hide Ordered, StrictlyOrdered;
    SameLength(a, b);
    if a != [] {
      LastAgrees(a, b);
      FrontOf(a);
      FrontOf(b);
      SortIsUnique(Front(a), Front(b));
      assert a == Front(a) + [Last(a)] && b == Front(b) + [Last(b)];
    }
  }

  lemma SameLength<R>(a: seq<Match<R>>, b: seq<Match<R>>)
    requires multiset(a) == multiset(b)
    ensures |a| == |b|
  {
    assert |a| == |multiset(a)| == |multiset(b)| == |b|;
  }

  lemma FrontOf<R>(s: seq<Match<R>>)
    requires s != []
    ensures Ordered(s) ==> Ordered(Front(s))
    ensures StrictlyOrdered(s) ==> StrictlyOrdered(Front(s))
    ensures multiset(Front(s)) == multiset(s) - multiset{Last(s)}
  {
    assert s == Front(s) + [Last(s)];
  }

  lemma {:induction false} BlocksOfRow<Q, R>(
    requests: seq<Q>, rows: seq<Row<R>>, on: (Q, R) -> bool, rank: Row<R> -> int)
    requires rows != []
    ensures multiset(Blocks(requests, rows, on, rank)) ==
            multiset(Blocks(requests, Front(rows), on, rank)) + multiset(RowMatches(requests, Last(rows), on, rank))
  {
    if requests != [] {
      BlocksOfRow(Front(requests), rows, on, rank);
    }
  }

  lemma {:induction false} NoBlocks<Q, R>(requests: seq<Q>, on: (Q, R) -> bool, rank: Row<R> -> int)
    ensures Blocks(requests, [], on, rank) == []
  {
    if requests != [] {
      NoBlocks(Front(requests), on, rank);
    }
  }

  /** Met row by row or request by request, the pairs are the same. */
  lemma {:induction false} MatchesAreBlocks<Q, R>(
    requests: seq<Q>, rows: seq<Row<R>>, on: (Q, R) -> bool, rank: Row<R> -> int)
    ensures multiset(Matches(requests, rows, on, rank)) == multiset(Blocks(requests, rows, on, rank))
  {
    if rows == [] {
      NoBlocks(requests, on, rank);
    } else {
      MatchesAreBlocks(requests, Front(rows), on, rank);
      BlocksOfRow(requests, rows, on, rank);
    }
  }

  /** Rows that match the same request climb in the sort key. */
  ghost predicate Climbs<Q(!new), R>(rows: seq<Row<R>>, on: (Q, R) -> bool, rank: Row<R> -> int) {
    forall q, i, j :: 0 <= i < j < |rows| && on(q, rows[i].rec) && on(q, rows[j].rec) ==> rank(rows[i]) < rank(rows[j])
  }

  lemma {:induction false} BlockMembers<Q, R>(i: nat, q: Q, rows: seq<Row<R>>, on: (Q, R) -> bool, rank: Row<R> -> int)
    ensures forall m :: m in Block(i, q, rows, on, rank) ==>
              m.order == i && exists k :: 0 <= k < |rows| && on(q, rows[k].rec) && rank(rows[k]) == m.sortKey
  {
    if rows != [] {
      BlockMembers(i, q, Front(rows), on, rank);
      forall m | m in Block(i, q, Front(rows), on, rank)
        ensures exists k :: 0 <= k < |rows| && on(q, rows[k].rec) && rank(rows[k]) == m.sortKey
      {
        var k :| 0 <= k < |Front(rows)| && on(q, Front(rows)[k].rec) && rank(Front(rows)[k]) == m.sortKey;
        assert rows[k] == Front(rows)[k];
      }
      assert rows[|rows| - 1] == Last(rows);
    }
  }

  lemma {:induction false} BlockOrdered<Q(!new), R>(
    i: nat, q: Q, rows: seq<Row<R>>, on: (Q, R) -> bool, rank: Row<R> -> int)
    requires Climbs(rows, on, rank)
    ensures StrictlyOrdered(Block(i, q, rows, on, rank))
  {
    if rows != [] {
      BlockOrdered(i, q, Front(rows), on, rank);
      BlockMembers(i, q, Front(rows), on, rank);
      if on(q, Last(rows).rec) {
        forall m | m in Block(i, q, Front(rows), on, rank)
          ensures Comes(m, Match(i, rank(Last(rows)), Last(rows).rec))
        {
          var k :| 0 <= k < |Front(rows)| && on(q, Front(rows)[k].rec) && rank(Front(rows)[k]) == m.sortKey;
          assert rows[k] == Front(rows)[k] && rows[|rows| - 1] == Last(rows);
        }
      }
    }
  }

  lemma {:induction false} BlocksBelow<Q, R>(
    requests: seq<Q>, rows: seq<Row<R>>, on: (Q, R) -> bool, rank: Row<R> -> int)
    ensures forall m :: m in Blocks(requests, rows, on, rank) ==> m.order < |requests|
  {
    if requests != [] {
      BlocksBelow(Front(requests), rows, on, rank);
      BlockMembers(|requests| - 1, Last(requests), rows, on, rank);
    }
  }

  lemma {:induction false} BlocksOrdered<Q(!new), R>(
    requests: seq<Q>, rows: seq<Row<R>>, on: (Q, R) -> bool, rank: Row<R> -> int)
    requires Climbs(rows, on, rank)
    ensures StrictlyOrdered(Blocks(requests, rows, on, rank))
  {
    if requests != [] {
      hide Climbs;
      BlocksOrdered(Front(requests), rows, on, rank);
      BlockOrdered(|requests| - 1, Last(requests), rows, on, rank);
      BlocksBelow(Front(requests), rows, on, rank);
      BlockMembers(|requests| - 1, Last(requests), rows, on, rank);
      OrderedConcat(Blocks(Front(requests), rows, on, rank), Block(|requests| - 1, Last(requests), rows, on, rank),
                    |requests| - 1);
    }
  }

  lemma OrderedConcat<R>(a: seq<Match<R>>, b: seq<Match<R>>, n: nat)
    requires StrictlyOrdered(a) && StrictlyOrdered(b)
    requires (forall m :: m in a ==> m.order < n) && (forall m :: m in b ==> m.order == n)
    ensures StrictlyOrdered(a + b)
  {
  }

  lemma {:induction false} ProjectConcat<R>(a: seq<Match<R>>, b: seq<Match<R>>)
    ensures Project(a + b) == Project(a) + Project(b)
  {
    if b == [] {
      assert a + b == a;
    } else {
      assert Front(a + b) == a + Front(b) && Last(a + b) == Last(b);
      ProjectConcat(a, Front(b));
    }
  }

  lemma {:induction false} ProjectBlock<Q, R>(i: nat, q: Q, rows: seq<Row<R>>, on: (Q, R) -> bool, rank: Row<R> -> int)
    ensures Project(Block(i, q, rows, on, rank)) == Filter(Recs(rows), On(on, q))
  {
    if rows != [] {
      ProjectBlock(i, q, Front(rows), on, rank);
      var before := Block(i, q, Front(rows), on, rank);
      var m := Match(i, rank(Last(rows)), Last(rows).rec);
      ProjectConcat(before, [m]);
      assert Front([m]) == [] && Project([m]) == [m.rec] && before + [] == before;
      FilterPush(Recs(Front(rows)), Last(rows).rec, On(on, q));
    }
  }

  lemma {:induction false} ProjectBlocks<Q, R>(
    requests: seq<Q>, rows: seq<Row<R>>, on: (Q, R) -> bool, rank: Row<R> -> int)
    ensures Project(Blocks(requests, rows, on, rank)) == PerRequest(requests, Recs(rows), on)
  {
    if requests != [] {
      ProjectBlocks(Front(requests), rows, on, rank);
      ProjectBlock(|requests| - 1, Last(requests), rows, on, rank);
      ProjectConcat(Blocks(Front(requests), rows, on, rank), Block(|requests| - 1, Last(requests), rows, on, rank));
    }
  }

  /** A join whose rows climb is the concatenation of the selections, request by
      request, repeated requests included. */
  lemma JoinIsPerRequest<Q(!new), R>(requests: seq<Q>, rows: seq<Row<R>>, on: (Q, R) -> bool, rank: Row<R> -> int)
    requires Climbs(rows, on, rank)
    ensures Joined(requests, rows, on, rank) == PerRequest(requests, Recs(rows), on)
  {
    hide Climbs, Ordered, StrictlyOrdered, Matches, Blocks, OrderBy, Project;
    OrderBySorts(Matches(requests, rows, on, rank));
    MatchesAreBlocks(requests, rows, on, rank);
    BlocksOrdered(requests, rows, on, rank);
    SortIsUnique(OrderBy(Matches(requests, rows, on, rank)), Blocks(requests, rows, on, rank));
    ProjectBlocks(requests, rows, on, rank);
  }
}
