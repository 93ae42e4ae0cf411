/** The two shapes in which the backends keep records. An `Index` is an
    insertion-ordered map from a key to its list (in_memory.rs); a `Table` is a
    sequence of rows with increasing ids (sqlite.rs). Both are related to one
    sequence of records in storage order. */
module Tables {
  import opened Seqs
  import opened Records

  // ----- Insertion-ordered maps of lists -----

  datatype Index<R> = Index(keys: seq<Name>, lists: map<Name, seq<R>>)

  function NoKeys<R>(): Index<R> {
    Index([], map[])
  }

  function Get<R>(ix: Index<R>, k: Name): seq<R> {
    if k in ix.lists then ix.lists[k] else []
  }

  function NotName(k: Name): Name -> bool {
    (j: Name) => j != k
  }

  /** Store a list under its key; an emptied list takes its key out of the map. */
  function Put<R>(ix: Index<R>, k: Name, list: seq<R>): Index<R> {
    if list == [] then Index(Filter(ix.keys, NotName(k)), ix.lists - {k})
    else Index(if k in ix.lists then ix.keys else ix.keys + [k], ix.lists[k := list])
  }

  function Survives<R>(ix: Index<R>, q: R -> bool): Name -> bool {
    (k: Name) => Filter(Get(ix, k), q) != []
  }

  /** Keep in every list only what satisfies `q`. */
  function Retain<R>(ix: Index<R>, q: R -> bool): Index<R> {
    Index(Filter(ix.keys, Survives(ix, q)),
          map k | k in ix.lists && Filter(ix.lists[k], q) != [] :: Filter(ix.lists[k], q))
  }

  /** All lists one after the other, in key order. */
  function Flatten<R>(ix: Index<R>, keys: seq<Name>): seq<R> {
    if keys == [] then [] else Flatten(ix, Front(keys)) + Get(ix, Last(keys))
  }

  /** How many records `Retain` drops, list by list. */
  function Dropped<R>(ix: Index<R>, q: R -> bool, keys: seq<Name>): int {
    if keys == [] then 0
    else Dropped(ix, q, Front(keys)) + |Get(ix, Last(keys))| - |Filter(Get(ix, Last(keys)), q)|
  }

  ghost predicate Valid<R>(ix: Index<R>) {
    && Distinct(ix.keys)
    && (forall k :: k in ix.keys <==> k in ix.lists)
    && (forall k :: k in ix.lists ==> ix.lists[k] != [])
  }

  function KeyIs<R>(key: R -> Name, k: Name): R -> bool {
    (r: R) => key(r) == k
  }

  function KeyIn<R>(key: R -> Name, ks: seq<Name>): R -> bool {
    (r: R) => key(r) in ks
  }

  /** The index holds the sequence `s`, split by key. */
  ghost predicate Indexed<R(!new)>(ix: Index<R>, s: seq<R>, key: R -> Name) {
    && Valid(ix)
    && (forall k :: Get(ix, k) == Filter(s, KeyIs(key, k)))
  }

  lemma PutValid<R>(ix: Index<R>, k: Name, list: seq<R>)
    requires Valid(ix)
    ensures Valid(Put(ix, k, list))
    ensures forall j :: Get(Put(ix, k, list), j) == if j == k then list else Get(ix, j)
  {
    if list == [] {
      FilterDistinct(ix.keys, NotName(k));
      FilterMembers(ix.keys, NotName(k));
    }
  }

  /** Changing one key's list carries one key's records from `s` to `t`. */
  lemma PutIndexed<R(!new)>(ix: Index<R>, s: seq<R>, t: seq<R>, key: R -> Name, k: Name)
    requires Indexed(ix, s, key)
    requires forall j :: j != k ==> Filter(t, KeyIs(key, j)) == Filter(s, KeyIs(key, j))
    ensures Indexed(Put(ix, k, Filter(t, KeyIs(key, k))), t, key)
  {
    PutValid(ix, k, Filter(t, KeyIs(key, k)));
  }

  lemma PushIndexed<R(!new)>(ix: Index<R>, s: seq<R>, key: R -> Name, r: R)
    requires Indexed(ix, s, key)
    ensures Indexed(Put(ix, key(r), Get(ix, key(r)) + [r]), s + [r], key)
  {
    forall k
      ensures Filter(s + [r], KeyIs(key, k)) ==
              if key(r) == k then Filter(s, KeyIs(key, k)) + [r] else Filter(s, KeyIs(key, k))
    {
      FilterPush(s, r, KeyIs(key, k));
    }
    PutIndexed(ix, s, s + [r], key, key(r));
  }

  lemma {:induction false} FilterSwap<R>(s: seq<R>, p: R -> bool, q: R -> bool)
    ensures Filter(Filter(s, p), q) == Filter(Filter(s, q), p)
  {
    if s != [] {
      FilterSwap(Front(s), p, q);
      FilterPush(Filter(Front(s), p), Last(s), q);
      FilterPush(Filter(Front(s), q), Last(s), p);
    }
  }

  /** Dropping records of one key only changes that key's list. */
  lemma KeepIndexed<R(!new)>(ix: Index<R>, s: seq<R>, key: R -> Name, k: Name, q: R -> bool)
    requires Indexed(ix, s, key)
    requires forall r :: r in s && !q(r) ==> key(r) == k
    ensures Indexed(Put(ix, k, Filter(Get(ix, k), q)), Filter(s, q), key)
  {
    forall j
      ensures Filter(Filter(s, q), KeyIs(key, j)) ==
              if j == k then Filter(Get(ix, k), q) else Filter(s, KeyIs(key, j))
    {
      FilterSwap(s, q, KeyIs(key, j));
      if j != k {
        FilterMembers(s, KeyIs(key, j));
        FilterAll(Filter(s, KeyIs(key, j)), q);
      }
    }
    PutIndexed(ix, s, Filter(s, q), key, k);
  }

  lemma RetainValid<R>(ix: Index<R>, q: R -> bool)
    requires Valid(ix)
    ensures Valid(Retain(ix, q))
    ensures forall k :: Get(Retain(ix, q), k) == Filter(Get(ix, k), q)
  {
    FilterDistinct(ix.keys, Survives(ix, q));
    FilterMembers(ix.keys, Survives(ix, q));
  }

  lemma RetainIndexed<R(!new)>(ix: Index<R>, s: seq<R>, key: R -> Name, q: R -> bool)
    requires Indexed(ix, s, key)
    ensures Indexed(Retain(ix, q), Filter(s, q), key)
  {
    RetainValid(ix, q);
    forall k
      ensures Get(Retain(ix, q), k) == Filter(Filter(s, q), KeyIs(key, k))
    {
      FilterSwap(s, q, KeyIs(key, k));
    }
  }

  /** A record is filed under a key of the index. */
  lemma FiledUnderKey<R(!new)>(ix: Index<R>, s: seq<R>, key: R -> Name, r: R)
    requires Indexed(ix, s, key) && r in s
    ensures key(r) in ix.keys && r in Get(ix, key(r))
  {
    FilterMembers(s, KeyIs(key, key(r)));
  }

  // ----- Counting: the lists together hold every record exactly once -----

  lemma {:induction false} SplitByKey<R>(s: seq<R>, key: R -> Name, ks: seq<Name>, k: Name)
    requires k !in ks
    ensures multiset(Filter(s, KeyIn(key, ks + [k]))) ==
            multiset(Filter(s, KeyIn(key, ks))) + multiset(Filter(s, KeyIs(key, k)))
  {
    if s != [] {
      SplitByKey(Front(s), key, ks, k);
    }
  }

  lemma {:induction false} FlattenMultiset<R(!new)>(ix: Index<R>, s: seq<R>, key: R -> Name, ks: seq<Name>)
    requires Indexed(ix, s, key) && Distinct(ks)
    ensures multiset(Flatten(ix, ks)) == multiset(Filter(s, KeyIn(key, ks)))
  {
    if ks == [] {
      FilterNone(s, KeyIn(key, ks));
    } else {
      FlattenMultiset(ix, s, key, Front(ks));
      SplitByKey(s, key, Front(ks), Last(ks));
      assert ks == Front(ks) + [Last(ks)];
    }
  }

  /** Listing everything by key gives the same records, possibly in another order. */
  lemma FlattenAll<R(!new)>(ix: Index<R>, s: seq<R>, key: R -> Name)
    requires Indexed(ix, s, key)
    ensures multiset(Flatten(ix, ix.keys)) == multiset(s)
  {
    FlattenMultiset(ix, s, key, ix.keys);
    forall r | r in s
      ensures KeyIn(key, ix.keys)(r)
    {
      FiledUnderKey(ix, s, key, r);
    }
    FilterAll(s, KeyIn(key, ix.keys));
  }

  lemma {:induction false} DroppedLengths<R>(ix: Index<R>, q: R -> bool, keys: seq<Name>)
    requires Valid(ix)
    ensures Dropped(ix, q, keys) == |Flatten(ix, keys)| - |Flatten(Retain(ix, q), keys)|
  {
    if keys != [] {
      DroppedLengths(ix, q, Front(keys));
      RetainValid(ix, q);
    }
  }

  /** The per-list counts add up to the number of records dropped. */
  lemma DroppedTotal<R(!new)>(ix: Index<R>, s: seq<R>, key: R -> Name, q: R -> bool)
    requires Indexed(ix, s, key)
    ensures Dropped(ix, q, ix.keys) == |s| - |Filter(s, q)|
  {
    DroppedLengths(ix, q, ix.keys);
    FlattenAll(ix, s, key);
    assert |Flatten(ix, ix.keys)| == |multiset(s)|;
    RetainIndexed(ix, s, key, q);
    FlattenMultiset(Retain(ix, q), Filter(s, q), key, ix.keys);
    forall r | r in Filter(s, q)
      ensures KeyIn(key, ix.keys)(r)
    {
      FilterMembers(s, q);
      FiledUnderKey(ix, s, key, r);
    }
    FilterAll(Filter(s, q), KeyIn(key, ix.keys));
    assert |Flatten(Retain(ix, q), ix.keys)| == |multiset(Filter(s, q))|;
  }

  // ----- Tables -----

  datatype Row<R> = Row(id: nat, rec: R)

  /** `nextId` never goes back: ids are not reused after a delete. */
  datatype Table<R> = Table(nextId: nat, rows: seq<Row<R>>)

  function NoRows<R>(): Table<R> {
    Table(1, [])
  }

  /** The records in id order. */
  function Recs<R>(rows: seq<Row<R>>): (s: seq<R>)
    ensures |s| == |rows| && forall i :: 0 <= i < |s| ==> s[i] == rows[i].rec
  {
    if rows == [] then [] else Recs(Front(rows)) + [Last(rows).rec]
  }

  function Insert<R>(t: Table<R>, r: R): Table<R> {
    Table(t.nextId + 1, t.rows + [Row(t.nextId, r)])
  }

  function RowIs<R>(q: R -> bool): Row<R> -> bool {
    (row: Row<R>) => q(row.rec)
  }

  /** Delete the rows that do not satisfy `q`. */
  function Keep<R>(t: Table<R>, q: R -> bool): Table<R> {
    t.(rows := Filter(t.rows, RowIs(q)))
  }

  function MapRows<R>(rows: seq<Row<R>>, f: R -> R): (out: seq<Row<R>>)
    ensures |out| == |rows| && forall i :: 0 <= i < |rows| ==> out[i] == rows[i].(rec := f(rows[i].rec))
  {
    if rows == [] then [] else MapRows(Front(rows), f) + [Last(rows).(rec := f(Last(rows).rec))]
  }

  /** Rewrite every record in place; ids and positions stay. */
  function Update<R>(t: Table<R>, f: R -> R): Table<R> {
    t.(rows := MapRows(t.rows, f))
  }

  ghost predicate TableOk<R>(t: Table<R>) {
    && (forall i, j :: 0 <= i < j < |t.rows| ==> t.rows[i].id < t.rows[j].id)
    && (forall i :: 0 <= i < |t.rows| ==> t.rows[i].id < t.nextId)
  }

  /** The table holds the sequence `s` in id order. */
  ghost predicate Tabled<R>(t: Table<R>, s: seq<R>) {
    TableOk(t) && Recs(t.rows) == s
  }

  lemma TabledRecs<R>(t: Table<R>, s: seq<R>)
    requires Tabled(t, s)
    ensures Recs(t.rows) == s
  {
  }

  lemma InsertTabled<R>(t: Table<R>, s: seq<R>, r: R)
    requires Tabled(t, s)
    ensures Tabled(Insert(t, r), s + [r])
  {
    RecsPush(t.rows, Row(t.nextId, r));
    InsertOk(t, r);
  }

  lemma RecsPush<R>(rows: seq<Row<R>>, row: Row<R>)
    ensures Recs(rows + [row]) == Recs(rows) + [row.rec]
  {
    assert Front(rows + [row]) == rows;
  }

  lemma InsertOk<R>(t: Table<R>, r: R)
    requires TableOk(t)
    ensures TableOk(Insert(t, r))
  {
  }

  lemma {:induction false} RecsFilter<R>(rows: seq<Row<R>>, q: R -> bool)
    ensures Recs(Filter(rows, RowIs(q))) == Filter(Recs(rows), q)
  {
    if rows != [] {
      RecsFilter(Front(rows), q);
      assert Front(Recs(rows)) == Recs(Front(rows));
    }
  }

  lemma {:induction false} FilterAscending<R>(rows: seq<Row<R>>, q: Row<R> -> bool, bound: nat)
    requires forall i, j :: 0 <= i < j < |rows| ==> rows[i].id < rows[j].id
    requires forall i :: 0 <= i < |rows| ==> rows[i].id < bound
    ensures TableOk(Table(bound, Filter(rows, q)))
  {
    if rows != [] {
      FilterAscending(Front(rows), q, Last(rows).id);
    }
  }

  lemma KeepTabled<R>(t: Table<R>, s: seq<R>, q: R -> bool)
    requires Tabled(t, s)
    ensures Tabled(Keep(t, q), Filter(s, q))
  {
    RecsFilter(t.rows, q);
    FilterAscending(t.rows, RowIs(q), t.nextId);
  }

  function Mapped<R>(s: seq<R>, f: R -> R): (out: seq<R>)
    ensures |out| == |s| && forall i :: 0 <= i < |s| ==> out[i] == f(s[i])
  {
    if s == [] then [] else Mapped(Front(s), f) + [f(Last(s))]
  }

  lemma UpdateTabled<R>(t: Table<R>, s: seq<R>, f: R -> R)
    requires Tabled(t, s)
    ensures Tabled(Update(t, f), Mapped(s, f))
    ensures forall i :: 0 <= i < |s| ==> Update(t, f).rows[i].id == t.rows[i].id
  {
    hide Recs, MapRows, Mapped;
    assert Recs(Update(t, f).rows) == Mapped(s, f);
  }
}
