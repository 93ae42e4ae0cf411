/** Pending-record queues (welcomes by target, join requests by group). A fetch
    may acknowledge records it has handled, each by an exact key and timestamp;
    records also expire by age. `key` files a record, `ack` is what names it. */
module Queues {
  import opened Seqs
  import opened Records
  import opened Tables

  function Unacked<R, C(==)>(key: R -> Name, ack: R -> C, k: Name, consumed: seq<C>): R -> bool {
    (r: R) => key(r) != k || ack(r) !in consumed
  }

  function NotAcked<R, C(==)>(ack: R -> C, consumed: seq<C>): R -> bool {
    (r: R) => ack(r) !in consumed
  }

  function NotBefore<R>(at: R -> int, threshold: int): R -> bool {
    (r: R) => at(r) >= threshold
  }

  // ----- The contract -----

  /** Drop what was acknowledged under `k`. */
  function Retire<R, C(==)>(s: seq<R>, key: R -> Name, ack: R -> C, k: Name, consumed: seq<C>): seq<R> {
    Filter(s, Unacked(key, ack, k, consumed))
  }

  function Pending<R>(s: seq<R>, key: R -> Name, k: Name): seq<R> {
    Filter(s, KeyIs(key, k))
  }

  /** A threshold of zero or less switches retention off. */
  function Expire<R>(s: seq<R>, at: R -> int, threshold: int): seq<R> {
    if threshold <= 0 then s else Filter(s, NotBefore(at, threshold))
  }

  // ----- In memory -----

  function MemPush<R>(ix: Index<R>, key: R -> Name, r: R): Index<R> {
    Put(ix, key(r), Get(ix, key(r)) + [r])
  }

  function MemRetire<R, C(==)>(ix: Index<R>, ack: R -> C, k: Name, consumed: seq<C>): Index<R> {
    if k in ix.lists then Put(ix, k, Filter(Get(ix, k), NotAcked(ack, consumed))) else ix
  }

  function MemExpire<R>(ix: Index<R>, at: R -> int, threshold: int): (Index<R>, int) {
    if threshold <= 0 then (ix, 0)
    else (Retain(ix, NotBefore(at, threshold)), Dropped(ix, NotBefore(at, threshold), ix.keys))
  }

  lemma MemRetireHolds<R(!new), C>(ix: Index<R>, s: seq<R>, key: R -> Name, ack: R -> C, k: Name, consumed: seq<C>)
    requires Indexed(ix, s, key)
    ensures Indexed(MemRetire(ix, ack, k, consumed), Retire(s, key, ack, k, consumed), key)
  {
    var q := Unacked(key, ack, k, consumed);
    FilterMembers(s, KeyIs(key, k));
    FilterAgree(Get(ix, k), q, NotAcked(ack, consumed));
    if k in ix.lists {
      KeepIndexed(ix, s, key, k, q);
    } else {
      forall r | r in s
        ensures q(r)
      {
        FiledUnderKey(ix, s, key, r);
      }
      FilterAll(s, q);
    }
  }

  lemma MemExpireHolds<R(!new)>(ix: Index<R>, s: seq<R>, key: R -> Name, at: R -> int, threshold: int)
    requires Indexed(ix, s, key)
    ensures Indexed(MemExpire(ix, at, threshold).0, Expire(s, at, threshold), key)
    ensures MemExpire(ix, at, threshold).1 == |s| - |Expire(s, at, threshold)|
  {
    if threshold > 0 {
      RetainIndexed(ix, s, key, NotBefore(at, threshold));
      DroppedTotal(ix, s, key, NotBefore(at, threshold));
    }
  }

  // ----- SQLite -----

  function NotThis<R, C(==)>(key: R -> Name, ack: R -> C, k: Name, c: C): R -> bool {
    (r: R) => key(r) != k || ack(r) != c
  }

  /** One DELETE for each acknowledgement. */
  function SqlRetire<R, C(==)>(t: Table<R>, key: R -> Name, ack: R -> C, k: Name, consumed: seq<C>): Table<R> {
    if consumed == [] then t
    else Keep(SqlRetire(t, key, ack, k, Front(consumed)), NotThis(key, ack, k, Last(consumed)))
  }

  function SqlExpire<R>(t: Table<R>, at: R -> int, threshold: int): (Table<R>, int) {
    if threshold <= 0 then (t, 0)
    else (Keep(t, NotBefore(at, threshold)), |t.rows| - |Keep(t, NotBefore(at, threshold)).rows|)
  }

  lemma {:induction false} SqlRetireHolds<R, C>(
    t: Table<R>, s: seq<R>, key: R -> Name, ack: R -> C, k: Name, consumed: seq<C>)
    requires Tabled(t, s)
    ensures Tabled(SqlRetire(t, key, ack, k, consumed), Retire(s, key, ack, k, consumed))
  {
    var q := Unacked(key, ack, k, consumed);
    if consumed == [] {
      FilterAll(s, q);
    } else {
      SqlRetireHolds(t, s, key, ack, k, Front(consumed));
      var before := Retire(s, key, ack, k, Front(consumed));
      KeepTabled(SqlRetire(t, key, ack, k, Front(consumed)), before, NotThis(key, ack, k, Last(consumed)));
      assert forall c :: c in consumed <==> c in Front(consumed) || c == Last(consumed);
      FilterTwice(s, Unacked(key, ack, k, Front(consumed)), NotThis(key, ack, k, Last(consumed)), q);
    }
  }

  lemma SqlExpireHolds<R>(t: Table<R>, s: seq<R>, at: R -> int, threshold: int)
    requires Tabled(t, s)
    ensures Tabled(SqlExpire(t, at, threshold).0, Expire(s, at, threshold))
    ensures SqlExpire(t, at, threshold).1 == |s| - |Expire(s, at, threshold)|
  {
    if threshold > 0 {
      KeepTabled(t, s, NotBefore(at, threshold));
    }
  }

  // ----- Acknowledging and fetching across several keys -----

  /** Fetching one key is not disturbed by acknowledgements under another. */
  lemma RetireElsewhere<R, C>(s: seq<R>, key: R -> Name, ack: R -> C, k: Name, consumed: seq<C>, j: Name)
    requires j != k
    ensures Pending(Retire(s, key, ack, k, consumed), key, j) == Pending(s, key, j)
  {
    var q := Unacked(key, ack, k, consumed);
    FilterSwap(s, q, KeyIs(key, j));
    FilterMembers(s, KeyIs(key, j));
    FilterAll(Filter(s, KeyIs(key, j)), q);
  }

  lemma RetireTwice<R, C>(s: seq<R>, key: R -> Name, ack: R -> C, k: Name, consumed: seq<C>)
    ensures var once := Retire(s, key, ack, k, consumed); Retire(once, key, ack, k, consumed) == once
  {
    FilterMembers(s, Unacked(key, ack, k, consumed));
    FilterAll(Retire(s, key, ack, k, consumed), Unacked(key, ack, k, consumed));
  }
}
