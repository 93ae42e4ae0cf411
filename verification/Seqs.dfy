/** Order-preserving selection from a sequence, and the few facts about it that
    every component needs. All recursions peel the last element, so that loops
    which append one element at a time match them step by step. */
module Seqs {

  datatype Option<+T> = None | Some(value: T)

  function Last<T>(s: seq<T>): T
    requires s != []
  {
    s[|s| - 1]
  }

  function Front<T>(s: seq<T>): seq<T>
    requires s != []
  {
    s[..|s| - 1]
  }

  function Max(a: int, b: int): int {
    if a > b then a else b
  }

  function Min(a: int, b: int): int {
    if a < b then a else b
  }

  /** The elements of `s` that satisfy `p`, in order. */
  function Filter<T>(s: seq<T>, p: T -> bool): (r: seq<T>)
    ensures |r| <= |s|
  {
    if s == [] then []
    else if p(Last(s)) then Filter(Front(s), p) + [Last(s)]
    else Filter(Front(s), p)
  }

  predicate Distinct<T(==)>(s: seq<T>) {
    forall i, j :: 0 <= i < j < |s| ==> s[i] != s[j]
  }

  lemma {:induction false} FilterMembers<T>(s: seq<T>, p: T -> bool)
    ensures forall x :: x in Filter(s, p) ==> x in s && p(x)
    ensures forall x :: x in s && p(x) ==> x in Filter(s, p)
  {
    if s != [] {
      FilterMembers(Front(s), p);
      assert s == Front(s) + [Last(s)];
    }
  }

  lemma FilterPush<T>(s: seq<T>, x: T, p: T -> bool)
    ensures Filter(s + [x], p) == if p(x) then Filter(s, p) + [x] else Filter(s, p)
  {
    assert Front(s + [x]) == s;
  }

  lemma {:induction false} FilterConcat<T>(s: seq<T>, t: seq<T>, p: T -> bool)
    ensures Filter(s + t, p) == Filter(s, p) + Filter(t, p)
  {
    if t == [] {
      assert s + t == s;
    } else {
      assert Front(s + t) == s + Front(t) && Last(s + t) == Last(t);
      FilterConcat(s, Front(t), p);
    }
  }

  /** Filtering twice is filtering by the conjunction; `r` names it. */
  lemma {:induction false} FilterTwice<T>(s: seq<T>, p: T -> bool, q: T -> bool, r: T -> bool)
    requires forall x :: x in s ==> (r(x) <==> p(x) && q(x))
    ensures Filter(Filter(s, p), q) == Filter(s, r)
  {
    if s != [] {
      FilterTwice(Front(s), p, q, r);
      assert Last(s) in s;
      if p(Last(s)) {
        FilterPush(Filter(Front(s), p), Last(s), q);
      }
    }
  }

  lemma {:induction false} FilterAgree<T>(s: seq<T>, p: T -> bool, q: T -> bool)
    requires forall x :: x in s ==> (p(x) <==> q(x))
    ensures Filter(s, p) == Filter(s, q)
  {
    if s != [] {
      assert s == Front(s) + [Last(s)] && Last(s) in s;
      FilterAgree(Front(s), p, q);
    }
  }

  lemma {:induction false} FilterAll<T>(s: seq<T>, p: T -> bool)
    requires forall x :: x in s ==> p(x)
    ensures Filter(s, p) == s
  {
    if s != [] {
      assert s == Front(s) + [Last(s)] && Last(s) in s;
      FilterAll(Front(s), p);
    }
  }

  lemma {:induction false} FilterNone<T>(s: seq<T>, p: T -> bool)
    requires forall x :: x in s ==> !p(x)
    ensures Filter(s, p) == []
  {
    if s != [] {
      assert s == Front(s) + [Last(s)] && Last(s) in s;
      FilterNone(Front(s), p);
    }
  }

  lemma {:induction false} FilterDistinct<T>(s: seq<T>, p: T -> bool)
    requires Distinct(s)
    ensures Distinct(Filter(s, p))
  {
    if s != [] {
      FilterDistinct(Front(s), p);
      FilterMembers(Front(s), p);
    }
  }

  function Elems<T>(s: seq<T>): set<T> {
    set x | x in s
  }

  lemma {:induction false} DistinctSize<T>(s: seq<T>)
    requires Distinct(s)
    ensures |Elems(s)| == |s|
  {
    if s != [] {
      DistinctSize(Front(s));
      assert Elems(s) == Elems(Front(s)) + {Last(s)};
    }
  }

  /** Selection keeps the order of what it keeps. */
  lemma {:induction false} FilterOrder<R>(s: seq<R>, q: R -> bool, i: nat, k: nat) returns (u: nat, v: nat)
    requires i < k < |s| && q(s[i]) && q(s[k])
    ensures u < v < |Filter(s, q)| && Filter(s, q)[u] == s[i] && Filter(s, q)[v] == s[k]
  {
    if k < |s| - 1 {
      u, v := FilterOrder(Front(s), q, i, k);
    } else {
      FilterMembers(Front(s), q);
      assert Front(s)[i] in Front(s);
      u :| 0 <= u < |Filter(Front(s), q)| && Filter(Front(s), q)[u] == s[i];
      v := |Filter(Front(s), q)|;
    }
  }

  /** What is selected first is the first that qualifies. */
  lemma {:induction false} FirstSelected<T>(s: seq<T>, p: T -> bool) returns (i: nat)
    requires Filter(s, p) != []
    ensures i < |s| && s[i] == Filter(s, p)[0] && p(s[i]) && forall j :: 0 <= j < i ==> !p(s[j])
  {
    if Filter(Front(s), p) == [] {
      i := |s| - 1;
      FilterMembers(Front(s), p);
      assert forall j :: 0 <= j < i ==> Front(s)[j] == s[j] && Front(s)[j] in Front(s);
    } else {
      i := FirstSelected(Front(s), p);
      assert forall j :: 0 <= j <= i ==> Front(s)[j] == s[j];
    }
  }

  /** And what is selected last the last. */
  lemma {:induction false} LastSelected<T>(s: seq<T>, p: T -> bool) returns (i: nat)
    requires Filter(s, p) != []
    ensures i < |s| && s[i] == Last(Filter(s, p)) && p(s[i]) && forall j :: i < j < |s| ==> !p(s[j])
  {
    if p(Last(s)) {
      i := |s| - 1;
    } else {
      i := LastSelected(Front(s), p);
      assert forall j :: 0 <= j < |s| - 1 ==> Front(s)[j] == s[j];
    }
  }
}
