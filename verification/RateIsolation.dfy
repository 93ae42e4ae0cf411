/** Exactly which calls keep one key's answers independent of the others', on any
    clock: an eviction by another key matters only if that call reads a later time
    than the key's calls on both sides of it. */
module RateIsolation {
  import opened Seqs
  import opened Records
  import opened RateLimits
  import opened RateBounds

  /** When the key called last. */
  function LastOwn(calls: seq<Call>, key: Name): Option<int> {
    if calls == [] then None
    else if Last(calls).key == key then Some(Last(calls).now)
    else LastOwn(Front(calls), key)
  }

  /** The latest reading of other keys' calls since then. */
  function Peak(calls: seq<Call>, key: Name): Option<int> {
    if calls == [] || Last(calls).key == key then None
    else
      var before := Peak(Front(calls), key);
      if before.Some? && before.value > Last(calls).now then before else Some(Last(calls).now)
  }

  /** Between two consecutive calls of the key, another key's call reads a time later
      than both. */
  predicate Disturbed(calls: seq<Call>, key: Name) {
    calls != [] && (Disturbed(Front(calls), key) || Overlooked(Front(calls), Last(calls), key))
  }

  predicate Overlooked(before: seq<Call>, c: Call, key: Name) {
    var s, peak := LastOwn(before, key), Peak(before, key);
    c.key == key && s.Some? && peak.Some? && peak.value > s.value && peak.value > c.now
  }

  // ----- Undisturbed calls -----

  /** The stored bucket is that of the key on its own, or has been evicted since by a
      call that found it idle. */
  ghost predicate Alike(p: Settings, f: Option<Bucket>, o: Option<Bucket>, s: Option<int>, peak: Option<int>) {
    && (o.Some? ==> s.Some? && o.value.lastSeenAt == s.value)
    && (f == o || (f.None? && o.Some? && peak.Some? && Idle(p, o.value, peak.value)))
  }

  lemma OtherStep(l: Limiter, c: Call, key: Name)
    requires c.key != key && l.p.enabled
    ensures Stored(Check(l, c.key, c.now), key) == Kept(l.p, Stored(l, key), c.now)
  {
  }

  lemma AlikeOther(p: Settings, f: Option<Bucket>, o: Option<Bucket>, s: Option<int>, peak: Option<int>, t: int)
    requires Alike(p, f, o, s, peak)
    ensures Alike(p, Kept(p, f, t), o, s, if peak.Some? && peak.value > t then peak else Some(t))
  {
  }

  lemma AlikeOwn(p: Settings, f: Option<Bucket>, o: Option<Bucket>, s: Option<int>, peak: Option<int>, t: int)
    requires Alike(p, f, o, s, peak)
    requires !(s.Some? && peak.Some? && peak.value > s.value && peak.value > t)
    ensures Level(p, f, t) == Level(p, o, t) && Spend(p, f, t) == Spend(p, o, t)
    ensures Spend(p, o, t).Some? ==> Spend(p, o, t).value.lastSeenAt == t
  {
    assert Kept(p, f, t) == Kept(p, o, t);
  }

  lemma {:induction false} UndisturbedAlike(l: Limiter, calls: seq<Call>, key: Name)
    requires l.p.enabled && l.buckets == map[] && !Disturbed(calls, key)
    ensures var own := Filter(calls, By(key));
            && Answers(l, calls, key) == Answers(l, own, key)
            && Alike(l.p, Stored(Run(l, calls), key), Stored(Run(l, own), key), LastOwn(calls, key), Peak(calls, key))
  {
    if calls != [] {
      hide Check, Allowed, Level, Spend, Alike, Kept, Stored;
      var front, c := Front(calls), Last(calls);
      var own := Filter(front, By(key));
      UndisturbedAlike(l, front, key);
      RunKeepsSettings(l, front);
      RunKeepsSettings(l, own);
      var f, o := Stored(Run(l, front), key), Stored(Run(l, own), key);
      if c.key == key {
        assert Front(own + [c]) == own && Last(own + [c]) == c;
        CheckSpends(Run(l, front), key, c.now);
        CheckSpends(Run(l, own), key, c.now);
        AlikeOwn(l.p, f, o, LastOwn(front, key), Peak(front, key), c.now);
        SameIsAlike(l.p, Spend(l.p, o, c.now), c.now);
      } else {
        OtherStep(Run(l, front), c, key);
        AlikeOther(l.p, f, o, LastOwn(front, key), Peak(front, key), c.now);
      }
    }
  }

  lemma SameIsAlike(p: Settings, v: Option<Bucket>, t: int)
    requires v.Some? ==> v.value.lastSeenAt == t
    ensures Alike(p, v, v, Some(t), None)
  {
  }

  // ----- Disturbed calls -----

  /** One call each, ever, and forgotten after `ttl`. */
  function OneShot(ttl: int): Config {
    Config(true, 0.0, 1.0, ttl as real)
  }

  /** A bucket that is still stored was not idle at the latest reading since. */
  ghost predicate Unseen(p: Settings, f: Option<Bucket>, s: Option<int>, peak: Option<int>) {
    f.Some? ==> s.Some? && f.value.lastSeenAt == s.value && (peak.Some? ==> !Idle(p, f.value, peak.value))
  }

  lemma {:induction false} StoredUnseen(l: Limiter, calls: seq<Call>, key: Name)
    requires l.p.enabled && l.buckets == map[]
    ensures Unseen(l.p, Stored(Run(l, calls), key), LastOwn(calls, key), Peak(calls, key))
  {
    if calls != [] {
      var front, c := Front(calls), Last(calls);
      StoredUnseen(l, front, key);
      RunKeepsSettings(l, front);
      if c.key == key {
        CheckSpends(Run(l, front), key, c.now);
      } else {
        OtherStep(Run(l, front), c, key);
      }
    }
  }

  /** On its own the key has nothing left after its first call. */
  lemma {:induction false} NothingLeft(ttl: int, own: seq<Call>, key: Name)
    requires own != [] && forall i :: 0 <= i < |own| ==> own[i].key == key
    ensures Stored(Run(New(OneShot(ttl)), own), key) == Some(Bucket(0.0, Last(own).now, Last(own).now))
  {
    var l, front, c := New(OneShot(ttl)), Front(own), Last(own);
    RunKeepsSettings(l, front);
    CheckSpends(Run(l, front), key, c.now);
    if front == [] {
      assert Stored(l, key) == None;
    } else {
      NothingLeft(ttl, front, key);
      assert Front(front) == front[..|front| - 1];
      OneShotSpend(l.p, Last(front).now, c.now);
    }
  }

  lemma OneShotSpend(p: Settings, s: int, t: int)
    requires p.burst == 1.0 && p.rate == 0.0
    ensures Spend(p, Some(Bucket(0.0, s, s)), t) == Some(Bucket(0.0, t, t))
    ensures !Idle(p, Bucket(0.0, s, s), t) ==> Level(p, Some(Bucket(0.0, s, s)), t) == 0.0
  {
    RefillIsProduct(0.0, t - s);
  }

  lemma {:induction false} OwnMembers(calls: seq<Call>, key: Name)
    ensures var own := Filter(calls, By(key));
            && (forall i :: 0 <= i < |own| ==> own[i].key == key)
            && LastOwn(calls, key) == if own == [] then None else Some(Last(own).now)
  {
    if calls != [] {
      OwnMembers(Front(calls), key);
    }
  }

  lemma {:induction false} AnswerCount(l: Limiter, calls: seq<Call>, key: Name)
    ensures |Answers(l, calls, key)| == |Answers(l, Filter(calls, By(key)), key)| == |Filter(calls, By(key))|
  {
    if calls != [] {
      var own := Filter(Front(calls), By(key));
      AnswerCount(l, Front(calls), key);
      if Last(calls).key == key {
        assert Front(own + [Last(calls)]) == own;
      }
    }
  }

  lemma AllowedAmongOthers(before: seq<Call>, c: Call, key: Name)
    requires Overlooked(before, c, key)
    ensures var l := New(OneShot(Peak(before, key).value - LastOwn(before, key).value));
            Allowed(Run(l, before), key, c.now)
  {
    hide Run, Allowed, Peak, LastOwn;
    var l := New(OneShot(Peak(before, key).value - LastOwn(before, key).value));
    RunKeepsSettings(l, before);
    StoredUnseen(l, before, key);
    CheckSpends(Run(l, before), key, c.now);
  }

  lemma DeniedAlone(before: seq<Call>, c: Call, key: Name)
    requires Overlooked(before, c, key)
    ensures var l := New(OneShot(Peak(before, key).value - LastOwn(before, key).value));
            !Allowed(Run(l, Filter(before, By(key))), key, c.now)
  {
    hide Run, Allowed, Peak, LastOwn, Filter;
    var s, own := LastOwn(before, key).value, Filter(before, By(key));
    var ttl := Peak(before, key).value - s;
    var l := New(OneShot(ttl));
    RunKeepsSettings(l, own);
    OwnMembers(before, key);
    NothingLeft(ttl, own, key);
    CheckSpends(Run(l, own), key, c.now);
    OneShotSpend(l.p, s, c.now);
  }

  /** The overlooked call is allowed among the others, and denied on its own. */
  lemma OverlookedDiffers(before: seq<Call>, c: Call, key: Name)
    requires Overlooked(before, c, key)
    ensures var l := New(OneShot(Peak(before, key).value - LastOwn(before, key).value));
            Allowed(Run(l, before), key, c.now) && !Allowed(Run(l, Filter(before, By(key))), key, c.now)
  {
    hide Run, Allowed, Peak, LastOwn, Filter;
    AllowedAmongOthers(before, c, key);
    DeniedAlone(before, c, key);
  }

  lemma LongerDiffer(a: seq<bool>, b: seq<bool>, x: bool, y: bool)
    requires |a| == |b|
    ensures a + [x] == b + [y] <==> a == b && x == y
  {
    if a + [x] == b + [y] {
      assert a == (a + [x])[..|a|] && b == (b + [y])[..|b|];
      assert (a + [x])[|a|] == x && (b + [y])[|b|] == y;
    }
  }

  lemma {:induction false} DisturbedDiffers(calls: seq<Call>, key: Name) returns (cfg: Config)
    requires Disturbed(calls, key)
    ensures cfg.enabled && Answers(New(cfg), calls, key) != Answers(New(cfg), Filter(calls, By(key)), key)
  {
    hide Allowed, Run, Overlooked;
    var front, c := Front(calls), Last(calls);
    var own := Filter(front, By(key));
    if Disturbed(front, key) {
      cfg := DisturbedDiffers(front, key);
    } else {
      OverlookedDiffers(front, c, key);
      OverlookedIsOwn(front, c, key);
      cfg := OneShot(Peak(front, key).value - LastOwn(front, key).value);
    }
    var l := New(cfg);
    AnswerCount(l, front, key);
    if c.key == key {
      assert Front(own + [c]) == own && Last(own + [c]) == c;
      LongerDiffer(Answers(l, front, key), Answers(l, own, key),
                   Allowed(Run(l, front), key, c.now), Allowed(Run(l, own), key, c.now));
    }
  }

  lemma OverlookedIsOwn(before: seq<Call>, c: Call, key: Name)
    requires Overlooked(before, c, key)
    ensures c.key == key && Peak(before, key).Some? && LastOwn(before, key).Some?
  {
  }

  // ----- The exact condition -----

  /** On any clock: whatever the settings, a key is answered as if it were alone, if and
      only if its calls are not disturbed. */
  lemma KeysAreIsolatedIff(calls: seq<Call>, key: Name)
    ensures (forall cfg: Config :: cfg.enabled ==>
               Answers(New(cfg), calls, key) == Answers(New(cfg), Filter(calls, By(key)), key))
            <==> !Disturbed(calls, key)
  {
    hide Answers, Disturbed;
    if Disturbed(calls, key) {
      var cfg := DisturbedDiffers(calls, key);
    } else {
      forall cfg: Config | cfg.enabled
        ensures Answers(New(cfg), calls, key) == Answers(New(cfg), Filter(calls, By(key)), key)
      {
        UndisturbedAlike(New(cfg), calls, key);
      }
    }
  }

  lemma {:induction false} PeakIsRead(calls: seq<Call>, key: Name, t: int)
    requires InTime(calls) && (calls != [] ==> Last(calls).now <= t)
    ensures Peak(calls, key).Some? ==> Peak(calls, key).value <= t
  {
    if calls != [] {
      assert Front(calls) != [] ==> Last(Front(calls)) == calls[|calls| - 2];
      PeakIsRead(Front(calls), key, t);
    }
  }

  /** Calls in time order are never disturbed. */
  lemma {:induction false} InTimeIsUndisturbed(calls: seq<Call>, key: Name)
    requires InTime(calls)
    ensures !Disturbed(calls, key)
  {
    if calls != [] {
      InTimeIsUndisturbed(Front(calls), key);
      assert Front(calls) != [] ==> Last(Front(calls)) == calls[|calls| - 2];
      PeakIsRead(Front(calls), key, Last(calls).now);
    }
  }

  /** A bucket of one, never refilled, forgotten after a second: k calls at 0 and at 10.
      With a call by j at 1000 in between the second is allowed, without it denied. */
  lemma AnothersCallFreesTheKey()
    ensures var l, k, j := New(OneShot(1000)), Call("k", 0), Call("j", 1000);
            && Disturbed([] + [k] + [j] + [Call("k", 10)], "k")
            && Allowed(Run(l, [] + [k] + [j]), "k", 10)
            && !Allowed(Run(l, [] + [k]), "k", 10)
  {
    hide Allowed, Run, LastOwn, Peak, Disturbed;
    var k, j, c := Call("k", 0), Call("j", 1000), Call("k", 10);
    var one := [] + [k];
    var two := one + [j];
    assert "j"[0] != "k"[0];
    OneMore([], k, "k");
    OneMore(one, j, "k");
    OneMore(two, c, "k");
    FilterPush([], k, By("k"));
    FilterPush(one, j, By("k"));
    OverlookedDiffers(two, c, "k");
  }

  lemma OneMore(calls: seq<Call>, c: Call, key: Name)
    ensures LastOwn(calls + [c], key) == if c.key == key then Some(c.now) else LastOwn(calls, key)
    ensures c.key == key ==> Peak(calls + [c], key) == None
    ensures c.key != key && Peak(calls, key).None? ==> Peak(calls + [c], key) == Some(c.now)
    ensures Disturbed(calls + [c], key) <==> Disturbed(calls, key) || Overlooked(calls, c, key)
  {
    assert Front(calls + [c]) == calls && Last(calls + [c]) == c;
  }
}
