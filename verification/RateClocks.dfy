/** Which clocks keep the rate bound: the bound over the upward moves is attained,
    so the bound by duration holds exactly for clocks that move one way only. */
module RateClocks {
  import opened Seqs
  import opened Records
  import opened RateLimits
  import opened RateBounds

  ghost predicate Ordered(times: seq<int>) {
    forall i, j :: 0 <= i < j < |times| ==> times[i] <= times[j]
  }

  ghost predicate Falling(times: seq<int>) {
    forall i, j :: 0 <= i < j < |times| ==> times[j] <= times[i]
  }

  /** How far the readings move up, and down, in all. */
  function Climb(times: seq<int>): nat {
    if |times| <= 1 then 0 else Climb(Front(times)) + Max(Last(times) - Last(Front(times)), 0)
  }

  function Drop(times: seq<int>): nat {
    if |times| <= 1 then 0 else Drop(Front(times)) + Max(Last(Front(times)) - Last(times), 0)
  }

  lemma OneWayGrows(times: seq<int>)
    requires |times| > 1
    ensures Ordered(times) <==> Ordered(Front(times)) && Last(Front(times)) <= Last(times)
    ensures Falling(times) <==> Falling(Front(times)) && Last(times) <= Last(Front(times))
  {
    var front := Front(times);
    assert forall i :: 0 <= i < |front| ==> front[i] == times[i];
    assert Last(front) == times[|times| - 2] && Last(times) == times[|times| - 1];
  }

  lemma {:induction false} ClimbLessDrop(times: seq<int>)
    requires times != []
    ensures Climb(times) - Drop(times) == Last(times) - times[0]
    ensures Drop(times) == 0 <==> Ordered(times)
    ensures Climb(times) == 0 <==> Falling(times)
  {
    if |times| > 1 {
      hide Ordered, Falling;
      ClimbLessDrop(Front(times));
      OneWayGrows(times);
    }
  }

  /** The calls of a window read the clock as `times`, each reading once or more. */
  ghost predicate Reads(calls: seq<Call>, times: seq<int>) {
    if times == [] then calls == []
    else
      exists k :: 0 <= k < |calls| && Reads(calls[..k], Front(times)) &&
                  forall i :: k <= i < |calls| ==> calls[i].now == Last(times)
  }

  lemma {:induction false} GainedAtOneTime(rate: real, s: int, a: seq<Call>, b: seq<Call>, t: int)
    requires b != [] && forall i :: 0 <= i < |b| ==> b[i].now == t
    ensures Gained(rate, s, a + b) == Gained(rate, s, a) + Refill(rate, t - End(s, a))
  {
    assert Front(a + b) == a + Front(b) && Last(a + b) == Last(b);
    if |b| == 1 {
      assert a + Front(b) == a;
    } else {
      GainedAtOneTime(rate, s, a, Front(b), t);
      assert Last(a + Front(b)) == Last(Front(b)) == b[|b| - 2];
    }
  }

  /** What is gained depends on the readings alone. */
  lemma {:induction false} GainedByReading(rate: real, calls: seq<Call>, times: seq<int>)
    requires times != [] && Reads(calls, times) && rate >= 0.0
    ensures calls != [] && calls[0].now == times[0] && Last(calls).now == Last(times)
    ensures Gained(rate, times[0], calls) == Refill(rate, Climb(times))
  {
    var k :| 0 <= k < |calls| && Reads(calls[..k], Front(times)) &&
             forall i :: k <= i < |calls| ==> calls[i].now == Last(times);
    var a, b := calls[..k], calls[k..];
    assert calls == a + b;
    GainedAtOneTime(rate, times[0], a, b, Last(times));
    if |times| > 1 {
      GainedByReading(rate, a, Front(times));
      assert calls[0] == a[0];
      var up := Last(times) - Last(Front(times));
      RefillGrows(rate, Climb(Front(times)), Climb(times));
      assert Refill(rate, up) == Refill(rate, Max(up, 0));
    } else {
      assert a == [];
    }
  }

  // ----- Clocks that move one way only -----

  lemma OneWayIsBounded(cfg: Config, earlier: seq<Call>, calls: seq<Call>, times: seq<int>, key: Name)
    requires cfg.enabled && TtlSafe(New(cfg).p) && times != [] && Reads(calls, times)
    requires Ordered(times) || Falling(times)
    ensures Count(Answers(Run(New(cfg), earlier), calls, key)) as real <=
            New(cfg).p.burst + Refill(New(cfg).p.rate, Last(times) - times[0])
  {
    hide Run, Answers, TtlSafe, Ordered, Falling, Reads, Gained;
    GainedByReading(New(cfg).p.rate, calls, times);
    AnyClockBound(cfg, earlier, calls, key);
    ClimbLessDrop(times);
  }

  // ----- The bound is attained on every clock -----

  /** One token per millisecond, a bucket of `burst`, no eviction. */
  function Fast(burst: nat): Config {
    Config(true, 60000.0, burst as real, 0.0)
  }

  function Visits(times: seq<int>, n: nat): seq<Call> {
    if times == [] then [] else Visits(Front(times), n) + Repeat(Call("k", Last(times)), n)
  }

  lemma {:induction false} VisitsRead(times: seq<int>, n: nat)
    requires n > 0
    ensures Reads(Visits(times, n), times)
  {
    if times != [] {
      VisitsRead(Front(times), n);
      RepeatSame(Call("k", Last(times)), n);
      var before := Visits(Front(times), n);
      assert Visits(times, n)[..|before|] == before;
    }
  }

  /** A bucket with a whole number of tokens gives them out one by one. */
  lemma {:induction false} GivesOut(l: Limiter, c: Call, m: nat, n: nat)
    requires l.p.enabled && l.p.idleTtl == 0.0 && l.p.burst >= 1.0 && n > 0
    requires Level(l.p, Stored(l, c.key), c.now) == m as real <= l.p.burst
    ensures Run(l, Repeat(c, n)).p == l.p
    ensures Stored(Run(l, Repeat(c, n)), c.key) == Some(Bucket(Max(m - n, 0) as real, c.now, c.now))
    ensures Count(Answers(l, Repeat(c, n), c.key)) == Min(m, n)
  {
    hide Check, Allowed, Level, Count;
    var before := Repeat(c, n - 1);
    assert Front(Repeat(c, n)) == before && Last(Repeat(c, n)) == c;
    RunKeepsSettings(l, Repeat(c, n));
    RunKeepsSettings(l, before);
    var left := Max(m - (n - 1), 0);
    if n > 1 {
      GivesOut(l, c, m, n - 1);
      LevelNow(l.p, left, c.now);
    } else {
      NoneCounted();
    }
    GivesOne(Run(l, before), c, left);
    CountPush(Answers(l, before, c.key), left >= 1);
  }

  lemma NoneCounted()
    ensures Count([]) == 0
  {
  }

  lemma LevelNow(p: Settings, m: nat, t: int)
    requires p.idleTtl == 0.0
    ensures Level(p, Some(Bucket(m as real, t, t)), t) == MinReal(m as real, p.burst)
  {
  }

  lemma GivesOne(l: Limiter, c: Call, m: nat)
    requires l.p.enabled && l.p.idleTtl == 0.0 && l.p.burst >= 1.0 && Level(l.p, Stored(l, c.key), c.now) == m as real
    ensures Allowed(l, c.key, c.now) <==> m >= 1
    ensures Stored(Check(l, c.key, c.now), c.key) == Some(Bucket(Max(m - 1, 0) as real, c.now, c.now))
  {
    CheckSpends(l, c.key, c.now);
  }

  lemma LevelAfterEmpty(p: Settings, burst: nat, s: int, t: int)
    requires p == New(Fast(burst)).p && t - s <= burst
    ensures Level(p, Some(Bucket(0.0, s, s)), t) == Max(t - s, 0) as real
  {
    assert p.rate == 1.0;
    RefillIsProduct(1.0, t - s);
  }

  lemma SaturatedOnce(t: int, burst: nat)
    requires burst > 0
    ensures var l, calls := New(Fast(burst)), Visits([t], burst);
            && Stored(Run(l, calls), "k") == Some(Bucket(0.0, t, t)) && Count(Answers(l, calls, "k")) == burst
  {
    hide Check, Allowed, Level, Run, Answers;
    var l, c := New(Fast(burst)), Call("k", t);
    assert Front([t]) == [] && Visits([t], burst) == Repeat(c, burst);
    FullAtFirst(l.p, t);
    GivesOut(l, c, burst, burst);
  }

  /** One more reading, met by an empty bucket. */
  lemma SaturatedStep(before: seq<Call>, s: int, t: int, burst: nat)
    requires burst > 0 && t - s <= burst && Stored(Run(New(Fast(burst)), before), "k") == Some(Bucket(0.0, s, s))
    ensures var l, calls := New(Fast(burst)), before + Repeat(Call("k", t), burst);
            && Stored(Run(l, calls), "k") == Some(Bucket(0.0, t, t))
            && Count(Answers(l, calls, "k")) == Count(Answers(l, before, "k")) + Max(t - s, 0)
  {
    hide Check, Allowed, Level, Run, Answers, Count;
    var l, c := New(Fast(burst)), Call("k", t);
    var m := Run(l, before);
    AnswersConcat(l, before, Repeat(c, burst), "k");
    CountConcat(Answers(l, before, "k"), Answers(m, Repeat(c, burst), "k"));
    RunKeepsSettings(l, before);
    LevelAfterEmpty(l.p, burst, s, t);
    GivesOut(m, c, Max(t - s, 0), burst);
  }

  /** Enough calls at every reading are allowed the burst and one for every millisecond
      that the clock moves up. */
  lemma {:induction false} Saturated(times: seq<int>, burst: nat)
    requires times != [] && burst > Climb(times)
    ensures var l := New(Fast(burst));
            && Stored(Run(l, Visits(times, burst)), "k") == Some(Bucket(0.0, Last(times), Last(times)))
            && Count(Answers(l, Visits(times, burst), "k")) == burst + Climb(times)
  {
    hide Run, Answers, Count;
    if |times| == 1 {
      assert times == [Last(times)];
      SaturatedOnce(Last(times), burst);
    } else {
      Saturated(Front(times), burst);
      SaturatedStep(Visits(Front(times), burst), Last(Front(times)), Last(times), burst);
    }
  }

  lemma FullAtFirst(p: Settings, t: int)
    ensures Level(p, None, t) == p.burst
  {
  }

  /** On a clock that moves both ways some window beats the bound by its duration. */
  lemma TwoWaysIsNot(times: seq<int>)
    requires times != [] && !Ordered(times) && !Falling(times)
    ensures var burst := Climb(times) + 1; var l := New(Fast(burst));
            && Reads(Visits(times, burst), times) && TtlSafe(l.p)
            && Count(Answers(Run(l, []), Visits(times, burst), "k")) as real >
               l.p.burst + Refill(l.p.rate, Last(times) - times[0])
  {
    hide Answers, Ordered, Falling, Reads, Visits;
    var burst := Climb(times) + 1;
    ClimbLessDrop(times);
    VisitsRead(times, burst);
    Saturated(times, burst);
    assert New(Fast(burst)).p.rate == 1.0;
    RefillIsProduct(1.0, Last(times) - times[0]);
  }

  /** The bound by duration holds for all windows that read the clock as `times` if
      and only if these readings never go back, or never go forward. */
  lemma DurationBoundsIffOneWay(times: seq<int>)
    requires times != []
    ensures (forall cfg: Config, earlier: seq<Call>, calls: seq<Call>, key: Name ::
               cfg.enabled && TtlSafe(New(cfg).p) && Reads(calls, times) ==>
                 Count(Answers(Run(New(cfg), earlier), calls, key)) as real <=
                 New(cfg).p.burst + Refill(New(cfg).p.rate, Last(times) - times[0]))
            <==> Ordered(times) || Falling(times)
  {
    hide Answers, Run, Ordered, Falling, Reads, TtlSafe;
    if Ordered(times) || Falling(times) {
      forall cfg: Config, earlier: seq<Call>, calls: seq<Call>, key: Name
        | cfg.enabled && TtlSafe(New(cfg).p) && Reads(calls, times)
        ensures Count(Answers(Run(New(cfg), earlier), calls, key)) as real <=
                New(cfg).p.burst + Refill(New(cfg).p.rate, Last(times) - times[0])
      {
        OneWayIsBounded(cfg, earlier, calls, times, key);
      }
    } else {
      TwoWaysIsNot(times);
    }
  }

  // ----- A concrete clock -----

  lemma CheckTwice(l: Limiter, tokens: real, at: int, now: int)
    requires l.p == Settings(true, 1.0, 0.0, 0.001) && l.buckets == map["k" := Bucket(tokens, at, at)]
    requires 0.0 <= tokens < 1.0
    requires now - at == 1000 || now < at
    ensures Allowed(l, "k", now) <==> now - at == 1000
    ensures Check(l, "k", now).p == l.p
    ensures Check(l, "k", now).buckets == map["k" := Bucket(if now < at then tokens else 0.0, now, now)]
  {
    RefillIsProduct(0.001, now - at);
    assert Evict(l, now) == l.buckets;
  }

  function BackAndForth(): seq<Call> {
    [] + [Call("k", 0)] + [Call("k", 1000)] + [Call("k", 0)] + [Call("k", 1000)]
  }

  lemma BackAndForthAnswers(l: Limiter)
    requires l == Limiter(Settings(true, 1.0, 0.0, 0.001), map[])
    ensures Answers(l, BackAndForth(), "k") == [true] + [true] + [false] + [true]
  {
    hide Check, Allowed, Run, Answers;
    var one := [] + [Call("k", 0)];
    var two := one + [Call("k", 1000)];
    var three := two + [Call("k", 0)];
    NoCalls(l);
    Grow(l, [], 0);
    FirstCheck(l);
    assert Answers(l, one, "k") == [true];
    Grow(l, one, 1000);
    CheckTwice(Run(l, one), 0.0, 0, 1000);
    Grow(l, two, 0);
    CheckTwice(Run(l, two), 0.0, 1000, 0);
    Grow(l, three, 1000);
    CheckTwice(Run(l, three), 0.0, 0, 1000);
  }

  lemma NoCalls(l: Limiter)
    ensures Run(l, []) == l && Answers(l, [], "k") == []
  {
  }

  /** One token per second, a bucket of one: readings 0, 1000, 0, 1000 credit the same
      second twice and allow three calls, more than the burst and the refill over
      the whole span of the readings. */
  lemma SteppingBackRefillsTwice()
    ensures var l := New(Config(true, 60.0, 1.0, 0.0));
            && TtlSafe(l.p)
            && Answers(l, BackAndForth(), "k") == [true, true, false, true]
            && Count(Answers(l, BackAndForth(), "k")) as real > l.p.burst + Refill(l.p.rate, 1000)
  {
    hide Check, Allowed, Run, Answers, Count;
    var l := New(Config(true, 60.0, 1.0, 0.0));
    assert l.p == Settings(true, 1.0, 0.0, 0.001);
    BackAndForthAnswers(l);
    CountPush([true, true, false], true);
    CountPush([true, true], false);
    CountPush([true], true);
    CountPush([], true);
    NoneCounted();
    assert [] + [true] == [true] && [true] + [true] == [true, true] && [true, true] + [false] == [true, true, false];
    RefillIsProduct(0.001, 1000);
  }

  lemma FirstCheck(l: Limiter)
    requires l.p == Settings(true, 1.0, 0.0, 0.001) && l.buckets == map[]
    ensures Allowed(l, "k", 0) && Check(l, "k", 0) == Limiter(l.p, map["k" := Bucket(0.0, 0, 0)])
  {
  }

  lemma Grow(l: Limiter, calls: seq<Call>, now: int)
    ensures Run(l, calls + [Call("k", now)]) == Check(Run(l, calls), "k", now)
    ensures Answers(l, calls + [Call("k", now)], "k") == Answers(l, calls, "k") + [Allowed(Run(l, calls), "k", now)]
  {
    assert Front(calls + [Call("k", now)]) == calls;
  }
}
