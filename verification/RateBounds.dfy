/** What the limiter guarantees over whole runs of checks by many keys. */
module RateBounds {
  import opened Seqs
  import opened Records
  import opened RateLimits

  // ----- One key's answers depend on its own calls only -----

  lemma CheckFromKept(l: Limiter, m: Limiter, key: Name, now: int, t: int)
    requires m.p == l.p && now <= t
    requires Kept(l.p, Stored(l, key), now) == Kept(l.p, Stored(m, key), now)
    requires !l.p.enabled ==> Kept(l.p, Stored(l, key), t) == Kept(l.p, Stored(m, key), t)
    ensures Allowed(l, key, now) == Allowed(m, key, now)
    ensures Kept(l.p, Stored(Check(l, key, now), key), t) == Kept(l.p, Stored(Check(m, key, now), key), t)
  {
    if l.p.enabled {
      CheckSpends(l, key, now);
      CheckSpends(m, key, now);
    }
  }

  lemma {:induction false} SameKept(l: Limiter, calls: seq<Call>, key: Name, t: int)
    requires InTime(calls) && (calls != [] ==> Last(calls).now <= t)
    ensures Kept(l.p, Stored(Run(l, calls), key), t) == Kept(l.p, Stored(Run(l, Filter(calls, By(key))), key), t)
    ensures Answers(l, calls, key) == Answers(l, Filter(calls, By(key)), key)
  {
    if calls != [] {
      var front, c := Front(calls), Last(calls);
      assert front != [] ==> Last(front) == calls[|calls| - 2];
      SameKept(l, front, key, t);
      RunKeepsSettings(l, front);
      if c.key == key {
        var own := Filter(front, By(key));
        RunKeepsSettings(l, own);
        SameKept(l, front, key, c.now);
        CheckFromKept(Run(l, front), Run(l, own), key, c.now, t);
        assert Filter(calls, By(key)) == own + [c] && Front(own + [c]) == own && Last(own + [c]) == c;
      } else {
        OtherKeyUntouched(Run(l, front), key, c.key, c.now, t);
      }
    }
  }

  /** For calls in time order, whatever the configuration and starting state:
      although every call evicts buckets of all keys, a key is answered as if it
      were alone. */
  lemma KeysAreIsolated(l: Limiter, calls: seq<Call>, key: Name)
    requires InTime(calls)
    ensures Answers(l, calls, key) == Answers(l, Filter(calls, By(key)), key)
  {
    SameKept(l, calls, key, if calls == [] then 0 else Last(calls).now);
  }

  /** One bucket after checks at the given times, and its answers to them. */
  function Solo(p: Settings, v: Option<Bucket>, times: seq<int>): Option<Bucket> {
    if times == [] then v else Spend(p, Solo(p, v, Front(times)), Last(times))
  }

  function SoloAnswers(p: Settings, v: Option<Bucket>, times: seq<int>): seq<bool> {
    if times == [] then []
    else SoloAnswers(p, v, Front(times)) + [Level(p, Solo(p, v, Front(times)), Last(times)) >= 1.0]
  }

  function Times(calls: seq<Call>): seq<int> {
    seq(|calls|, i requires 0 <= i < |calls| => calls[i].now)
  }

  lemma {:induction false} SoloAgrees(l: Limiter, own: seq<Call>, key: Name)
    requires l.p.enabled && forall i :: 0 <= i < |own| ==> own[i].key == key
    ensures Stored(Run(l, own), key) == Solo(l.p, Stored(l, key), Times(own))
    ensures Answers(l, own, key) == SoloAnswers(l.p, Stored(l, key), Times(own))
  {
    if own != [] {
      SoloAgrees(l, Front(own), key);
      RunKeepsSettings(l, Front(own));
      CheckSpends(Run(l, Front(own)), key, Last(own).now);
      assert Front(Times(own)) == Times(Front(own)) && Last(Times(own)) == Last(own).now;
    }
  }

  /** A limiter that is switched off allows every call and keeps no buckets. */
  lemma {:induction false} DisabledAllowsAll(cfg: Config, calls: seq<Call>, key: Name)
    requires !cfg.enabled
    ensures Run(New(cfg), calls) == New(cfg)
    ensures forall i :: 0 <= i < |Answers(New(cfg), calls, key)| ==> Answers(New(cfg), calls, key)[i]
  {
    if calls != [] {
      DisabledAllowsAll(cfg, Front(calls), key);
    }
  }

  /** Negative settings count as zero. */
  lemma NegativeCountsAsZero(cfg: Config)
    ensures New(cfg) == New(Config(cfg.enabled, if cfg.refillPerMinute < 0.0 then 0.0 else cfg.refillPerMinute,
                                   if cfg.burst < 0.0 then 0.0 else cfg.burst,
                                   if cfg.idleTtlMs < 0.0 then 0.0 else cfg.idleTtlMs))
  {
  }

  // ----- Calls that are far enough apart -----

  ghost predicate Spaced(p: Settings, times: seq<int>) {
    forall i, j :: 0 <= i < j < |times| && j == i + 1 ==> Refill(p.rate, times[j] - times[i]) >= 1.0
  }

  /** The key's bucket is as its last check, at `s`, left it, or gone. */
  ghost predicate LeftAt(v: Option<Bucket>, s: int) {
    v.Some? ==> v.value.tokens >= 0.0 && v.value.lastRefillAt == s
  }

  lemma SpentThenRefilled(p: Settings, v: Option<Bucket>, s: int, t: int)
    requires p.burst >= 1.0 && LeftAt(v, s) && (v.Some? ==> Refill(p.rate, t - s) >= 1.0)
    ensures Level(p, v, t) >= 1.0 && LeftAt(Spend(p, v, t), t)
  {
  }

  lemma OtherLeaves(l: Limiter, c: Call, key: Name, s: int)
    requires c.key != key && LeftAt(Stored(l, key), s)
    ensures LeftAt(Stored(Check(l, c.key, c.now), key), s)
    ensures Stored(l, key).None? ==> Stored(Check(l, c.key, c.now), key).None?
  {
  }

  lemma {:induction false} SpacedRun(l: Limiter, calls: seq<Call>, key: Name)
    requires l.p.enabled && l.p.burst >= 1.0 && l.buckets == map[] && Spaced(l.p, Times(Filter(calls, By(key))))
    ensures forall i :: 0 <= i < |Answers(l, calls, key)| ==> Answers(l, calls, key)[i]
    ensures var own := Filter(calls, By(key)); var v := Stored(Run(l, calls), key);
            if own == [] then v.None? else LeftAt(v, Last(own).now)
  {
    if calls != [] {
      hide Check, Allowed, Level, Spend;
      var front, c := Front(calls), Last(calls);
      var own, m := Filter(front, By(key)), Run(l, front);
      SpacedFront(l.p, calls, key);
      SpacedRun(l, front, key);
      RunKeepsSettings(l, front);
      if c.key == key {
        CheckSpends(m, key, c.now);
        SpentThenRefilled(l.p, Stored(m, key), if own == [] then c.now else Last(own).now, c.now);
      } else {
        OtherLeaves(m, c, key, if own == [] then 0 else Last(own).now);
      }
    }
  }

  lemma {:induction false} SpacedFront(p: Settings, calls: seq<Call>, key: Name)
    requires calls != [] && Spaced(p, Times(Filter(calls, By(key))))
    ensures var own := Filter(Front(calls), By(key));
            && Spaced(p, Times(own))
            && (Last(calls).key == key && own != [] ==> Refill(p.rate, Last(calls).now - Last(own).now) >= 1.0)
  {
    hide Spaced, Refill, Times;
    var own, c := Filter(Front(calls), By(key)), Last(calls);
    if c.key == key {
      TimesPush(own, c);
      SpacedPush(p, Times(own), c.now);
    }
  }

  lemma TimesPush(own: seq<Call>, c: Call)
    ensures Times(own + [c]) == Times(own) + [c.now]
    ensures own != [] ==> Times(own) != [] && Last(Times(own)) == Last(own).now
  {
  }

  lemma SpacedPush(p: Settings, times: seq<int>, t: int)
    requires Spaced(p, times + [t])
    ensures Spaced(p, times) && (times != [] ==> Refill(p.rate, t - Last(times)) >= 1.0)
  {
    var all := times + [t];
    forall i, j | 0 <= i < j < |times| && j == i + 1
      ensures Refill(p.rate, times[j] - times[i]) >= 1.0
    {
      assert all[i] == times[i] && all[j] == times[j];
    }
    if times != [] {
      assert all[|times| - 1] == Last(times) && all[|times|] == t;
    }
  }

  /** A key whose calls are at least one token apart is never denied, whatever the
      other keys do, on whatever clock they do it, and whatever the eviction time, once
      a bucket can hold a token. */
  lemma SpacedCallsAreNeverDenied(cfg: Config, calls: seq<Call>, key: Name)
    requires cfg.enabled && cfg.burst >= 1.0
    requires Spaced(New(cfg).p, Times(Filter(calls, By(key))))
    ensures var answers := Answers(New(cfg), calls, key); forall i :: 0 <= i < |answers| ==> answers[i]
  {
    SpacedRun(New(cfg), calls, key);
  }

  // ----- Buckets that refill before they are dropped -----

  /** A full bucket refills within the eviction time. */
  predicate TtlSafe(p: Settings) {
    p.idleTtl == 0.0 || p.idleTtl * p.rate >= p.burst
  }

  /** The same, said of the refill itself. */
  ghost predicate FullBeforeDrop(p: Settings) {
    p.idleTtl == 0.0 || forall ms: int :: ms as real >= p.idleTtl ==> Refill(p.rate, ms) >= p.burst
  }

  lemma Product(a: real, b: real)
    requires a >= 0.0 && b >= 0.0
    ensures a * b >= 0.0
  {
  }

  lemma SafeIsFull(p: Settings)
    requires Sane(p) && TtlSafe(p)
    ensures FullBeforeDrop(p)
  {
    forall ms: int | ms as real >= p.idleTtl > 0.0
      ensures Refill(p.rate, ms) >= p.burst
    {
      RefillIsProduct(p.rate, ms);
      Product(ms as real - p.idleTtl, p.rate);
      assert (ms as real - p.idleTtl) * p.rate == ms as real * p.rate - p.idleTtl * p.rate;
    }
  }

  /** The level if nothing were ever dropped. */
  function Raw(p: Settings, v: Option<Bucket>, t: int): real {
    if v.None? then p.burst else MinReal(v.value.tokens + Refill(p.rate, t - v.value.lastRefillAt), p.burst)
  }

  // ----- The rate bound, for any clock -----

  /** A stored bucket that makes sense, whatever the clock does. */
  ghost predicate Sound(p: Settings, v: Option<Bucket>) {
    v.Some? ==> 0.0 <= v.value.tokens <= p.burst && v.value.lastRefillAt == v.value.lastSeenAt
  }

  /** The last clock reading of a stretch of calls that begins at `s`. */
  function End(s: int, calls: seq<Call>): int {
    if calls == [] then s else Last(calls).now
  }

  /** What refills over the upward moves of the clock; downward moves give nothing. */
  function Gained(rate: real, s: int, calls: seq<Call>): real {
    if calls == [] then 0.0
    else Gained(rate, s, Front(calls)) + Refill(rate, Last(calls).now - End(s, Front(calls)))
  }

  lemma RefillNonNegative(rate: real, ms: int)
    requires rate >= 0.0
    ensures Refill(rate, ms) >= 0.0
  {
    if ms > 0 {
      RefillGrows(rate, 0, ms);
    }
  }

  /** Two stretches refill at least as much as the one they make up. */
  lemma RefillSplits(rate: real, a: int, b: int)
    requires rate >= 0.0
    ensures Refill(rate, a + b) <= Refill(rate, a) + Refill(rate, b)
  {
    RefillNonNegative(rate, a);
    RefillNonNegative(rate, b);
    if a >= 0 && b >= 0 {
      RefillGrows(rate, a, a + b);
    } else if 0 <= a + b {
      if a < 0 {
        RefillGrows(rate, a + b, b);
      } else {
        RefillGrows(rate, a + b, a);
      }
    }
  }

  lemma RawRise(p: Settings, v: Option<Bucket>, s: int, t: int)
    requires Sane(p) && Sound(p, v)
    ensures Raw(p, v, t) <= Raw(p, v, s) + Refill(p.rate, t - s)
  {
    RefillNonNegative(p.rate, t - s);
    if v.Some? {
      RefillSplits(p.rate, s - v.value.lastRefillAt, t - s);
    }
  }

  /** When a full bucket refills within the eviction time, an idle bucket is a full one. */
  lemma IdleIsFull(p: Settings, v: Option<Bucket>, t: int)
    requires Sane(p) && FullBeforeDrop(p) && Sound(p, v)
    ensures v.Some? && Idle(p, v.value, t) ==> Raw(p, v, t) == p.burst
    ensures Level(p, v, t) == Raw(p, v, t) && 0.0 <= Raw(p, v, t) <= p.burst
  {
    if v.Some? {
      RefillNonNegative(p.rate, t - v.value.lastRefillAt);
    }
    if v.Some? && Idle(p, v.value, t) {
      assert Refill(p.rate, t - v.value.lastSeenAt) >= p.burst;
    }
  }

  function Spent(yes: bool): real {
    if yes then 1.0 else 0.0
  }

  lemma OwnCheck(p: Settings, v: Option<Bucket>, t: int)
    requires Sane(p) && FullBeforeDrop(p) && Sound(p, v)
    ensures Sound(p, Spend(p, v, t))
    ensures Raw(p, Spend(p, v, t), t) == Raw(p, v, t) - Spent(Level(p, v, t) >= 1.0)
  {
    IdleIsFull(p, v, t);
  }

  /** One check, by the key or by another, at any time: what it takes from the key's
      bucket is what it allowed the key. */
  lemma CheckTakes(l: Limiter, c: Call, key: Name)
    requires l.p.enabled && Sane(l.p) && FullBeforeDrop(l.p) && Sound(l.p, Stored(l, key))
    ensures Sound(l.p, Stored(Check(l, c.key, c.now), key))
    ensures Raw(l.p, Stored(Check(l, c.key, c.now), key), c.now) ==
            Raw(l.p, Stored(l, key), c.now) - Spent(c.key == key && Allowed(l, key, c.now))
  {
    IdleIsFull(l.p, Stored(l, key), c.now);
    if c.key == key {
      CheckSpends(l, key, c.now);
      OwnCheck(l.p, Stored(l, key), c.now);
    }
  }

  lemma AddUp(count: real, spent: real, atS: real, atE: real, atT: real, after: real, before: real, gain: real)
    requires count + atE <= atS + before && atT <= atE + gain && after == atT - spent
    ensures count + spent + after <= atS + (before + gain)
  {
  }

  /** Tokens spent plus tokens left never exceed tokens had plus tokens gained, for
      every sequence of calls, by any keys, on any clock. */
  lemma {:induction false} TokensConserved(l: Limiter, s: int, calls: seq<Call>, key: Name)
    requires l.p.enabled && Sane(l.p) && FullBeforeDrop(l.p) && Sound(l.p, Stored(l, key))
    ensures Run(l, calls).p == l.p && Sound(l.p, Stored(Run(l, calls), key))
    ensures Count(Answers(l, calls, key)) as real + Raw(l.p, Stored(Run(l, calls), key), End(s, calls)) <=
            Raw(l.p, Stored(l, key), s) + Gained(l.p.rate, s, calls)
  {
    hide Check, Allowed, Raw, Sound, FullBeforeDrop, Refill, Stored;
    if calls != [] {
      var front, c := Front(calls), Last(calls);
      TokensConserved(l, s, front, key);
      RunKeepsSettings(l, calls);
      var m := Run(l, front);
      var v, yes := Stored(m, key), c.key == key && Allowed(m, key, c.now);
      RawRise(l.p, v, End(s, front), c.now);
      CheckTakes(m, c, key);
      CountPush(Answers(l, front, key), yes);
      AddUp(Count(Answers(l, front, key)) as real, Spent(yes), Raw(l.p, Stored(l, key), s), Raw(l.p, v, End(s, front)),
            Raw(l.p, v, c.now), Raw(l.p, Stored(Run(l, calls), key), c.now),
            Gained(l.p.rate, s, front), Refill(l.p.rate, c.now - End(s, front)));
    }
  }

  lemma CountPush(bs: seq<bool>, b: bool)
    ensures Count(bs + [b]) == Count(bs) + if b then 1 else 0
  {
    assert Front(bs + [b]) == bs;
  }

  /** Any contiguous window of calls allows a key at most `burst` plus what refills
      over the upward moves of the clock within the window. */
  lemma AnyClockBound(cfg: Config, earlier: seq<Call>, window: seq<Call>, key: Name)
    requires cfg.enabled && TtlSafe(New(cfg).p) && window != []
    ensures var l := New(cfg);
            Count(Answers(Run(l, earlier), window, key)) as real <=
            l.p.burst + Gained(l.p.rate, window[0].now, window)
  {
    hide Run, Answers, FullBeforeDrop, TtlSafe, Refill, Gained;
    var l, s := New(cfg), window[0].now;
    SafeIsFull(l.p);
    TokensConserved(l, s, earlier, key);
    var m := Run(l, earlier);
    TokensConserved(m, s, window, key);
    IdleIsFull(l.p, Stored(m, key), s);
    IdleIsFull(l.p, Stored(Run(m, window), key), Last(window).now);
  }

  /** When the clock does not step back, that is what refills over the duration. */
  lemma {:induction false} GainedInOrder(rate: real, s: int, calls: seq<Call>)
    requires rate >= 0.0 && InTime(calls) && (calls != [] ==> s <= calls[0].now)
    ensures s <= End(s, calls) && Gained(rate, s, calls) == Refill(rate, End(s, calls) - s)
  {
    if calls != [] {
      var front, t := Front(calls), Last(calls).now;
      GainedInOrder(rate, s, front);
      assert front != [] ==> Last(front) == calls[|calls| - 2] && Last(front).now <= t;
      RefillGrows(rate, End(s, front) - s, t - s);
      assert (t - s) - (End(s, front) - s) == t - End(s, front);
    }
  }

  /** So in time order a window allows at most `burst` plus the refill over its duration. */
  lemma WindowBound(cfg: Config, earlier: seq<Call>, window: seq<Call>, key: Name)
    requires cfg.enabled && TtlSafe(New(cfg).p) && InTime(window) && window != []
    ensures var l := New(cfg);
            Count(Answers(Run(l, earlier), window, key)) as real <=
            l.p.burst + Refill(l.p.rate, Last(window).now - window[0].now)
  {
    hide Run, Answers, TtlSafe, Refill, Gained, InTime;
    AnyClockBound(cfg, earlier, window, key);
    GainedInOrder(New(cfg).p.rate, window[0].now, window);
  }

  /** The same in the numbers of the configuration, per minute. */
  lemma WindowBoundPerMinute(cfg: Config, earlier: seq<Call>, window: seq<Call>, key: Name)
    requires cfg.enabled && cfg.burst >= 0.0 && cfg.refillPerMinute >= 0.0 && cfg.idleTtlMs >= 0.0
    requires cfg.idleTtlMs == 0.0 || cfg.idleTtlMs * cfg.refillPerMinute >= cfg.burst * 60000.0
    requires InTime(window) && window != []
    ensures var ms := Last(window).now - window[0].now;
            Count(Answers(Run(New(cfg), earlier), window, key)) as real
               <= cfg.burst + ms as real * cfg.refillPerMinute / 60000.0
  {
    hide Run, Answers, InTime, Refill;
    var ms, rate := Last(window).now - window[0].now, New(cfg).p.rate;
    PerMinute(cfg);
    WindowBound(cfg, earlier, window, key);
    RefillIsProduct(rate, ms);
    InTimeEnds(window);
    PerMinuteProduct(ms as real, cfg.refillPerMinute);
  }

  lemma InTimeEnds(window: seq<Call>)
    requires InTime(window) && window != []
    ensures window[0].now <= Last(window).now
  {
  }

  lemma PerMinuteProduct(ms: real, perMinute: real)
    ensures ms * (perMinute / 60000.0) == ms * perMinute / 60000.0
  {
  }

  lemma PerMinute(cfg: Config)
    requires cfg.burst >= 0.0 && cfg.refillPerMinute >= 0.0 && cfg.idleTtlMs >= 0.0
    requires cfg.idleTtlMs == 0.0 || cfg.idleTtlMs * cfg.refillPerMinute >= cfg.burst * 60000.0
    ensures New(cfg).p == Settings(cfg.enabled, cfg.burst, cfg.idleTtlMs, cfg.refillPerMinute / 60000.0)
    ensures TtlSafe(New(cfg).p)
  {
    PerMinuteProduct(cfg.idleTtlMs, cfg.refillPerMinute);
  }

  // ----- Runs put together -----

  function Repeat(c: Call, n: nat): seq<Call> {
    if n == 0 then [] else Repeat(c, n - 1) + [c]
  }

  lemma {:induction false} RepeatSame(c: Call, n: nat)
    ensures |Repeat(c, n)| == n && forall i :: 0 <= i < n ==> Repeat(c, n)[i] == c
  {
    if n > 0 {
      RepeatSame(c, n - 1);
    }
  }

  lemma {:induction false} AnswersConcat(l: Limiter, a: seq<Call>, b: seq<Call>, key: Name)
    ensures Run(l, a + b) == Run(Run(l, a), b)
    ensures Answers(l, a + b, key) == Answers(l, a, key) + Answers(Run(l, a), b, key)
  {
    if b == [] {
      assert a + b == a;
    } else {
      AnswersConcat(l, a, Front(b), key);
      assert Front(a + b) == a + Front(b) && Last(a + b) == Last(b);
    }
  }

  lemma {:induction false} CountConcat(a: seq<bool>, b: seq<bool>)
    ensures Count(a + b) == Count(a) + Count(b)
  {
    if b == [] {
      assert a + b == a;
    } else {
      assert Front(a + b) == a + Front(b) && Last(a + b) == Last(b);
      CountConcat(a, Front(b));
    }
  }
}
