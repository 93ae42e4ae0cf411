/** When eviction can be noticed: never by calls that are not disturbed, on any clock,
    if a full bucket refills within the idle time, and only then. */
module RateEviction {
  import opened Seqs
  import opened Records
  import opened RateLimits
  import opened RateBounds
  import opened RateIsolation

  function NeverEvicting(cfg: Config): Config {
    cfg.(idleTtlMs := 0.0)
  }

  // ----- A safe idle time hides eviction -----

  lemma SpendSameRaw(p: Settings, q: Settings, v: Option<Bucket>, w: Option<Bucket>, now: int, t: int)
    requires Sane(p) && q == p.(idleTtl := 0.0) && FullBeforeDrop(p)
    requires Sound(p, v) && Sound(q, w) && Raw(p, v, now) == Raw(q, w, now)
    ensures Level(p, v, now) == Level(q, w, now)
    ensures Raw(p, Spend(p, v, now), t) == Raw(q, Spend(q, w, now), t)
  {
    IdleIsFull(p, v, now);
    IdleIsFull(q, w, now);
    RefillNonNegative(p.rate, t - now);
  }

  /** One bucket with eviction and one without stay alike at all times. */
  lemma {:induction false} SameSolo(p: Settings, times: seq<int>)
    requires Sane(p) && FullBeforeDrop(p)
    ensures var q := p.(idleTtl := 0.0);
            && SoloAnswers(p, None, times) == SoloAnswers(q, None, times)
            && Sound(p, Solo(p, None, times)) && Sound(q, Solo(q, None, times))
            && forall t :: Raw(p, Solo(p, None, times), t) == Raw(q, Solo(q, None, times), t)
  {
    if times != [] {
      hide Raw, Level, Spend, Sound, FullBeforeDrop;
      var q, front, now := p.(idleTtl := 0.0), Front(times), Last(times);
      var v, w := Solo(p, None, front), Solo(q, None, front);
      SameSolo(p, front);
      NoDropIsFull(q);
      OwnCheck(p, v, now);
      OwnCheck(q, w, now);
      forall t
        ensures Level(p, v, now) == Level(q, w, now)
        ensures Raw(p, Spend(p, v, now), t) == Raw(q, Spend(q, w, now), t)
      {
        SpendSameRaw(p, q, v, w, now, t);
      }
    }
  }

  lemma NoDropIsFull(q: Settings)
    requires q.idleTtl == 0.0
    ensures FullBeforeDrop(q)
  {
  }

  /** If a full bucket refills within the idle time, eviction never changes an answer to
      calls that are not disturbed, whatever the clock does. */
  lemma EvictionIsInvisible(cfg: Config, calls: seq<Call>, key: Name)
    requires cfg.enabled && TtlSafe(New(cfg).p) && !Disturbed(calls, key)
    ensures Answers(New(cfg), calls, key) == Answers(New(NeverEvicting(cfg)), calls, key)
  {
    hide Answers, Disturbed, TtlSafe, FullBeforeDrop, SoloAnswers;
    var own := Filter(calls, By(key));
    UndisturbedAlike(New(cfg), calls, key);
    UndisturbedAlike(New(NeverEvicting(cfg)), calls, key);
    OwnMembers(calls, key);
    SoloAgrees(New(cfg), own, key);
    SoloAgrees(New(NeverEvicting(cfg)), own, key);
    SafeIsFull(New(cfg).p);
    SameSolo(New(cfg).p, Times(own));
  }

  /** In particular to calls in time order. */
  lemma EvictionIsInvisibleInTime(cfg: Config, calls: seq<Call>, key: Name)
    requires cfg.enabled && TtlSafe(New(cfg).p) && InTime(calls)
    ensures Answers(New(cfg), calls, key) == Answers(New(NeverEvicting(cfg)), calls, key)
  {
    hide Answers, Disturbed, TtlSafe, InTime;
    InTimeIsUndisturbed(calls, key);
    EvictionIsInvisible(cfg, calls, key);
  }

  // ----- An unsafe one does not -----

  ghost predicate BucketOk(p: Settings, v: Option<Bucket>, now: int) {
    v.Some? ==> 0.0 <= v.value.tokens <= p.burst && v.value.lastRefillAt == v.value.lastSeenAt <= now
  }

  lemma SpendOk(p: Settings, v: Option<Bucket>, now: int)
    requires Sane(p) && BucketOk(p, v, now)
    ensures BucketOk(p, Spend(p, v, now), now) && 0.0 <= Level(p, v, now) <= p.burst
  {
    if v.Some? {
      RefillGrows(p.rate, 0, now - v.value.lastRefillAt);
    }
  }

  lemma SpendAtOnce(p: Settings, v: Option<Bucket>, now: int)
    requires Sane(p) && BucketOk(p, v, now) && Level(p, v, now) >= 1.0
    ensures Level(p, Spend(p, v, now), now) == Level(p, v, now) - 1.0
    ensures Spend(p, v, now) == Some(Bucket(Level(p, v, now) - 1.0, now, now))
  {
    SpendOk(p, v, now);
    RefillGrows(p.rate, 0, 0);
  }

  lemma DrainStep(l: Limiter, c: Call)
    requires l.p.enabled && Sane(l.p) && BucketOk(l.p, Stored(l, c.key), c.now)
    requires Level(l.p, Stored(l, c.key), c.now) >= 1.0
    ensures Allowed(l, c.key, c.now)
    ensures var v := Stored(Check(l, c.key, c.now), c.key);
            && BucketOk(l.p, v, c.now) && v.Some? && v.value.lastSeenAt == c.now
            && Level(l.p, v, c.now) == Level(l.p, Stored(l, c.key), c.now) - 1.0
  {
    CheckSpends(l, c.key, c.now);
    SpendAtOnce(l.p, Stored(l, c.key), c.now);
    SpendOk(l.p, Stored(l, c.key), c.now);
  }

  /** As many calls at one moment as there are whole tokens are all allowed. */
  lemma {:induction false} DrainAllows(l: Limiter, c: Call, n: nat)
    requires l.p.enabled && Sane(l.p) && BucketOk(l.p, Stored(l, c.key), c.now)
    requires Level(l.p, Stored(l, c.key), c.now) >= n as real
    ensures Run(l, Repeat(c, n)).p == l.p
    ensures var v := Stored(Run(l, Repeat(c, n)), c.key);
            && BucketOk(l.p, v, c.now) && (n > 0 ==> v.Some? && v.value.lastSeenAt == c.now)
            && Level(l.p, v, c.now) == Level(l.p, Stored(l, c.key), c.now) - n as real
    ensures Count(Answers(l, Repeat(c, n), c.key)) == n
  {
    hide Check, Allowed, Level, BucketOk;
    if n == 0 {
      assert Count([]) == 0;
    } else {
      DrainAllows(l, c, n - 1);
      RunKeepsSettings(l, Repeat(c, n));
      assert Front(Repeat(c, n)) == Repeat(c, n - 1) && Last(Repeat(c, n)) == c;
      DrainStep(Run(l, Repeat(c, n - 1)), c);
      CountPush(Answers(l, Repeat(c, n - 1), c.key), true);
    }
  }

  function TwoBursts(burst: nat, ttl: nat): seq<Call> {
    Repeat(Call("k", 0), burst) + Repeat(Call("k", ttl), burst)
  }

  lemma TwoBurstsInTime(burst: nat, ttl: nat)
    ensures InTime(TwoBursts(burst, ttl)) && |TwoBursts(burst, ttl)| == 2 * burst
    ensures burst > 0 ==> TwoBursts(burst, ttl)[0].now == 0 && Last(TwoBursts(burst, ttl)).now == ttl
  {
    RepeatSame(Call("k", 0), burst);
    RepeatSame(Call("k", ttl), burst);
  }

  lemma TwoBurstsAllAllowed(cfg: Config, burst: nat, ttl: nat)
    requires cfg.enabled && cfg.burst == burst as real >= 1.0 && cfg.idleTtlMs == ttl as real >= 1.0
    ensures Count(Answers(New(cfg), TwoBursts(burst, ttl), "k")) == 2 * burst
  {
    var l, first, second := New(cfg), Call("k", 0), Call("k", ttl);
    DrainAllows(l, first, burst);
    var m := Run(l, Repeat(first, burst));
    DrainAllows(m, second, burst);
    AnswersConcat(l, Repeat(first, burst), Repeat(second, burst), "k");
    CountConcat(Answers(l, Repeat(first, burst), "k"), Answers(m, Repeat(second, burst), "k"));
  }

  lemma LessThanTwice(n: nat, burst: nat, gained: real)
    requires n as real <= burst as real + gained && gained < burst as real
    ensures n < 2 * burst
  {
  }

  lemma TwoBurstsBound(cfg: Config, burst: nat, ttl: nat)
    requires cfg.enabled && cfg.burst == burst as real >= 1.0 && cfg.idleTtlMs == 0.0
    ensures Count(Answers(New(cfg), TwoBursts(burst, ttl), "k")) as real <= burst as real + Refill(New(cfg).p.rate, ttl)
  {
    var calls := TwoBursts(burst, ttl);
    TwoBurstsInTime(burst, ttl);
    assert [] + calls == calls;
    WindowBound(cfg, [], calls, "k");
    assert Run(New(cfg), []) == New(cfg);
    assert Last(calls).now - calls[0].now == ttl;
    assert New(cfg).p.burst == burst as real;
  }

  lemma UnsafeRefill(p: Settings, ttl: nat)
    requires !TtlSafe(p) && p.idleTtl == ttl as real
    ensures Refill(p.rate, ttl) < p.burst
  {
    RefillIsProduct(p.rate, ttl);
  }

  lemma TwoBurstsSeenThrough(cfg: Config, burst: nat, ttl: nat)
    requires cfg.enabled && cfg.burst == burst as real >= 1.0 && cfg.idleTtlMs == ttl as real >= 1.0
    requires !TtlSafe(New(cfg).p)
    ensures Count(Answers(New(NeverEvicting(cfg)), TwoBursts(burst, ttl), "k")) < 2 * burst
  {
    TwoBurstsBound(NeverEvicting(cfg), burst, ttl);
    UnsafeRefill(New(cfg).p, ttl);
    LessThanTwice(Count(Answers(New(NeverEvicting(cfg)), TwoBursts(burst, ttl), "k")), burst,
                  Refill(New(cfg).p.rate, ttl));
  }

  /** For the whole-number settings the adapter passes: eviction never changes an answer
      to undisturbed calls, or just to calls in time order, if and only if a full bucket
      refills within the idle time. */
  lemma EvictionExactlyInvisible(cfg: Config, burst: nat, ttl: nat)
    requires cfg.enabled && cfg.burst == burst as real >= 1.0 && cfg.idleTtlMs == ttl as real >= 1.0
    ensures (forall calls, key :: !Disturbed(calls, key) ==>
               Answers(New(cfg), calls, key) == Answers(New(NeverEvicting(cfg)), calls, key))
            <==> TtlSafe(New(cfg).p)
    ensures (forall calls, key :: InTime(calls) ==>
               Answers(New(cfg), calls, key) == Answers(New(NeverEvicting(cfg)), calls, key))
            <==> TtlSafe(New(cfg).p)
  {
    hide Answers, Disturbed, InTime, TtlSafe;
    if TtlSafe(New(cfg).p) {
      forall calls, key | !Disturbed(calls, key)
        ensures Answers(New(cfg), calls, key) == Answers(New(NeverEvicting(cfg)), calls, key)
      {
        EvictionIsInvisible(cfg, calls, key);
      }
      forall calls, key | InTime(calls)
        ensures Answers(New(cfg), calls, key) == Answers(New(NeverEvicting(cfg)), calls, key)
      {
        EvictionIsInvisibleInTime(cfg, calls, key);
      }
    } else {
      var calls := TwoBursts(burst, ttl);
      TwoBurstsInTime(burst, ttl);
      InTimeIsUndisturbed(calls, "k");
      TwoBurstsAllAllowed(cfg, burst, ttl);
      TwoBurstsSeenThrough(cfg, burst, ttl);
    }
  }
}
