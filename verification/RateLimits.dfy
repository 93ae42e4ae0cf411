/** The token-bucket limiter (ratelimit.rs) as values. Tokens are real numbers:
    the rounding of the source's 64-bit floats is not modelled. */
module RateLimits {
  import opened Seqs
  import opened Records

  datatype Config = Config(enabled: bool, refillPerMinute: real, burst: real, idleTtlMs: real)

  datatype Bucket = Bucket(tokens: real, lastRefillAt: int, lastSeenAt: int)

  /** `rate` is in tokens per millisecond. */
  datatype Settings = Settings(enabled: bool, burst: real, idleTtl: real, rate: real)

  datatype Limiter = Limiter(p: Settings, buckets: map<Name, Bucket>)

  function ClampNonNegative(x: real): real {
    if x > 0.0 then x else 0.0
  }

  function New(c: Config): Limiter {
    Limiter(Settings(c.enabled, ClampNonNegative(c.burst), ClampNonNegative(c.idleTtlMs),
                     ClampNonNegative(c.refillPerMinute) / 60000.0), map[])
  }

  predicate Idle(p: Settings, b: Bucket, now: int) {
    p.idleTtl > 0.0 && (now - b.lastSeenAt) as real >= p.idleTtl
  }

  function Evict(l: Limiter, now: int): map<Name, Bucket> {
    map k | k in l.buckets && !Idle(l.p, l.buckets[k], now) :: l.buckets[k]
  }

  /** Tokens gained in `ms` milliseconds: a product (see `RefillIsProduct`), and
      nothing when the clock stands still or steps back. */
  function Refill(rate: real, ms: int): real {
    if ms <= 0 then 0.0 else Refill(rate, ms - 1) + rate
  }

  lemma {:induction false} RefillIsProduct(rate: real, ms: int)
    ensures Refill(rate, ms) == (if ms > 0 then ms else 0) as real * rate
  {
    if ms > 0 {
      RefillIsProduct(rate, ms - 1);
      assert ms as real * rate == (ms - 1) as real * rate + rate;
    }
  }

  function MinReal(a: real, b: real): real {
    if a < b then a else b
  }

  function Allowed(l: Limiter, key: Name, now: int): bool {
    var kept := Evict(l, now);
    !l.p.enabled ||
    if key !in kept then l.p.burst >= 1.0
    else MinReal(kept[key].tokens + Refill(l.p.rate, now - kept[key].lastRefillAt), l.p.burst) >= 1.0
  }

  /** The limiter after `check(key, now)`. */
  function Check(l: Limiter, key: Name, now: int): Limiter {
    if !l.p.enabled then l
    else
      var kept := Evict(l, now);
      if key !in kept then
        if l.p.burst < 1.0 then l.(buckets := kept)
        else l.(buckets := kept[key := Bucket(l.p.burst - 1.0, now, now)])
      else
        var available := MinReal(kept[key].tokens + Refill(l.p.rate, now - kept[key].lastRefillAt), l.p.burst);
        l.(buckets := kept[key := Bucket(if available < 1.0 then available else available - 1.0, now, now)])
  }

  // ----- Runs of checks -----

  datatype Call = Call(key: Name, now: int)

  function By(key: Name): Call -> bool {
    (c: Call) => c.key == key
  }

  predicate InTime(calls: seq<Call>) {
    forall i, j :: 0 <= i < j < |calls| ==> calls[i].now <= calls[j].now
  }

  function Run(l: Limiter, calls: seq<Call>): Limiter {
    if calls == [] then l else Check(Run(l, Front(calls)), Last(calls).key, Last(calls).now)
  }

  /** The answers to the calls made under `key`, in order. */
  function Answers(l: Limiter, calls: seq<Call>, key: Name): seq<bool> {
    if calls == [] then []
    else if Last(calls).key == key then
      Answers(l, Front(calls), key) + [Allowed(Run(l, Front(calls)), key, Last(calls).now)]
    else Answers(l, Front(calls), key)
  }

  function Count(bs: seq<bool>): nat {
    if bs == [] then 0 else Count(Front(bs)) + if Last(bs) then 1 else 0
  }

  // ----- One bucket on its own -----

  /** What a check at `t` finds of a stored bucket. */
  function Kept(p: Settings, v: Option<Bucket>, t: int): Option<Bucket> {
    if v.Some? && !Idle(p, v.value, t) then v else None
  }

  /** The tokens a check at `t` has to decide on. */
  function Level(p: Settings, v: Option<Bucket>, t: int): real {
    if Kept(p, v, t).None? then p.burst
    else MinReal(v.value.tokens + Refill(p.rate, t - v.value.lastRefillAt), p.burst)
  }

  /** The stored bucket after a check at `t`. */
  function Spend(p: Settings, v: Option<Bucket>, t: int): Option<Bucket> {
    if Kept(p, v, t).None? && p.burst < 1.0 then None
    else Some(Bucket(Level(p, v, t) - (if Level(p, v, t) < 1.0 then 0.0 else 1.0), t, t))
  }

  function Stored(l: Limiter, key: Name): Option<Bucket> {
    if key in l.buckets then Some(l.buckets[key]) else None
  }

  /** A check decides by the level of its key's bucket and spends from that bucket. */
  lemma CheckSpends(l: Limiter, key: Name, now: int)
    requires l.p.enabled
    ensures Allowed(l, key, now) <==> Level(l.p, Stored(l, key), now) >= 1.0
    ensures Stored(Check(l, key, now), key) == Spend(l.p, Stored(l, key), now)
  {
    assert key in Evict(l, now) <==> Kept(l.p, Stored(l, key), now).Some?;
  }

  /** Eviction by another key's check only drops what would be dropped later anyway. */
  lemma OtherKeyUntouched(l: Limiter, key: Name, other: Name, now: int, t: int)
    requires key != other && now <= t
    ensures Kept(l.p, Stored(Check(l, other, now), key), t) == Kept(l.p, Stored(l, key), t)
  {
    if key in l.buckets && Idle(l.p, l.buckets[key], now) {
      assert (t - l.buckets[key].lastSeenAt) as real >= (now - l.buckets[key].lastSeenAt) as real;
    }
  }

  lemma {:induction false} RunKeepsSettings(l: Limiter, calls: seq<Call>)
    ensures Run(l, calls).p == l.p
  {
    if calls != [] {
      RunKeepsSettings(l, Front(calls));
    }
  }

  // ----- Arithmetic of refilling -----

  ghost predicate Sane(p: Settings) {
    p.burst >= 0.0 && p.rate >= 0.0 && p.idleTtl >= 0.0
  }

  lemma {:induction false} RefillGrows(rate: real, a: int, b: int)
    requires 0 <= a <= b && rate >= 0.0
    ensures Refill(rate, b) == Refill(rate, a) + Refill(rate, b - a)
    ensures 0.0 <= Refill(rate, a) <= Refill(rate, b)
  {
    if a < b {
      RefillGrows(rate, a, b - 1);
    } else if a > 0 {
      RefillGrows(rate, a - 1, b - 1);
    }
  }
}
