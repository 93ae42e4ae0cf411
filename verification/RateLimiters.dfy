/** The in-place limiter: a shared map of buckets that every check updates. */
module RateLimiters {
  import opened Records
  import L = RateLimits

  class TokenBucketRateLimiter {
    const settings: L.Settings
    var buckets: map<Name, L.Bucket>

    ghost function Value(): L.Limiter
      reads this
    {
      L.Limiter(settings, buckets)
    }

    constructor (c: L.Config)
      ensures Value() == L.New(c)
    {
      settings := L.Settings(c.enabled, L.ClampNonNegative(c.burst), L.ClampNonNegative(c.idleTtlMs),
                             L.ClampNonNegative(c.refillPerMinute) / 60000.0);
      buckets := map[];
    }

    method EvictIdleBuckets(now: int)
      modifies this
      ensures buckets == L.Evict(old(Value()), now)
      ensures forall k :: k in buckets <==>
                k in old(buckets) &&
                (settings.idleTtl <= 0.0 || (now - old(buckets)[k].lastSeenAt) as real < settings.idleTtl)
    {
      if settings.idleTtl <= 0.0 || buckets == map[] {
        assert buckets == L.Evict(Value(), now);
        return;
      }
      buckets := map k | k in buckets && (now - buckets[k].lastSeenAt) as real < settings.idleTtl :: buckets[k];
      assert buckets == L.Evict(old(Value()), now);
    }

    /** Tokens gained over `ms` milliseconds; none when the clock steps back. */
    method Refilled(ms: int) returns (r: real)
      ensures r == L.Refill(settings.rate, ms)
    {
      L.RefillIsProduct(settings.rate, ms);
      var elapsed := if ms > 0 then ms else 0;
      r := elapsed as real * settings.rate;
    }

    method Check(key: Name, now: int) returns (allowed: bool)
      modifies this
      ensures !settings.enabled ==> allowed && buckets == old(buckets)
      ensures allowed == L.Allowed(old(Value()), key, now)
      ensures Value() == L.Check(old(Value()), key, now)
    {
      hide L.Refill, L.Evict;
      if !settings.enabled {
        return true;
      }
      EvictIdleBuckets(now);
      if key !in buckets {
        if settings.burst < 1.0 {
          return false;
        }
        buckets := buckets[key := L.Bucket(settings.burst - 1.0, now, now)];
        return true;
      }
      var bucket := buckets[key];
      var refilled := Refilled(now - bucket.lastRefillAt);
      var available := L.MinReal(bucket.tokens + refilled, settings.burst);
      if available < 1.0 {
        buckets := buckets[key := L.Bucket(available, now, now)];
        return false;
      }
      buckets := buckets[key := L.Bucket(available - 1.0, now, now)];
      return true;
    }
  }
}
