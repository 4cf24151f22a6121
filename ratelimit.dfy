/** The token bucket of internal/core/ratelimit.go. Time is an integer
    clock in nanoseconds (Go's `time.Duration`); the mutex is left out, as
    the model is sequential, and so is `time.Now`: every reading of the
    clock is a parameter. */
module RateLimit {

  /** Go's integer division of a duration by a positive period, which
      truncates toward zero: the number of whole periods in `a`, negated
      for a negative `a`. */
  function Quo(a: int, b: int): (q: int)
    requires b > 0
    ensures a >= 0 ==> q >= 0
    ensures a >= b ==> q >= 1
    ensures -b < a < b ==> q == 0
    ensures a < 0 ==> q <= 0
    decreases if a < 0 then 1 - a else a
  {
    if a < 0 then -Quo(-a, b)
    else if a < b then 0
    else 1 + Quo(a - b, b)
  }

  /** The state the limiter's fields hold. */
  datatype Bucket = Bucket(tokens: int, maxTokens: int, refillRate: int, lastRefill: int)

  /** The number of whole refill periods since the last refill. */
  function Periods(b: Bucket, now: int): int
    requires b.refillRate > 0
  {
    Quo(now - b.lastRefill, b.refillRate)
  }

  /** One refill at time `now`: whole periods elapsed become tokens, capped
      at the maximum, and the refill time moves to `now` only when at least
      one token was added. */
  function Refill(b: Bucket, now: int): (r: Bucket)
    requires b.refillRate > 0
    ensures r.maxTokens == b.maxTokens && r.refillRate == b.refillRate
    ensures Periods(b, now) <= 0 ==> r == b
    ensures Periods(b, now) > 0 ==>
              r.lastRefill == now
              && r.tokens <= b.maxTokens
              && (r.tokens == b.maxTokens || r.tokens == b.tokens + Periods(b, now))
              && (b.tokens + Periods(b, now) <= b.maxTokens ==> r.tokens == b.tokens + Periods(b, now))
              && (b.tokens + Periods(b, now) > b.maxTokens ==> r.tokens == b.maxTokens)
              && (b.tokens <= b.maxTokens ==> r.tokens >= b.tokens)
              && (b.tokens < b.maxTokens ==> r.tokens > b.tokens)
  {
    var add := Periods(b, now);
    if add > 0 then
      var t := b.tokens + add;
      b.(tokens := if t > b.maxTokens then b.maxTokens else t, lastRefill := now)
    else b
  }

  /** The conditions under which `Wait` returns: a positive period (Go
      panics dividing by a zero one), room for at least one token (with a
      non-positive maximum the bucket never fills and `Wait` sleeps
      forever) and a clock that does not run backwards. */
  predicate CanWait(b: Bucket, now: int) {
    b.refillRate > 0 && b.maxTokens > 0 && b.lastRefill <= now
  }

  /** The sleep loop: while the bucket is empty, sleep one period and
      refill. */
  function Settle(b: Bucket, now: int): (r: Bucket)
    requires CanWait(b, now)
    ensures r.tokens > 0
    ensures r.maxTokens == b.maxTokens && r.refillRate == b.refillRate
    ensures b.tokens > 0 ==> r == b
    ensures b.tokens <= b.maxTokens ==> r.tokens <= b.maxTokens
    decreases if b.tokens > 0 then 0 else 1 - b.tokens
  {
    if b.tokens > 0 then b
    else
      var later := now + b.refillRate;
      assert Periods(b, later) >= 1;
      Settle(Refill(b, later), later)
  }

  /** The state after `Wait` at time `now`. */
  function Waited(b: Bucket, now: int): Bucket
    requires CanWait(b, now)
  {
    var r := Refill(b, now);
    var s := Settle(r, now);
    s.(tokens := s.tokens - 1)
  }

  /** `Wait` takes exactly one token from a bucket that holds at least one
      after refilling, so it leaves a non-negative count; it keeps the
      count within the maximum and changes neither the maximum nor the
      period. */
  lemma WaitConsumesOne(b: Bucket, now: int)
    requires CanWait(b, now)
    ensures var s := Settle(Refill(b, now), now);
            s.tokens > 0 && Waited(b, now).tokens == s.tokens - 1
    ensures Waited(b, now).tokens >= 0
    ensures b.tokens <= b.maxTokens ==> Waited(b, now).tokens < b.maxTokens
    ensures Waited(b, now).maxTokens == b.maxTokens && Waited(b, now).refillRate == b.refillRate
  {
    var r := Refill(b, now);
    assert r.lastRefill <= now;
  }

  /** A bucket that already holds tokens after the refill does not sleep:
      one token goes and nothing else changes. */
  lemma WaitWithoutSleep(b: Bucket, now: int)
    requires CanWait(b, now) && Refill(b, now).tokens > 0
    ensures Waited(b, now) == Refill(b, now).(tokens := Refill(b, now).tokens - 1)
  {
  }

  /** A refill never leaves more tokens than the maximum once the bucket is
      within it. */
  lemma RefillCapped(b: Bucket, now: int)
    requires b.refillRate > 0 && b.tokens <= b.maxTokens
    ensures Refill(b, now).tokens <= b.maxTokens
  {
  }

  /** The settings after `Update`. */
  function Updated(b: Bucket, maxTokens: int, refillRate: int): (r: Bucket)
    ensures r.maxTokens == maxTokens && r.refillRate == refillRate && r.lastRefill == b.lastRefill
    ensures r.tokens <= b.tokens && r.tokens <= maxTokens
    ensures r.tokens == b.tokens || r.tokens == maxTokens
  {
    Bucket(if b.tokens > maxTokens then maxTokens else b.tokens, maxTokens, refillRate, b.lastRefill)
  }

  /** `Update` lowers the count exactly to the new maximum when it was
      above it and otherwise keeps it; applying the same settings twice
      changes nothing more. */
  lemma UpdateIdempotent(b: Bucket, maxTokens: int, refillRate: int)
    ensures Updated(Updated(b, maxTokens, refillRate), maxTokens, refillRate)
            == Updated(b, maxTokens, refillRate)
    ensures b.tokens <= maxTokens ==> Updated(b, maxTokens, refillRate).tokens == b.tokens
  {
  }

  class RateLimiter {
    var tokens: int
    var maxTokens: int
    var refillRate: int
    var lastRefill: int

    function State(): Bucket
      reads this
    {
      Bucket(tokens, maxTokens, refillRate, lastRefill)
    }

    /** `NewRateLimiter`: the bucket starts full. */
    constructor (maxTokens: int, refillRate: int, now: int)
      ensures State() == Bucket(maxTokens, maxTokens, refillRate, now)
      ensures tokens <= this.maxTokens
    {
      tokens := maxTokens;
      this.maxTokens := maxTokens;
      this.refillRate := refillRate;
      lastRefill := now;
    }

    /** Adds the whole periods elapsed up to `now`, capped. */
    method RefillAt(now: int)
      requires refillRate > 0
      modifies this
      ensures State() == Refill(old(State()), now)
    {
      var tokensToAdd := Quo(now - lastRefill, refillRate);
      if tokensToAdd > 0 {
        tokens := tokens + tokensToAdd;
        if tokens > maxTokens {
          tokens := maxTokens;
        }
        lastRefill := now;
      }
    }

    /** `Wait` at time `now`: refill, sleep one period at a time while the
        bucket is empty, then take one token. Each sleep lasts exactly one
        period. */
    method Wait(now: int)
      requires CanWait(State(), now)
      modifies this
      ensures State() == Waited(old(State()), now)
      ensures tokens >= 0
      ensures old(tokens) <= old(maxTokens) ==> tokens <= maxTokens
    {
      ghost var start := State();
      RefillAt(now);
      ghost var refilled := State();
      var clock := now;
      while tokens <= 0
        invariant CanWait(State(), clock) && clock >= now
        invariant State().maxTokens == start.maxTokens && State().refillRate == start.refillRate
        invariant Settle(State(), clock) == Settle(refilled, now)
        decreases if tokens > 0 then 0 else 1 - tokens
      {
        clock := clock + refillRate;
        RefillAt(clock);
      }
      tokens := tokens - 1;
      WaitConsumesOne(start, now);
    }

    /** `Update`: new maximum and period; the count drops to the new
        maximum when above it. */
    method Update(maxTokens: int, refillRate: int)
      modifies this
      ensures State() == Updated(old(State()), maxTokens, refillRate)
    {
      this.maxTokens := maxTokens;
      this.refillRate := refillRate;
      if tokens > maxTokens {
        tokens := maxTokens;
      }
    }
  }

  /** The defaults `ApplyRateLimitConfig` applies: a non-positive rate
      becomes one request per second and a non-positive burst becomes 1. */
  function RateDefaults(requestsPerSecond: real, burst: int): (r: (real, int))
    ensures r.0 > 0.0 && r.1 >= 1
    ensures requestsPerSecond > 0.0 ==> r.0 == requestsPerSecond
    ensures burst > 0 ==> r.1 == burst
  {
    (if requestsPerSecond <= 0.0 then 1.0 else requestsPerSecond,
     if burst <= 0 then 1 else burst)
  }

  /** Defaulting twice is defaulting once. */
  lemma RateDefaultsIdempotent(requestsPerSecond: real, burst: int)
    ensures var d := RateDefaults(requestsPerSecond, burst);
            RateDefaults(d.0, d.1) == d
  {
  }

  const NanosPerSecond := 1000000000

  /** The period between tokens for a rate, truncated to whole nanoseconds
      (computed exactly here rather than in 64-bit floating point). */
  function RefillPeriod(requestsPerSecond: real): (r: int)
    requires requestsPerSecond > 0.0
    ensures r >= 0
    ensures requestsPerSecond <= 1.0 ==> r >= NanosPerSecond
    ensures requestsPerSecond <= NanosPerSecond as real ==> r >= 1
    ensures requestsPerSecond > NanosPerSecond as real ==> r == 0
  {
    var q := NanosPerSecond as real / requestsPerSecond;
    assert q * requestsPerSecond == NanosPerSecond as real;
    assert q >= 0.0;
    ScaleDown(q, requestsPerSecond);
    PeriodAtLeastOne(q, requestsPerSecond);
    q.Floor
  }

  /** The period is at least one nanosecond exactly when the rate is at
      most one per nanosecond. */
  lemma PeriodAtLeastOne(q: real, x: real)
    requires x > 0.0 && q >= 0.0 && q * x == NanosPerSecond as real
    ensures x <= NanosPerSecond as real ==> q >= 1.0
    ensures x > NanosPerSecond as real ==> q < 1.0
  {
  }

  /** Multiplying a non-negative number by a factor in (0, 1] does not
      increase it. */
  lemma ScaleDown(q: real, x: real)
    ensures q >= 0.0 && 0.0 < x <= 1.0 ==> q * x <= q
  {
    if q >= 0.0 && 0.0 < x <= 1.0 {
      assert q - q * x == q * (1.0 - x);
      assert 1.0 - x >= 0.0;
    }
  }

  /** `ApplyRateLimitConfig`: both catalogue limiters get the defaulted
      burst and the period of the defaulted rate. */
  method ApplyRateLimitConfig(requestsPerSecond: real, burst: int, gutenberg: RateLimiter, kiwix: RateLimiter)
    modifies gutenberg, kiwix
    ensures var d := RateDefaults(requestsPerSecond, burst);
            gutenberg.maxTokens == d.1 && kiwix.maxTokens == d.1
            && gutenberg.refillRate == RefillPeriod(d.0) && kiwix.refillRate == RefillPeriod(d.0)
            && gutenberg.tokens <= d.1 && kiwix.tokens <= d.1
    ensures var d := RateDefaults(requestsPerSecond, burst);
            gutenberg.State() == Updated(old(gutenberg.State()), d.1, RefillPeriod(d.0))
            && kiwix.State() == Updated(old(kiwix.State()), d.1, RefillPeriod(d.0))
  {
    var rps := requestsPerSecond;
    var b := burst;
    if rps <= 0.0 {
      rps := 1.0;
    }
    if b <= 0 {
      b := 1;
    }
    var refill := RefillPeriod(rps);
    gutenberg.Update(b, refill);
    kiwix.Update(b, refill);
    // The two limiters may be one object, updated twice with the same
    // settings.
    UpdateIdempotent(old(gutenberg.State()), b, refill);
  }
}
