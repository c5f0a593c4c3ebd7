/**
 The token bucket rate limiter: one bucket per client key, refilled lazily when
 the client is seen, and the whole-second wait offered to a refused client.
 */
module RateLimiting {
  import opened Numbers
  import opened Options

  datatype Limits = Limits(rps: real, burst: real)

  /** A client's tokens as of the moment they were last counted. */
  datatype Bucket = Bucket(level: real, stamp: real)

  type Buckets = map<string, Bucket>

  /** How long a refused client should wait; without refill it would be forever. */
  datatype Wait = Seconds(s: real) | Forever

  datatype Decision = Decision(allowed: bool, remaining: real, retryAfter: Wait)

  datatype Request = Request(key: string, tokens: real, at: real)

  function Min(a: real, b: real): real {
    if b < a then b else a
  }

  /** The tokens a bucket earns over an interval. */
  function Earned(l: Limits, seconds: real): real {
    seconds * l.rps
  }

  /** The tokens `key` has at `now`: an unknown client starts with a full bucket. */
  function Level(l: Limits, buckets: Buckets, key: string, now: real): real {
    var b := if key in buckets then buckets[key] else Bucket(l.burst, now);
    Min(l.burst, b.level + Earned(l, now - b.stamp))
  }

  function Decide(l: Limits, level: real, tokens: real): Decision {
    if level >= tokens then Decision(true, level - tokens, Seconds(0.0))
    else Decision(false, level, if l.rps > 0.0 then Seconds((tokens - level) / l.rps) else Forever)
  }

  function DecisionOn(l: Limits, buckets: Buckets, r: Request): Decision {
    Decide(l, Level(l, buckets, r.key, r.at), r.tokens)
  }

  function Charge(l: Limits, buckets: Buckets, r: Request): Buckets {
    buckets[r.key := Bucket(DecisionOn(l, buckets, r).remaining, r.at)]
  }

  /** The Retry-After header; an infinite wait has no whole-second value and raises. */
  function RetryHeader(wait: Wait): Option<int> {
    match wait
    case Forever => None
    case Seconds(s) => Some(if Ceil(s) > 1 then Ceil(s) else 1)
  }

  class InMemoryBucketStore {
    const limits: Limits
    var buckets: Buckets

    constructor (rps: real, burst: real)
      ensures limits == Limits(rps, burst) && buckets == map[]
    {
      limits := Limits(rps, burst);
      buckets := map[];
    }

    method Consume(key: string, tokens: real, now: real) returns (result: Decision)
      modifies this
      ensures result == DecisionOn(limits, old(buckets), Request(key, tokens, now))
      ensures buckets == Charge(limits, old(buckets), Request(key, tokens, now))
      ensures buckets == old(buckets)[key := Bucket(result.remaining, now)]
      ensures result.allowed ==> result.retryAfter == Seconds(0.0)
      ensures !result.allowed ==> result.remaining < tokens && (limits.rps <= 0.0 <==> result.retryAfter == Forever)
    {
      var stored := if key in buckets then buckets[key] else Bucket(limits.burst, now);
      var cur, last := stored.level, stored.stamp;
      cur := Min(limits.burst, cur + (now - last) * limits.rps);
      if cur >= tokens {
        cur := cur - tokens;
        buckets := buckets[key := Bucket(cur, now)];
        return Decision(true, cur, Seconds(0.0));
      }
      var retryAfter := if limits.rps > 0.0 then Seconds((tokens - cur) / limits.rps) else Forever;
      buckets := buckets[key := Bucket(cur, now)];
      return Decision(false, cur, retryAfter);
    }
  }

  class RateLimiter {
    const store: InMemoryBucketStore
    var requestsTotal: nat
    var rejectionsTotal: nat

    constructor (rps: real, burst: real)
      ensures fresh(store) && store.limits == Limits(rps, burst) && store.buckets == map[]
      ensures requestsTotal == rejectionsTotal == 0
    {
      store := new InMemoryBucketStore(rps, burst);
      requestsTotal, rejectionsTotal := 0, 0;
    }

    method Check(key: string, now: real) returns (result: Decision)
      modifies this, store
      ensures result == DecisionOn(store.limits, old(store.buckets), Request(key, 1.0, now))
      ensures store.buckets == Charge(store.limits, old(store.buckets), Request(key, 1.0, now))
      ensures requestsTotal == old(requestsTotal) + 1
      ensures rejectionsTotal == old(rejectionsTotal) + (if result.allowed then 0 else 1)
    {
      requestsTotal := requestsTotal + 1;
      result := store.Consume(key, 1.0, now);
      if !result.allowed {
        rejectionsTotal := rejectionsTotal + 1;
      }
    }
  }
}
