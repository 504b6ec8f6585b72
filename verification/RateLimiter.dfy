/**
 The map of buckets in api/ratelimit: looking a bucket up, the whole of a call, and a pass of
 the evictor, each without interference. ConcurrentLimiter takes their steps apart.
 */
module RateLimiter {
  import opened Options
  import opened TokenBuckets

  type Buckets = map<string, Bucket>

  /** The bucket a call uses: the stored one, or a new one when the key is missing. */
  function BucketFor(m: Buckets, key: string, now: real): Bucket {
    if key in m then m[key] else NewBucket(now)
  }

  function CallKey(cfg: Config, m: Buckets, key: string, now: real): Buckets {
    m[key := Called(cfg, BucketFor(m, key, now), now)]
  }

  function AnswerKey(cfg: Config, m: Buckets, key: string, now: real): Answer {
    AnswerTo(cfg, BucketFor(m, key, now), now)
  }

  function LastActive(b: Bucket): real {
    match b.last case None => b.created case Some(t) => t
  }

  function Swept(m: Buckets, ttl: real, now: real): Buckets {
    map k | k in m && now - LastActive(m[k]) <= ttl :: m[k]
  }

  class Limiter {
    const cfg: Config
    const ttl: real
    var buckets: Buckets

    constructor (cfg: Config, ttlSec: int)
      ensures this.cfg == cfg && buckets == map[]
      ensures ttl == if ttlSec <= 0 then 300.0 else ttlSec as real
      ensures ttl > 0.0
    {
      this.cfg := cfg;
      this.ttl := if ttlSec <= 0 then 300.0 else ttlSec as real;
      this.buckets := map[];
    }

    method GetBucket(key: string, now: real) returns (b: Bucket)
      modifies this`buckets
      ensures b == BucketFor(old(buckets), key, now)
      ensures key !in old(buckets) ==> b.last.None? && b.created == now
      ensures buckets == old(buckets)[key := b]
    {
      if key in buckets {
        return buckets[key];
      }
      b := NewBucket(now);
      buckets := buckets[key := b];
    }

    method Allow(key: string, now: real) returns (answer: Answer)
      modifies this`buckets
      ensures buckets == CallKey(cfg, old(buckets), key, now)
      ensures answer == AnswerKey(cfg, old(buckets), key, now)
    {
      var b := GetBucket(key, now);
      var tokens := b.tokens;
      if b.last.Some? {
        if now - b.last.value > 0.0 {
          tokens := tokens + Accrued(cfg, b.last.value, now);
          if tokens > cfg.burst {
            tokens := cfg.burst;
          }
        }
      } else {
        tokens := cfg.burst;
      }
      if tokens >= 1.0 {
        buckets := buckets[key := b.(tokens := tokens - 1.0, last := Some(now))];
        return Answer(true, 0);
      }
      buckets := buckets[key := b.(tokens := tokens, last := Some(now))];
      var deficit := 1.0 - tokens;
      if deficit <= 0.0 || cfg.rps <= 0.0 {
        return Answer(false, SecondNs);
      }
      return Answer(false, (deficit / cfg.rps * SecondNs as real).Floor);
    }

    /** One pass of the evictor over the keys the map held when the pass began. */
    method Sweep(now: real)
      modifies this`buckets
      ensures buckets == Swept(old(buckets), ttl, now)
      ensures forall k :: k in buckets <==>
                && k in old(buckets)
                && var b := old(buckets)[k]; now - (if b.last.Some? then b.last.value else b.created) <= ttl
      ensures forall k :: k in buckets ==> buckets[k] == old(buckets)[k]
    {
      var keys := buckets.Keys;
      while keys != {}
        invariant keys <= old(buckets).Keys
        invariant buckets.Keys <= old(buckets).Keys
        invariant forall k :: k in buckets ==> buckets[k] == old(buckets)[k]
        invariant forall k :: k in keys ==> k in buckets
        invariant forall k :: k in old(buckets) && k !in keys
                              ==> (k in buckets <==> now - LastActive(old(buckets)[k]) <= ttl)
      {
        var k :| k in keys;
        if now - LastActive(buckets[k]) > ttl {
          buckets := buckets - {k};
        }
        keys := keys - {k};
      }
    }
  }
}
