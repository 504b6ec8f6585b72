/**
 The token bucket script that db/redis runs on the server, its agreement with the
 in-process bucket, the exactness of the wait it reports, and the effect of key expiry.

 Times are whole milliseconds. The server's clock, which drives EXPIRE, is taken to agree
 with the clock of the caller that stamps `now`.
 */
module RedisBuckets {
  import opened Options
  import opened TokenBuckets
  import RateLimiter

  datatype Hash = Hash(tokens: real, ts: int)

  datatype Verdict = Verdict(allowed: bool, waitMs: int)

  function Ceil(x: real): int {
    -((-x).Floor)
  }

  function Seconds(ms: int): real {
    ms as real / 1000.0
  }

  /** The `new_tokens` of the script before anything is taken. */
  function Refill(cfg: Config, stored: Option<Hash>, now: int): real {
    var tokens := if stored.None? then cfg.burst else stored.value.tokens;
    var ts := if stored.None? then now else stored.value.ts;
    var elapsed := if (now - ts) as real / 1000.0 < 0.0 then 0.0 else (now - ts) as real / 1000.0;
    Min(tokens + elapsed * cfg.rps, cfg.burst)
  }

  function Left(cfg: Config, stored: Option<Hash>, now: int): Hash {
    var tokens := Refill(cfg, stored, now);
    Hash(if tokens >= 1.0 then tokens - 1.0 else tokens, now)
  }

  function VerdictOn(cfg: Config, stored: Option<Hash>, now: int): (v: Verdict)
    ensures v.allowed || cfg.rps <= 0.0 ==> v.waitMs == 0
  {
    var tokens := Refill(cfg, stored, now);
    if tokens >= 1.0 then Verdict(true, 0)
    else if cfg.rps > 0.0 then Verdict(false, Ceil((1.0 - tokens) / cfg.rps * 1000.0))
    else Verdict(false, 0)
  }

  type Hashes = map<string, Hash>

  function Stored(m: Hashes, key: string): Option<Hash> {
    if key in m then Some(m[key]) else None
  }

  // ------------------------------------------------ agreement with the in-process bucket

  datatype Call = Call(key: string, at: int)

  function LocalVerdicts(cfg: Config, m: RateLimiter.Buckets, calls: seq<Call>): seq<bool>
    decreases |calls|
  {
    if calls == [] then []
    else
      var c := calls[0];
      [RateLimiter.AnswerKey(cfg, m, c.key, Seconds(c.at)).allowed]
      + LocalVerdicts(cfg, RateLimiter.CallKey(cfg, m, c.key, Seconds(c.at)), calls[1..])
  }

  function ScriptVerdicts(cfg: Config, m: Hashes, calls: seq<Call>): seq<bool>
    decreases |calls|
  {
    if calls == [] then []
    else
      var c := calls[0];
      [VerdictOn(cfg, Stored(m, c.key), c.at).allowed]
      + ScriptVerdicts(cfg, m[c.key := Left(cfg, Stored(m, c.key), c.at)], calls[1..])
  }

  /** The bucket and the hash hold the same tokens, stamped with the same time. */
  ghost predicate SameEntry(cfg: Config, b: Bucket, h: Hash) {
    b.tokens == h.tokens <= cfg.burst && b.last == Some(Seconds(h.ts))
  }

  ghost predicate SameState(cfg: Config, local: RateLimiter.Buckets, remote: Hashes) {
    local.Keys == remote.Keys && forall k :: k in local ==> SameEntry(cfg, local[k], remote[k])
  }

  lemma SameLevel(cfg: Config, b: Bucket, h: Hash, now: int)
    requires SameEntry(cfg, b, h)
    ensures Level(cfg, b, Seconds(now)) == Refill(cfg, Some(h), now) <= cfg.burst
  {
    assert Seconds(now) - Seconds(h.ts) == (now - h.ts) as real / 1000.0;
    if now <= h.ts {
      assert Refill(cfg, Some(h), now) == Min(h.tokens, cfg.burst);
    }
  }

  lemma SameStep(cfg: Config, local: RateLimiter.Buckets, remote: Hashes, c: Call)
    requires SameState(cfg, local, remote)
    ensures RateLimiter.AnswerKey(cfg, local, c.key, Seconds(c.at)).allowed
            == VerdictOn(cfg, Stored(remote, c.key), c.at).allowed
    ensures SameState(cfg, RateLimiter.CallKey(cfg, local, c.key, Seconds(c.at)),
                      remote[c.key := Left(cfg, Stored(remote, c.key), c.at)])
  {
    if c.key in local {
      SameLevel(cfg, local[c.key], remote[c.key], c.at);
    } else {
      assert Refill(cfg, None, c.at) == cfg.burst;
    }
    hide Refill, Level;
  }

  lemma {:induction false} SameVerdictsFrom(cfg: Config, local: RateLimiter.Buckets, remote: Hashes, calls: seq<Call>)
    requires SameState(cfg, local, remote)
    ensures LocalVerdicts(cfg, local, calls) == ScriptVerdicts(cfg, remote, calls)
    decreases |calls|
  {
    hide Level, Refill, SameState, RateLimiter.AnswerKey, RateLimiter.CallKey, VerdictOn, Left;
    if calls != [] {
      var c := calls[0];
      SameStep(cfg, local, remote, c);
      SameVerdictsFrom(cfg, RateLimiter.CallKey(cfg, local, c.key, Seconds(c.at)),
                       remote[c.key := Left(cfg, Stored(remote, c.key), c.at)], calls[1..]);
    }
  }

  /**
   The in-process limiter and the script give the same allow/deny answer to every call of
   every run over any keys, at any times (also times that step backwards), for any rate and burst.
   */
  lemma SameVerdicts(cfg: Config, calls: seq<Call>)
    ensures LocalVerdicts(cfg, map[], calls) == ScriptVerdicts(cfg, map[], calls)
  {
    SameVerdictsFrom(cfg, map[], map[], calls);
  }

  // ------------------------------------------------------------------ the reported wait

  lemma CeilIsLeast(x: real, n: int)
    ensures n >= Ceil(x) <==> n as real >= x
  {
  }

  /**
   After a denial, with no other call on the key, the first whole millisecond at which a call
   is admitted is exactly `now + waitMs`: admitted from then on, denied at every earlier one.
   */
  lemma WaitIsExact(cfg: Config, stored: Option<Hash>, now: int, later: int)
    requires cfg.rps > 0.0 && cfg.burst >= 1.0
    requires !VerdictOn(cfg, stored, now).allowed
    ensures VerdictOn(cfg, stored, now).waitMs >= 1
    ensures VerdictOn(cfg, Some(Left(cfg, stored, now)), later).allowed
            <==> later >= now + VerdictOn(cfg, stored, now).waitMs
  {
    var tokens := Refill(cfg, stored, now);
    var deficit := 1.0 - tokens;
    var exact := deficit / cfg.rps * 1000.0;
    assert Left(cfg, stored, now) == Hash(tokens, now);
    DivisionMoves(0.0, deficit, cfg.rps);
    CeilIsLeast(exact, 0);
    CeilIsLeast(exact, later - now);
    var x := (later - now) as real / 1000.0;
    DivisionMoves(x, deficit, cfg.rps);
    assert x >= deficit / cfg.rps <==> (later - now) as real >= exact;
    RefillFrom(cfg, Hash(tokens, now), later);
    hide Refill;
  }

  lemma RefillFrom(cfg: Config, h: Hash, later: int)
    requires cfg.burst >= 1.0 && h.tokens < 1.0 && cfg.rps > 0.0
    ensures var x := (later - h.ts) as real / 1000.0;
            Refill(cfg, Some(h), later) >= 1.0 <==> x * cfg.rps >= 1.0 - h.tokens
  {
    var x := (later - h.ts) as real / 1000.0;
    if x < 0.0 {
      assert x * cfg.rps < 0.0;
      assert Refill(cfg, Some(h), later) == Min(h.tokens, cfg.burst);
    }
  }

  // ------------------------------------------------------------------------ key expiry

  /** A hash with the millisecond after which EXPIRE lets the server drop it. */
  datatype Entry = Entry(hash: Hash, deadline: int)

  type Keyspace = map<string, Entry>

  /** What HMGET sees: an entry past its deadline is gone. */
  function Visible(m: Keyspace, key: string, now: int): Option<Hash> {
    if key in m && now <= m[key].deadline then Some(m[key].hash) else None
  }

  /** HMSET followed by EXPIRE; a ttl of zero or less deletes the key at once. */
  function Written(m: Keyspace, key: string, h: Hash, ttlSec: int): Keyspace {
    if ttlSec <= 0 then m - {key} else m[key := Entry(h, h.ts + ttlSec * 1000)]
  }

  class Server {
    var keyspace: Keyspace

    constructor ()
      ensures keyspace == map[]
    {
      keyspace := map[];
    }

    method TokenBucketScript(key: string, now: int, cfg: Config, ttlSec: int) returns (v: Verdict)
      modifies this
      ensures keyspace == Written(old(keyspace), key, Left(cfg, Visible(old(keyspace), key, now), now), ttlSec)
      ensures v == VerdictOn(cfg, Visible(old(keyspace), key, now), now)
    {
      var tokens, ts := cfg.burst, now;
      if key in keyspace && now <= keyspace[key].deadline {
        tokens, ts := keyspace[key].hash.tokens, keyspace[key].hash.ts;
      }
      var elapsed := (now - ts) as real / 1000.0;
      if elapsed < 0.0 {
        elapsed := 0.0;
      }
      var newTokens := tokens + elapsed * cfg.rps;
      if newTokens > cfg.burst {
        newTokens := cfg.burst;
      }
      v := Verdict(false, 0);
      if newTokens >= 1.0 {
        newTokens := newTokens - 1.0;
        v := Verdict(true, 0);
      } else if cfg.rps > 0.0 {
        var deficit := 1.0 - newTokens;
        v := Verdict(false, Ceil(deficit / cfg.rps * 1000.0));
      }
      if ttlSec <= 0 {
        keyspace := keyspace - {key};
      } else {
        keyspace := keyspace[key := Entry(Hash(newTokens, now), now + ttlSec * 1000)];
      }
    }
  }

  function ExpiringVerdicts(cfg: Config, ttlSec: int, m: Keyspace, calls: seq<Call>): seq<bool>
    decreases |calls|
  {
    if calls == [] then []
    else
      var c := calls[0];
      var stored := Visible(m, c.key, c.at);
      [VerdictOn(cfg, stored, c.at).allowed]
      + ExpiringVerdicts(cfg, ttlSec, Written(m, c.key, Left(cfg, stored, c.at), ttlSec), calls[1..])
  }

  ghost predicate Chronological(calls: seq<Call>) {
    forall i, j :: 0 <= i <= j < |calls| ==> calls[i].at <= calls[j].at
  }

  /** `lossy` is what the server keeps, `full` what it would keep if nothing ever expired. */
  ghost predicate Agrees(cfg: Config, ttlSec: int, lossy: Keyspace, full: Hashes, clock: int) {
    && lossy.Keys <= full.Keys
    && (forall k :: k in full ==> 0.0 <= full[k].tokens <= cfg.burst && full[k].ts <= clock)
    && (forall k :: k in lossy ==> lossy[k] == Entry(full[k], full[k].ts + ttlSec * 1000))
    && (ttlSec > 0 ==> lossy.Keys == full.Keys)
  }

  lemma ScaleUp(x: real, y: real, rate: real)
    requires x >= y && rate >= 0.0
    ensures x * rate >= y * rate
  {
    assert (x - y) * rate >= 0.0;
  }

  lemma RefillOfNone(cfg: Config, now: int)
    ensures Refill(cfg, None, now) == cfg.burst
  {
    assert 0.0 * cfg.rps == 0.0;
  }

  /** The tokens a bucket gains before it can be found expired, one millisecond past its ttl. */
  function GainedByExpiry(cfg: Config, ttlSec: int): real {
    if ttlSec <= 0 then 0.0 else Seconds(ttlSec * 1000 + 1) * cfg.rps
  }

  lemma GainedSince(cfg: Config, ttlSec: int, elapsed: real)
    requires cfg.rps >= 0.0 && GainedByExpiry(cfg, ttlSec) >= cfg.burst
    requires elapsed >= if ttlSec <= 0 then 0.0 else Seconds(ttlSec * 1000 + 1)
    ensures elapsed * cfg.rps >= cfg.burst
  {
    hide Seconds;
    if ttlSec <= 0 {
      ScaleUp(elapsed, 0.0, cfg.rps);
    } else {
      ScaleUp(elapsed, Seconds(ttlSec * 1000 + 1), cfg.rps);
    }
  }

  lemma RefilledToBurst(cfg: Config, ttlSec: int, h: Hash, now: int)
    requires cfg.burst >= 0.0 && cfg.rps >= 0.0 && GainedByExpiry(cfg, ttlSec) >= cfg.burst
    requires 0.0 <= h.tokens <= cfg.burst && h.ts <= now
    requires now > h.ts + ttlSec * 1000 || ttlSec <= 0
    ensures Refill(cfg, Some(h), now) == cfg.burst == Refill(cfg, None, now)
  {
    var elapsed := (now - h.ts) as real / 1000.0;
    GainedSince(cfg, ttlSec, elapsed);
    RefillOfNone(cfg, now);
  }

  lemma RefillInRange(cfg: Config, stored: Option<Hash>, now: int)
    requires cfg.burst >= 0.0 && cfg.rps >= 0.0
    requires stored.Some? ==> 0.0 <= stored.value.tokens <= cfg.burst
    ensures 0.0 <= Refill(cfg, stored, now) <= cfg.burst
  {
  }

  lemma ExpiryStep(cfg: Config, ttlSec: int, lossy: Keyspace, full: Hashes, clock: int, c: Call)
    requires cfg.burst >= 0.0 && cfg.rps >= 0.0 && GainedByExpiry(cfg, ttlSec) >= cfg.burst
    requires Agrees(cfg, ttlSec, lossy, full, clock) && clock <= c.at
    ensures VerdictOn(cfg, Visible(lossy, c.key, c.at), c.at) == VerdictOn(cfg, Stored(full, c.key), c.at)
    ensures Agrees(cfg, ttlSec,
                   Written(lossy, c.key, Left(cfg, Visible(lossy, c.key, c.at), c.at), ttlSec),
                   full[c.key := Left(cfg, Stored(full, c.key), c.at)], c.at)
  {
    if c.key in full && Visible(lossy, c.key, c.at).None? {
      RefilledToBurst(cfg, ttlSec, full[c.key], c.at);
    }
    RefillInRange(cfg, Stored(full, c.key), c.at);
    hide Refill;
    assert Left(cfg, Visible(lossy, c.key, c.at), c.at) == Left(cfg, Stored(full, c.key), c.at);
  }

  lemma {:induction false} ExpiryCannotBeSeen(
    cfg: Config, ttlSec: int, lossy: Keyspace, full: Hashes, clock: int, calls: seq<Call>)
    requires cfg.burst >= 0.0 && cfg.rps >= 0.0 && GainedByExpiry(cfg, ttlSec) >= cfg.burst
    requires Agrees(cfg, ttlSec, lossy, full, clock) && Chronological(calls)
    requires calls != [] ==> clock <= calls[0].at
    ensures ExpiringVerdicts(cfg, ttlSec, lossy, calls) == ScriptVerdicts(cfg, full, calls)
    decreases |calls|
  {
    hide Refill, VerdictOn, Left, Agrees, Written;
    if calls != [] {
      var c := calls[0];
      ExpiryStep(cfg, ttlSec, lossy, full, clock, c);
      ExpiryCannotBeSeen(cfg, ttlSec,
                         Written(lossy, c.key, Left(cfg, Visible(lossy, c.key, c.at), c.at), ttlSec),
                         full[c.key := Left(cfg, Stored(full, c.key), c.at)], c.at, calls[1..]);
    }
  }

  /** If a bucket refills completely before it can be found expired, expiry changes no verdict of any run. */
  lemma ExpiryIsTransparent(cfg: Config, ttlSec: int, calls: seq<Call>)
    requires cfg.burst >= 0.0 && cfg.rps >= 0.0 && GainedByExpiry(cfg, ttlSec) >= cfg.burst
    requires Chronological(calls)
    ensures ExpiringVerdicts(cfg, ttlSec, map[], calls) == ScriptVerdicts(cfg, map[], calls)
  {
    ExpiryCannotBeSeen(cfg, ttlSec, map[], map[], if calls == [] then 0 else calls[0].at, calls);
  }

  /** A number of calls on one key, all at once. */
  function AtOnce(key: string, at: int, n: nat): seq<Call> {
    seq(n, i => Call(key, at))
  }

  lemma {:induction false} FirstAtOnce(key: string, at: int, n: nat, rest: seq<Call>)
    requires n > 0
    ensures var calls := AtOnce(key, at, n) + rest;
            calls != [] && calls[0] == Call(key, at) && calls[1..] == AtOnce(key, at, n - 1) + rest
  {
  }

  /** A call at the time of the last one spends a whole token if there is one. */
  lemma SpendOne(cfg: Config, stored: Option<Hash>, at: int)
    requires Refill(cfg, stored, at) <= cfg.burst
    ensures var level := Refill(cfg, stored, at);
            var left := if level >= 1.0 then level - 1.0 else level;
            && (VerdictOn(cfg, stored, at).allowed <==> level >= 1.0)
            && Left(cfg, stored, at) == Hash(left, at) && Refill(cfg, Some(Hash(left, at)), at) == left
  {
    assert 0.0 * cfg.rps == 0.0;
  }

  lemma {:induction false} ScriptRunsOut(cfg: Config, m: Hashes, key: string, at: int, level: real, n: nat)
    requires Refill(cfg, Stored(m, key), at) == level <= cfg.burst && level < n as real && n > 0
    ensures false in ScriptVerdicts(cfg, m, AtOnce(key, at, n))
    decreases n
  {
    FirstAtOnce(key, at, n, []);
    assert AtOnce(key, at, n) + [] == AtOnce(key, at, n) && AtOnce(key, at, n - 1) + [] == AtOnce(key, at, n - 1);
    SpendOne(cfg, Stored(m, key), at);
    var m' := m[key := Left(cfg, Stored(m, key), at)];
    var verdict := VerdictOn(cfg, Stored(m, key), at).allowed;
    hide Refill, VerdictOn, Left, AtOnce;
    var rest := ScriptVerdicts(cfg, m', AtOnce(key, at, n - 1));
    assert ScriptVerdicts(cfg, m, AtOnce(key, at, n)) == [verdict] + rest;
    if level >= 1.0 {
      ScriptRunsOut(cfg, m', key, at, level - 1.0, n - 1);
      var i :| 0 <= i < |rest| && rest[i] == false;
      assert ([verdict] + rest)[i + 1] == false;
    } else {
      assert ([verdict] + rest)[0] == false;
    }
  }

  lemma {:induction false} ExpiringAdmits(cfg: Config, ttlSec: int, m: Keyspace, key: string, at: int, level: real, n: nat)
    requires ttlSec > 0 && Refill(cfg, Visible(m, key, at), at) == level <= cfg.burst && level >= n as real
    ensures false !in ExpiringVerdicts(cfg, ttlSec, m, AtOnce(key, at, n))
    decreases n
  {
    if n > 0 {
      FirstAtOnce(key, at, n, []);
      assert AtOnce(key, at, n) + [] == AtOnce(key, at, n) && AtOnce(key, at, n - 1) + [] == AtOnce(key, at, n - 1);
      var stored := Visible(m, key, at);
      SpendOne(cfg, stored, at);
      var m' := Written(m, key, Left(cfg, stored, at), ttlSec);
      assert Visible(m', key, at) == Some(Left(cfg, stored, at));
      ExpiringAdmits(cfg, ttlSec, m', key, at, level - 1.0, n - 1);
    }
  }

  /** Calls that spend every whole token, then calls just after the key has expired: only the expiring server admits all. */
  lemma {:induction false} SpendsThenDiffers(
    cfg: Config, ttlSec: int, lossy: Keyspace, full: Hashes, key: string, level: real, n: nat, later: nat)
    requires cfg.rps > 0.0 && ttlSec > 0 && n as real <= level <= cfg.burst
    requires Visible(lossy, key, 0) == Stored(full, key) && Refill(cfg, Stored(full, key), 0) == level
    requires n == 0 ==> key in full && full[key] == Hash(level, 0) && lossy[key] == Entry(Hash(level, 0), ttlSec * 1000)
    requires level - n as real + GainedByExpiry(cfg, ttlSec) < later as real <= cfg.burst && later > 0
    ensures var calls := AtOnce(key, 0, n) + AtOnce(key, ttlSec * 1000 + 1, later);
            ExpiringVerdicts(cfg, ttlSec, lossy, calls) != ScriptVerdicts(cfg, full, calls)
    decreases n
  {
    var at := ttlSec * 1000 + 1;
    var tail := AtOnce(key, at, later);
    if n == 0 {
      assert AtOnce(key, 0, 0) + tail == tail;
      GainsExactly(cfg, ttlSec, level);
      ScriptRunsOut(cfg, full, key, at, Refill(cfg, Stored(full, key), at), later);
      RefillOfNone(cfg, at);
      ExpiringAdmits(cfg, ttlSec, lossy, key, at, cfg.burst, later);
    } else {
      FirstAtOnce(key, 0, n, tail);
      SpendOne(cfg, Stored(full, key), 0);
      var h := Left(cfg, Stored(full, key), 0);
      assert h == Hash(level - 1.0, 0);
      var lossy', full' := Written(lossy, key, h, ttlSec), full[key := h];
      assert Visible(lossy', key, 0) == Some(h) == Stored(full', key);
      hide Refill, VerdictOn, Left, AtOnce, GainedByExpiry;
      SpendsThenDiffers(cfg, ttlSec, lossy', full', key, level - 1.0, n - 1, later);
      var calls := AtOnce(key, 0, n) + tail;
      var x, y := ExpiringVerdicts(cfg, ttlSec, lossy', calls[1..]), ScriptVerdicts(cfg, full', calls[1..]);
      var v := VerdictOn(cfg, Stored(full, key), 0).allowed;
      assert ([v] + x)[1..] == x && ([v] + y)[1..] == y;
    }
  }

  lemma GainsExactly(cfg: Config, ttlSec: int, level: real)
    requires cfg.rps > 0.0 && ttlSec > 0
    ensures Refill(cfg, Some(Hash(level, 0)), ttlSec * 1000 + 1) == Min(level + GainedByExpiry(cfg, ttlSec), cfg.burst)
  {
  }

  /** If a bucket that has spent its whole tokens lacks a whole one when its key expires, some run shows the expiry. */
  lemma {:induction false} ExpiryShows(cfg: Config, ttlSec: int, key: string) returns (calls: seq<Call>)
    requires cfg.rps > 0.0 && cfg.burst >= 1.0 && ttlSec > 0
    requires cfg.burst - cfg.burst.Floor as real + GainedByExpiry(cfg, ttlSec) < cfg.burst.Floor as real
    ensures Chronological(calls) && ExpiringVerdicts(cfg, ttlSec, map[], calls) != ScriptVerdicts(cfg, map[], calls)
  {
    var n: nat := cfg.burst.Floor;
    RefillOfNone(cfg, 0);
    calls := AtOnce(key, 0, n) + AtOnce(key, ttlSec * 1000 + 1, n);
    hide Refill, ExpiringVerdicts, ScriptVerdicts, GainedByExpiry;
    SpendsThenDiffers(cfg, ttlSec, map[], map[], key, cfg.burst, n, n);
  }

  /**
   For a burst of whole tokens and a positive ttl, expiry changes no verdict of any run if and only if
   a bucket refills completely within a millisecond more than its ttl, when it can first be found
   expired.
   */
  lemma {:induction false} ExpiryUnseenExactly(cfg: Config, ttlSec: int)
    requires cfg.rps > 0.0 && cfg.burst >= 1.0 && cfg.burst == cfg.burst.Floor as real && ttlSec > 0
    ensures (forall calls :: Chronological(calls) ==>
               ExpiringVerdicts(cfg, ttlSec, map[], calls) == ScriptVerdicts(cfg, map[], calls))
            <==> Seconds(ttlSec * 1000 + 1) * cfg.rps >= cfg.burst
  {
    assert GainedByExpiry(cfg, ttlSec) == Seconds(ttlSec * 1000 + 1) * cfg.rps;
    hide ExpiringVerdicts, ScriptVerdicts, GainedByExpiry, Chronological;
    if GainedByExpiry(cfg, ttlSec) >= cfg.burst {
      forall calls | Chronological(calls)
        ensures ExpiringVerdicts(cfg, ttlSec, map[], calls) == ScriptVerdicts(cfg, map[], calls)
      {
        ExpiryIsTransparent(cfg, ttlSec, calls);
      }
    } else {
      var calls := ExpiryShows(cfg, ttlSec, "k");
    }
  }

  /**
   With a ttl of zero, which is what the limiter passes when RATE_LIMIT_BUCKET_TTL_SEC is
   unset, the server forgets every call: no call is ever denied, however many are made.
   */
  lemma {:induction false} ZeroTtlNeverDenies(cfg: Config, ttlSec: int, calls: seq<Call>)
    requires cfg.burst >= 1.0 && ttlSec <= 0
    ensures ExpiringVerdicts(cfg, ttlSec, map[], calls) == seq(|calls|, i => true)
  {
    if calls != [] {
      var c := calls[0];
      assert Refill(cfg, None, c.at) == cfg.burst;
      hide Refill;
      assert Written(map[], c.key, Left(cfg, None, c.at), ttlSec) == map[];
      ZeroTtlNeverDenies(cfg, ttlSec, calls[1..]);
    }
  }

  /** The in-process limiter denies one of more calls at once than the key has tokens. */
  lemma {:induction false} TokensRunOut(cfg: Config, m: RateLimiter.Buckets, key: string, level: real, n: nat)
    requires Level(cfg, RateLimiter.BucketFor(m, key, Seconds(0)), Seconds(0)) == level < n as real && n > 0
    ensures false in LocalVerdicts(cfg, m, AtOnce(key, 0, n))
    decreases n
  {
    OneOfMany(cfg, m, key, n);
    hide *;
    var rest := LocalVerdicts(cfg, RateLimiter.CallKey(cfg, m, key, Seconds(0)), AtOnce(key, 0, n - 1));
    if level < 1.0 {
      assert ([false] + rest)[0] == false;
    } else {
      TokensRunOut(cfg, RateLimiter.CallKey(cfg, m, key, Seconds(0)), key, level - 1.0, n - 1);
      var i :| 0 <= i < |rest| && rest[i] == false;
      assert ([true] + rest)[i + 1] == false;
    }
  }

  /** The first of some calls at once: its verdict, and the tokens it leaves. */
  lemma OneOfMany(cfg: Config, m: RateLimiter.Buckets, key: string, n: nat)
    requires n > 0
    ensures var level := Level(cfg, RateLimiter.BucketFor(m, key, Seconds(0)), Seconds(0));
            var m' := RateLimiter.CallKey(cfg, m, key, Seconds(0));
            && LocalVerdicts(cfg, m, AtOnce(key, 0, n)) == [level >= 1.0] + LocalVerdicts(cfg, m', AtOnce(key, 0, n - 1))
            && (level >= 1.0 ==> Level(cfg, RateLimiter.BucketFor(m', key, Seconds(0)), Seconds(0)) == level - 1.0)
  {
    var calls := AtOnce(key, 0, n);
    hide Accrued;
    assert calls[0] == Call(key, 0) && calls[1..] == AtOnce(key, 0, n - 1);
  }

  /** For every burst of at least one, one call more than its whole tokens tells the two limiters apart. */
  lemma ZeroTtlDisagrees(cfg: Config, ttlSec: int, key: string)
    requires cfg.burst >= 1.0 && ttlSec <= 0
    ensures var calls := AtOnce(key, 0, cfg.burst.Floor + 1);
            false in LocalVerdicts(cfg, map[], calls) && false !in ExpiringVerdicts(cfg, ttlSec, map[], calls)
  {
    var calls := AtOnce(key, 0, cfg.burst.Floor + 1);
    TokensRunOut(cfg, map[], key, cfg.burst, cfg.burst.Floor + 1);
    ZeroTtlNeverDenies(cfg, ttlSec, calls);
  }

  /** A burst below one: both limiters deny everything. */
  lemma {:induction false} SmallBurstDenies(cfg: Config, ttlSec: int, m: RateLimiter.Buckets, calls: seq<Call>)
    requires cfg.burst < 1.0 && ttlSec <= 0 && forall k :: k in m ==> m[k].tokens <= cfg.burst
    ensures LocalVerdicts(cfg, m, calls) == ExpiringVerdicts(cfg, ttlSec, map[], calls)
    decreases |calls|
  {
    if calls != [] {
      var c := calls[0];
      RefillOfNone(cfg, c.at);
      LevelWithinBurst(cfg, RateLimiter.BucketFor(m, c.key, Seconds(c.at)), Seconds(c.at));
      hide Refill, Level;
      assert Written(map[], c.key, Left(cfg, None, c.at), ttlSec) == map[];
      SmallBurstDenies(cfg, ttlSec, RateLimiter.CallKey(cfg, m, c.key, Seconds(c.at)), calls[1..]);
    }
  }

  lemma LevelWithinBurst(cfg: Config, b: Bucket, now: real)
    requires b.last.Some? ==> b.tokens <= cfg.burst
    ensures Level(cfg, b, now) <= cfg.burst
  {
    hide Accrued;
  }

  /**
   With a ttl of zero or less the distributed limiter and the in-process one agree on every
   run exactly when the burst is below one, that is, when neither lets anything through.
   */
  lemma ZeroTtlAgreesExactly(cfg: Config, ttlSec: int)
    requires ttlSec <= 0
    ensures (forall calls :: LocalVerdicts(cfg, map[], calls) == ExpiringVerdicts(cfg, ttlSec, map[], calls))
            <==> cfg.burst < 1.0
  {
    if cfg.burst < 1.0 {
      forall calls
        ensures LocalVerdicts(cfg, map[], calls) == ExpiringVerdicts(cfg, ttlSec, map[], calls)
      {
        SmallBurstDenies(cfg, ttlSec, map[], calls);
      }
    } else {
      ZeroTtlDisagrees(cfg, ttlSec, "k");
      hide LocalVerdicts, ExpiringVerdicts;
    }
  }
}
