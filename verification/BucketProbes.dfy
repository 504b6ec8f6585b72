/**
 Calls that empty a bucket, and calls that tell two buckets apart which find different tokens.
 */
module BucketProbes {
  import opened Options
  import opened TokenBuckets

  function AnswersOf(cfg: Config, b: Bucket, times: seq<real>): seq<Answer>
    decreases |times|
  {
    if times == [] then [] else [AnswerTo(cfg, b, times[0])] + AnswersOf(cfg, Called(cfg, b, times[0]), times[1..])
  }

  function CalledAll(cfg: Config, b: Bucket, times: seq<real>): Bucket
    decreases |times|
  {
    if times == [] then b else CalledAll(cfg, Called(cfg, b, times[0]), times[1..])
  }

  /** A call at `at` would find `level` tokens. */
  ghost predicate Holds(cfg: Config, b: Bucket, at: real, level: real) {
    (b.last.Some? ==> b.last.value <= at) && Level(cfg, b, at) == level && 0.0 <= level <= cfg.burst
  }

  /** When a bucket holding `level` tokens, at most one, reaches a whole token. */
  function Whole(cfg: Config, level: real, at: real): real
    requires cfg.rps > 0.0
  {
    at + (1.0 - level) / cfg.rps
  }

  lemma WholeAccrues(cfg: Config, level: real, at: real)
    requires cfg.rps > 0.0 && level <= 1.0
    ensures Whole(cfg, level, at) >= at && Accrued(cfg, at, Whole(cfg, level, at)) == 1.0 - level
  {
    var q := (1.0 - level) / cfg.rps;
    assert q * cfg.rps == 1.0 - level;
    assert q >= 0.0;
  }

  lemma HoldsLater(cfg: Config, b: Bucket, at: real, level: real, later: real)
    requires Holds(cfg, b, at, level) && at <= later && level + Accrued(cfg, at, later) <= cfg.burst
    requires level < cfg.burst && cfg.rps >= 0.0
    ensures Holds(cfg, b, later, level + Accrued(cfg, at, later))
  {
    var last := b.last.value;
    AccruedAdds(cfg, last, at, later);
    AccruedGrows(cfg, at, later);
    AccruedAdds(cfg, at, at, at);
    hide Accrued;
  }

  lemma HoldsAfterCall(cfg: Config, b: Bucket, at: real, level: real)
    requires Holds(cfg, b, at, level)
    ensures var left := if level >= 1.0 then level - 1.0 else level;
            && AnswerTo(cfg, b, at).allowed == (level >= 1.0)
            && Holds(cfg, Called(cfg, b, at), at, left)
            && Called(cfg, b, at).tokens == left && Called(cfg, b, at).last == Some(at)
  {
    hide Accrued;
  }

  /** Calls that empty a bucket which finds `level` tokens at `at`, down to exactly zero. */
  function Drain(cfg: Config, level: real, at: real): (times: seq<real>)
    requires cfg.rps > 0.0 && level >= 0.0
    ensures times != []
    decreases level.Floor
  {
    if level < 1.0 then [Whole(cfg, level, at)]
    else if level == 1.0 then [at]
    else [at] + Drain(cfg, level - 1.0, at)
  }

  lemma {:induction false} Drained(cfg: Config, b: Bucket, level: real, at: real)
    requires cfg.rps > 0.0 && cfg.burst >= 1.0 && Holds(cfg, b, at, level)
    ensures var times := Drain(cfg, level, at);
            && CalledAll(cfg, b, times).tokens == 0.0 && CalledAll(cfg, b, times).last == Some(times[|times| - 1])
            && Nondecreasing(times) && at <= times[0]
    decreases level.Floor
  {
    var times := Drain(cfg, level, at);
    assert 0.0 <= level <= cfg.burst;
    hide Accrued, Level, Called, Holds;
    if level <= 1.0 {
      WholeAccrues(cfg, level, at);
      var t := times[0];
      if level < 1.0 {
        HoldsLater(cfg, b, at, level, t);
      }
      HoldsAfterCall(cfg, b, t, 1.0);
      assert times[1..] == [] && CalledAll(cfg, Called(cfg, b, t), []) == Called(cfg, b, t);
    } else {
      HoldsAfterCall(cfg, b, at, level);
      Drained(cfg, Called(cfg, b, at), level - 1.0, at);
      assert times[1..] == Drain(cfg, level - 1.0, at);
    }
  }

  /** Calls that tell apart two buckets which find `high` and `low` tokens at `at`. */
  function Probe(cfg: Config, high: real, low: real, at: real): (times: seq<real>)
    requires cfg.rps > 0.0 && high > low >= 0.0
    ensures times != []
    decreases high.Floor
  {
    if high < 1.0 then [Whole(cfg, high, at)]
    else if low < 1.0 then [at]
    else [at] + Probe(cfg, high - 1.0, low - 1.0, at)
  }

  lemma {:induction false} ProbeTellsApart(cfg: Config, a: Bucket, b: Bucket, high: real, low: real, at: real)
    requires cfg.rps > 0.0 && cfg.burst >= 1.0 && high > low
    requires Holds(cfg, a, at, high) && Holds(cfg, b, at, low)
    ensures var times := Probe(cfg, high, low, at);
            AnswersOf(cfg, a, times) != AnswersOf(cfg, b, times) && Nondecreasing(times) && at <= times[0]
    decreases high.Floor
  {
    hide Accrued, Level, Called, AnswerTo;
    var times := Probe(cfg, high, low, at);
    var t := times[0];
    if high < 1.0 {
      WholeAccrues(cfg, high, at);
      HoldsLater(cfg, a, at, high, t);
      HoldsLater(cfg, b, at, low, t);
      HoldsAfterCall(cfg, a, t, 1.0);
      HoldsAfterCall(cfg, b, t, low + Accrued(cfg, at, t));
    } else {
      HoldsAfterCall(cfg, a, at, high);
      HoldsAfterCall(cfg, b, at, low);
      if low >= 1.0 {
        ProbeTellsApart(cfg, Called(cfg, a, at), Called(cfg, b, at), high - 1.0, low - 1.0, at);
        assert times[1..] == Probe(cfg, high - 1.0, low - 1.0, at);
      }
    }
    FirstAnswer(cfg, a, times);
    FirstAnswer(cfg, b, times);
    hide AnswersOf;
  }

  lemma FirstAnswer(cfg: Config, b: Bucket, times: seq<real>)
    requires times != []
    ensures var answers := AnswersOf(cfg, b, times);
            && |answers| > 0 && answers[0] == AnswerTo(cfg, b, times[0])
            && answers[1..] == AnswersOf(cfg, Called(cfg, b, times[0]), times[1..])
  {
    hide AnswerTo, Called;
  }

  /** Times at which calls empty a new bucket, and an idle time longer than ttl that does not refill it. */
  lemma {:induction false} EmptyAndIdle(cfg: Config, ttl: real) returns (times: seq<real>, gap: real)
    requires cfg.rps > 0.0 && cfg.burst >= 1.0 && 0.0 <= ttl && ttl * cfg.rps < cfg.burst
    ensures times != [] && Nondecreasing(times) && 0.0 <= times[0] && ttl < gap
    ensures var b, end := CalledAll(cfg, NewBucket(0.0), times), times[|times| - 1];
            b.last == Some(end) && Level(cfg, b, end + gap) < cfg.burst
  {
    gap := Gap(cfg, ttl);
    Drained(cfg, NewBucket(0.0), cfg.burst, 0.0);
    times := Drain(cfg, cfg.burst, 0.0);
    var end := times[|times| - 1];
    assert Accrued(cfg, end, end + gap) == gap * cfg.rps == Accrued(cfg, 0.0, gap);
    hide Accrued, CalledAll, Drain;
  }

  lemma Gap(cfg: Config, ttl: real) returns (gap: real)
    requires cfg.rps > 0.0 && 0.0 <= ttl && ttl * cfg.rps < cfg.burst
    ensures ttl < gap && 0.0 <= Accrued(cfg, 0.0, gap) < cfg.burst
  {
    var full := cfg.burst / cfg.rps;
    assert full * cfg.rps == cfg.burst;
    assert ttl < full;
    gap := (ttl + full) / 2.0;
    assert gap * cfg.rps == (ttl * cfg.rps + full * cfg.rps) / 2.0;
  }
}
