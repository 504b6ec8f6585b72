/**
 The token bucket of api/ratelimit (one bucket per key, held in process) and the token
 bucket script of db/redis (one hash per key, held by the server).

 Token counts and seconds are reals. The in-process bucket reads a clock in seconds; the
 script is called with whole milliseconds. The update of a bucket is one atomic step: it is made
 under the bucket's mutex, and Redis runs a script without interleaving. The bucket's clock is
 read before its mutex is taken, so the times of successive updates may step back.
 */
module TokenBuckets {
  import opened Options

  datatype Config = Config(rps: real, burst: real)

  function Min(x: real, y: real): real {
    if x <= y then x else y
  }

  /** The tokens credited between two times. */
  function Accrued(cfg: Config, from: real, to: real): real {
    (to - from) * cfg.rps
  }

  lemma AccruedAdds(cfg: Config, a: real, b: real, c: real)
    ensures Accrued(cfg, a, c) == Accrued(cfg, a, b) + Accrued(cfg, b, c)
  {
    assert (c - a) * cfg.rps == (b - a) * cfg.rps + (c - b) * cfg.rps;
  }

  lemma AccruedGrows(cfg: Config, a: real, b: real)
    requires a <= b && cfg.rps >= 0.0
    ensures Accrued(cfg, a, b) >= 0.0
  {
  }

  // ---------------------------------------------------------------- the in-process bucket

  /** `last` is None for the zero time.Time of a bucket that has never been called. */
  datatype Bucket = Bucket(tokens: real, last: Option<real>, created: real)

  datatype Answer = Answer(allowed: bool, waitNs: int)

  const SecondNs := 1_000_000_000

  /** The tokens a bucket holds once the time since its last call has been credited. */
  function Level(cfg: Config, b: Bucket, now: real): real {
    match b.last
    case None => cfg.burst
    case Some(last) =>
      if now - last > 0.0 then Min(b.tokens + Accrued(cfg, last, now), cfg.burst) else b.tokens
  }

  /** The bucket a call at `now` leaves behind. */
  function Called(cfg: Config, b: Bucket, now: real): Bucket {
    var level := Level(cfg, b, now);
    b.(tokens := if level >= 1.0 then level - 1.0 else level, last := Some(now))
  }

  function AnswerTo(cfg: Config, b: Bucket, now: real): (answer: Answer)
    ensures answer.allowed ==> answer.waitNs == 0
    ensures !answer.allowed && cfg.rps <= 0.0 ==> answer.waitNs == 1_000_000_000
  {
    var level := Level(cfg, b, now);
    if level >= 1.0 then Answer(true, 0)
    else if cfg.rps <= 0.0 then Answer(false, SecondNs)
    else Answer(false, ((1.0 - level) / cfg.rps * SecondNs as real).Floor)
  }

  function NewBucket(now: real): Bucket {
    Bucket(0.0, None, now)
  }

  // ------------------------------------------------- closed form of a run on a single bucket

  ghost predicate Nondecreasing(times: seq<real>) {
    forall i, j :: 0 <= i <= j < |times| ==> times[i] <= times[j]
  }

  /** The bucket after the first `n` calls at `times`, starting from a new bucket. */
  function After(cfg: Config, times: seq<real>, n: nat): Bucket
    requires n <= |times|
  {
    if n == 0 then NewBucket(0.0) else Called(cfg, After(cfg, times, n - 1), times[n - 1])
  }

  /** The tokens call `n` finds. */
  function Found(cfg: Config, times: seq<real>, n: nat): real
    requires n < |times|
  {
    Level(cfg, After(cfg, times, n), times[n])
  }

  /** The allow/deny answers to every call of a run: yes to a call that finds a whole token. */
  function Decisions(cfg: Config, times: seq<real>): (answers: seq<bool>)
    ensures |answers| == |times|
  {
    seq(|times|, n requires 0 <= n < |times| => Found(cfg, times, n) >= 1.0)
  }

  /** How many of the calls lo..hi-1 are answered yes. */
  function Hits(answers: seq<bool>, lo: nat, hi: nat): nat
    requires lo <= hi <= |answers|
  {
    if lo == hi then 0 else Hits(answers, lo, hi - 1) + if answers[hi - 1] then 1 else 0
  }

  /** What a window opening at call k leaves for call n: its allowance less what it has used. */
  function Slack(cfg: Config, times: seq<real>, answers: seq<bool>, k: nat, n: nat): real
    requires k <= n < |times| == |answers|
  {
    cfg.burst + Accrued(cfg, times[k], times[n]) - Hits(answers, k, n) as real
  }

  /** No window of the run holds more yes answers than burst + rps * length. */
  ghost predicate Conforms(cfg: Config, times: seq<real>, answers: seq<bool>)
    requires |times| == |answers|
  {
    forall k, n :: 0 <= k <= n < |times| ==>
      Hits(answers, k, n + 1) as real <= cfg.burst + Accrued(cfg, times[k], times[n])
  }

  /** Admitting call n would push the window that opens at call k past its allowance. */
  ghost predicate WouldOverflow(cfg: Config, times: seq<real>, answers: seq<bool>, k: nat, n: nat)
    requires k <= n < |times| == |answers|
  {
    (Hits(answers, k, n) + 1) as real > cfg.burst + Accrued(cfg, times[k], times[n])
  }

  /** One call moves every open window's slack by the same amount as the bucket's level. */
  lemma SlackStep(cfg: Config, times: seq<real>, k: nat, n: nat)
    requires k <= n && n + 1 < |times|
    ensures var d := Decisions(cfg, times);
            Slack(cfg, times, d, k, n + 1)
            == Slack(cfg, times, d, k, n) + Accrued(cfg, times[n], times[n + 1]) - (if d[n] then 1.0 else 0.0)
  {
    hide Accrued;
    AccruedAdds(cfg, times[k], times[n], times[n + 1]);
  }

  lemma FoundStep(cfg: Config, times: seq<real>, n: nat)
    requires n + 1 < |times| && Nondecreasing(times) && cfg.rps >= 0.0
    requires Found(cfg, times, n) <= cfg.burst
    ensures var left := Found(cfg, times, n) - (if Decisions(cfg, times)[n] then 1.0 else 0.0);
            Found(cfg, times, n + 1) == Min(left + Accrued(cfg, times[n], times[n + 1]), cfg.burst)
  {
    AccruedGrows(cfg, times[n], times[n]);
    if times[n] == times[n + 1] {
      assert Accrued(cfg, times[n], times[n + 1]) == 0.0;
    }
    hide Accrued;
    assert After(cfg, times, n + 1).last == Some(times[n]);
  }

  /** A window opens with the whole burst. */
  lemma SlackOpens(cfg: Config, times: seq<real>, answers: seq<bool>, n: nat)
    requires n < |times| == |answers|
    ensures Slack(cfg, times, answers, n, n) == cfg.burst
  {
  }

  /** `level` is the minimum, over the windows that end at call n, of what each leaves. */
  ghost predicate IsLeastSlack(cfg: Config, times: seq<real>, answers: seq<bool>, n: nat, level: real)
    requires n < |times| == |answers|
  {
    && (forall k :: 0 <= k <= n ==> level <= Slack(cfg, times, answers, k, n))
    && (exists k :: 0 <= k <= n && level == Slack(cfg, times, answers, k, n))
  }

  /** The tokens call n finds are exactly the least slack over the windows that end at it. */
  lemma {:induction false} FoundIsLeastSlack(cfg: Config, times: seq<real>, n: nat)
    requires Nondecreasing(times) && cfg.rps >= 0.0 && n < |times|
    ensures IsLeastSlack(cfg, times, Decisions(cfg, times), n, Found(cfg, times, n))
  {
    if n == 0 {
      SlackOpens(cfg, times, Decisions(cfg, times), 0);
      assert Found(cfg, times, 0) == Slack(cfg, times, Decisions(cfg, times), 0, 0);
    } else {
      hide *;
      FoundIsLeastSlack(cfg, times, n - 1);
      LeastSlackStep(cfg, times, n - 1);
    }
  }

  lemma LeastSlackStep(cfg: Config, times: seq<real>, n: nat)
    requires Nondecreasing(times) && cfg.rps >= 0.0 && n + 1 < |times|
    requires IsLeastSlack(cfg, times, Decisions(cfg, times), n, Found(cfg, times, n))
    ensures IsLeastSlack(cfg, times, Decisions(cfg, times), n + 1, Found(cfg, times, n + 1))
  {
    hide Found, Slack, Accrued;
    var m := n + 1;
    var d := Decisions(cfg, times);
    SlackOpens(cfg, times, d, n);
    SlackOpens(cfg, times, d, m);
    FoundStep(cfg, times, n);
    forall k | 0 <= k <= m
      ensures Found(cfg, times, m) <= Slack(cfg, times, d, k, m)
    {
      if k < m {
        SlackStep(cfg, times, k, n);
      }
    }
    var k :| 0 <= k <= n && Found(cfg, times, n) == Slack(cfg, times, d, k, n);
    SlackStep(cfg, times, k, n);
    assert Found(cfg, times, m) == Slack(cfg, times, d, if Found(cfg, times, m) == cfg.burst then m else k, m);
  }

  /** A call is denied exactly when admitting it would overflow some window that ends at it. */
  lemma DeniedExactlyOnOverflow(cfg: Config, times: seq<real>, n: nat)
    requires Nondecreasing(times) && cfg.rps >= 0.0 && n < |times|
    ensures !Decisions(cfg, times)[n]
            <==> exists k :: 0 <= k <= n && WouldOverflow(cfg, times, Decisions(cfg, times), k, n)
  {
    var d := Decisions(cfg, times);
    hide Accrued;
    FoundIsLeastSlack(cfg, times, n);
    var k0 :| 0 <= k0 <= n && Found(cfg, times, n) == Slack(cfg, times, d, k0, n);
    if !d[n] {
      assert WouldOverflow(cfg, times, d, k0, n);
    }
    if k :| 0 <= k <= n && WouldOverflow(cfg, times, d, k, n) {
      assert Slack(cfg, times, d, k, n) < 1.0;
    }
  }

  /** On a clock that does not step back, no window exceeds burst + rps * length. */
  lemma {:induction false} WindowBound(cfg: Config, times: seq<real>, k: nat, n: nat)
    requires Nondecreasing(times) && cfg.rps >= 0.0 && cfg.burst >= 0.0 && k <= n < |times|
    ensures Hits(Decisions(cfg, times), k, n + 1) as real <= cfg.burst + Accrued(cfg, times[k], times[n])
  {
    var d := Decisions(cfg, times);
    if k == n {
      AccruedGrows(cfg, times[k], times[n]);
    }
    hide Accrued;
    if d[n] {
      DeniedExactlyOnOverflow(cfg, times, n);
      assert !WouldOverflow(cfg, times, d, k, n);
    } else if k < n {
      WindowBound(cfg, times, k, n - 1);
      AccruedAdds(cfg, times[k], times[n - 1], times[n]);
      AccruedGrows(cfg, times[n - 1], times[n]);
    } else {
      assert Hits(d, k, n) == 0;
    }
  }

  lemma {:induction false} HitsSplit(answers: seq<bool>, lo: nat, mid: nat, hi: nat)
    requires lo <= mid <= hi <= |answers|
    ensures Hits(answers, lo, hi) == Hits(answers, lo, mid) + Hits(answers, mid, hi)
  {
    if mid < hi {
      HitsSplit(answers, lo, mid, hi - 1);
    }
  }

  /**
   The bucket is the most permissive limiter there is: any answers that respect every
   window have, after every prefix of the run, let through no more calls than it has.
   */
  lemma {:induction false} AdmitsTheMost(cfg: Config, times: seq<real>, other: seq<bool>, n: nat)
    requires Nondecreasing(times) && cfg.rps >= 0.0 && n <= |times| == |other|
    requires Conforms(cfg, times, other)
    ensures Hits(other, 0, n) <= Hits(Decisions(cfg, times), 0, n)
  {
    var d := Decisions(cfg, times);
    hide Accrued;
    if n > 0 {
      AdmitsTheMost(cfg, times, other, n - 1);
      if other[n - 1] && !d[n - 1] {
        DeniedExactlyOnOverflow(cfg, times, n - 1);
        var k :| 0 <= k <= n - 1 && WouldOverflow(cfg, times, d, k, n - 1);
        assert Hits(other, k, n - 1 + 1) as real <= cfg.burst + Accrued(cfg, times[k], times[n - 1]);
        HitsSplit(other, 0, k, n);
        HitsSplit(d, 0, k, n);
        AdmitsTheMost(cfg, times, other, k);
      }
    }
  }

  // ------------------------------------------------------------- times that step back

  lemma SameSpan(cfg: Config, a: real, b: real, c: real, d: real)
    requires b - a == d - c
    ensures Accrued(cfg, a, b) == Accrued(cfg, c, d)
  {
  }

  function Max(x: real, y: real): real {
    if x >= y then x else y
  }

  /** How far the clock moves forward, in all, between calls k and n. */
  function Forward(times: seq<real>, k: nat, n: nat): real
    requires k <= n < |times|
  {
    if k == n then 0.0 else Forward(times, k, n - 1) + Max(times[n] - times[n - 1], 0.0)
  }

  /** How far the clock moves back, in all, between calls k and n. */
  function Backward(times: seq<real>, k: nat, n: nat): real
    requires k <= n < |times|
  {
    if k == n then 0.0 else Backward(times, k, n - 1) + Max(times[n - 1] - times[n], 0.0)
  }

  lemma {:induction false} ForwardLessBackward(times: seq<real>, k: nat, n: nat)
    requires k <= n < |times|
    ensures Forward(times, k, n) == times[n] - times[k] + Backward(times, k, n)
    ensures Backward(times, k, n) >= 0.0 && Forward(times, k, n) >= 0.0
    ensures Nondecreasing(times) ==> Backward(times, k, n) == 0.0
  {
    if k < n {
      ForwardLessBackward(times, k, n - 1);
    }
  }

  /** The times of a clock that stands still instead of stepping back. */
  function Steady(times: seq<real>): (steady: seq<real>)
    ensures |steady| == |times|
  {
    seq(|times|, n requires 0 <= n < |times| => Forward(times, 0, n))
  }

  lemma {:induction false} SteadySpans(times: seq<real>, k: nat, n: nat)
    requires k <= n < |times|
    ensures Steady(times)[n] - Steady(times)[k] == Forward(times, k, n) >= 0.0
  {
    if k < n {
      SteadySpans(times, k, n - 1);
    }
  }

  /** A bucket does not notice the difference: it credits only forward movement. */
  lemma {:induction false} AfterSteady(cfg: Config, times: seq<real>, n: nat)
    requires n <= |times|
    ensures After(cfg, times, n).tokens == After(cfg, Steady(times), n).tokens
    ensures n < |times| ==> Found(cfg, times, n) == Found(cfg, Steady(times), n)
  {
    var steady := Steady(times);
    if n > 0 {
      AfterSteady(cfg, times, n - 1);
      if n < |times| {
        SteadySpans(times, n - 1, n);
        assert Forward(times, n - 1, n) == Max(times[n] - times[n - 1], 0.0);
        if times[n] > times[n - 1] {
          SameSpan(cfg, times[n - 1], times[n], steady[n - 1], steady[n]);
        }
      }
    }
    hide Accrued, Steady, Forward;
  }

  lemma {:induction false} SteadyDecides(cfg: Config, times: seq<real>)
    ensures Nondecreasing(Steady(times)) && Decisions(cfg, times) == Decisions(cfg, Steady(times))
  {
    forall k, n | 0 <= k <= n < |times|
      ensures Steady(times)[k] <= Steady(times)[n]
    {
      SteadySpans(times, k, n);
    }
    forall n | 0 <= n < |times|
      ensures Found(cfg, times, n) == Found(cfg, Steady(times), n)
    {
      AfterSteady(cfg, times, n);
    }
    hide Steady, Found;
  }

  /**
   Whatever the times, a run is decided like the run of a clock that stands still instead of
   stepping back. So the closed form and what follows from it hold for any times, with forward
   movement, which is length plus backward movement, in the place of length.
   */
  lemma {:induction false} AnyClockIsSteady(cfg: Config, times: seq<real>)
    ensures Nondecreasing(Steady(times)) && Decisions(cfg, times) == Decisions(cfg, Steady(times))
    ensures forall k, n :: 0 <= k <= n < |times| ==>
              Steady(times)[n] - Steady(times)[k] == times[n] - times[k] + Backward(times, k, n)
  {
    hide *;
    SteadyDecides(cfg, times);
    forall k, n | 0 <= k <= n < |times|
      ensures Steady(times)[n] - Steady(times)[k] == times[n] - times[k] + Backward(times, k, n)
    {
      SteadySpans(times, k, n);
      ForwardLessBackward(times, k, n);
    }
  }

  /** What a window may admit when the clock moves back within it. */
  function Allowance(cfg: Config, times: seq<real>, k: nat, n: nat): real
    requires k <= n < |times|
  {
    cfg.burst + Accrued(cfg, times[k], times[n] + Backward(times, k, n))
  }

  /** For any times, no window of any run exceeds burst + rps * (length + backward movement). */
  lemma {:induction false} RunConforms(cfg: Config, times: seq<real>, k: nat, n: nat)
    requires cfg.rps >= 0.0 && cfg.burst >= 0.0 && k <= n < |times|
    ensures Hits(Decisions(cfg, times), k, n + 1) as real <= Allowance(cfg, times, k, n)
    ensures Nondecreasing(times) ==> Allowance(cfg, times, k, n) == cfg.burst + Accrued(cfg, times[k], times[n])
  {
    assert Allowance(cfg, times, k, n) == cfg.burst + Accrued(cfg, times[k], times[n] + Backward(times, k, n));
    hide *;
    SteadyDecides(cfg, times);
    SteadySpans(times, k, n);
    ForwardLessBackward(times, k, n);
    var steady := Steady(times);
    WindowBound(cfg, steady, k, n);
    SameSpan(cfg, steady[k], steady[n], times[k], times[n] + Backward(times, k, n));
  }

  /** The backward movement has to be counted: two calls get through at one instant with a burst of one. */
  lemma BackwardMovementShows()
    ensures Decisions(Config(1.0, 1.0), [1.0, 0.0, 1.0]) == [true, false, true]
  {
    var cfg, times := Config(1.0, 1.0), [1.0, 0.0, 1.0];
    assert After(cfg, times, 1) == Bucket(0.0, Some(1.0), 0.0);
    assert After(cfg, times, 2) == Bucket(0.0, Some(0.0), 0.0);
    assert Found(cfg, times, 2) == 1.0;
  }

  /** With a burst of at least one token per call, no call is denied at whatever times. */
  lemma {:induction false} AmpleBurst(cfg: Config, times: seq<real>, n: nat)
    requires cfg.rps >= 0.0 && cfg.burst >= |times| as real && n < |times|
    ensures Found(cfg, times, n) >= cfg.burst - n as real
    ensures n > 0 ==> After(cfg, times, n).last == Some(times[n - 1])
  {
    if n > 0 {
      AmpleBurst(cfg, times, n - 1);
      if times[n] > times[n - 1] {
        AccruedGrows(cfg, times[n - 1], times[n]);
      }
      hide Accrued;
    }
  }

  /** A configuration under which a step back of the clock shows. */
  lemma {:induction false} StepBackShows(times: seq<real>, i: nat, j: nat) returns (cfg: Config)
    requires i < j < |times| && times[i] > times[j]
    ensures cfg.rps >= 0.0 && cfg.burst >= 0.0 && !Conforms(cfg, times, Decisions(cfg, times))
  {
    var n, span := |times| as real, times[i] - times[j];
    var rps := n / span;
    assert rps * span == n && rps >= 0.0;
    cfg := Config(rps, n);
    assert Accrued(cfg, times[i], times[j]) == -n;
    hide Accrued;
    var d := Decisions(cfg, times);
    AmpleBurst(cfg, times, j);
    assert d[j] && Hits(d, i, j + 1) >= 1;
    assert Hits(d, i, j + 1) as real > cfg.burst + Accrued(cfg, times[i], times[j]);
  }

  /** Every bucket keeps every window within burst + rps * length if and only if the times do not step back. */
  lemma {:induction false} ConformsExactlyForward(times: seq<real>)
    ensures (forall cfg: Config :: cfg.rps >= 0.0 && cfg.burst >= 0.0 ==> Conforms(cfg, times, Decisions(cfg, times)))
            <==> Nondecreasing(times)
  {
    if Nondecreasing(times) {
      forall cfg: Config, k, n | cfg.rps >= 0.0 && cfg.burst >= 0.0 && 0 <= k <= n < |times|
        ensures Hits(Decisions(cfg, times), k, n + 1) as real <= cfg.burst + Accrued(cfg, times[k], times[n])
      {
        WindowBound(cfg, times, k, n);
      }
    } else {
      var i, j :| 0 <= i <= j < |times| && times[i] > times[j];
      var cfg := StepBackShows(times, i, j);
      hide Conforms, Decisions;
    }
  }

  // ------------------------------------------------------------------ the reported wait

  lemma DivisionMoves(x: real, d: real, rate: real)
    requires rate > 0.0
    ensures x * rate >= d <==> x >= d / rate
  {
    var q := d / rate;
    assert q * rate == d;
    if x >= q {
      assert (x - q) * rate >= 0.0;
    } else {
      assert (q - x) * rate > 0.0;
    }
  }

  function Nanoseconds(t: int): real {
    t as real / SecondNs as real
  }

  /** A denied bucket reaches a whole token after exactly (1 - level) / rps seconds. */
  lemma LevelAfterDenial(cfg: Config, b: Bucket, now: real, x: real)
    requires cfg.rps > 0.0 && cfg.burst >= 1.0 && x >= 0.0 && Level(cfg, b, now) < 1.0
    ensures Level(cfg, Called(cfg, b, now), now + x) >= 1.0 <==> x >= (1.0 - Level(cfg, b, now)) / cfg.rps
  {
    var level := Level(cfg, b, now);
    var c := Called(cfg, b, now);
    assert c.tokens == level < 1.0 && c.last == Some(now);
    DivisionMoves(x, 1.0 - level, cfg.rps);
    assert Level(cfg, c, now + x) == if x > 0.0 then Min(level + x * cfg.rps, cfg.burst) else level;
    hide Level, Called;
  }

  /**
   The wait of a denial is the whole number of nanoseconds at or just below the time the bucket
   needs: a call any earlier is denied, any later is admitted, and one after exactly the wait is
   admitted exactly when the time needed is a whole number of nanoseconds.
   */
  lemma LocalWaitIsTight(cfg: Config, b: Bucket, now: real, t: nat)
    requires cfg.rps > 0.0 && cfg.burst >= 1.0 && Level(cfg, b, now) < 1.0
    ensures var wait := AnswerTo(cfg, b, now).waitNs;
            var again := AnswerTo(cfg, Called(cfg, b, now), now + Nanoseconds(t)).allowed;
            && (t < wait ==> !again)
            && (t > wait ==> again)
            && (t == wait ==> (again <==> wait as real == (1.0 - Level(cfg, b, now)) / cfg.rps * SecondNs as real))
  {
    LevelAfterDenial(cfg, b, now, Nanoseconds(t));
    hide Level, Called;
  }
}
