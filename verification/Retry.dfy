/**
 Retrying a request through the circuit breaker of its host (http/client retry.go and
 client.go). The upstream's replies, the clock and the caller's cancellation come in as an
 environment; no other call uses the host meanwhile.
 */
module Retry {
  import opened Counting
  import opened CircuitBreaker

  /** Delays are in nanoseconds. */
  datatype RetryConfig = RetryConfig(maxAttempts: int, baseDelay: int, maxDelay: int)

  const Millisecond := 1_000_000

  /** What NewClient makes of a RetryConfig: values of zero or less become the defaults. */
  function WithDefaults(r: RetryConfig): (d: RetryConfig)
    ensures d.maxAttempts >= 1 && d.baseDelay >= 1 && d.maxDelay >= 1
    ensures d.maxAttempts == r.maxAttempts || (r.maxAttempts <= 0 && d.maxAttempts == 3)
    ensures d.baseDelay == r.baseDelay || (r.baseDelay <= 0 && d.baseDelay == 100_000_000)
    ensures d.maxDelay == r.maxDelay || (r.maxDelay <= 0 && d.maxDelay == 2_000_000_000)
  {
    RetryConfig(if r.maxAttempts <= 0 then 3 else r.maxAttempts,
                if r.baseDelay <= 0 then 100 * Millisecond else r.baseDelay,
                if r.maxDelay <= 0 then 2000 * Millisecond else r.maxDelay)
  }

  datatype Upstream = Response(status: int) | TransportError

  /** What Do returns: the upstream's answer, or an error of its own. */
  datatype Reply = FromUpstream(upstream: Upstream) | BreakerOpen | Cancelled | NotReplayable

  /**
   One attempt as the environment plays it: whether the request can be cloned for it, when
   it is admitted and when it ends, what the upstream says, and whether the context is done
   during the backoff that follows.
   */
  datatype Attempt = Attempt(replayable: bool, start: int, finish: int, upstream: Upstream, cancelled: bool)

  /** Transport errors and 5xx count against the breaker; 4xx do not. */
  predicate Fails(u: Upstream) {
    u.TransportError? || u.status >= 500
  }

  predicate DefaultShouldRetry(u: Upstream) {
    u.TransportError? || u.status == 429 || u.status >= 500
  }

  // ----------------------------------------------------------------------- one attempt

  function AsCall(e: Attempt): Call {
    Call(0, e.start, e.finish, Fails(e.upstream))
  }

  predicate Refused(cfg: Config, b: Breaker, e: Attempt) {
    AdmissionTo(cfg, b, e.start) == Rejected
  }

  method Do(entry: BreakerEntry, e: Attempt) returns (reply: Reply)
    modifies entry
    ensures entry.Value() == Alone(entry.cfg, old(entry.Value()), AsCall(e))
    ensures reply == if Refused(entry.cfg, old(entry.Value()), e) then BreakerOpen else FromUpstream(e.upstream)
  {
    var admission := entry.Enter(e.start);
    if admission == Rejected {
      return BreakerOpen;
    }
    entry.Leave(admission == Probe, Fails(e.upstream), e.finish);
    return FromUpstream(e.upstream);
  }

  // -------------------------------------------------------------------- the retry loop

  /** How a Do ends: its reply, the breaker left behind, the upstream calls made, the waits. */
  datatype Ending = Ending(reply: Reply, b: Breaker, calls: nat, waits: seq<int>)

  /** The rest of a Do from attempt `n` (counted from one) on, about to wait `delay` next. */
  function From(cfg: Config, r: RetryConfig, should: Upstream -> bool, b: Breaker, env: seq<Attempt>, n: nat, delay: int): Ending
    requires 1 <= n <= r.maxAttempts <= |env|
    decreases r.maxAttempts - n
  {
    var e := env[n - 1];
    if n > 1 && !e.replayable then Ending(NotReplayable, b, 0, [])
    else if Refused(cfg, b, e) then Ending(BreakerOpen, Alone(cfg, b, AsCall(e)), 0, [])
    else
      var b' := Alone(cfg, b, AsCall(e));
      if n == r.maxAttempts || !should(e.upstream) then Ending(FromUpstream(e.upstream), b', 1, [])
      else if e.cancelled then Ending(Cancelled, b', 1, [delay])
      else
        var rest := From(cfg, r, should, b', env, n + 1, NextDelay(r, delay));
        rest.(calls := rest.calls + 1, waits := [delay] + rest.waits)
  }

  function NextDelay(r: RetryConfig, delay: int): int {
    if delay * 2 <= r.maxDelay then delay * 2 else r.maxDelay
  }

  function Whole(cfg: Config, r: RetryConfig, should: Upstream -> bool, b: Breaker, env: seq<Attempt>): Ending
    requires 1 <= r.maxAttempts <= |env|
  {
    From(cfg, r, should, b, env, 1, r.baseDelay)
  }

  /** What one attempt leaves for the rest of a Do. */
  lemma FromAttempt(cfg: Config, r: RetryConfig, should: Upstream -> bool, b: Breaker, env: seq<Attempt>, n: nat, delay: int)
    requires 1 <= n <= r.maxAttempts <= |env|
    ensures var e, b' := env[n - 1], Alone(cfg, b, AsCall(env[n - 1]));
            From(cfg, r, should, b, env, n, delay) ==
            if n > 1 && !e.replayable then Ending(NotReplayable, b, 0, [])
            else if Refused(cfg, b, e) then Ending(BreakerOpen, b', 0, [])
            else if n == r.maxAttempts || !should(e.upstream) then Ending(FromUpstream(e.upstream), b', 1, [])
            else if e.cancelled then Ending(Cancelled, b', 1, [delay])
            else
              var rest := From(cfg, r, should, b', env, n + 1, NextDelay(r, delay));
              rest.(calls := rest.calls + 1, waits := [delay] + rest.waits)
  {
  }

  /** How an attempt ends: the Do stops with a reply, or goes on after waiting. */
  datatype Stop = Stop(reply: Reply, calls: nat, waits: seq<int>) | GoOn

  /** The body of the loop: attempt `n`, and the wait that follows it. */
  method DoAttempt(
    entry: BreakerEntry, r: RetryConfig, should: Upstream -> bool, env: seq<Attempt>, n: nat, delay: int)
    returns (stop: Stop)
    requires 1 <= n <= r.maxAttempts <= |env|
    modifies entry
    ensures stop.GoOn? ==> n < r.maxAttempts
    ensures From(entry.cfg, r, should, old(entry.Value()), env, n, delay)
            == match stop
               case Stop(reply, calls, waits) => Ending(reply, entry.Value(), calls, waits)
               case GoOn => Ends(1, [delay], From(entry.cfg, r, should, entry.Value(), env, n + 1, NextDelay(r, delay)))
  {
    FromAttempt(entry.cfg, r, should, entry.Value(), env, n, delay);
    hide From, Alone, Refused;
    var e := env[n - 1];
    if n > 1 && !e.replayable {
      return Stop(NotReplayable, 0, []);
    }
    var reply := Do(entry, e);
    if reply == BreakerOpen {
      return Stop(reply, 0, []);
    }
    if n == r.maxAttempts || !should(reply.upstream) {
      return Stop(reply, 1, []);
    }
    if e.cancelled {
      return Stop(Cancelled, 1, [delay]);
    }
    return GoOn;
  }

  /** A Do that has made some calls and waits and then ends as `rest` does. */
  function Ends(calls: nat, waits: seq<int>, rest: Ending): Ending {
    rest.(calls := calls + rest.calls, waits := waits + rest.waits)
  }

  lemma EndsLater(calls: nat, waits: seq<int>, delay: int, rest: Ending)
    ensures Ends(calls, waits, Ends(1, [delay], rest)) == Ends(calls + 1, waits + [delay], rest)
    ensures Ends(0, [], rest) == rest
  {
    assert waits + ([delay] + rest.waits) == waits + [delay] + rest.waits;
  }

  method DoWithRetry(entry: BreakerEntry, r: RetryConfig, should: Upstream -> bool, env: seq<Attempt>)
    returns (reply: Reply, calls: nat, waits: seq<int>)
    requires 1 <= r.maxAttempts <= |env|
    modifies entry
    ensures Ending(reply, entry.Value(), calls, waits) == Whole(entry.cfg, r, should, old(entry.Value()), env)
  {
    var delay := r.baseDelay;
    calls, waits := 0, [];
    ghost var whole := Whole(entry.cfg, r, should, entry.Value(), env);
    EndsLater(0, [], delay, whole);
    hide From;
    var attempt := 1;
    while true
      invariant 1 <= attempt <= r.maxAttempts
      invariant whole == Ends(calls, waits, From(entry.cfg, r, should, entry.Value(), env, attempt, delay))
      decreases r.maxAttempts - attempt
    {
      var stop := DoAttempt(entry, r, should, env, attempt, delay);
      if stop.Stop? {
        return stop.reply, calls + stop.calls, waits + stop.waits;
      }
      hide Ends;
      EndsLater(calls, waits, delay, From(entry.cfg, r, should, entry.Value(), env, attempt + 1, NextDelay(r, delay)));
      calls, waits := calls + 1, waits + [delay];
      delay := NextDelay(r, delay);
      attempt := attempt + 1;
    }
  }

  // ------------------------------------------------------------------ what a Do amounts to

  /** Every attempt before the last was answered, worth retrying, and not cancelled. */
  ghost predicate Retried(should: Upstream -> bool, env: seq<Attempt>, from: nat, to: nat)
    requires to <= |env|
  {
    forall k :: from <= k < to ==> should(env[k].upstream) && !env[k].cancelled
  }

  /** The breaker after `k` attempts from index `from` on. */
  function BreakerAt(cfg: Config, b: Breaker, env: seq<Attempt>, from: nat, k: nat): Breaker
    requires from + k <= |env|
    decreases k
  {
    if k == 0 then b else BreakerAt(cfg, Alone(cfg, b, AsCall(env[from])), env, from + 1, k - 1)
  }

  /** The attempt can be made, and the breaker it meets lets it through. */
  ghost predicate Passes(cfg: Config, b: Breaker, env: seq<Attempt>, from: nat, k: nat)
    requires from + k < |env|
  {
    (from + k > 0 ==> env[from + k].replayable) && !Refused(cfg, BreakerAt(cfg, b, env, from, k), env[from + k])
  }

  /** How a Do that made its calls from attempt index `from` on came to its reply. */
  ghost predicate Justified(
    cfg: Config, r: RetryConfig, should: Upstream -> bool, b: Breaker, env: seq<Attempt>, from: nat, e: Ending)
    requires from < r.maxAttempts <= |env|
  {
    var next := from + e.calls;
    && next <= r.maxAttempts
    && (forall k :: 0 <= k < e.calls ==> Passes(cfg, b, env, from, k))
    && var after := BreakerAt(cfg, b, env, from, e.calls);
       match e.reply
       case FromUpstream(u) =>
         && e.calls >= 1 && u == env[next - 1].upstream && Retried(should, env, from, next - 1)
         && (next == r.maxAttempts || !should(u)) && |e.waits| == e.calls - 1 && e.b == after
       case Cancelled =>
         && e.calls >= 1 && next < r.maxAttempts && should(env[next - 1].upstream) && env[next - 1].cancelled
         && Retried(should, env, from, next - 1) && |e.waits| == e.calls && e.b == after
       case BreakerOpen =>
         && next < r.maxAttempts && Retried(should, env, from, next) && |e.waits| == e.calls
         && (next > 0 ==> env[next].replayable)
         && Refused(cfg, after, env[next]) && e.b == Alone(cfg, after, AsCall(env[next]))
       case NotReplayable =>
         && 0 < next < r.maxAttempts && !env[next].replayable && Retried(should, env, from, next)
         && |e.waits| == e.calls && e.b == after
  }

  /** An attempt that passes, is worth retrying and is not cancelled goes before what follows it. */
  lemma {:induction false} JustifiedEarlier(
    cfg: Config, r: RetryConfig, should: Upstream -> bool, b: Breaker, env: seq<Attempt>, from: nat, rest: Ending, delay: int)
    requires from + 1 < r.maxAttempts <= |env| && Passes(cfg, b, env, from, 0)
    requires should(env[from].upstream) && !env[from].cancelled
    requires Justified(cfg, r, should, Alone(cfg, b, AsCall(env[from])), env, from + 1, rest)
    ensures Justified(cfg, r, should, b, env, from, rest.(calls := rest.calls + 1, waits := [delay] + rest.waits))
  {
    hide Alone, Refused;
    var b' := Alone(cfg, b, AsCall(env[from]));
    forall k | 0 <= k < rest.calls + 1
      ensures Passes(cfg, b, env, from, k)
    {
      if k > 0 {
        assert Passes(cfg, b', env, from + 1, k - 1);
        assert BreakerAt(cfg, b, env, from, k) == BreakerAt(cfg, b', env, from + 1, k - 1);
      }
    }
    assert BreakerAt(cfg, b, env, from, rest.calls + 1) == BreakerAt(cfg, b', env, from + 1, rest.calls);
    hide BreakerAt, Passes;
  }

  /**
   For every upstream, breaker and environment, from any attempt on (with n == 1, a whole Do): a
   Do goes on exactly while the upstream's answers are worth retrying and the breaker lets it
   through, and stops at the first answer that is not, at the attempt budget, at a cancellation,
   at a request that cannot be replayed or at a refusal by the breaker as the earlier attempts
   left it. It returns the answer of the last call it made.
   */
  lemma {:induction false} DoIsJustified(
    cfg: Config, r: RetryConfig, should: Upstream -> bool, b: Breaker, env: seq<Attempt>, n: nat, delay: int)
    requires 1 <= n <= r.maxAttempts <= |env|
    ensures Justified(cfg, r, should, b, env, n - 1, From(cfg, r, should, b, env, n, delay))
    decreases r.maxAttempts - n
  {
    FromAttempt(cfg, r, should, b, env, n, delay);
    hide Alone, Refused, From;
    var e := env[n - 1];
    var b' := Alone(cfg, b, AsCall(e));
    assert BreakerAt(cfg, b, env, n - 1, 0) == b && BreakerAt(cfg, b', env, n, 0) == b';
    assert BreakerAt(cfg, b, env, n - 1, 1) == b';
    hide BreakerAt;
    if Passes(cfg, b, env, n - 1, 0) && n < r.maxAttempts && should(e.upstream) && !e.cancelled {
      hide Justified;
      DoIsJustified(cfg, r, should, b', env, n + 1, NextDelay(r, delay));
      JustifiedEarlier(cfg, r, should, b, env, n - 1, From(cfg, r, should, b', env, n + 1, NextDelay(r, delay)), delay);
    }
  }

  // --------------------------------------------------------------------- the backoffs

  /** The i-th wait: the base delay first, then doubling up to the cap. */
  function Backoff(r: RetryConfig, i: nat): int {
    if i == 0 then r.baseDelay
    else if r.baseDelay * Pow2(i) <= r.maxDelay then r.baseDelay * Pow2(i)
    else r.maxDelay
  }

  lemma BackoffStep(r: RetryConfig, i: nat)
    requires r.baseDelay >= 1 && r.maxDelay >= 1
    ensures NextDelay(r, Backoff(r, i)) == Backoff(r, i + 1)
  {
    assert r.baseDelay * Pow2(i + 1) == 2 * (r.baseDelay * Pow2(i));
  }

  lemma {:induction false} WaitsDouble(
    cfg: Config, r: RetryConfig, should: Upstream -> bool, b: Breaker, env: seq<Attempt>, n: nat, i: nat)
    requires 1 <= n <= r.maxAttempts <= |env| && r.baseDelay >= 1 && r.maxDelay >= 1
    requires i < |From(cfg, r, should, b, env, n, Backoff(r, n - 1)).waits|
    ensures From(cfg, r, should, b, env, n, Backoff(r, n - 1)).waits[i] == Backoff(r, n - 1 + i)
    ensures n + i < r.maxAttempts
    decreases r.maxAttempts - n
  {
    hide Backoff, Alone, Refused;
    var e := env[n - 1];
    BackoffStep(r, n - 1);
    if i > 0 {
      WaitsDouble(cfg, r, should, Alone(cfg, b, AsCall(e)), env, n + 1, i - 1);
    }
  }

  /** In every Do there are fewer waits than attempts, and the i-th one is Backoff(i). */
  lemma WaitsAreBackoffs(cfg: Config, r: RetryConfig, should: Upstream -> bool, b: Breaker, env: seq<Attempt>, i: nat)
    requires 1 <= r.maxAttempts <= |env| && r.baseDelay >= 1 && r.maxDelay >= 1
    requires i < |Whole(cfg, r, should, b, env).waits|
    ensures Whole(cfg, r, should, b, env).waits[i] == Backoff(r, i) && i + 1 < r.maxAttempts
  {
    WaitsDouble(cfg, r, should, b, env, 1, i);
  }

  // ------------------------------------------------------------ an upstream that keeps failing

  /** A transport error or a status of 500 or more. */
  predicate IsFailure(u: Upstream) {
    match u
    case TransportError => true
    case Response(status) => status >= 500
  }

  /** The upstream always fails, nothing is cancelled, and each attempt comes soon after the last. */
  ghost predicate KeepsFailing(cfg: Config, env: seq<Attempt>) {
    && (forall i :: 0 <= i < |env| ==> env[i].replayable && !env[i].cancelled && IsFailure(env[i].upstream))
    && (forall i, j :: 0 <= i && j == i + 1 < |env| ==> env[j].start - env[i].finish < cfg.openTimeout)
  }

  /**
   An upstream that always answers with a status below 500, whatever is retried: no Do is refused,
   and none changes a closed breaker.
   */
  lemma {:induction false} HealthyUpstream(
    cfg: Config, r: RetryConfig, should: Upstream -> bool, b: Breaker, env: seq<Attempt>, n: nat, delay: int)
    requires 1 <= n <= r.maxAttempts <= |env| && b.phase == Closed
    requires forall i :: 0 <= i < |env| ==> env[i].upstream.Response? && env[i].upstream.status < 500
    ensures var ending := From(cfg, r, should, b, env, n, delay); ending.b == b && ending.reply != BreakerOpen
    decreases r.maxAttempts - n
  {
    var e := env[n - 1];
    assert Alone(cfg, b, AsCall(e)) == b && !Refused(cfg, b, e);
    hide Alone, Refused;
    if n < r.maxAttempts {
      HealthyUpstream(cfg, r, should, b, env, n + 1, NextDelay(r, delay));
    }
  }

  /**
   What the default retries: a Do whose first answer has a status below 500 other than 429 makes one
   call and returns that answer, and one that is answered 429 throughout makes all its attempts.
   */
  lemma {:induction false} DefaultRetries(
    cfg: Config, r: RetryConfig, b: Breaker, env: seq<Attempt>, n: nat, delay: int)
    requires 1 <= n <= r.maxAttempts <= |env| && b.phase == Closed && env[n - 1].replayable
    requires forall i :: 0 <= i < |env| ==> env[i].upstream.Response? && env[i].upstream.status < 500
    ensures env[n - 1].upstream.status != 429 ==>
              From(cfg, r, DefaultShouldRetry, b, env, n, delay) == Ending(FromUpstream(env[n - 1].upstream), b, 1, [])
    ensures (forall i :: 0 <= i < |env| ==>
               env[i].upstream == Response(429) && env[i].replayable && !env[i].cancelled) ==>
              var ending := From(cfg, r, DefaultShouldRetry, b, env, n, delay);
              ending.calls == r.maxAttempts - n + 1 && ending.reply == FromUpstream(Response(429))
    decreases r.maxAttempts - n
  {
    var e := env[n - 1];
    assert Alone(cfg, b, AsCall(e)) == b && !Refused(cfg, b, e);
    hide Alone, Refused;
    if n < r.maxAttempts && env[n].replayable {
      DefaultRetries(cfg, r, b, env, n + 1, NextDelay(r, delay));
    }
  }

  /** The upstream calls a closed breaker with `failures` failures lets through before it opens. */
  function Budget(cfg: Config, failures: int): nat {
    if cfg.failureThreshold - failures <= 1 then 1 else cfg.failureThreshold - failures
  }

  lemma {:induction false} FailingFrom(
    cfg: Config, r: RetryConfig, b: Breaker, env: seq<Attempt>, n: nat, delay: int)
    requires 1 <= n <= r.maxAttempts <= |env| && KeepsFailing(cfg, env) && b.phase == Closed
    ensures var left := r.maxAttempts - n + 1;
            var ending := From(cfg, r, DefaultShouldRetry, b, env, n, delay);
            && ending.calls == (if Budget(cfg, b.failures) < left then Budget(cfg, b.failures) else left)
            && (ending.reply == BreakerOpen <==> Budget(cfg, b.failures) < left)
            && (ending.reply != BreakerOpen ==> ending.reply == FromUpstream(env[r.maxAttempts - 1].upstream))
    decreases r.maxAttempts - n
  {
    var e := env[n - 1];
    var b' := Alone(cfg, b, AsCall(e));
    if n < r.maxAttempts {
      if b.failures + 1 >= cfg.failureThreshold {
        assert b' == Breaker(Open, 0, 0, 0, e.finish);
        assert env[n].start - e.finish < cfg.openTimeout;
        assert Refused(cfg, b', env[n]);
        assert From(cfg, r, DefaultShouldRetry, b', env, n + 1, NextDelay(r, delay)).reply == BreakerOpen;
      } else {
        assert b' == b.(failures := b.failures + 1);
        FailingFrom(cfg, r, b', env, n + 1, NextDelay(r, delay));
      }
    }
  }

  /**
   With no other traffic, a closed breaker holding f failures and an upstream that always
   returns 5xx or a transport error, one Do makes exactly min(maxAttempts, failureThreshold - f)
   upstream calls and returns ErrOpen exactly when failureThreshold - f < maxAttempts.
   */
  lemma FailingUpstream(cfg: Config, r: RetryConfig, b: Breaker, env: seq<Attempt>)
    requires 1 <= r.maxAttempts <= |env| && KeepsFailing(cfg, env)
    requires b.phase == Closed && b.failures < cfg.failureThreshold
    ensures var room := cfg.failureThreshold - b.failures;
            var ending := Whole(cfg, r, DefaultShouldRetry, b, env);
            && ending.calls == (if room < r.maxAttempts then room else r.maxAttempts)
            && (ending.reply == BreakerOpen <==> room < r.maxAttempts)
            && (ending.reply != BreakerOpen ==> ending.reply == FromUpstream(env[r.maxAttempts - 1].upstream))
  {
    FailingFrom(cfg, r, b, env, 1, r.baseDelay);
  }
}
