# A verified model of the SDK's stateful algorithms

This project models the small algorithms of the Go SDK whose guarantees hold only over whole
runs, and proves those guarantees for every run. To verify: `dafny verify dfyconfig.toml`.

| module | what it models |
|---|---|
| `TokenBuckets`, `RateLimiter` | the in-process token bucket; the map of buckets, a call and an eviction pass without interference |
| `LimiterTraces`, `ConcurrentLimiter`, `BucketProbes` | the same limiter with every step of callers and evictor apart, and what of it can be seen |
| `RedisBuckets` | the token bucket script that Redis runs, and key expiry |
| `CircuitBreaker`, `BreakerHosts`, `Retry` | the per-host breaker, the capped map of hosts, and retrying through the breaker |
| `RegexFragment`, `RouteTemplates`, `RouteTable` | compiling route templates, sorting them, looking rules up |
| `Idempotency` | reserving a key by compare-and-swap against a background evictor |
| `LogBatches`, `DynamoBatches`, `ParallelRunner` | cutting, sending and retrying batches, and the semaphore-bounded runner |
| `AsyncWriter` | the asynchronous log writer: Write, run, drain, Flush, Close |
| `TokenSource` | the double-checked service token cache with its singleflight |
| `Base64`, `HashEncoding` | the printed form of an Argon2id hash and its parser |
| `Options`, `Counting`, `Sequences`, `StableSort`, `Text` | shared: optional values, counting, concatenation, a stable sort, splitting and joining |

## How the model is built

A component whose calls interleave is a transition system. One step is one section under a
mutex, one operation on a channel or a concurrent map, or one reading of the clock. An action
that is not possible in a state leaves the state alone, so `Run` over any list of actions covers
every interleaving. Beside it stands a class with the source's fields, whose methods are the
source's code for one such section, or for a whole operation nobody disturbs, proved against
the same functions. Loops of the source are loops here.

- Token counts and seconds are reals. The configuration of a run is fixed.
- Clocks do not step back. A bucket's clock is read before its lock is taken, so the times of its
  updates may: `RunConforms`, `AnyClockIsSteady`, `ConcurrentLimiter` and `RedisBuckets.SameVerdicts`
  hold for any times.
- The Redis server's clock agrees with the clock of the caller that stamps `now`.
- Redis and the in-process bucket start from the same empty state when they are compared.
- The upstream, the token endpoint, the DynamoDB service, contexts and randomness are inputs. A
  DynamoDB service is any function of the call number and the request that handles some requests
  and hands back the others; a call that fails is taken to have handled nothing.
- Argon2 is any function that returns as many bytes as asked for.

## What turned out false of the code

Each of these has a run that shows it, beside the theorem that says exactly when the property holds.

- `halfOpenInFlight` is not always between 0 and `MaxHalfOpenRequests`, and more probes than that can
  run at once: a probe that outlives its period still decrements the counter
  (`InFlightCanBeNegative`, `CapCanBeOverrun`). `InFlightIsExact` gives the true value.
  `InRangeExactly`: every run stays in range if and only if `SuccessThreshold` is at most one or no
  probe is let through.
- The host cap breaks when two `Prune` calls overlap, for every cap (`TwoPrunesBreakTheCap`).
  `CapHoldsExactly`: with at most k prunes at work at once every run keeps the cap if and only if k
  is at most one. `CounterIsExact` bounds the excess and `BoundIsReached` shows that the bound is
  always reached.
- The comment on `CheckAndSet` promises that two callers cannot both see a key as new. They can when
  the evictor reads an expired entry, a caller replaces it and the evictor deletes the replacement
  (`SplitLetsTwoWin`). `WinsExclude` holds as long as the evictor deletes no live entry, and
  `DroppingLiveBreaksExclusion` shows that every such delete breaks it. `ExclusiveExactly`: over all
  runs no key is won twice at once if and only if the ttl is not positive.
- A token bucket can admit more than burst + rps * length when its times step back, which concurrent
  callers produce (`BackwardMovementShows`). `ConformsExactlyForward`: every bucket keeps every window
  of a run if and only if the run's times do not step back. `RunConforms` has the allowance that holds
  for any times, and `AnyClockIsSteady` carries the closed form over.
- Evicting rate limit buckets can be seen, for every ttl (`EvictorCanBeSeen`); over all interleavings
  it is unseen if and only if the burst is below one, so that nothing is ever let through
  (`NeverSeenExactly`). If no use falls between the evictor's read and its delete
  and none hits a deleted bucket, it is unseen if and only if ttl * rps >= burst
  (`UnseenExactlyWhenRefilled`). Otherwise deleting a bucket that is not full shows
  (`LossyDeleteShows`, `UseBeforeDeleteShows`), deleting full ones does not
  (`ForgettingNothingIsUnseen`), and a use of a deleted bucket shows (`StaleUseShows`). A use that
  time has refilled before the delete does no harm. `EveryWindow` bounds what all of it can let
  through.
- With `RATE_LIMIT_BUCKET_TTL_SEC` unset, the evictor falls back to 300 seconds but the distributed
  limiter passes a ttl of 0 to EXPIRE, which deletes the key: it then never denies
  (`ZeroTtlNeverDenies`, `ZeroTtlDisagrees`). `ZeroTtlAgreesExactly`: the two limiters then agree if
  and only if the burst is below one. With a positive ttl and a whole burst, expiry is unseen if and
  only if the burst is gained within the ttl and one millisecond (`ExpiryUnseenExactly`).
- A template can compile and mean something else: "/:id>x" (`CompilesWithAnotherMeaning`). The exact
  condition is that its keys are valid group names (`MeaningExactlyWithValidKeys`).
- A parameter can be missing from the result: "/:id/:id" compiles and captures both segments, but the
  map of parameters keeps the last (`RepeatedKeyKeepsLast`). `OwnSegmentsExactly`: every parameter is
  reported with its own segment if and only if no two parameters share a key.
- Which rule answers can depend on the order in which a Go map is ranged over, exactly when
  top-scoring routes that match give different answers (`OrderMattersExactlyOnTies`).
- A `Flush` or a `Write` that races `Close` panics (`FlushRacingCloseCrashes`,
  `WriteRacingCloseCrashes`). `CloseIsSafeExactly` and `PanicsExactlyAtRisk` say from which states;
  `OrderlyCloseCompletes` is the orderly case.

## Model

| member | source | states |
|---|---|---|
| `TokenBuckets.FoundIsLeastSlack` | api/ratelimit/ratelimiter.go:140-171 | For every run at nondecreasing times (for others by `AnyClockIsSteady`), the tokens call n finds are the minimum over k <= n of burst + rps * (t_n - t_k) less the calls admitted among k..n-1 |
| `TokenBuckets.DeniedExactlyOnOverflow` | api/ratelimit/ratelimiter.go:158-171 | A call is denied if and only if admitting it would push some window that ends at it past burst + rps * length |
| `TokenBuckets.AnyClockIsSteady` | api/ratelimit/ratelimiter.go:142-164 | For any times, a run is decided like the run of a clock that stands still instead of stepping back, whose spans are length plus backward movement |
| `TokenBuckets.RunConforms` | api/ratelimit/ratelimiter.go:140-171 | For any times, no window of any run admits more than burst + rps * (length + backward movement), which is burst + rps * length when the times do not step back |
| `TokenBuckets.BackwardMovementShows` | api/ratelimit/ratelimiter.go:142-164 | With rps and burst of one, calls at 1, 0 and 1 are admitted, denied and admitted |
| `TokenBuckets.ConformsExactlyForward` | api/ratelimit/ratelimiter.go:140-171 | For any times: every bucket, whatever its rate and burst, keeps every window within burst + rps * length if and only if the times do not step back |
| `TokenBuckets.AdmitsTheMost` | api/ratelimit/ratelimiter.go:140-171 | No limiter whose answers respect every window has, after any prefix of the run, admitted more calls than the bucket |
| `TokenBuckets.LocalWaitIsTight` | api/ratelimit/ratelimiter.go:163-170 | The wait of a denial in nanoseconds: a call any earlier is denied, any later is admitted, and one after exactly the wait is admitted if and only if the time needed is a whole number of nanoseconds |
| `RateLimiter.Limiter.constructor` | api/ratelimit/ratelimiter.go:258-264 | No buckets; a ttl of zero or less becomes 300 seconds |
| `RateLimiter.Limiter.GetBucket` | api/ratelimit/ratelimiter.go:248-256 | The stored bucket of the key, or a new one created now that is stored; no other key changes |
| `RateLimiter.Limiter.Allow` | api/ratelimit/ratelimiter.go:96-171 | Answer and wait are those of the specification on the key's bucket; the whole new map, no other key changed |
| `RateLimiter.Limiter.Sweep` | api/ratelimit/ratelimiter.go:268-285 | Keeps exactly the buckets whose last use, or creation if unused, is at most ttl ago, unchanged |
| `LimiterTraces.CleanIsUnseen` | api/ratelimit/ratelimiter.go:140-171 | If no deleted bucket of a key is used and each is full when deleted, every answer is that of a bucket that is never deleted |
| `LimiterTraces.WindowsForget` | api/ratelimit/ratelimiter.go:140-171 | Whatever is done to a key, no window lets through more than burst + rps * (length + backward movement) and what was forgotten in it |
| `LimiterTraces.DifferenceShows` | api/ratelimit/ratelimiter.go:140-171 | A key whose bucket finds other tokens than the never-deleted one can be continued until an answer differs |
| `LimiterTraces.UnseenDecides` | api/ratelimit/ratelimiter.go:140-171 | Answers that do not show the evictor are the decisions of a lone bucket called at the same times |
| `BucketProbes.ProbeTellsApart` | api/ratelimit/ratelimiter.go:140-171 | Two buckets that find different tokens answer some calls from then on differently, for every burst of at least one |
| `ConcurrentLimiter.RunKeepsInv` | api/ratelimit/ratelimiter.go:96-287 | In every interleaving of lookups, clock readings, updates and evictor steps, the bucket the map holds for a key is the one its log of updates and deletions leads to |
| `ConcurrentLimiter.EveryWindow` | api/ratelimit/ratelimiter.go:96-287 | In every interleaving no window of a key admits more than burst + rps * (length + backward movement), what deleted buckets lacked, and the calls that deleted buckets admitted |
| `ConcurrentLimiter.ForgettingNothingIsUnseen` | api/ratelimit/ratelimiter.go:268-285 | For any ttl: if every bucket of a key is full when deleted and none is used afterwards, no answer shows the evictor |
| `ConcurrentLimiter.EvictionUnseen` | api/ratelimit/ratelimiter.go:96-287 | If ttl * rps >= burst, no interleaving shows the evictor in which no use falls between its read and its delete of a bucket and none hits a deleted bucket |
| `ConcurrentLimiter.EveryKeyDecides` | api/ratelimit/ratelimiter.go:96-287 | Under the same conditions, whatever other keys do, a key's verdicts are the decisions of a lone bucket called at that key's times |
| `ConcurrentLimiter.LossyDeleteShows` | api/ratelimit/ratelimiter.go:270-283 | For every burst >= 1: from every reachable state with nothing forgotten, deleting a bucket that is not full shows in some continuation |
| `ConcurrentLimiter.UseBeforeDeleteShows` | api/ratelimit/ratelimiter.go:273-283 | For every burst >= 1: a use dated now between the evictor's read and a delete that follows at once shows |
| `ConcurrentLimiter.StaleUseShows` | api/ratelimit/ratelimiter.go:96-101 | For every burst >= 1: a use dated now of a deleted bucket shows, unless that bucket and the never-deleted one both refuse it |
| `ConcurrentLimiter.ShortTtlShows` | api/ratelimit/ratelimiter.go:258-287 | If ttl * rps < burst, an undisturbed interleaving shows the evictor |
| `ConcurrentLimiter.UnseenExactlyWhenRefilled` | api/ratelimit/ratelimiter.go:258-287 | With every step apart, no undisturbed interleaving shows the evictor if and only if ttl * rps >= burst, for a positive rate and a burst of at least one |
| `ConcurrentLimiter.EvictorCanBeSeen` | api/ratelimit/ratelimiter.go:268-285 | For every ttl, every positive rate and every burst of at least one, some interleaving shows the evictor |
| `ConcurrentLimiter.NeverSeenExactly` | api/ratelimit/ratelimiter.go:96-287 | Over all interleavings, disturbed or not, and for any ttl, the evictor is never seen if and only if the burst is below one |
| `RedisBuckets.Server.TokenBucketScript` | db/redis/client.go:255-289 | Verdict, wait and the whole new keyspace, an expired entry counting as absent and a ttl of zero or less deleting the key |
| `RedisBuckets.SameVerdicts` | db/redis/client.go:255-289 | The script and the in-process limiter give the same verdict to every call of every run over any keys, at any times including ones that step backwards, for any rate and burst |
| `RedisBuckets.WaitIsExact` | db/redis/client.go:269-288 | After a denial, with no other call on the key, a call at a whole millisecond is admitted if and only if it comes at now + wait or later |
| `RedisBuckets.ExpiryIsTransparent` | db/redis/client.go:265-287 | If a bucket gains its burst within the ttl and one millisecond, expiry of keys changes no verdict of any run at nondecreasing times |
| `RedisBuckets.ExpiryShows` | db/redis/client.go:286-287 | If it gains so little by then that fewer than its whole tokens are back, some run has a verdict that expiry changes |
| `RedisBuckets.ExpiryUnseenExactly` | db/redis/client.go:286-287 | For a whole burst and a positive ttl, expiry changes no verdict of any run at nondecreasing times if and only if the tokens gained within the ttl and one millisecond reach the burst |
| `RedisBuckets.ZeroTtlNeverDenies` | db/redis/client.go:286-287 | With a ttl of zero or less, and burst at least one, no call of any run is ever denied |
| `RedisBuckets.ZeroTtlDisagrees` | api/ratelimit/ratelimiter.go:86-93 | For every burst of at least one, one call more than its whole tokens at one instant is denied in process and admitted by the script with a ttl of zero or less |
| `RedisBuckets.ZeroTtlAgreesExactly` | api/ratelimit/ratelimiter.go:86-93 | With a ttl of zero or less the two limiters agree on every run if and only if the burst is below one |
| `CircuitBreaker.BreakerEntry.constructor` | http/client/circuitbreaker.go:91 | A new entry is closed with every count at zero |
| `CircuitBreaker.BreakerEntry.Transition` | http/client/circuitbreaker.go:104-117 | The whole new state: counts zeroed, openedAt set only when opening |
| `CircuitBreaker.BreakerEntry.Enter` | http/client/circuitbreaker.go:126-144 | The admission and the new state of the first critical section |
| `CircuitBreaker.BreakerEntry.Leave` | http/client/circuitbreaker.go:148-177 | The new state of the second critical section, for probes and for calls admitted while closed; what it counts is the subject of `CountsAreReports` |
| `CircuitBreaker.RunKeepsInv` | http/client/circuitbreaker.go:104-179 | Every interleaving of calls keeps the invariant on probe counts, phases of running calls and the log of transitions |
| `CircuitBreaker.InFlightIsExact` | http/client/circuitbreaker.go:104-160 | In every interleaving halfOpenInFlight is the probes of the current period still running less the earlier probes that completed in it; the live probes of any period exceed MaxHalfOpenRequests by at most those late completions, and not at all without them |
| `CircuitBreaker.CountsAreReports` | http/client/circuitbreaker.go:104-177 | In every interleaving failures is the number of failed reports of calls that are not probes since the last transition, and successes the number of successful probe reports since it, both counted from the log of reports |
| `CircuitBreaker.ReportsMoveExactly` | http/client/circuitbreaker.go:147-177 | In every interleaving a report moves the breaker exactly when it is a failed probe (to open), a probe whose success brings the successes of the period to SuccessThreshold (to closed), or a failed call that brings its failures to FailureThreshold (to open) |
| `CircuitBreaker.AdmittedExactly` | http/client/circuitbreaker.go:126-144 | In every interleaving a call begins as a probe, begins as an ordinary call, or is rejected, each exactly under its own condition on phase, elapsed time and probes |
| `CircuitBreaker.TransitionsAreTextbookOrLate` | http/client/circuitbreaker.go:104-179 | In every interleaving the transitions form a chain, Open to HalfOpen comes at least OpenTimeout after the opening, and every transition off the textbook diagram is made by a call admitted before the previous transition |
| `CircuitBreaker.InFlightCanBeNegative` | http/client/circuitbreaker.go:109-149 | For every configuration with probes and a success threshold of two or more, a run after which halfOpenInFlight is -1 |
| `CircuitBreaker.CapCanBeOverrun` | http/client/circuitbreaker.go:138-149 | For every such configuration, a run after which one probe more than the cap runs in one period |
| `CircuitBreaker.InRangeExactly` | http/client/circuitbreaker.go:104-160 | Every run keeps halfOpenInFlight between 0 and the cap, and the live probes of every period within it, each if and only if the success threshold is at most one or the cap lets no probe through |
| `CircuitBreaker.SequentialIsTextbook` | http/client/circuitbreaker.go:119-179 | When calls on a host never overlap and both thresholds are at least one, the breaker is the textbook automaton: same phase, same counts, same outcome of every call |
| `BreakerHosts.CounterIsExact` | http/client/circuitbreaker.go:75-198 | With any number of lookups and prunes interleaved, hostCount is the tracked hosts plus reservations plus deletions not yet counted, less the deletes that found nothing; tracked hosts exceed the cap by at most those |
| `BreakerHosts.CapHolds` | http/client/circuitbreaker.go:75-198 | In every run with at most one prune at work at a time hostCount is exact and the tracked hosts never exceed MaxHosts |
| `BreakerHosts.CapHoldsExactly` | http/client/circuitbreaker.go:182-198 | For a positive cap: with at most k prunes at work at once, every run keeps the cap if and only if k is at most one |
| `BreakerHosts.BoundIsReached` | http/client/circuitbreaker.go:75-198 | Every run can be continued, with no further delete that finds nothing, until the tracked hosts exceed the cap by exactly the deletes that found nothing |
| `BreakerHosts.CapBreaksExactlyAfterMiss` | http/client/circuitbreaker.go:75-198 | With no further such delete, a run can go on to exceed the cap if and only if there has been one |
| `BreakerHosts.TwoPrunesBreakTheCap` | http/client/circuitbreaker.go:182-198 | For every cap, a run with never more than two prunes at work after which one host too many is tracked |
| `BreakerHosts.Hosts.constructor` | http/client/circuitbreaker.go:68-73 | MaxHosts of zero becomes 1024; nothing is tracked |
| `BreakerHosts.Hosts.EntryFor` | http/client/circuitbreaker.go:75-102 | Alone, a lookup tracks the host with a new entry unless it is tracked or the cap is reached, keeps the counter exact and changes nothing else |
| `BreakerHosts.Hosts.Prune` | http/client/circuitbreaker.go:182-198 | Alone, a prune removes exactly the hosts whose breaker is closed with no failures, field by field, and keeps the counter exact |
| `Retry.WithDefaults` | http/client/client.go:75-90 | Field by field: a positive setting is kept, any other becomes 3 attempts, 100 ms or 2 s |
| `Retry.Do` | http/client/client.go:104-135 | One attempt on an idle host: ErrOpen or the upstream's own answer, and the breaker after the whole call; which answers count against it is the subject of `FailingUpstream` and `HealthyUpstream` |
| `Retry.DoAttempt` | http/client/retry.go:33-55 | One attempt stops the loop with its reply, calls and waits, or leaves the rest of the specification to the next |
| `Retry.DoWithRetry` | http/client/retry.go:25-58 | The loop ends with the reply, breaker, number of upstream calls and waits of the specification |
| `Retry.DoIsJustified` | http/client/retry.go:23-58 | For every environment, from any attempt on, each ending is reached only for its own reason: ErrOpen only if the breaker, as the earlier attempts left it, refuses; every attempt called was let through, and all but the last were worth retrying and not cancelled; the reply is that of the last call, and calls never exceed MaxAttempts |
| `Retry.WaitsAreBackoffs` | http/client/retry.go:26-55 | The i-th wait is the base delay, then min(base * 2^i, MaxDelay), and there are fewer waits than attempts |
| `Retry.FailingUpstream` | http/client/client.go:114-134 | With f failures on a closed breaker and an upstream that always answers with a transport error or a status of 500 or more, one Do makes exactly min(MaxAttempts, FailureThreshold - f) upstream calls and returns ErrOpen if and only if FailureThreshold - f < MaxAttempts |
| `Retry.HealthyUpstream` | http/client/client.go:119-126 | With statuses below 500 only, whatever is retried, a Do leaves a closed breaker as it was and never returns ErrOpen |
| `Retry.DefaultRetries` | http/client/retry.go:16-21 | By default a status below 500 other than 429 ends the Do with that answer, and an upstream that answers 429 only is called MaxAttempts times |
| `RegexFragment.FindIsExact` | rules/parser.go:119-122 | The search succeeds exactly on the strings that match, and what it captures is a match |
| `RegexFragment.QuotedExactly` | rules/parser.go:298 | Quoting escapes exactly the fourteen special characters and leaves every other one as it is |
| `RouteTemplates.RenderPart` | rules/parser.go:282-298 | The expression text and the key of one part, in each of the four cases |
| `RouteTemplates.TemplateToRegex` | rules/parser.go:272-301 | The text and the keys are those of the template's segments, in order; what those are is the subject of `SegmentsAreWritten` |
| `RouteTemplates.SegmentsAreWritten` | rules/parser.go:272-299 | For every template text "/" + parts, with or without a trailing slash and a query: part i stands for the parameter k if it is written ":k" or "{k}", for the wildcard if it is "*", and otherwise for itself |
| `RouteTemplates.CompilesAsSegments` | rules/parser.go:180-186 | The text compiles to the expression its segments stand for if and only if its keys are valid group names |
| `RouteTemplates.MatchesByValues` | rules/parser.go:272-301 | For every template, wildcards included, the expression matches a path with some captures if and only if the path is made of one fitting value per segment and the captures are the values of the parameters |
| `RouteTemplates.MatchesSegmentwise` | rules/parser.go:272-301 | Without wildcards, the expression matches a path that starts with a slash if and only if path and template have equally many segments, literals are equal and parameters non-empty, and each parameter captures its segment |
| `RouteTemplates.TemplateMeaning` | rules/parser.go:180-195 | From the template text on: with valid keys it compiles, and searching a path yields exactly the parameter segments or nothing |
| `RouteTemplates.MeaningExactlyWithValidKeys` | rules/parser.go:180-195 | A template without wildcards compiles to an expression with the meaning of its segments on all paths if and only if its keys are valid group names |
| `RouteTemplates.CompilesWithAnotherMeaning` | rules/parser.go:287-290 | "/:id>x" compiles but does not match "/5", which its one parameter segment should |
| `RouteTable.SpecificityScore` | rules/parser.go:197-208 | The two counters of the loop compute the score that `ScoreIsCounted` is about |
| `RouteTable.ScoreIsCounted` | rules/parser.go:197-208 | Of "/" + parts the score is ten times the number of parts that are not empty and not wild, less the number of wild ones (":...", "{...}" or "*") |
| `RouteTable.ParsePatterns` | rules/parser.go:178-212 | The compiled patterns sorted by falling score, or the first template that does not compile |
| `RouteTable.PatternsAreMarked` | rules/parser.go:180-181 | A template is loaded as a pattern if and only if it holds a colon, an opening brace or a star |
| `RouteTable.GetRule` | rules/parser.go:105-137 | Nothing for an empty key, an empty method or before loading; an exact rule first; otherwise the first pattern that matches and has the method, none before it doing so; nothing if and only if none does |
| `RouteTable.MostSpecificRouteWins` | rules/parser.go:105-212 | For every loading order: a pattern answers if and only if some configured route matches and has the method, and then one whose score no such route exceeds |
| `RouteTable.MostLiteralsWin` | rules/parser.go:197-212 | Of routes with equally many non-empty parts that answer a request, one that wins for some loading order has at least as many literal parts as any other |
| `RouteTable.OrderMattersExactlyOnTies` | rules/parser.go:178-212 | The answer from the patterns is the same for every loading order if and only if all top-scoring routes that answer give the same answer |
| `RouteTable.ScanPatterns` | rules/parser.go:118-126 | The loop finds the first pattern that matches and has the method |
| `RouteTable.ParamsAreLastSegments` | rules/parser.go:127-134 | For every template the parameter map has exactly its keys, each with the text of the last segment of that key |
| `RouteTable.OwnSegmentsExactly` | rules/parser.go:127-134 | For every template: each parameter is reported with its own segment, whatever values fit, if and only if no two parameters share a key |
| `RouteTable.RepeatedKeyKeepsLast` | rules/parser.go:127-134 | "/:id/:id" compiles, captures both segments of "/1/2", and reports only the second |
| `RouteTable.RouteMeaning` | rules/parser.go:105-137 | For any request key, a route without wildcards and with valid keys answers if and only if the normalized path fits its segments and it has the method; then the rule is the route's own for that method, and it reports exactly its keys, each with its last segment, and with distinct keys every parameter with its own |
| `RouteTable.TextRouteMeaning` | rules/parser.go:105-195 | From the texts alone: a route "/" + parts with ":k" and "{k}" parts answers the path "/" + values of plain segments if and only if it has the method, there are equally many of both, literals are equal and parameters not empty; then the rule is the route's own for the method and the last segment of each key is reported |
| `RouteTable.MeaningExactlyOfWords` | rules/parser.go:180-195 | From the text alone: a template without wildcards compiles to an expression with its meaning if and only if every key is made of letters, digits and underscores |
| `RouteTable.NormalizedStartsWithSlash` | rules/parser.go:303-331 | Every normalized key starts with a slash |
| `RouteTable.NormalizeMeaning` | rules/parser.go:303-331 | For a path of plain parts: blanks around it, a missing leading slash, one trailing slash, the query and a leading version segment make no difference |
| `Idempotency.WinsExclude` | api/idempotency/idempotency.go:15-73 | In every interleaving of callers and evictor in which the evictor deletes no live entry, once a key is won with expiry e nobody wins it again before the clock reaches e |
| `Idempotency.LiveWasReplaced` | api/idempotency/idempotency.go:22-27 | A live entry the evictor is about to delete has replaced the one it read |
| `Idempotency.DroppingLiveBreaksExclusion` | api/idempotency/idempotency.go:22-27 | From every reachable state in which the evictor is about to delete a live entry, the next caller wins while an earlier win is unexpired |
| `Idempotency.SplitLetsTwoWin` | api/idempotency/idempotency.go:22-27 | For every positive ttl, a run in which two callers win the same key at the same second |
| `Idempotency.ExclusiveExactly` | api/idempotency/idempotency.go:15-73 | Over all runs, no key is won while an earlier win of it is unexpired if and only if the ttl is not positive |
| `Idempotency.UncontendedCallDecides` | api/idempotency/idempotency.go:154-157 | A caller nobody disturbs wins if and only if there is no live entry, and is refused otherwise |
| `Idempotency.RefusedOnlyIfLive` | api/idempotency/idempotency.go:58-68 | In every interleaving a caller is refused only if it read an entry of its key that somebody had won and that had not expired at its own reading of the clock |
| `Idempotency.EveryCallIsAnswered` | api/idempotency/idempotency.go:58-73 | In every interleaving the calls made are those that have won, those that were refused and those still under way |
| `Idempotency.UnrefusedCallWins` | api/idempotency/idempotency.go:58-73 | From every state, a caller that has not read a live entry and whose key has none wins after at most five further steps of its own, wherever it has got to |
| `Idempotency.RacersWinOnce` | api/idempotency/idempotency.go:68-71 | For every positive ttl: of two callers that read the same expired entry, the first to swap wins, and the other loops and is refused |
| `Idempotency.LocalCache.LoadOrStoreValue` | api/idempotency/idempotency.go:61-64 | The stored value or the new one, and the new map |
| `Idempotency.LocalCache.CompareAndSwapValue` | api/idempotency/idempotency.go:68-70 | Swaps if and only if the expected value is stored |
| `Idempotency.LocalCache.StoreIfAbsent` | api/idempotency/idempotency.go:58-73 | Alone, the loop wins if and only if there is no live entry, and ends |
| `Idempotency.LocalCache.Evict` | api/idempotency/idempotency.go:20-28 | A pass keeps exactly the live entries |
| `StableSort.SortIsStable` | aws/cloudwatch/logs/client.go:112-114 | Sorting orders by key, is a permutation, and keeps the order of equal keys |
| `LogBatches.PartitionLogEvents` | aws/cloudwatch/logs/client.go:188-207 | The loop computes the greedy partition |
| `LogBatches.PartitionIsShortestSplit` | aws/cloudwatch/logs/client.go:188-207 | For every event list the batches concatenate to it, each is non-empty, within 10000 events and within the byte limit unless it is a single event, and no other such split has fewer batches |
| `LogBatches.FitsInNumbers` | aws/cloudwatch/logs/client.go:188-207 | The limits of a batch in numbers: 1 to 10000 events, and at most 1048576 bytes of messages and 26 more for each unless it is a single event |
| `LogBatches.PutLogEvents` | aws/cloudwatch/logs/client.go:105-136 | The batches hold a permutation of the events in ascending time order, ties in the order given, a given time kept and a missing one filled in, and are the fewest possible; the calls that succeed are a prefix of them, all of them when it returns no error, and otherwise up to the call that fails |
| `ParallelRunner.BoundedParallelism` | aws/dynamodb/operations.go:94-106 | In every interleaving at most maxParallel functions run at once and none is run twice |
| `ParallelRunner.ParallelismIsReached` | aws/dynamodb/operations.go:94-106 | For every k up to maxParallel and the number of functions, a run in which k functions run at once |
| `ParallelRunner.ReturnIsDeterministic` | aws/dynamodb/operations.go:107-115 | Once runParallel has returned, every index has run exactly once, the error is that of the lowest failing index, and every result slot holds its own result |
| `ParallelRunner.SomebodyCanStep` | aws/dynamodb/operations.go:98-107 | No deadlock: until it has returned, some step is possible |
| `ParallelRunner.EveryRunReturns` | aws/dynamodb/operations.go:89-115 | No run takes more than 5n + 1 steps, and one that has not returned can go on |
| `ParallelRunner.ScanFindsLowest` | aws/dynamodb/operations.go:109-114 | The final scan finds the error of the lowest failing index |
| `DynamoBatches.Chunks` | aws/dynamodb/operations.go:80-87 | Chunks concatenate to the items, are all full but the last, which is not empty, and number ceil(n / 25) |
| `DynamoBatches.RetryUnprocessed` | aws/dynamodb/operations.go:122-144 | At most five retries, waits 50 ms * 2^i; no error if and only if nothing is left, a failed call or a context that is done ends it at once with its own error and nothing else does before the sixth call |
| `DynamoBatches.NothingLost` | aws/dynamodb/operations.go:122-170 | After any number of calls, handled plus unprocessed is the batch as multisets |
| `DynamoBatches.SendBatch` | aws/dynamodb/operations.go:244-263 | At most six calls; handled plus left is the batch; no error if and only if nothing is left, and then everything was handled exactly once; it ends at the first call that fails, the first retry at which the context is done, or the sixth call |
| `DynamoBatches.WriteBatch` | aws/dynamodb/operations.go:244-263 | The function runParallel runs: written plus left is the batch, success if and only if nothing is left, and each error only for its own reason |
| `DynamoBatches.AlwaysTheLowest` | aws/dynamodb/operations.go:89-115 | In every interleaving of the batches, what runParallel returns is the error of the lowest failing batch |
| `DynamoBatches.BatchWriteItems` | aws/dynamodb/operations.go:233-264 | Over all batches, written plus left is the items, each batch takes at most six calls, the error is that of the lowest batch that leaves something, in every interleaving, and there is no error if and only if nothing is left, every item written exactly once |
| `DynamoBatches.ItemsAreFound` | aws/dynamodb/operations.go:146-170 | After any number of calls the items collected are the stored ones of the keys handled |
| `DynamoBatches.FoundInAnyOrder` | aws/dynamodb/operations.go:172-214 | Which items are found does not depend on the order in which keys were handled |
| `DynamoBatches.GetBatch` | aws/dynamodb/operations.go:184-204 | Success if and only if nothing is left, and then exactly the stored items of the batch's keys; each error only for its own reason |
| `DynamoBatches.BatchGetItems` | aws/dynamodb/operations.go:172-214 | In every interleaving of the batches the error is the same, there is none if and only if nothing is left, and then the result slots concatenate in batch order to the same items, exactly the stored ones of the keys; with one, nothing is returned |
| `AsyncWriter.NothingLostOrReordered` | logging/runtime/writer.go:54-90 | At every step of every run, dst plus the line in hand plus the queue is all accepted lines in send order |
| `AsyncWriter.FlushDelivers` | logging/runtime/writer.go:92-99 | When a Flush returns, every line accepted before it began is in dst |
| `AsyncWriter.CloseDelivers` | logging/runtime/writer.go:101-106 | When Close has returned, every accepted line is in dst |
| `AsyncWriter.WriteIsAccepted` | logging/runtime/writer.go:54-60 | In every interleaving a Write that began is still sending its line, or its line has been accepted |
| `AsyncWriter.EveryCallReturns` | logging/runtime/writer.go:54-106 | From every reachable state, while no further Write or Flush begins, only so many steps can be taken as a count of the work under way allows, and until the writer panics or nothing is under way and everything is in dst, one can be taken |
| `AsyncWriter.BacklogIsWorkedOff` | logging/runtime/writer.go:62-106 | Closed in good order, each consumer step shortens the backlog by one and no other step changes it |
| `AsyncWriter.OrderlyCloseCompletes` | logging/runtime/writer.go:62-106 | Closed with no Write or Flush running or starting, the writer never panics; the consumer takes at most the backlog's steps, has exited exactly when it has taken them, and can take one until then; Close can then return with everything in dst |
| `AsyncWriter.PanicsExactlyAtRisk` | logging/runtime/writer.go:54-106 | From every reachable closed state, without a new call, some continuation panics if and only if a Write is under way, or the consumer has not exited and a Flush waits or is being served |
| `AsyncWriter.CallsAfterClose` | logging/runtime/writer.go:54-99 | A Write that begins after Close creates that risk, and a Flush does if and only if the consumer has not exited |
| `AsyncWriter.CloseIsSafeExactly` | logging/runtime/writer.go:101-106 | From every reachable open state, calling Close lets the writer panic without a further call if and only if a Write is under way or a Flush waits or is being served |
| `AsyncWriter.CaughtStaysCaught` | logging/runtime/writer.go:54-90 | A Write or drain that Close has caught is never released: every step leaves it there or is the panic |
| `AsyncWriter.FlushRacingCloseCrashes` | logging/runtime/writer.go:80-90 | For every queue size, a run in which drain receives from the closed, empty channel |
| `AsyncWriter.WriteRacingCloseCrashes` | logging/runtime/writer.go:54-60 | For every queue size, a run in which Write sends on the closed channel |
| `AsyncWriter.Output.Drain` | logging/runtime/writer.go:80-90 | Undisturbed, drain appends the whole queue to dst in order |
| `TokenSource.UntilRefresh` | http/client/serviceauth.go:140-147 | A token is due after exactly 85% of its lifetime in nanoseconds, or of 300 seconds if the response gives none |
| `TokenSource.FetchesNeverOverlap` | http/client/serviceauth.go:87-96 | In every interleaving at most one fetch is under way |
| `TokenSource.FetchesAreSpaced` | http/client/serviceauth.go:79-148 | In every interleaving no fetch starts between a successful fetch and the refreshAt it set, which lies before the token expires |
| `TokenSource.AnswersAreSound` | http/client/serviceauth.go:79-101 | Every token returned was stored by a successful fetch; it came from the cache before its refreshAt, or from a flight the caller led or joined that ended during the call; no token is returned only if the fetch of that flight failed |
| `TokenSource.NeverReturnedExpired` | http/client/serviceauth.go:79-101 | In every interleaving a token from the cache is returned before it expires |
| `TokenSource.CallAdvances` | http/client/serviceauth.go:79-151 | Every step of a call ends it or takes it one stage or more further, and no other step touches it, so a call has at most seven steps |
| `TokenSource.NobodyWaitsInVain` | http/client/serviceauth.go:87-101 | In every interleaving a call that cannot go on has joined a flight whose leader can |
| `TokenSource.UsableTokenIsReturned` | http/client/serviceauth.go:80-85 | A caller that reads a usable token returns it; no flight and no fetch starts |
| `TokenSource.StaleTokenIsRefreshed` | http/client/serviceauth.go:87-151 | A caller that finds no usable token and no flight fetches once, stores and returns the new token, and the flight is over |
| `TokenSource.TokenCache.constructor` | http/client/serviceauth.go:74 | Nothing is cached |
| `TokenSource.TokenCache.Lookup` | http/client/serviceauth.go:89-94 | The cached token if and only if there is one and it is not due |
| `TokenSource.TokenCache.Store` | http/client/serviceauth.go:140-148 | The token is cached, due after 85% of its lifetime, and usable at once |
| `Text.SplitOfJoin` | security/hashing/hashing.go:103 | Splitting what was joined gives back any parts that lack the separator |
| `Text.JoinOfSplit` | rules/parser.go:276 | Joining what was split gives the string back |
| `Base64.DecodeOfEncode` | security/hashing/hashing.go:82-132 | Unpadded base64 (section 4 of RFC 4648) decodes to the encoded bytes, and holds no dollar sign |
| `Base64.KnownEncodings` | security/hashing/hashing.go:82-83 | The seven vectors of section 10 of RFC 4648, without padding |
| `Base64.PlusAndSlash` | security/hashing/hashing.go:82-83 | A vector that reaches the last two characters of the alphabet |
| `Base64.DecodesExactly` | security/hashing/hashing.go:126-132 | A string decodes if and only if, line breaks apart, it has only characters of the alphabet and not one more than a multiple of four; three bytes for every four characters |
| `Base64.LineBreaksAreSkipped` | security/hashing/hashing.go:126-132 | A line break anywhere makes no difference |
| `HashEncoding.New` | security/hashing/hashing.go:38-70 | A zero field becomes its default and any other is kept; each error exactly or only for its own reason, and what is accepted satisfies every bound |
| `HashEncoding.DefaultConfig` | security/hashing/hashing.go:15-53 | A config left at zero becomes 64 MiB, 3 passes, 2 lanes, a 16-byte salt and a 32-byte key |
| `HashEncoding.PrintFormat` | security/hashing/hashing.go:78-84 | The printed string, spelled out down to the parameter field |
| `HashEncoding.DecodeOfPrint` | security/hashing/hashing.go:78-140 | Parsing a printed hash gives back parameters, salt and key |
| `HashEncoding.DecodeOfLoose` | security/hashing/hashing.go:102-140 | Blanks before a number, a plus sign before the version, and anything but a digit after a field's last number make no difference |
| `HashEncoding.OtherVersionsRefused` | security/hashing/hashing.go:112-118 | A printed hash of any version but 19 is refused as an unsupported version |
| `HashEncoding.ErrorsAreJustified` | security/hashing/hashing.go:102-140 | Each error of the parser is given only for its own reason |
| `HashEncoding.RoundTrip` | security/hashing/hashing.go:38-140 | For every config that New accepts and every salt and key of its lengths, the printed string decodes to the same memory, time, parallelism, salt and key |
| `HashEncoding.DecodeIsSound` | security/hashing/hashing.go:102-140 | Whatever the input, what decodes has six fields, the right algorithm, parameters within Argon2's bounds, and a salt and a key that are not empty |
| `HashEncoding.VerifyOfHash` | security/hashing/hashing.go:72-94 | A hash verifies against exactly the plaintexts that derive the same key from its salt, its own among them |

## Left out

- Rounding of floating-point token counts and lifetimes, the number formatting of the script's `tostring`, and overflow of integers and durations.
- The rate limiter's `GetUsage`, `Reset`, fail-open decision and a `LoadConfig` in the middle of a run; parsing of the environment; the check of the script's result in `AllowDistributed`.
- RateLimiter.Limiter.Sweep: a pass nobody disturbs; `ConcurrentLimiter` has the evictor's read and delete of a bucket as steps of their own.
- ConcurrentLimiter.StaleUseShows: for uses dated now; one dated earlier shows if it leaves the key's bucket and the never-deleted one with different tokens, which time may undo.
- BreakerHosts.CapHolds: MaxHosts is positive; a negative value switches the counting off and there is nothing to keep.
- CircuitBreaker.InFlightIsExact: the breaker's theorems are about one entry. Prune may remove a closed entry without failures while calls run on it; what they report then counts on an entry that no lookup finds.
- Hosts past the cap bypass the breaker (http/client/circuitbreaker.go:121-124), as does a client without one; the retry model always has an entry. `OnStateChange` callbacks have no effect on the state.
- A transport error that itself wraps `ErrOpen`, and bodies that are closed between attempts.
- RegexFragment.FindIsExact: patterns outside the fragment do not compile in the model although Go may accept some of them (a key such as "a>(x|y)(?P<b"); what FindStringSubmatch prefers among several matches is modelled by trying the longest text first, and no theorem about captures relies on it except for templates that have only one match.
- The blanks that Sscanf skips are spaces and tabs; its treatment of line breaks is not modelled.
- RouteTable.NormalizeMeaning: only for paths of plain parts; `normalizePath` is not idempotent ("/v1/v2/x") and nothing of the kind is claimed.
- YAML decoding, `validateAndNormalizeConfig` and `prepareFieldSpecs`; rules are opaque values.
- The distributed idempotency cache, `Check`, `Set`, `Store` and `Delete`: the guarantee is that of `CheckAndSet` over the local cache.
- Per-table maps of DynamoDB requests: a request is for one table, as in every call of the source. `batchDeleteItems` has the shape of `batchWriteItems`. The shortcut of `runParallel` for a single batch returns what the general case does.
- DynamoBatches.BatchWriteItems: computes the batches' outcomes in order; its contract quantifies over the interleavings of `ParallelRunner` with those outcomes.
- LogBatches.PutLogEvents: the checks of the group and stream names are omitted; messages are byte strings.
- The buffer pool, write errors of dst, `fanout` and the delivery of `httpSink`, which drops lines by design.
- Singleflight panics, the cancellation of a leader's context as anything but a failed fetch, and the HTTP exchange of `fetch`.
- JWT, AES-GCM and Argon2 themselves, the JWKS and readiness caches, the HTTP middlewares, and all AWS, GCP, SQL and OpenSearch clients: I/O around code that is not here.
