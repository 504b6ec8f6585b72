/**
 The service token cache of http/client: a read of the cached token, and behind it a
 singleflight group in which one leader re-reads the cache and fetches when it is stale,
 while the other callers join its flight. Every section under the lock, every reading of the
 clock and every singleflight operation is a step of its own. Times are nanoseconds of a
 clock that does not step back. The token endpoint answers in any way at any time.
 */
module TokenSource {
  import opened Options

  const SecondNs := 1_000_000_000
  const DefaultTokenTtl := 300 * SecondNs

  /** The part of a token's lifetime after which it is refreshed: 85%. */
  function UntilRefresh(expiresIn: int): (life: int)
    ensures var seconds := if expiresIn > 0 then expiresIn else 300;
            life == seconds * 850_000_000
  {
    var ttl := if expiresIn > 0 then expiresIn * SecondNs else DefaultTokenTtl;
    ttl - ttl * 15 / 100
  }

  /** The cached token and the time from which it is refreshed. */
  datatype Cached = Cached(token: Option<string>, refreshAt: int)

  predicate Usable(c: Cached, now: int) {
    c.token.Some? && now < c.refreshAt
  }

  /** Where a running Token call has got to; `began` is when it was called. */
  datatype Caller =
    | Read(began: int, seen: Cached)                // has read the cache
    | Stale(began: int)                             // about to enter the singleflight
    | Leading(began: int, flight: nat)              // inside the flight, about to re-read
    | Rereading(began: int, flight: nat, seen: Cached)
    | Fetching(began: int, flight: nat)
    | Fetched(began: int, flight: nat, token: string)
    | Joined(began: int, flight: nat)

  predicate Leads(c: Caller) {
    c.Leading? || c.Rereading? || c.Fetching? || c.Fetched?
  }

  /** A flight that is over. None is an error. */
  datatype Landing = Landing(token: Option<string>, at: int)

  datatype Event = Started(at: int) | Stored(token: string, at: int, refreshAt: int, expiresIn: int)

  /** When a stored token expires; five minutes after the store if the response does not say. */
  function ExpiresAt(e: Event): int
    requires e.Stored?
  {
    e.at + (if e.expiresIn > 0 then e.expiresIn else 300) * 1_000_000_000
  }

  datatype Via = FromCache(refreshAt: int) | FromFlight(flight: nat)

  datatype Return = Return(id: int, token: Option<string>, began: int, at: int, via: Via)

  /**
   `log` holds every fetch that started and every token that was stored, in order; `failed` the
   flights whose fetch failed.
   */
  datatype Source = Source(
    clock: int, cached: Cached, callers: map<int, Caller>, active: Option<nat>, flights: nat,
    landings: map<nat, Landing>, log: seq<Event>, answers: seq<Return>, failed: set<nat>)

  const NewSource := Source(0, Cached(None, 0), map[], None, 0, map[], [], [], {})

  datatype Action =
    | Tick(to: int)
    | ReadCache(id: int)
    | CheckClock(id: int)
    | EnterFlight(id: int)
    | Reread(id: int)
    | Recheck(id: int)
    | FetchFails(id: int)
    | FetchStores(id: int, token: string, expiresIn: int)
    | Land(id: int)
    | Leave(id: int)

  predicate Enabled(s: Source, a: Action) {
    match a
    case Tick(to) => s.clock <= to
    case ReadCache(id) => id !in s.callers
    case CheckClock(id) => id in s.callers && s.callers[id].Read?
    case EnterFlight(id) => id in s.callers && s.callers[id].Stale?
    case Reread(id) => id in s.callers && s.callers[id].Leading?
    case Recheck(id) => id in s.callers && s.callers[id].Rereading?
    case FetchFails(id) => id in s.callers && s.callers[id].Fetching?
    case FetchStores(id, token, _) => id in s.callers && s.callers[id].Fetching? && token != ""
    case Land(id) => id in s.callers && s.callers[id].Fetched?
    case Leave(id) => id in s.callers && s.callers[id].Joined? && s.callers[id].flight in s.landings
  }

  function Returns(s: Source, id: int, token: Option<string>, via: Via): Source
    requires id in s.callers
  {
    s.(callers := s.callers - {id}, answers := s.answers + [Return(id, token, s.callers[id].began, s.clock, via)])
  }

  /** The leader's flight is over: the group forgets it, and the leader returns its result. */
  function Lands(s: Source, id: int, token: Option<string>): Source
    requires id in s.callers && Leads(s.callers[id])
  {
    var f := s.callers[id].flight;
    Returns(s.(active := None, landings := s.landings[f := Landing(token, s.clock)]), id, token, FromFlight(f))
  }

  /** One atomic step; an action that cannot happen leaves everything as it is. */
  function Step(s: Source, a: Action): Source {
    if !Enabled(s, a) then s
    else match a
      case Tick(to) => s.(clock := to)
      case ReadCache(id) => s.(callers := s.callers[id := Read(s.clock, s.cached)])
      case CheckClock(id) =>
        var c := s.callers[id];
        if Usable(c.seen, s.clock) then Returns(s, id, c.seen.token, FromCache(c.seen.refreshAt))
        else s.(callers := s.callers[id := Stale(c.began)])
      case EnterFlight(id) =>
        var c := s.callers[id];
        if s.active.Some? then s.(callers := s.callers[id := Joined(c.began, s.active.value)])
        else s.(callers := s.callers[id := Leading(c.began, s.flights)], active := Some(s.flights), flights := s.flights + 1)
      case Reread(id) =>
        var c := s.callers[id];
        s.(callers := s.callers[id := Rereading(c.began, c.flight, s.cached)])
      case Recheck(id) =>
        var c := s.callers[id];
        if Usable(c.seen, s.clock) then Lands(s, id, c.seen.token)
        else s.(callers := s.callers[id := Fetching(c.began, c.flight)], log := s.log + [Started(s.clock)])
      case FetchFails(id) => Lands(s.(failed := s.failed + {s.callers[id].flight}), id, None)
      case FetchStores(id, token, expiresIn) =>
        var c := s.callers[id];
        var refreshAt := s.clock + UntilRefresh(expiresIn);
        s.(callers := s.callers[id := Fetched(c.began, c.flight, token)], cached := Cached(Some(token), refreshAt),
           log := s.log + [Stored(token, s.clock, refreshAt, expiresIn)])
      case Land(id) => Lands(s, id, Some(s.callers[id].token))
      case Leave(id) =>
        var f := s.callers[id].flight;
        Returns(s, id, s.landings[f].token, FromFlight(f))
  }

  function Run(actions: seq<Action>): Source {
    if actions == [] then NewSource
    else Step(Run(actions[..|actions| - 1]), actions[|actions| - 1])
  }

  // --------------------------------------------------------------- what every run keeps

  /** There is a leader exactly while a flight is active, it is the only one, and joiners wait for real flights. */
  ghost predicate OneLeader(s: Source) {
    && (forall id :: id in s.callers && Leads(s.callers[id]) ==> s.active == Some(s.callers[id].flight))
    && (forall id, id' :: id in s.callers && id' in s.callers && Leads(s.callers[id]) && Leads(s.callers[id']) ==> id == id')
    && (s.active.Some? ==> s.active.value < s.flights && s.active.value !in s.landings)
    && (forall f :: f in s.landings ==> f < s.flights)
    && (forall id :: id in s.callers && s.callers[id].Joined? ==>
          s.active == Some(s.callers[id].flight) || s.callers[id].flight in s.landings)
  }

  /** What the leader re-read is still what is cached. */
  ghost predicate LeaderSeesCache(s: Source) {
    forall id :: id in s.callers && s.callers[id].Rereading? ==> s.callers[id].seen == s.cached
  }

  predicate FetchRunning(s: Source) {
    exists id :: id in s.callers && s.callers[id].Fetching?
  }

  /** Every stored token is due for refresh, or is covered by the one that is cached now. */
  ghost predicate StoredCovered(s: Source) {
    && (forall n :: 0 <= n < |s.log| && s.log[n].Stored? ==>
          s.log[n].refreshAt <= s.clock || (s.cached.token.Some? && s.log[n].refreshAt <= s.cached.refreshAt))
    && (FetchRunning(s) ==> forall n :: 0 <= n < |s.log| && s.log[n].Stored? ==> s.log[n].refreshAt <= s.clock)
  }

  /** No fetch starts before an earlier stored token is due. */
  predicate NotTooSoon(earlier: Event, later: Event) {
    earlier.Stored? && later.Started? ==> earlier.refreshAt <= later.at
  }

  ghost predicate LogSpaced(s: Source) {
    forall m, n :: 0 <= m < n < |s.log| ==> NotTooSoon(s.log[m], s.log[n])
  }

  ghost predicate Inv(s: Source) {
    OneLeader(s) && LeaderSeesCache(s) && StoredCovered(s) && LogSpaced(s)
  }

  lemma StepKeepsLeader(s: Source, a: Action)
    requires Inv(s)
    ensures OneLeader(Step(s, a))
  {
    hide LeaderSeesCache, StoredCovered, LogSpaced, Usable, UntilRefresh;
  }

  lemma StepKeepsSpaced(s: Source, a: Action)
    requires Inv(s)
    ensures LeaderSeesCache(Step(s, a)) && LogSpaced(Step(s, a))
  {
    hide UntilRefresh;
  }

  lemma StepKeepsCover(s: Source, a: Action)
    requires Inv(s)
    ensures StoredCovered(Step(s, a))
  {
    hide LogSpaced;
  }

  lemma {:induction false} RunKeepsInv(actions: seq<Action>)
    ensures Inv(Run(actions))
  {
    if actions != [] {
      RunKeepsInv(actions[..|actions| - 1]);
      var s, a := Run(actions[..|actions| - 1]), actions[|actions| - 1];
      StepKeepsLeader(s, a);
      StepKeepsSpaced(s, a);
      StepKeepsCover(s, a);
    }
  }

  /** In every interleaving at most one fetch is under way. */
  lemma {:induction false} FetchesNeverOverlap(actions: seq<Action>, id: int, id': int)
    requires var c := Run(actions).callers;
             id in c && id' in c && c[id].Fetching? && c[id'].Fetching?
    ensures id == id'
  {
    hide Run;
    RunKeepsInv(actions);
  }

  /** In every interleaving no fetch starts between a successful fetch and the refreshAt it set. */
  lemma {:induction false} FetchesAreSpaced(actions: seq<Action>, m: nat, n: nat)
    requires m < n < |Run(actions).log| && Run(actions).log[m].Stored? && Run(actions).log[n].Started?
    ensures Run(actions).log[n].at >= Run(actions).log[m].refreshAt > Run(actions).log[m].at
    ensures Run(actions).log[m].refreshAt < ExpiresAt(Run(actions).log[m])
  {
    var s := Run(actions);
    hide Run;
    RunKeepsInv(actions);
    assert NotTooSoon(s.log[m], s.log[n]);
    StoredAhead(actions, m);
  }

  lemma {:induction false} StoredAhead(actions: seq<Action>, n: nat)
    requires n < |Run(actions).log| && Run(actions).log[n].Stored?
    ensures Run(actions).log[n].at < Run(actions).log[n].refreshAt < ExpiresAt(Run(actions).log[n])
  {
    if actions != [] {
      var s := Run(actions[..|actions| - 1]);
      if n < |s.log| {
        StoredAhead(actions[..|actions| - 1], n);
      }
    }
  }

  // ------------------------------------------------------------------- what callers get

  predicate IsStored(e: Event, token: string) {
    e.Stored? && e.token == token
  }

  /** The token was obtained by some successful fetch. */
  ghost predicate WasStored(log: seq<Event>, token: string) {
    exists n :: 0 <= n < |log| && IsStored(log[n], token)
  }

  /** The token was stored with that refreshAt. */
  ghost predicate WasCached(log: seq<Event>, c: Cached) {
    c.token.Some? ==> exists n :: 0 <= n < |log| && IsStored(log[n], c.token.value) && log[n].refreshAt == c.refreshAt
  }

  lemma LogGrows(log: seq<Event>, more: seq<Event>, token: string, c: Cached)
    requires log <= more
    ensures WasStored(log, token) ==> WasStored(more, token)
    ensures WasCached(log, c) ==> WasCached(more, c)
  {
    if WasStored(log, token) {
      var n :| 0 <= n < |log| && IsStored(log[n], token);
      assert IsStored(more[n], token);
    }
    if WasCached(log, c) && c.token.Some? {
      var n :| 0 <= n < |log| && IsStored(log[n], c.token.value) && log[n].refreshAt == c.refreshAt;
      assert IsStored(more[n], c.token.value);
    }
  }

  lemma LogHoldsStored(log: seq<Event>, token: string, at: int, refreshAt: int, expiresIn: int)
    ensures var more := log + [Stored(token, at, refreshAt, expiresIn)];
            WasStored(more, token) && WasCached(more, Cached(Some(token), refreshAt))
  {
    assert IsStored((log + [Stored(token, at, refreshAt, expiresIn)])[|log|], token);
  }

  lemma CachedWasStored(log: seq<Event>, c: Cached)
    requires WasCached(log, c) && c.token.Some?
    ensures WasStored(log, c.token.value)
  {
  }

  ghost predicate CallerOk(s: Source, c: Caller) {
    && c.began <= s.clock
    && (c.Read? || c.Rereading? ==> WasCached(s.log, c.seen))
    && (c.Fetched? ==> WasStored(s.log, c.token))
    && (c.Joined? && c.flight in s.landings ==> c.began <= s.landings[c.flight].at)
  }

  ghost predicate LandingOk(s: Source, l: Landing) {
    l.at <= s.clock && (l.token.Some? ==> WasStored(s.log, l.token.value))
  }

  /** What holds of every answer: see AnswersAreSound. */
  ghost predicate AnswerOk(s: Source, r: Return) {
    && r.began <= r.at <= s.clock
    && match r.via
       case FromCache(refreshAt) => r.token.Some? && r.at < refreshAt && WasCached(s.log, Cached(r.token, refreshAt))
       case FromFlight(f) =>
         && f in s.landings && r.token == s.landings[f].token && r.began <= s.landings[f].at <= r.at
         && (r.token.Some? ==> WasStored(s.log, r.token.value))
  }

  ghost predicate Sound(s: Source) {
    && WasCached(s.log, s.cached)
    && (forall id :: id in s.callers ==> CallerOk(s, s.callers[id]))
    && (forall f :: f in s.landings ==> LandingOk(s, s.landings[f]))
    && (forall n :: 0 <= n < |s.answers| ==> AnswerOk(s, s.answers[n]))
  }

  /** Passing time and a growing log spoil nothing. */
  lemma LaterStaysSound(s: Source, clock: int, log: seq<Event>)
    requires Sound(s) && s.clock <= clock && s.log <= log
    ensures Sound(s.(clock := clock, log := log))
  {
    hide WasStored, WasCached;
    var r := s.(clock := clock, log := log);
    LogGrows(s.log, log, "", s.cached);
    forall id | id in r.callers
      ensures CallerOk(r, r.callers[id])
    {
      var c := r.callers[id];
      assert CallerOk(s, c);
      LogGrows(s.log, log, if c.Fetched? then c.token else "", if c.Read? || c.Rereading? then c.seen else s.cached);
    }
    forall f | f in r.landings
      ensures LandingOk(r, r.landings[f])
    {
      assert LandingOk(s, r.landings[f]);
      LogGrows(s.log, log, if r.landings[f].token.Some? then r.landings[f].token.value else "", s.cached);
    }
    forall n | 0 <= n < |r.answers|
      ensures AnswerOk(r, r.answers[n])
    {
      var a := r.answers[n];
      assert AnswerOk(s, a);
      LogGrows(s.log, log, if a.token.Some? then a.token.value else "",
               if a.via.FromCache? then Cached(a.token, a.via.refreshAt) else s.cached);
    }
  }

  lemma ReturnStaysSound(s: Source, id: int, token: Option<string>, via: Via)
    requires Sound(s) && id in s.callers
    requires AnswerOk(s, Return(id, token, s.callers[id].began, s.clock, via))
    ensures Sound(Returns(s, id, token, via))
  {
    hide WasStored, WasCached;
  }

  lemma LandStaysSound(s: Source, id: int, token: Option<string>)
    requires Inv(s) && Sound(s) && id in s.callers && Leads(s.callers[id])
    requires token.Some? ==> WasStored(s.log, token.value)
    ensures Sound(Lands(s, id, token))
  {
    hide WasStored, WasCached;
    var f := s.callers[id].flight;
    var mid := s.(active := None, landings := s.landings[f := Landing(token, s.clock)]);
    assert CallerOk(s, s.callers[id]);
    forall n | 0 <= n < |mid.answers|
      ensures AnswerOk(mid, mid.answers[n])
    {
      assert AnswerOk(s, s.answers[n]);
    }
    forall k | k in mid.callers
      ensures CallerOk(mid, mid.callers[k])
    {
      assert CallerOk(s, s.callers[k]);
    }
    ReturnStaysSound(mid, id, token, FromFlight(f));
  }

  lemma CallerStaysSound(s: Source, id: int, c: Caller)
    requires Sound(s) && CallerOk(s, c)
    ensures Sound(s.(callers := s.callers[id := c]))
  {
    hide WasStored, WasCached;
  }

  lemma StoreStaysSound(s: Source, id: int, token: string, refreshAt: int, expiresIn: int)
    requires Sound(s) && id in s.callers && s.callers[id].Fetching?
    ensures var c := s.callers[id];
            Sound(s.(callers := s.callers[id := Fetched(c.began, c.flight, token)], cached := Cached(Some(token), refreshAt),
                     log := s.log + [Stored(token, s.clock, refreshAt, expiresIn)]))
  {
    var c := s.callers[id];
    var log := s.log + [Stored(token, s.clock, refreshAt, expiresIn)];
    LaterStaysSound(s, s.clock, log);
    LogHoldsStored(s.log, token, s.clock, refreshAt, expiresIn);
    hide WasStored, WasCached;
    var r := s.(log := log);
    assert CallerOk(r, c);
    CallerStaysSound(r, id, Fetched(c.began, c.flight, token));
    var q := r.(callers := s.callers[id := Fetched(c.began, c.flight, token)]);
    assert Sound(q);
    var z := q.(cached := Cached(Some(token), refreshAt));
    assert forall k :: k in z.callers ==> CallerOk(q, z.callers[k]);
    assert forall f :: f in z.landings ==> LandingOk(q, z.landings[f]);
    assert forall n :: 0 <= n < |z.answers| ==> AnswerOk(q, z.answers[n]);
  }

  lemma FailedIsAside(s: Source, failed: set<nat>)
    requires Inv(s) && Sound(s)
    ensures Inv(s.(failed := failed)) && Sound(s.(failed := failed))
  {
    hide WasStored, WasCached;
    var r := s.(failed := failed);
    assert forall id :: id in r.callers ==> CallerOk(s, r.callers[id]);
    assert forall f :: f in r.landings ==> LandingOk(s, r.landings[f]);
    assert forall n :: 0 <= n < |r.answers| ==> AnswerOk(s, r.answers[n]);
  }

  lemma StepStaysSound(s: Source, a: Action)
    requires Inv(s) && Sound(s)
    ensures Sound(Step(s, a))
  {
    hide WasStored, WasCached, Sound, AnswerOk, LandingOk;
    if Enabled(s, a) && !a.Tick? && !a.ReadCache? {
      OneCaller(s, a.id);
    }
    if Enabled(s, a) {
      match a
      case Tick(to) => LaterStaysSound(s, to, s.log);
      case ReadCache(id) => ReadStaysSound(s, id);
      case CheckClock(id) =>
        var c := s.callers[id];
        if Usable(c.seen, s.clock) {
          CacheAnswer(s, id);
        } else {
          CallerStaysSound(s, id, Stale(c.began));
        }
      case EnterFlight(id) => EnterStaysSound(s, id);
      case Reread(id) => RereadStaysSound(s, id);
      case Recheck(id) =>
        var c := s.callers[id];
        if Usable(c.seen, s.clock) {
          CachedWasStored(s.log, c.seen);
          LandStaysSound(s, id, c.seen.token);
        } else {
          LaterStaysSound(s, s.clock, s.log + [Started(s.clock)]);
          CallerStaysSound(s.(log := s.log + [Started(s.clock)]), id, Fetching(c.began, c.flight));
        }
      case FetchFails(id) =>
        var failed := s.failed + {s.callers[id].flight};
        FailedIsAside(s, failed);
        LandStaysSound(s.(failed := failed), id, None);
      case FetchStores(id, token, expiresIn) => 
        StoreStaysSound(s, id, token, s.clock + UntilRefresh(expiresIn), expiresIn);
      case Land(id) => LandStaysSound(s, id, Some(s.callers[id].token));
      case Leave(id) => FlightAnswer(s, id);
    }
  }

  lemma OneCaller(s: Source, id: int)
    requires Sound(s) && id in s.callers
    ensures CallerOk(s, s.callers[id])
  {
  }

  lemma ReadStaysSound(s: Source, id: int)
    requires Sound(s)
    ensures Sound(s.(callers := s.callers[id := Read(s.clock, s.cached)]))
  {
    CallerStaysSound(s, id, Read(s.clock, s.cached));
  }

  lemma RereadStaysSound(s: Source, id: int)
    requires Sound(s) && id in s.callers && s.callers[id].Leading?
    ensures var c := s.callers[id]; Sound(s.(callers := s.callers[id := Rereading(c.began, c.flight, s.cached)]))
  {
    var c := s.callers[id];
    assert CallerOk(s, c);
    CallerStaysSound(s, id, Rereading(c.began, c.flight, s.cached));
  }

  lemma EnterStaysSound(s: Source, id: int)
    requires Inv(s) && Sound(s) && Enabled(s, EnterFlight(id))
    ensures Sound(Step(s, EnterFlight(id)))
  {
    var c := s.callers[id];
    assert CallerOk(s, c);
    hide WasStored, WasCached;
    if s.active.Some? {
      CallerStaysSound(s, id, Joined(c.began, s.active.value));
    } else {
      CallerStaysSound(s, id, Leading(c.began, s.flights));
      var q := s.(callers := s.callers[id := Leading(c.began, s.flights)]);
      var z := Step(s, EnterFlight(id));
      assert forall k :: k in z.callers ==> CallerOk(q, z.callers[k]);
      assert forall f :: f in z.landings ==> LandingOk(q, z.landings[f]);
      assert forall n :: 0 <= n < |z.answers| ==> AnswerOk(q, z.answers[n]);
    }
  }

  lemma CacheAnswer(s: Source, id: int)
    requires Sound(s) && id in s.callers && s.callers[id].Read? && Usable(s.callers[id].seen, s.clock)
    ensures var seen := s.callers[id].seen; Sound(Returns(s, id, seen.token, FromCache(seen.refreshAt)))
  {
    hide WasStored, WasCached;
    var c := s.callers[id];
    assert CallerOk(s, c);
    assert c.seen == Cached(c.seen.token, c.seen.refreshAt);
    ReturnStaysSound(s, id, c.seen.token, FromCache(c.seen.refreshAt));
  }

  lemma FlightAnswer(s: Source, id: int)
    requires Sound(s) && Enabled(s, Leave(id))
    ensures var f := s.callers[id].flight; Sound(Returns(s, id, s.landings[f].token, FromFlight(f)))
  {
    hide WasStored, WasCached;
    var c := s.callers[id];
    assert CallerOk(s, c) && LandingOk(s, s.landings[c.flight]);
    ReturnStaysSound(s, id, s.landings[c.flight].token, FromFlight(c.flight));
  }

  lemma {:induction false} RunStaysSound(actions: seq<Action>)
    ensures Sound(Run(actions))
  {
    if actions != [] {
      RunStaysSound(actions[..|actions| - 1]);
      RunKeepsInv(actions[..|actions| - 1]);
      StepStaysSound(Run(actions[..|actions| - 1]), actions[|actions| - 1]);
      hide Sound, Inv, Step;
    }
  }

  /** Only a fetch that failed leaves a flight, or a caller, without a token. */
  ghost predicate FailuresKnown(s: Source) {
    && (forall f :: f in s.landings && s.landings[f].token.None? ==> f in s.failed)
    && (forall n :: 0 <= n < |s.answers| && s.answers[n].token.None? ==>
          s.answers[n].via.FromFlight? && s.answers[n].via.flight in s.failed)
  }

  lemma StepKnowsFailures(s: Source, a: Action)
    requires FailuresKnown(s)
    ensures FailuresKnown(Step(s, a))
  {
    hide UntilRefresh;
    if Enabled(s, a) && (a.Recheck? || a.Land? || a.FetchFails?) {
      hide Enabled, Step;
      LandingKnown(s, a);
    }
  }

  /** The steps that end a flight. */
  lemma LandingKnown(s: Source, a: Action)
    requires FailuresKnown(s) && Enabled(s, a) && (a.Recheck? || a.Land? || a.FetchFails?)
    ensures FailuresKnown(Step(s, a))
  {
  }

  lemma {:induction false} RunKnowsFailures(actions: seq<Action>)
    ensures FailuresKnown(Run(actions))
  {
    if actions != [] {
      RunKnowsFailures(actions[..|actions| - 1]);
      StepKnowsFailures(Run(actions[..|actions| - 1]), actions[|actions| - 1]);
      hide Step, FailuresKnown;
    }
  }

  /**
   Every answer in every interleaving: a token was obtained by a successful fetch; one that comes
   from the cache was returned before the refreshAt stored with it; any other answer is that of a
   flight which the caller led or joined and which ended during the call; and there is no token only
   if the fetch of that flight failed.
   */
  lemma {:induction false} AnswersAreSound(actions: seq<Action>, n: nat)
    requires n < |Run(actions).answers|
    ensures var s := Run(actions);
            var r := s.answers[n];
            && (r.token.Some? ==> WasStored(s.log, r.token.value))
            && match r.via
               case FromCache(refreshAt) =>
                 r.token.Some? && r.at < refreshAt && WasCached(s.log, Cached(r.token, refreshAt))
               case FromFlight(f) =>
                 && f in s.landings && s.landings[f].token == r.token && r.began <= s.landings[f].at <= r.at
                 && (r.token.None? ==> f in s.failed)
  {
    hide Run;
    RunStaysSound(actions);
    RunKnowsFailures(actions);
    var s := Run(actions);
    var r := s.answers[n];
    assert AnswerOk(s, r);
    if r.via.FromCache? {
      CachedWasStored(s.log, Cached(r.token, r.via.refreshAt));
    }
  }

  /** A token from the cache is never returned at or after its expiry. */
  lemma {:induction false} NeverReturnedExpired(actions: seq<Action>, n: nat)
    requires n < |Run(actions).answers| && Run(actions).answers[n].via.FromCache?
    ensures var s := Run(actions);
            var r := s.answers[n];
            r.token.Some? && exists m :: 0 <= m < |s.log| && IsStored(s.log[m], r.token.value) && r.at < ExpiresAt(s.log[m])
  {
    AnswersAreSound(actions, n);
    var s := Run(actions);
    var r := s.answers[n];
    hide Run;
    var m :| 0 <= m < |s.log| && IsStored(s.log[m], r.token.value) && s.log[m].refreshAt == r.via.refreshAt;
    StoredAhead(actions, m);
    assert IsStored(s.log[m], r.token.value) && r.at < ExpiresAt(s.log[m]);
  }

  // -------------------------------------------------------------------- every call returns

  /** How far a call has got; what a step of another call does not change. */
  function Stage(c: Caller): nat {
    match c
    case Read(_, _) => 1
    case Stale(_) => 2
    case Leading(_, _) => 3
    case Joined(_, _) => 3
    case Rereading(_, _, _) => 4
    case Fetching(_, _) => 5
    case Fetched(_, _, _) => 6
  }

  predicate StepOf(a: Action, id: int) {
    !a.Tick? && a.id == id
  }

  /** The steps of a call take it on, or end it, and no other step touches it; so it has at most seven. */
  lemma CallAdvances(s: Source, a: Action, id: int)
    requires Enabled(s, a) && id in s.callers
    ensures var r := Step(s, a);
            if StepOf(a, id) then id in r.callers ==> Stage(s.callers[id]) < Stage(r.callers[id]) <= 6
            else id in r.callers && r.callers[id] == s.callers[id]
  {
    hide UntilRefresh, Usable;
  }

  ghost predicate CanStep(s: Source, id: int) {
    exists a :: StepOf(a, id) && Enabled(s, a)
  }

  ghost predicate LedBy(s: Source, f: nat, id: int) {
    id in s.callers && Leads(s.callers[id]) && s.callers[id].flight == f
  }

  lemma StepKeepsLed(s: Source, a: Action)
    requires OneLeader(s) && (s.active.Some? ==> exists id :: LedBy(s, s.active.value, id))
    ensures var r := Step(s, a); r.active.Some? ==> exists id :: LedBy(r, r.active.value, id)
  {
    hide UntilRefresh, Usable;
    var r := Step(s, a);
    if s.active.Some? && r.active.Some? {
      var id :| LedBy(s, s.active.value, id);
      assert LedBy(r, r.active.value, id);
    } else if a.EnterFlight? && r.active.Some? {
      assert LedBy(r, r.active.value, a.id);
    }
  }

  lemma {:induction false} FlightIsLed(actions: seq<Action>)
    ensures var s := Run(actions); s.active.Some? ==> exists id :: LedBy(s, s.active.value, id)
  {
    if actions != [] {
      var earlier := actions[..|actions| - 1];
      FlightIsLed(earlier);
      RunKeepsInv(earlier);
      StepKeepsLed(Run(earlier), actions[|actions| - 1]);
      hide Step, LedBy, OneLeader, Run;
    }
  }

  /** In every interleaving, a call that cannot go on has joined a flight whose leader can. */
  lemma {:induction false} NobodyWaitsInVain(actions: seq<Action>, id: int)
    requires id in Run(actions).callers
    ensures var s := Run(actions);
            CanStep(s, id)
            || (s.callers[id].Joined? && exists l :: LedBy(s, s.callers[id].flight, l) && CanStep(s, l))
  {
    var s := Run(actions);
    hide Run;
    RunKeepsInv(actions);
    FlightIsLed(actions);
    if s.callers[id].Joined? && s.callers[id].flight !in s.landings {
      var l :| LedBy(s, s.active.value, l);
      CallerCanStep(s, l);
      assert LedBy(s, s.callers[id].flight, l) && CanStep(s, l);
    } else {
      CallerCanStep(s, id);
    }
  }

  lemma CallerCanStep(s: Source, id: int)
    requires id in s.callers && (s.callers[id].Joined? ==> s.callers[id].flight in s.landings)
    ensures CanStep(s, id)
  {
    var a := match s.callers[id]
      case Read(_, _) => CheckClock(id)
      case Stale(_) => EnterFlight(id)
      case Leading(_, _) => Reread(id)
      case Joined(_, _) => Leave(id)
      case Rereading(_, _, _) => Recheck(id)
      case Fetching(_, _) => FetchFails(id)
      case Fetched(_, _, _) => Land(id);
    assert StepOf(a, id) && Enabled(s, a);
  }

  // ------------------------------------------------------------------ a caller that is alone

  /** A caller that reads a usable token returns it at once; no flight and no fetch starts. */
  lemma UsableTokenIsReturned(s: Source, id: int)
    requires id !in s.callers && Usable(s.cached, s.clock)
    ensures var r := Step(Step(s, ReadCache(id)), CheckClock(id));
            r == s.(answers := s.answers + [Return(id, s.cached.token, s.clock, s.clock, FromCache(s.cached.refreshAt))])
  {
    assert s.callers[id := Read(s.clock, s.cached)] - {id} == s.callers;
  }

  /** The steps of a caller that finds the cache stale and no flight under way. */
  function Refreshes(s: Source, id: int, token: string, expiresIn: int): Source {
    var entered := Step(Step(Step(s, ReadCache(id)), CheckClock(id)), EnterFlight(id));
    Step(Step(Step(Step(entered, Reread(id)), Recheck(id)), FetchStores(id, token, expiresIn)), Land(id))
  }

  /** A caller that finds no usable token and no flight fetches one, stores it and returns it. */
  lemma StaleTokenIsRefreshed(s: Source, id: int, token: string, expiresIn: int)
    requires id !in s.callers && !Usable(s.cached, s.clock) && s.active.None? && token != ""
    ensures var r := Refreshes(s, id, token, expiresIn);
            && r.cached == Cached(Some(token), s.clock + UntilRefresh(expiresIn))
            && r.log == s.log + [Started(s.clock), Stored(token, s.clock, r.cached.refreshAt, expiresIn)]
            && r.answers == s.answers + [Return(id, Some(token), s.clock, s.clock, FromFlight(s.flights))]
            && r.callers == s.callers && r.active.None?
  {
    StaleCallerLeads(s, id);
    var s3 := Step(Step(Step(s, ReadCache(id)), CheckClock(id)), EnterFlight(id));
    hide Usable;
    var s5 := Step(Step(s3, Reread(id)), Recheck(id));
    assert id in s5.callers && s5.callers[id] == Fetching(s.clock, s.flights) && s5.callers - {id} == s.callers;
  }

  lemma StaleCallerLeads(s: Source, id: int)
    requires id !in s.callers && !Usable(s.cached, s.clock) && s.active.None?
    ensures var r := Step(Step(Step(s, ReadCache(id)), CheckClock(id)), EnterFlight(id));
            && id in r.callers && r.callers[id] == Leading(s.clock, s.flights) && r.callers - {id} == s.callers
            && r == s.(callers := r.callers, active := r.active, flights := r.flights)
  {
    hide Usable;
  }

  // ---------------------------------------------------------------- the sections under the lock

  class TokenCache {
    var token: string
    var refreshAt: int

    /** No token yet is the empty string. */
    constructor ()
      ensures Value() == Cached(None, 0)
    {
      token, refreshAt := "", 0;
    }

    function Value(): Cached
      reads this
    {
      Cached(if token == "" then None else Some(token), refreshAt)
    }

    /** The read and the check before the singleflight, and again inside it. */
    method Lookup(now: int) returns (found: Option<string>)
      ensures found == if Usable(Value(), now) then Value().token else None
    {
      if token != "" && now < refreshAt {
        return Some(token);
      }
      return None;
    }

    /** The store at the end of a fetch; the response's token is not empty. */
    method Store(newToken: string, expiresIn: int, now: int)
      requires newToken != ""
      modifies this
      ensures Value() == Cached(Some(newToken), now + UntilRefresh(expiresIn))
      ensures Usable(Value(), now)
    {
      var ttl := DefaultTokenTtl;
      if expiresIn > 0 {
        ttl := expiresIn * SecondNs;
      }
      token := newToken;
      refreshAt := now + (ttl - ttl * 15 / 100);
    }
  }
}
