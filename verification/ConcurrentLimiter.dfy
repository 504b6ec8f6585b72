/**
 The rate limiter of api/ratelimit with its steps apart: looking the bucket up, making and
 storing a new one, reading the clock, and updating the bucket under its lock; the evictor reads
 a bucket under its lock and deletes the key from the map afterwards. Any number of callers
 interleave with the evictor. A bucket that is deleted lives on for the callers that hold it.
 */
module ConcurrentLimiter {
  import opened TokenBuckets
  import opened LimiterTraces
  import opened BucketProbes
  import RateLimiter

  /** A bucket with its key and the time at which it was put into the map. */
  datatype Cell = Cell(key: string, bucket: Bucket, born: real)

  /** Where a running Allow has got to. */
  datatype Caller =
    | Missed(key: string)                         // the Load found nothing
    | Made(key: string, created: real)            // has made a bucket, about to LoadOrStore
    | Holding(key: string, ref: nat)              // has its bucket, about to read the clock
    | Ready(key: string, ref: nat, now: real)     // about to take the bucket's lock

  /** The evictor between its ticks, between two buckets, or about to delete a key it found idle. */
  datatype Evictor = Resting | Sweeping(now: real) | Condemning(now: real, key: string)

  datatype Logged = Logged(key: string, entry: Entry)

  /** `heap` holds every bucket ever stored, `table` is the map; `log` has every update and deletion. */
  datatype Limiter = Limiter(
    clock: real, heap: seq<Cell>, table: map<string, nat>, callers: map<int, Caller>, evictor: Evictor, log: seq<Logged>)

  const NewLimiter := Limiter(0.0, [], map[], map[], Resting, [])

  datatype Action =
    | Tick(to: real)
    | Load(id: int, key: string)
    | Create(id: int)
    | LoadOrStore(id: int)
    | ReadClock(id: int)
    | Use(id: int)
    | SweepStart
    | Inspect(key: string)
    | Delete
    | SweepEnd

  predicate Enabled(s: Limiter, a: Action) {
    match a
    case Tick(to) => s.clock <= to
    case Load(id, _) => id !in s.callers
    case Create(id) => id in s.callers && s.callers[id].Missed?
    case LoadOrStore(id) => id in s.callers && s.callers[id].Made?
    case ReadClock(id) => id in s.callers && s.callers[id].Holding?
    case Use(id) => id in s.callers && s.callers[id].Ready? && s.callers[id].ref < |s.heap|
    case SweepStart => s.evictor.Resting?
    case Inspect(key) => s.evictor.Sweeping? && key in s.table && s.table[key] < |s.heap|
    case Delete => s.evictor.Condemning?
    case SweepEnd => s.evictor.Sweeping?
  }

  /** The bucket is not the one the map holds for its key. */
  predicate Stale(s: Limiter, key: string, ref: nat) {
    key !in s.table || s.table[key] != ref
  }

  /** One atomic step; an action that cannot happen leaves everything as it is. */
  function Step(cfg: Config, ttl: real, s: Limiter, a: Action): Limiter {
    if !Enabled(s, a) then s
    else match a
      case Tick(to) => s.(clock := to)
      case Load(id, key) =>
        s.(callers := s.callers[id := if key in s.table then Holding(key, s.table[key]) else Missed(key)])
      case Create(id) => s.(callers := s.callers[id := Made(s.callers[id].key, s.clock)])
      case LoadOrStore(id) =>
        var c := s.callers[id];
        if c.key in s.table then s.(callers := s.callers[id := Holding(c.key, s.table[c.key])])
        else s.(heap := s.heap + [Cell(c.key, NewBucket(c.created), s.clock)], table := s.table[c.key := |s.heap|],
                callers := s.callers[id := Holding(c.key, |s.heap|)])
      case ReadClock(id) => s.(callers := s.callers[id := Ready(s.callers[id].key, s.callers[id].ref, s.clock)])
      case Use(id) => Updated(cfg, s, id)
      case SweepStart => s.(evictor := Sweeping(s.clock))
      case Inspect(key) =>
        if s.evictor.now - RateLimiter.LastActive(s.heap[s.table[key]].bucket) > ttl
        then s.(evictor := Condemning(s.evictor.now, key)) else s
      case Delete =>
        var key := s.evictor.key;
        s.(table := s.table - {key}, evictor := Sweeping(s.evictor.now), log := s.log + [Logged(key, Dropped(s.clock))])
      case SweepEnd => s.(evictor := Resting)
  }

  /** The section under the bucket's lock. */
  function Updated(cfg: Config, s: Limiter, id: int): Limiter
    requires Enabled(s, Use(id))
  {
    var c := s.callers[id];
    var cell := s.heap[c.ref];
    s.(heap := s.heap[c.ref := cell.(bucket := Called(cfg, cell.bucket, c.now))], callers := s.callers - {id},
       log := s.log + [Logged(c.key, Used(c.now, AnswerTo(cfg, cell.bucket, c.now), Stale(s, c.key, c.ref)))])
  }

  /** What an update logs. */
  function EntryOf(cfg: Config, s: Limiter, id: int): Entry
    requires Enabled(s, Use(id))
  {
    var c := s.callers[id];
    Used(c.now, AnswerTo(cfg, s.heap[c.ref].bucket, c.now), Stale(s, c.key, c.ref))
  }

  function Run(cfg: Config, ttl: real, actions: seq<Action>): Limiter {
    if actions == [] then NewLimiter
    else Step(cfg, ttl, Run(cfg, ttl, actions[..|actions| - 1]), actions[|actions| - 1])
  }

  /** What has happened to one key. */
  function TraceOf(log: seq<Logged>, key: string): Trace {
    if log == [] then []
    else
      var e := log[|log| - 1];
      TraceOf(log[..|log| - 1], key) + if e.key == key then [e.entry] else []
  }

  lemma {:induction false} TraceMore(log: seq<Logged>, e: Logged, key: string)
    ensures TraceOf(log + [e], key) == if e.key == key then TraceOf(log, key) + [e.entry] else TraceOf(log, key)
  {
    assert (log + [e])[..|log|] == log;
  }

  // --------------------------------------------------------------- what every run keeps

  /** Buckets are held under their own key, and dates do not run ahead of the clock. */
  ghost predicate Owned(s: Limiter) {
    && (forall key :: key in s.table ==> s.table[key] < |s.heap| && s.heap[s.table[key]].key == key)
    && (forall id :: id in s.callers && (s.callers[id].Holding? || s.callers[id].Ready?) ==>
          s.callers[id].ref < |s.heap| && s.heap[s.callers[id].ref].key == s.callers[id].key)
    && (forall id :: id in s.callers && s.callers[id].Ready? ==>
          s.heap[s.callers[id].ref].born <= s.callers[id].now <= s.clock)
    && (forall r :: 0 <= r < |s.heap| ==> s.heap[r].born <= s.clock)
    && (s.evictor.Sweeping? || s.evictor.Condemning? ==> s.evictor.now <= s.clock)
    && (s.evictor.Condemning? ==> s.evictor.key in s.table)
  }

  /** The bucket the map holds for a key is the one its trace leads to. */
  ghost predicate KeyTraced(cfg: Config, s: Limiter, key: string) {
    var trace := TraceOf(s.log, key);
    && Consistent(cfg, trace) && InOrder(trace)
    && (forall i :: 0 <= i < |trace| ==> trace[i].at <= s.clock)
    && if key in s.table then
         && s.table[key] < |s.heap| && SameBucket(s.heap[s.table[key]].bucket, Replay(cfg, trace))
         && (forall i :: 0 <= i < |trace| && trace[i].Dropped? ==> trace[i].at <= s.heap[s.table[key]].born)
       else SameBucket(NewBucket(0.0), Replay(cfg, trace))
  }

  ghost predicate Inv(cfg: Config, s: Limiter) {
    Owned(s) && forall key :: KeyTraced(cfg, s, key)
  }

  lemma UseKeepsOwned(cfg: Config, s: Limiter, id: int)
    requires Owned(s) && Enabled(s, Use(id))
    ensures Owned(Updated(cfg, s, id))
  {
    hide Called, AnswerTo;
    var c, r := s.callers[id], Updated(cfg, s, id);
    assert forall k :: 0 <= k < |r.heap| ==> r.heap[k].key == s.heap[k].key && r.heap[k].born == s.heap[k].born;
  }

  lemma StoreKeepsOwned(cfg: Config, ttl: real, s: Limiter, id: int)
    requires Owned(s) && Enabled(s, LoadOrStore(id))
    ensures Owned(Step(cfg, ttl, s, LoadOrStore(id)))
  {
    var r := Step(cfg, ttl, s, LoadOrStore(id));
    assert forall k :: 0 <= k < |s.heap| ==> r.heap[k] == s.heap[k];
  }

  lemma StepKeepsOwned(cfg: Config, ttl: real, s: Limiter, a: Action)
    requires Owned(s)
    ensures Owned(Step(cfg, ttl, s, a))
  {
    if Enabled(s, a) && a.Use? {
      UseKeepsOwned(cfg, s, a.id);
    } else if Enabled(s, a) && a.LoadOrStore? {
      StoreKeepsOwned(cfg, ttl, s, a.id);
    } else {
      hide Updated, RateLimiter.LastActive;
    }
  }

  /** Nothing about the key has changed: neither its trace nor the bucket the map holds for it. */
  ghost predicate SameForKey(s: Limiter, r: Limiter, key: string) {
    && s.clock <= r.clock && TraceOf(r.log, key) == TraceOf(s.log, key)
    && (key in s.table <==> key in r.table)
    && (key in s.table && s.table[key] < |s.heap| ==>
          && s.table[key] == r.table[key] < |r.heap|
          && r.heap[r.table[key]] == s.heap[s.table[key]])
  }

  lemma SameTrace(cfg: Config, s: Limiter, r: Limiter, key: string)
    requires KeyTraced(cfg, s, key) && SameForKey(s, r, key)
    ensures KeyTraced(cfg, r, key)
  {
    hide TraceOf, Replay, Consistent, InOrder;
  }

  lemma SameAnswers(cfg: Config, a: Bucket, b: Bucket, now: real)
    requires SameBucket(a, b)
    ensures Level(cfg, a, now) == Level(cfg, b, now) && AnswerTo(cfg, a, now) == AnswerTo(cfg, b, now)
    ensures SameBucket(Called(cfg, a, now), Called(cfg, b, now))
  {
    hide Accrued;
  }

  lemma {:induction false} UseKeepsOwnTrace(cfg: Config, s: Limiter, id: int)
    requires Inv(cfg, s) && Enabled(s, Use(id))
    ensures KeyTraced(cfg, Updated(cfg, s, id), s.callers[id].key)
  {
    var c, r := s.callers[id], Updated(cfg, s, id);
    var cell, trace := s.heap[c.ref], TraceOf(s.log, c.key);
    var stale := Stale(s, c.key, c.ref);
    var e := Used(c.now, AnswerTo(cfg, cell.bucket, c.now), stale);
    assert KeyTraced(cfg, s, c.key);
    TraceMore(s.log, Logged(c.key, e), c.key);
    if !stale {
      SameAnswers(cfg, cell.bucket, Replay(cfg, trace), c.now);
    }
    assert r.log == s.log + [Logged(c.key, e)];
    assert TraceOf(r.log, c.key) == trace + [e];
    hide Replay, AnswerTo, Called, Consistent, InOrder, TraceOf;
    EntryFits(cfg, trace, e, s.clock);
    ReplayMore(cfg, trace, e);
    hide KeyTraced, Owned;
    OwnTraceGrows(cfg, s, r, c.key, e);
  }

  /** A logged use of the key, with its effect on the bucket the map holds for it. */
  lemma {:induction false} OwnTraceGrows(cfg: Config, s: Limiter, r: Limiter, key: string, e: Entry)
    requires KeyTraced(cfg, s, key) && e.Used? && r.clock == s.clock && r.table == s.table && |r.heap| == |s.heap|
    requires TraceOf(r.log, key) == TraceOf(s.log, key) + [e]
    requires Consistent(cfg, TraceOf(r.log, key)) && InOrder(TraceOf(r.log, key)) && e.at <= s.clock
    requires Replay(cfg, TraceOf(r.log, key))
             == if e.stale then Replay(cfg, TraceOf(s.log, key)) else Called(cfg, Replay(cfg, TraceOf(s.log, key)), e.at)
    requires !e.stale ==> key in s.table
    requires key in s.table && s.table[key] < |s.heap| ==>
               && r.heap[r.table[key]].born == s.heap[s.table[key]].born
               && if e.stale then r.heap[r.table[key]] == s.heap[s.table[key]]
                  else SameBucket(r.heap[r.table[key]].bucket, Called(cfg, Replay(cfg, TraceOf(s.log, key)), e.at))
    ensures KeyTraced(cfg, r, key)
  {
    hide Replay, Called, Consistent, InOrder, TraceOf;
  }

  /** An entry that is answered by the map's bucket and dated after the deletions, or is a deletion now. */
  lemma {:induction false} EntryFits(cfg: Config, trace: Trace, e: Entry, clock: real)
    requires Consistent(cfg, trace) && InOrder(trace) && e.at <= clock
    requires forall i :: 0 <= i < |trace| ==> trace[i].at <= clock
    requires e.Dropped? ==> e.at == clock
    requires e.Used? && !e.stale ==>
               && e.answer == AnswerTo(cfg, Replay(cfg, trace), e.at)
               && forall i :: 0 <= i < |trace| && trace[i].Dropped? ==> trace[i].at <= e.at
    ensures Consistent(cfg, trace + [e]) && InOrder(trace + [e])
    ensures forall i :: 0 <= i < |trace + [e]| ==> (trace + [e])[i].at <= clock
  {
    hide Replay, AnswerTo, Consistent, InOrder;
    ConsistentMore(cfg, trace, e);
    assert EndsInOrder(trace + [e]);
    InOrderMore(trace, e);
  }

  lemma {:induction false} DeleteKeepsOwnTrace(cfg: Config, ttl: real, s: Limiter)
    requires Inv(cfg, s) && Enabled(s, Delete)
    ensures KeyTraced(cfg, Step(cfg, ttl, s, Delete), s.evictor.key)
  {
    var key := s.evictor.key;
    var r, trace, e := Step(cfg, ttl, s, Delete), TraceOf(s.log, key), Dropped(s.clock);
    assert KeyTraced(cfg, s, key);
    TraceMore(s.log, Logged(key, e), key);
    assert r.log == s.log + [Logged(key, e)];
    hide Replay, Consistent, InOrder, TraceOf;
    EntryFits(cfg, trace, e, s.clock);
    ReplayMore(cfg, trace, e);
  }

  lemma {:induction false} OtherUse(cfg: Config, s: Limiter, id: int, key: string)
    requires Owned(s) && Enabled(s, Use(id)) && s.callers[id].key != key
    ensures SameForKey(s, Updated(cfg, s, id), key)
  {
    var e := Logged(s.callers[id].key, EntryOf(cfg, s, id));
    TraceMore(s.log, e, key);
    hide TraceOf, AnswerTo, Called;
    assert Updated(cfg, s, id).log == s.log + [e];
    assert key in s.table ==> s.table[key] != s.callers[id].ref;
  }

  lemma {:induction false} OtherDelete(cfg: Config, ttl: real, s: Limiter, key: string)
    requires Enabled(s, Delete) && s.evictor.key != key
    ensures SameForKey(s, Step(cfg, ttl, s, Delete), key)
  {
    TraceMore(s.log, Logged(s.evictor.key, Dropped(s.clock)), key);
    hide TraceOf;
  }

  lemma {:induction false} QuietStep(cfg: Config, ttl: real, s: Limiter, a: Action, key: string)
    requires Enabled(s, a) && !a.Use? && !a.Delete?
    requires a.LoadOrStore? ==> s.callers[a.id].key != key || key in s.table
    ensures SameForKey(s, Step(cfg, ttl, s, a), key)
  {
    hide TraceOf, RateLimiter.LastActive, Updated;
  }

  lemma {:induction false} StepKeepsTraced(cfg: Config, ttl: real, s: Limiter, a: Action)
    requires Inv(cfg, s)
    ensures forall key :: KeyTraced(cfg, Step(cfg, ttl, s, a), key)
  {
    forall key
      ensures KeyTraced(cfg, Step(cfg, ttl, s, a), key)
    {
      assert KeyTraced(cfg, s, key);
      if !Enabled(s, a) {
        assert Step(cfg, ttl, s, a) == s;
      } else if a.Use? && s.callers[a.id].key == key {
        UseKeepsOwnTrace(cfg, s, a.id);
      } else if a.Delete? && s.evictor.key == key {
        DeleteKeepsOwnTrace(cfg, ttl, s);
      } else if a.LoadOrStore? && s.callers[a.id].key == key && key !in s.table {
        hide Replay, Consistent, InOrder, TraceOf;
      } else {
        if a.Use? {
          OtherUse(cfg, s, a.id, key);
        } else if a.Delete? {
          OtherDelete(cfg, ttl, s, key);
        } else {
          QuietStep(cfg, ttl, s, a, key);
        }
        hide KeyTraced, Owned, SameForKey;
        SameTrace(cfg, s, Step(cfg, ttl, s, a), key);
      }
    }
  }

  lemma {:induction false} RunKeepsInv(cfg: Config, ttl: real, actions: seq<Action>)
    ensures Inv(cfg, Run(cfg, ttl, actions))
  {
    if actions == [] {
      forall key
        ensures KeyTraced(cfg, NewLimiter, key)
      {
        assert TraceOf(NewLimiter.log, key) == [];
      }
    } else {
      var s, a := Run(cfg, ttl, actions[..|actions| - 1]), actions[|actions| - 1];
      RunKeepsInv(cfg, ttl, actions[..|actions| - 1]);
      StepKeepsOwned(cfg, ttl, s, a);
      hide KeyTraced, Owned, Step;
      StepKeepsTraced(cfg, ttl, s, a);
    }
  }

  /**
   In every interleaving of callers and evictor, no window of a key's updates lets more calls
   through than burst + rps * (length + backward movement) and what was forgotten within it:
   what each deleted bucket lacked, and one for each call admitted by a deleted bucket.
   */
  lemma {:induction false} EveryWindow(cfg: Config, ttl: real, actions: seq<Action>, key: string, k: nat, n: nat)
    requires cfg.rps >= 0.0 && cfg.burst >= 0.0 && k <= n < |TraceOf(Run(cfg, ttl, actions).log, key)|
    ensures var trace := TraceOf(Run(cfg, ttl, actions).log, key);
            Admitted(trace, k, n + 1) as real
            <= Allowance(cfg, Times(trace), k, n) + Forgotten(cfg, trace, k, n + 1)
  {
    RunKeepsInv(cfg, ttl, actions);
    var s := Run(cfg, ttl, actions);
    assert KeyTraced(cfg, s, key);
    var trace := TraceOf(s.log, key);
    assert Consistent(cfg, trace);
    hide *;
    WindowsForget(cfg, trace, k, n);
  }

  // ------------------------------------------------------------------- an unseen evictor

  /** A use of a bucket that is deleted already, or between the evictor's read of it and its delete. */
  predicate Disturbs(s: Limiter, a: Action) {
    && a.Use? && Enabled(s, a)
    && var c := s.callers[a.id];
       Stale(s, c.key, c.ref) || (s.evictor.Condemning? && s.evictor.key == c.key)
  }

  ghost predicate Undisturbed(cfg: Config, ttl: real, actions: seq<Action>) {
    forall n :: 0 <= n < |actions| ==> !Disturbs(Run(cfg, ttl, actions[..n]), actions[n])
  }

  lemma {:induction false} UndisturbedMore(cfg: Config, ttl: real, actions: seq<Action>, a: Action)
    ensures Undisturbed(cfg, ttl, actions + [a])
            <==> Undisturbed(cfg, ttl, actions) && !Disturbs(Run(cfg, ttl, actions), a)
  {
    var more := actions + [a];
    hide Run, Disturbs;
    assert more[..|actions|] == actions && more[|actions|] == a;
    assert forall n :: 0 <= n < |actions| ==> more[..n] == actions[..n] && more[n] == actions[n];
    if Undisturbed(cfg, ttl, more) {
      assert !Disturbs(Run(cfg, ttl, more[..|actions|]), more[|actions|]);
      forall n | 0 <= n < |actions|
        ensures !Disturbs(Run(cfg, ttl, actions[..n]), actions[n])
      {
        assert !Disturbs(Run(cfg, ttl, more[..n]), more[n]);
      }
    }
  }

  /** The condemned bucket has been idle for longer than ttl. */
  ghost predicate CondemnedIsIdle(ttl: real, s: Limiter) {
    s.evictor.Condemning? ==>
      && s.evictor.key in s.table && s.table[s.evictor.key] < |s.heap|
      && s.evictor.now - RateLimiter.LastActive(s.heap[s.table[s.evictor.key]].bucket) > ttl
  }

  ghost predicate AllClean(cfg: Config, s: Limiter) {
    forall key :: Clean(cfg, TraceOf(s.log, key))
  }

  lemma StepKeepsIdle(cfg: Config, ttl: real, s: Limiter, a: Action)
    requires Owned(s) && CondemnedIsIdle(ttl, s) && !Disturbs(s, a)
    ensures CondemnedIsIdle(ttl, Step(cfg, ttl, s, a))
  {
    hide Called, AnswerTo, RateLimiter.LastActive;
  }

  /** A bucket that has been idle for ttl is full, if it refills within ttl. */
  lemma IdleIsFull(cfg: Config, ttl: real, b: Bucket, now: real)
    requires cfg.rps >= 0.0 && cfg.burst >= 0.0 && ttl * cfg.rps >= cfg.burst && Sane(cfg, b)
    requires b.last.Some? ==> now - b.last.value >= ttl && now >= b.last.value
    ensures Level(cfg, b, now) == cfg.burst
  {
    if b.last.Some? {
      var idle := now - b.last.value;
      assert idle * cfg.rps >= ttl * cfg.rps;
      assert Accrued(cfg, b.last.value, now) == idle * cfg.rps;
    }
  }

  lemma {:induction false} DeleteIsClean(cfg: Config, ttl: real, s: Limiter)
    requires cfg.rps >= 0.0 && cfg.burst >= 0.0 && ttl * cfg.rps >= cfg.burst
    requires Inv(cfg, s) && CondemnedIsIdle(ttl, s) && s.evictor.Condemning?
    ensures Level(cfg, Replay(cfg, TraceOf(s.log, s.evictor.key)), s.clock) == cfg.burst
  {
    var key := s.evictor.key;
    var trace := TraceOf(s.log, key);
    assert KeyTraced(cfg, s, key);
    TracesStaySane(cfg, trace);
    LastInTrace(cfg, trace, s.clock);
    hide Replay, TraceOf, Level, Consistent, InOrder;
    IdleIsFull(cfg, ttl, Replay(cfg, trace), s.clock);
  }

  lemma {:induction false} StepKeepsClean(cfg: Config, ttl: real, s: Limiter, a: Action, key: string)
    requires cfg.rps >= 0.0 && cfg.burst >= 0.0 && ttl * cfg.rps >= cfg.burst
    requires Inv(cfg, s) && CondemnedIsIdle(ttl, s) && !Disturbs(s, a) && Clean(cfg, TraceOf(s.log, key))
    ensures Clean(cfg, TraceOf(Step(cfg, ttl, s, a).log, key))
  {
    var r, trace := Step(cfg, ttl, s, a), TraceOf(s.log, key);
    if Enabled(s, a) && (a.Use? || a.Delete?) {
      var e := r.log[|s.log|];
      assert r.log == s.log + [e];
      TraceMore(s.log, e, key);
      if a.Delete? {
        DeleteIsClean(cfg, ttl, s);
      }
      hide Replay, TraceOf, Level, Clean, Inv, AnswerTo, Called;
      if e.key == key {
        CleanMore(cfg, trace, e.entry);
      }
    } else {
      assert r.log == s.log;
    }
  }

  lemma {:induction false} RunStaysClean(cfg: Config, ttl: real, actions: seq<Action>)
    requires cfg.rps >= 0.0 && cfg.burst >= 0.0 && ttl * cfg.rps >= cfg.burst && Undisturbed(cfg, ttl, actions)
    ensures CondemnedIsIdle(ttl, Run(cfg, ttl, actions)) && AllClean(cfg, Run(cfg, ttl, actions))
  {
    if actions == [] {
      assert forall key :: TraceOf(NewLimiter.log, key) == [];
    } else {
      var earlier, a := actions[..|actions| - 1], actions[|actions| - 1];
      assert actions == earlier + [a];
      UndisturbedMore(cfg, ttl, earlier, a);
      RunStaysClean(cfg, ttl, earlier);
      RunKeepsInv(cfg, ttl, earlier);
      var s := Run(cfg, ttl, earlier);
      StepKeepsIdle(cfg, ttl, s, a);
      hide Inv, CondemnedIsIdle, Step, Disturbs, Undisturbed, Clean, TraceOf;
      forall key
        ensures Clean(cfg, TraceOf(Step(cfg, ttl, s, a).log, key))
      {
        StepKeepsClean(cfg, ttl, s, a, key);
      }
    }
  }

  /**
   For any ttl: in every interleaving in which nothing of a key is forgotten, that is, no deleted
   bucket is used and every bucket is full when it is deleted, the evictor is not seen.
   */
  lemma {:induction false} ForgettingNothingIsUnseen(cfg: Config, ttl: real, actions: seq<Action>, key: string)
    requires cfg.rps >= 0.0 && cfg.burst >= 0.0 && Clean(cfg, TraceOf(Run(cfg, ttl, actions).log, key))
    ensures Unseen(cfg, TraceOf(Run(cfg, ttl, actions).log, key))
  {
    RunKeepsInv(cfg, ttl, actions);
    var s := Run(cfg, ttl, actions);
    assert KeyTraced(cfg, s, key);
    hide Run, Clean, Replay, TraceOf, Unseen, Consistent, InOrder;
    CleanIsUnseen(cfg, TraceOf(s.log, key));
  }

  /**
   If a bucket refills completely within ttl, then in every interleaving in which no use of a key
   falls between the evictor's read of its bucket and its delete, and none hits a deleted bucket,
   every answer is that of a bucket that is never evicted.
   */
  lemma {:induction false} EvictionUnseen(cfg: Config, ttl: real, actions: seq<Action>, key: string)
    requires cfg.rps >= 0.0 && cfg.burst >= 0.0 && ttl * cfg.rps >= cfg.burst && Undisturbed(cfg, ttl, actions)
    ensures Unseen(cfg, TraceOf(Run(cfg, ttl, actions).log, key))
  {
    RunStaysClean(cfg, ttl, actions);
    assert Clean(cfg, TraceOf(Run(cfg, ttl, actions).log, key));
    hide *;
    ForgettingNothingIsUnseen(cfg, ttl, actions, key);
  }

  /** Under the same conditions a key's verdicts are the decisions of a lone bucket, whatever other keys do. */
  lemma {:induction false} EveryKeyDecides(cfg: Config, ttl: real, actions: seq<Action>, key: string)
    requires cfg.rps >= 0.0 && cfg.burst >= 0.0 && ttl * cfg.rps >= cfg.burst && Undisturbed(cfg, ttl, actions)
    ensures var trace := TraceOf(Run(cfg, ttl, actions).log, key); Verdicts(trace) == Decisions(cfg, UseTimes(trace))
  {
    hide *;
    EvictionUnseen(cfg, ttl, actions, key);
    UnseenDecides(cfg, TraceOf(Run(cfg, ttl, actions).log, key));
  }

  // ------------------------------------------------------------------- what can be seen

  lemma Then(cfg: Config, ttl: real, actions: seq<Action>, s: Limiter, a: Action)
    returns (longer: seq<Action>, next: Limiter)
    requires s == Run(cfg, ttl, actions)
    ensures longer == actions + [a] && next == Step(cfg, ttl, s, a) == Run(cfg, ttl, longer)
    ensures Undisturbed(cfg, ttl, longer) <==> Undisturbed(cfg, ttl, actions) && !Disturbs(s, a)
  {
    longer, next := actions + [a], Step(cfg, ttl, s, a);
    assert longer[..|actions|] == actions;
    UndisturbedMore(cfg, ttl, actions, a);
  }

  lemma {:induction false} UseLogs(cfg: Config, ttl: real, s: Limiter, id: int)
    requires Enabled(s, Use(id))
    ensures var r, key := Step(cfg, ttl, s, Use(id)), s.callers[id].key;
            && TraceOf(r.log, key) == TraceOf(s.log, key) + [EntryOf(cfg, s, id)]
            && r == s.(heap := r.heap, callers := s.callers - {id}, log := r.log)
  {
    TraceMore(s.log, Logged(s.callers[id].key, EntryOf(cfg, s, id)), s.callers[id].key);
    hide AnswerTo, TraceOf, Called;
  }

  lemma {:induction false} DeleteLogs(cfg: Config, ttl: real, s: Limiter)
    requires s.evictor.Condemning?
    ensures var r, key := Step(cfg, ttl, s, Delete), s.evictor.key;
            && TraceOf(r.log, key) == TraceOf(s.log, key) + [Dropped(s.clock)]
            && r.clock == s.clock && r.callers == s.callers && r.evictor.Sweeping? && !Disturbs(s, Delete)
  {
    TraceMore(s.log, Logged(s.evictor.key, Dropped(s.clock)), s.evictor.key);
    hide TraceOf;
  }

  /** A caller with the bucket of the map in hand. */
  ghost predicate HasBucket(s: Limiter, id: int, key: string) {
    && id in s.callers && s.callers[id].Holding? && s.callers[id].key == key
    && !Stale(s, key, s.callers[id].ref) && s.callers[id].ref < |s.heap|
  }

  /** A new caller at time t gets hold of the map's bucket. */
  lemma GetsBucket(cfg: Config, ttl: real, actions: seq<Action>, s: Limiter, id: int, key: string, t: real)
    returns (longer: seq<Action>, next: Limiter)
    requires s == Run(cfg, ttl, actions) && Inv(cfg, s) && id !in s.callers && s.clock <= t
    ensures next == Run(cfg, ttl, longer) && actions <= longer
    ensures Undisturbed(cfg, ttl, longer) <==> Undisturbed(cfg, ttl, actions)
    ensures next == s.(clock := t, heap := next.heap, table := next.table, callers := next.callers)
    ensures next.callers - {id} == s.callers && HasBucket(next, id, key)
  {
    hide Run, Undisturbed, KeyTraced;
    longer, next := Then(cfg, ttl, actions, s, Tick(t));
    longer, next := Then(cfg, ttl, longer, next, Load(id, key));
    if key !in s.table {
      longer, next := Then(cfg, ttl, longer, next, Create(id));
      longer, next := Then(cfg, ttl, longer, next, LoadOrStore(id));
    }
    assert next.callers - {id} == s.callers;
  }

  /** A new caller that nobody disturbs: one more use of the map's bucket. */
  lemma {:induction false} CallAlone(cfg: Config, ttl: real, actions: seq<Action>, s: Limiter, id: int, key: string, t: real)
    returns (longer: seq<Action>, next: Limiter)
    requires s == Run(cfg, ttl, actions) && id !in s.callers && s.clock <= t
    ensures next == Run(cfg, ttl, longer) && actions <= longer
    ensures Undisturbed(cfg, ttl, actions) && !s.evictor.Condemning? ==> Undisturbed(cfg, ttl, longer)
    ensures next == s.(clock := t, heap := next.heap, table := next.table, log := next.log)
    ensures var trace := TraceOf(s.log, key);
            TraceOf(next.log, key) == trace + [Used(t, AnswerTo(cfg, Replay(cfg, trace), t), false)]
  {
    RunKeepsInv(cfg, ttl, actions);
    hide *;
    longer, next := GetsBucket(cfg, ttl, actions, s, id, key, t);
    UsesBucket(cfg, ttl, next, id, key);
    var e := EntryOf(cfg, Step(cfg, ttl, next, ReadClock(id)), id);
    longer, next := Then(cfg, ttl, longer, next, ReadClock(id));
    longer, next := Then(cfg, ttl, longer, next, Use(id));
    RunKeepsInv(cfg, ttl, longer);
    LastIsAnswered(cfg, next, key, TraceOf(s.log, key), e);
    assert e == Used(t, e.answer, false);
  }

  /** The last two steps of a caller that has the map's bucket. */
  lemma {:induction false} UsesBucket(cfg: Config, ttl: real, s: Limiter, id: int, key: string)
    requires HasBucket(s, id, key)
    ensures var r := Step(cfg, ttl, s, ReadClock(id));
            && Enabled(r, Use(id)) && !Disturbs(s, ReadClock(id)) && (!s.evictor.Condemning? ==> !Disturbs(r, Use(id)))
            && var u, e := Step(cfg, ttl, r, Use(id)), EntryOf(cfg, r, id);
               && e.Used? && e.at == s.clock && !e.stale
               && TraceOf(u.log, key) == TraceOf(s.log, key) + [e]
               && u == s.(heap := u.heap, callers := s.callers - {id}, log := u.log)
  {
    var r := Step(cfg, ttl, s, ReadClock(id));
    UseLogs(cfg, ttl, r, id);
    hide TraceOf, AnswerTo, Called;
    assert r.callers - {id} == s.callers - {id};
    assert r.callers[id].key == key && r.log == s.log;
  }

  lemma LastIsAnswered(cfg: Config, s: Limiter, key: string, trace: Trace, e: Entry)
    requires Inv(cfg, s) && TraceOf(s.log, key) == trace + [e] && e.Used? && !e.stale
    ensures e.answer == AnswerTo(cfg, Replay(cfg, trace), e.at)
  {
    assert KeyTraced(cfg, s, key);
    hide Replay, AnswerTo, TraceOf;
    assert AnsweredAt(cfg, trace + [e], |trace|);
    assert (trace + [e])[..|trace|] == trace;
  }

  lemma {:induction false} CallsAlone(
    cfg: Config, ttl: real, actions: seq<Action>, s: Limiter, id: int, key: string, times: seq<real>)
    returns (longer: seq<Action>, next: Limiter)
    requires s == Run(cfg, ttl, actions) && id !in s.callers && Nondecreasing(times)
    requires times != [] ==> s.clock <= times[0]
    ensures next == Run(cfg, ttl, longer) && actions <= longer
    ensures Undisturbed(cfg, ttl, actions) && !s.evictor.Condemning? ==> Undisturbed(cfg, ttl, longer)
    ensures next == s.(clock := if times == [] then s.clock else times[|times| - 1],
                       heap := next.heap, table := next.table, log := next.log)
    ensures TraceOf(next.log, key) == Extended(cfg, TraceOf(s.log, key), times)
    decreases |times|
  {
    hide Run, Undisturbed, TraceOf, AnswerTo, Replay;
    longer, next := actions, s;
    if times != [] {
      longer, next := CallAlone(cfg, ttl, actions, s, id, key, times[0]);
      longer, next := CallsAlone(cfg, ttl, longer, next, id, key, times[1..]);
    }
  }

  /** If the map's bucket and the kept one find different tokens now, some continuation shows it. */
  lemma {:induction false} DifferenceIsSeen(cfg: Config, ttl: real, actions: seq<Action>, id: int, key: string)
    returns (longer: seq<Action>)
    requires cfg.rps > 0.0 && cfg.burst >= 1.0 && id !in Run(cfg, ttl, actions).callers
    requires var s := Run(cfg, ttl, actions);
             var trace := TraceOf(s.log, key);
             Level(cfg, Replay(cfg, trace), s.clock) != Level(cfg, Kept(cfg, trace), s.clock)
    ensures actions <= longer && !Unseen(cfg, TraceOf(Run(cfg, ttl, longer).log, key))
    ensures Undisturbed(cfg, ttl, actions) && !Run(cfg, ttl, actions).evictor.Condemning? ==> Undisturbed(cfg, ttl, longer)
  {
    var s := Run(cfg, ttl, actions);
    RunKeepsInv(cfg, ttl, actions);
    assert KeyTraced(cfg, s, key);
    hide Run, TraceOf, Replay, Kept, Level, Unseen, Undisturbed, Consistent, InOrder;
    var times := DifferenceShows(cfg, TraceOf(s.log, key), s.clock);
    var next;
    longer, next := CallsAlone(cfg, ttl, actions, s, id, key, times);
  }

  lemma {:induction false} CleanLevels(cfg: Config, ttl: real, actions: seq<Action>, key: string)
    requires cfg.rps >= 0.0 && cfg.burst >= 0.0 && Clean(cfg, TraceOf(Run(cfg, ttl, actions).log, key))
    ensures var s := Run(cfg, ttl, actions);
            var trace := TraceOf(s.log, key);
            Level(cfg, Replay(cfg, trace), s.clock) == Level(cfg, Kept(cfg, trace), s.clock)
  {
    var s := Run(cfg, ttl, actions);
    var trace := TraceOf(s.log, key);
    RunKeepsInv(cfg, ttl, actions);
    assert KeyTraced(cfg, s, key);
    hide Run, TraceOf, Replay, Kept, Level, Clean, Consistent, InOrder;
    CleanStaysAlike(cfg, trace);
    AlikeAnswers(cfg, trace, s.clock);
  }

  /**
   For every burst of at least one: from every reachable state in which nothing of a key has been
   forgotten and the evictor is about to delete its bucket while it is not full, the delete is
   seen in some continuation.
   */
  lemma {:induction false} LossyDeleteShows(cfg: Config, ttl: real, actions: seq<Action>, id: int)
    returns (longer: seq<Action>)
    requires cfg.rps > 0.0 && cfg.burst >= 1.0
    requires var s := Run(cfg, ttl, actions);
             && s.evictor.Condemning? && id !in s.callers && Clean(cfg, TraceOf(s.log, s.evictor.key))
             && Level(cfg, Replay(cfg, TraceOf(s.log, s.evictor.key)), s.clock) < cfg.burst
    ensures actions + [Delete] <= longer
    ensures !Unseen(cfg, TraceOf(Run(cfg, ttl, longer).log, Run(cfg, ttl, actions).evictor.key))
    ensures Undisturbed(cfg, ttl, actions) ==> Undisturbed(cfg, ttl, longer)
  {
    hide *;
    var s := Run(cfg, ttl, actions);
    var key := s.evictor.key;
    CleanLevels(cfg, ttl, actions, key);
    DeleteLogs(cfg, ttl, s);
    DropIsNew(cfg, TraceOf(s.log, key), s.clock);
    var next;
    longer, next := Then(cfg, ttl, actions, s, Delete);
    longer := DifferenceIsSeen(cfg, ttl, longer, id, key);
  }

  lemma {:induction false} DropIsNew(cfg: Config, trace: Trace, at: real)
    ensures Level(cfg, Replay(cfg, trace + [Dropped(at)]), at) == cfg.burst
    ensures Kept(cfg, trace + [Dropped(at)]) == Kept(cfg, trace)
  {
    ReplayMore(cfg, trace, Dropped(at));
    hide Replay, Kept;
  }

  /**
   For every burst of at least one: a use of the condemned bucket, dated now, between the
   evictor's read and its delete: if the delete follows at once, it is seen.
   */
  lemma {:induction false} UseBeforeDeleteShows(cfg: Config, ttl: real, actions: seq<Action>, id: int, other: int)
    returns (longer: seq<Action>)
    requires cfg.rps > 0.0 && cfg.burst >= 1.0
    requires var s := Run(cfg, ttl, actions);
             && s.evictor.Condemning? && other !in s.callers && Clean(cfg, TraceOf(s.log, s.evictor.key))
             && id in s.callers && s.callers[id].Ready? && s.callers[id].now == s.clock
             && s.callers[id].key == s.evictor.key && !Stale(s, s.evictor.key, s.callers[id].ref)
    ensures actions + [Use(id)] + [Delete] <= longer
    ensures !Unseen(cfg, TraceOf(Run(cfg, ttl, longer).log, Run(cfg, ttl, actions).evictor.key))
  {
    var s := Run(cfg, ttl, actions);
    RunKeepsInv(cfg, ttl, actions);
    assert Enabled(s, Use(id)) && EntryOf(cfg, s, id).Used? && !EntryOf(cfg, s, id).stale && EntryOf(cfg, s, id).at == s.clock;
    hide *;
    UseLogs(cfg, ttl, s, id);
    UsedNow(cfg, TraceOf(s.log, s.evictor.key), EntryOf(cfg, s, id));
    var used, next := Then(cfg, ttl, actions, s, Use(id));
    longer := LossyDeleteShows(cfg, ttl, used, other);
  }

  lemma {:induction false} UsedNow(cfg: Config, trace: Trace, e: Entry)
    requires cfg.rps > 0.0 && cfg.burst >= 1.0 && Clean(cfg, trace) && e.Used? && !e.stale
    ensures Clean(cfg, trace + [e]) && Level(cfg, Replay(cfg, trace + [e]), e.at) < cfg.burst
  {
    hide Level, Replay, Kept, Called, Clean;
    CleanMore(cfg, trace, e);
    ReplayMore(cfg, trace, e);
    TracesStaySane(cfg, trace);
    CalledNowIsNotFull(cfg, Replay(cfg, trace), e.at);
  }

  lemma CalledNowIsNotFull(cfg: Config, b: Bucket, now: real)
    requires cfg.rps > 0.0 && cfg.burst >= 1.0 && Sane(cfg, b)
    ensures Level(cfg, Called(cfg, b, now), now) < cfg.burst
    ensures Level(cfg, Called(cfg, b, now), now)
            == Level(cfg, b, now) - if Level(cfg, b, now) >= 1.0 then 1.0 else 0.0
  {
    CalledStaysSane(cfg, b, now);
    hide Accrued;
  }

  /**
   For every burst of at least one: a use, dated now, of a bucket that has been deleted: unless
   the deleted bucket and the kept one both refuse it, it is seen.
   */
  lemma {:induction false} StaleUseShows(cfg: Config, ttl: real, actions: seq<Action>, id: int, other: int)
    returns (longer: seq<Action>)
    requires cfg.rps > 0.0 && cfg.burst >= 1.0
    requires var s := Run(cfg, ttl, actions);
             && id in s.callers && s.callers[id].Ready? && s.callers[id].ref < |s.heap|
             && s.callers[id].now == s.clock && Stale(s, s.callers[id].key, s.callers[id].ref)
             && other !in s.callers && Clean(cfg, TraceOf(s.log, s.callers[id].key))
             && (AnswerTo(cfg, s.heap[s.callers[id].ref].bucket, s.clock).allowed
                 || AnswerTo(cfg, Kept(cfg, TraceOf(s.log, s.callers[id].key)), s.clock).allowed)
    ensures actions + [Use(id)] <= longer
    ensures !Unseen(cfg, TraceOf(Run(cfg, ttl, longer).log, Run(cfg, ttl, actions).callers[id].key))
  {
    var s := Run(cfg, ttl, actions);
    var key, e := s.callers[id].key, EntryOf(cfg, s, id);
    assert e == Used(s.clock, AnswerTo(cfg, s.heap[s.callers[id].ref].bucket, s.clock), true);
    hide *;
    CleanLevels(cfg, ttl, actions, key);
    UseLogs(cfg, ttl, s, id);
    StaleNow(cfg, TraceOf(s.log, key), e);
    var next;
    longer, next := Then(cfg, ttl, actions, s, Use(id));
    if Unseen(cfg, TraceOf(next.log, key)) {
      longer := DifferenceIsSeen(cfg, ttl, longer, other, key);
    }
  }

  /** A stale use that is not refused by both buckets is seen at once, or leaves them with different tokens. */
  lemma {:induction false} StaleNow(cfg: Config, trace: Trace, e: Entry)
    requires cfg.rps > 0.0 && cfg.burst >= 1.0 && e.Used? && e.stale
    requires Level(cfg, Replay(cfg, trace), e.at) == Level(cfg, Kept(cfg, trace), e.at)
    requires e.answer.allowed || AnswerTo(cfg, Kept(cfg, trace), e.at).allowed
    ensures !Unseen(cfg, trace + [e])
            || Level(cfg, Replay(cfg, trace + [e]), e.at) != Level(cfg, Kept(cfg, trace + [e]), e.at)
  {
    hide Level, Replay, Kept, Called, AnswerTo;
    ReplayMore(cfg, trace, e);
    TracesStaySane(cfg, trace);
    CalledNowIsNotFull(cfg, Kept(cfg, trace), e.at);
    LevelDecides(cfg, Kept(cfg, trace), e.at);
    assert (trace + [e])[..|trace|] == trace;
    if e.answer != AnswerTo(cfg, Kept(cfg, trace), e.at) {
      assert !UnseenAt(cfg, trace + [e], |trace|);
    }
  }

  // --------------------------------------------------------------------------- exactness

  lemma {:induction false} ExtendedIsCalled(cfg: Config, trace: Trace, times: seq<real>)
    requires Clean(cfg, trace)
    ensures Replay(cfg, Extended(cfg, trace, times)) == CalledAll(cfg, Replay(cfg, trace), times)
    ensures Clean(cfg, Extended(cfg, trace, times))
    decreases |times|
  {
    hide Replay, AnswerTo, Called, Clean;
    if times != [] {
      var e := Used(times[0], AnswerTo(cfg, Replay(cfg, trace), times[0]), false);
      ReplayMore(cfg, trace, e);
      CleanMore(cfg, trace, e);
      ExtendedIsCalled(cfg, trace + [e], times[1..]);
    }
  }

  /** If a bucket does not refill within ttl, an undisturbed run shows the evictor. */
  lemma {:induction false} ShortTtlShows(cfg: Config, ttl: real) returns (actions: seq<Action>)
    requires cfg.rps > 0.0 && cfg.burst >= 1.0 && 0.0 <= ttl && ttl * cfg.rps < cfg.burst
    ensures Undisturbed(cfg, ttl, actions) && !Unseen(cfg, TraceOf(Run(cfg, ttl, actions).log, "k"))
  {
    hide *;
    var times, gap := EmptyAndIdle(cfg, ttl);
    StartsClean(cfg, ttl);
    var s := NewLimiter;
    ExtendedIsCalled(cfg, [], times);
    actions, s := CallsAlone(cfg, ttl, [], s, 0, "k", times);
    SweepSteps(cfg, ttl, s, gap);
    actions, s := Then(cfg, ttl, actions, s, Tick(s.clock + gap));
    actions, s := Then(cfg, ttl, actions, s, SweepStart);
    RunKeepsInv(cfg, ttl, actions);
    IdleIsCondemned(cfg, ttl, s, "k");
    actions, s := Then(cfg, ttl, actions, s, Inspect("k"));
    actions := LossyDeleteShows(cfg, ttl, actions, 0);
  }

  lemma StartsClean(cfg: Config, ttl: real)
    ensures NewLimiter == Run(cfg, ttl, []) == Limiter(0.0, [], map[], map[], Resting, [])
    ensures TraceOf([], "k") == [] && Clean(cfg, []) && Replay(cfg, []) == NewBucket(0.0) && Undisturbed(cfg, ttl, [])
  {
  }

  lemma SweepSteps(cfg: Config, ttl: real, s: Limiter, gap: real)
    requires s.evictor.Resting? && gap >= 0.0
    ensures var r := Step(cfg, ttl, s, Tick(s.clock + gap));
            && Step(cfg, ttl, r, SweepStart) == s.(clock := s.clock + gap, evictor := Sweeping(s.clock + gap))
            && !Disturbs(s, Tick(s.clock + gap)) && !Disturbs(r, SweepStart)
  {
  }

  lemma IdleIsCondemned(cfg: Config, ttl: real, s: Limiter, key: string)
    requires Inv(cfg, s) && s.evictor == Sweeping(s.clock)
    requires var b := Replay(cfg, TraceOf(s.log, key)); b.last.Some? && s.clock - b.last.value > ttl
    ensures Step(cfg, ttl, s, Inspect(key)) == s.(evictor := Condemning(s.clock, key)) && !Disturbs(s, Inspect(key))
  {
    assert KeyTraced(cfg, s, key);
    hide Replay, TraceOf, Consistent, InOrder;
  }

  ghost predicate AlwaysUnseen(cfg: Config, ttl: real) {
    forall actions, key :: Undisturbed(cfg, ttl, actions) ==> Unseen(cfg, TraceOf(Run(cfg, ttl, actions).log, key))
  }

  /**
   With every step apart: no undisturbed interleaving shows the evictor if and only if a bucket
   refills completely within ttl.
   */
  lemma {:induction false} UnseenExactlyWhenRefilled(cfg: Config, ttl: real)
    requires cfg.rps > 0.0 && cfg.burst >= 1.0 && 0.0 <= ttl
    ensures AlwaysUnseen(cfg, ttl) <==> ttl * cfg.rps >= cfg.burst
  {
    hide Run, Undisturbed, Unseen, TraceOf;
    if ttl * cfg.rps >= cfg.burst {
      forall actions, key | Undisturbed(cfg, ttl, actions)
        ensures Unseen(cfg, TraceOf(Run(cfg, ttl, actions).log, key))
      {
        EvictionUnseen(cfg, ttl, actions, key);
      }
    } else {
      var actions := ShortTtlShows(cfg, ttl);
    }
  }

  // ------------------------------------------------------------------- disturbed runs

  /** One call at the start. */
  lemma {:induction false} CalledOnce(cfg: Config, ttl: real) returns (actions: seq<Action>, s: Limiter)
    ensures s == Run(cfg, ttl, actions) && s == Limiter(0.0, s.heap, s.table, map[], Resting, s.log)
    ensures var trace := TraceOf(s.log, "k");
            && Clean(cfg, trace) && Replay(cfg, trace).last.Some? && Replay(cfg, trace).last.value == 0.0
  {
    var e := Used(0.0, AnswerTo(cfg, NewBucket(0.0), 0.0), false);
    var last := Called(cfg, NewBucket(0.0), 0.0).last;
    assert last.Some? && last.value == 0.0 && [] + [e] == [e];
    hide *;
    StartsClean(cfg, ttl);
    CleanMore(cfg, [], e);
    ReplayMore(cfg, [], e);
    actions, s := CallAlone(cfg, ttl, [], NewLimiter, 0, "k", 0.0);
  }

  /** Then a caller looks the bucket up and waits while the evictor condemns it. */
  lemma {:induction false} WaitingCaller(cfg: Config, ttl: real) returns (actions: seq<Action>, s: Limiter)
    requires 0.0 <= ttl
    ensures s == Run(cfg, ttl, actions) && s.evictor == Condemning(ttl + 1.0, "k") && s.clock == ttl + 1.0
    ensures HasBucket(s, 1, "k") && 2 !in s.callers && Clean(cfg, TraceOf(s.log, "k"))
  {
    hide *;
    actions, s := CalledOnce(cfg, ttl);
    RunKeepsInv(cfg, ttl, actions);
    actions, s := GetsBucket(cfg, ttl, actions, s, 1, "k", 0.0);
    var holding := s;
    assert 2 !in holding.callers - {1};
    SweepSteps(cfg, ttl, s, ttl + 1.0);
    actions, s := Then(cfg, ttl, actions, s, Tick(s.clock + (ttl + 1.0)));
    actions, s := Then(cfg, ttl, actions, s, SweepStart);
    RunKeepsInv(cfg, ttl, actions);
    IdleIsCondemned(cfg, ttl, s, "k");
    actions, s := Then(cfg, ttl, actions, s, Inspect("k"));
    SameHolder(holding, s, 1, "k");
  }

  lemma SameHolder(s: Limiter, r: Limiter, id: int, key: string)
    requires HasBucket(s, id, key) && r.callers == s.callers && r.table == s.table && r.heap == s.heap
    ensures HasBucket(r, id, key)
  {
  }

  lemma ClockRead(cfg: Config, ttl: real, s: Limiter, id: int, key: string)
    requires HasBucket(s, id, key)
    ensures var r := Step(cfg, ttl, s, ReadClock(id));
            && r == s.(callers := r.callers) && r.callers == s.callers[id := Ready(key, s.callers[id].ref, s.clock)]
            && !Stale(r, key, s.callers[id].ref)
  {
  }

  /** For every ttl, every positive rate and every burst of at least one, some interleaving shows the evictor. */
  lemma {:induction false} EvictorCanBeSeen(cfg: Config, ttl: real) returns (actions: seq<Action>)
    requires cfg.rps > 0.0 && cfg.burst >= 1.0 && 0.0 <= ttl
    ensures !Unseen(cfg, TraceOf(Run(cfg, ttl, actions).log, "k"))
  {
    hide *;
    var s;
    actions, s := WaitingCaller(cfg, ttl);
    ClockRead(cfg, ttl, s, 1, "k");
    actions, s := Then(cfg, ttl, actions, s, ReadClock(1));
    actions := UseBeforeDeleteShows(cfg, ttl, actions, 1, 2);
  }

  /** With a burst below one, a bucket that has been used always holds the burst. */
  ghost predicate AtBurst(cfg: Config, b: Bucket) {
    b.last.Some? ==> b.tokens == cfg.burst
  }

  lemma AtBurstRefuses(cfg: Config, b: Bucket, now: real)
    requires cfg.rps >= 0.0 && cfg.burst < 1.0 && AtBurst(cfg, b)
    ensures AtBurst(cfg, Called(cfg, b, now)) && AnswerTo(cfg, b, now) == AnswerTo(cfg, NewBucket(0.0), 0.0)
  {
    if b.last.Some? && now > b.last.value {
      AccruedGrows(cfg, b.last.value, now);
    }
    hide Accrued;
    assert Level(cfg, b, now) == cfg.burst;
  }

  ghost predicate AllRefused(cfg: Config, log: seq<Logged>) {
    forall n :: 0 <= n < |log| && log[n].entry.Used? ==> log[n].entry.answer == AnswerTo(cfg, NewBucket(0.0), 0.0)
  }

  lemma {:induction false} RunRefuses(cfg: Config, ttl: real, actions: seq<Action>)
    requires cfg.rps >= 0.0 && cfg.burst < 1.0
    ensures forall cell :: cell in Run(cfg, ttl, actions).heap ==> AtBurst(cfg, cell.bucket)
    ensures AllRefused(cfg, Run(cfg, ttl, actions).log)
  {
    if actions != [] {
      var s, a := Run(cfg, ttl, actions[..|actions| - 1]), actions[|actions| - 1];
      RunRefuses(cfg, ttl, actions[..|actions| - 1]);
      if a.Use? && Enabled(s, a) {
        AtBurstRefuses(cfg, s.heap[s.callers[a.id].ref].bucket, s.callers[a.id].now);
      }
      hide Called, AnswerTo, RateLimiter.LastActive;
    }
  }

  lemma {:induction false} RefusedTrace(cfg: Config, log: seq<Logged>, key: string)
    requires cfg.rps >= 0.0 && cfg.burst < 1.0 && AllRefused(cfg, log)
    ensures Unseen(cfg, TraceOf(log, key)) && AtBurst(cfg, Kept(cfg, TraceOf(log, key)))
  {
    hide Unseen, AnswerTo, Called, AtBurst, Kept;
    if log == [] {
      NothingUnseen(cfg);
    } else {
      var init, e := log[..|log| - 1], log[|log| - 1];
      assert log == init + [e];
      RefusedTrace(cfg, init, key);
      TraceMore(init, e, key);
      hide TraceOf;
      if e.key == key {
        var trace := TraceOf(init, key);
        AtBurstRefuses(cfg, Kept(cfg, trace), e.entry.at);
        UnseenMore(cfg, trace, e.entry);
        ReplayMore(cfg, trace, e.entry);
      }
    }
  }

  lemma NothingUnseen(cfg: Config)
    ensures Unseen(cfg, []) && AtBurst(cfg, Kept(cfg, [])) && forall key :: TraceOf([], key) == []
  {
  }

  /**
   Over all interleavings, disturbed or not, and for any ttl: the evictor is never seen if and only
   if the burst is below one, that is, if nothing is ever let through.
   */
  lemma {:induction false} NeverSeenExactly(cfg: Config, ttl: real)
    requires cfg.rps > 0.0 && 0.0 <= ttl
    ensures (forall actions, key :: Unseen(cfg, TraceOf(Run(cfg, ttl, actions).log, key))) <==> cfg.burst < 1.0
  {
    hide *;
    if cfg.burst < 1.0 {
      forall actions, key
        ensures Unseen(cfg, TraceOf(Run(cfg, ttl, actions).log, key))
      {
        RunRefuses(cfg, ttl, actions);
        RefusedTrace(cfg, Run(cfg, ttl, actions).log, key);
      }
    } else {
      var actions := EvictorCanBeSeen(cfg, ttl);
    }
  }
}
