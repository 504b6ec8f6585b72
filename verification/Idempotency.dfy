/**
 Reserving an idempotency key in api/idempotency's LocalCache: a compare-and-swap loop over
 a concurrent map, racing other callers and a background evictor. Every map operation and
 every reading of the clock is a step of its own. The clock counts whole seconds and does
 not step back; nobody calls Store or Delete.
 */
module Idempotency {

  /** Where a running CheckAndSet has got to. `expiry` is the value it tries to store. */
  datatype Caller =
    | Trying(key: string, expiry: int)                 // about to LoadOrStore
    | Loaded(key: string, expiry: int, actual: int)    // found a value, about to read the clock
    | Swapping(key: string, expiry: int, actual: int)  // saw it expired, about to CompareAndSwap

  /** The evictor between its ticks, or holding an entry it has read and found expired. */
  datatype Evictor = Resting | Sweeping(now: int) | Condemning(now: int, key: string, value: int)

  /** A reservation: who got which key until when, and the time at which it was stored. */
  datatype Win = Win(id: int, key: string, expiry: int, at: int)

  /** A call that was told the key is taken: the expiry it had read, and its reading of the clock. */
  datatype Refusal = Refusal(id: int, key: string, read: int, at: int)

  /** `begun` counts the calls that have been made. */
  datatype Cache = Cache(
    clock: int, store: map<string, int>, callers: map<int, Caller>, evictor: Evictor, wins: seq<Win>,
    refusals: seq<Refusal>, begun: nat)

  const NewCache := Cache(0, map[], map[], Resting, [], [], 0)

  datatype Action =
    | Tick(to: int)
    | Start(id: int, key: string)
    | LoadOrStore(id: int)
    | ReadClock(id: int)
    | CompareAndSwap(id: int)
    | SweepStart
    | Inspect(key: string)
    | Delete
    | SweepEnd

  predicate Enabled(c: Cache, a: Action) {
    match a
    case Tick(to) => c.clock <= to
    case Start(id, key) => id !in c.callers
    case LoadOrStore(id) => id in c.callers && c.callers[id].Trying?
    case ReadClock(id) => id in c.callers && c.callers[id].Loaded?
    case CompareAndSwap(id) => id in c.callers && c.callers[id].Swapping?
    case SweepStart => c.evictor.Resting?
    case Inspect(key) => c.evictor.Sweeping? && key in c.store
    case Delete => c.evictor.Condemning?
    case SweepEnd => c.evictor.Sweeping?
  }

  /** The caller's value is stored and its StoreIfAbsent returns true. */
  function Won(c: Cache, id: int): Cache
    requires id in c.callers
  {
    var w := c.callers[id];
    c.(store := c.store[w.key := w.expiry], callers := c.callers - {id},
       wins := c.wins + [Win(id, w.key, w.expiry, c.clock)])
  }

  /** One atomic step; an action that cannot happen leaves everything as it is. */
  function Step(ttl: int, c: Cache, a: Action): Cache {
    if !Enabled(c, a) then c
    else match a
      case Tick(to) => c.(clock := to)
      case Start(id, key) => c.(callers := c.callers[id := Trying(key, c.clock + ttl)], begun := c.begun + 1)
      case LoadOrStore(id) =>
        var w := c.callers[id];
        if w.key !in c.store then Won(c, id)
        else c.(callers := c.callers[id := Loaded(w.key, w.expiry, c.store[w.key])])
      case ReadClock(id) =>
        var w := c.callers[id];
        if w.actual > c.clock
        then c.(callers := c.callers - {id}, refusals := c.refusals + [Refusal(id, w.key, w.actual, c.clock)])
        else c.(callers := c.callers[id := Swapping(w.key, w.expiry, w.actual)])
      case CompareAndSwap(id) =>
        var w := c.callers[id];
        if w.key in c.store && c.store[w.key] == w.actual then Won(c, id)
        else c.(callers := c.callers[id := Trying(w.key, w.expiry)])
      case SweepStart => c.(evictor := Sweeping(c.clock))
      case Inspect(key) =>
        if c.store[key] <= c.evictor.now then c.(evictor := Condemning(c.evictor.now, key, c.store[key])) else c
      case Delete => c.(store := c.store - {c.evictor.key}, evictor := Sweeping(c.evictor.now))
      case SweepEnd => c.(evictor := Resting)
  }

  function Run(ttl: int, actions: seq<Action>): Cache {
    if actions == [] then NewCache
    else Step(ttl, Run(ttl, actions[..|actions| - 1]), actions[|actions| - 1])
  }

  /** What a run must not contain: the entry being deleted was replaced since it was read, and is live. */
  predicate DropsLive(c: Cache, a: Action) {
    a.Delete? && c.evictor.Condemning? && c.evictor.key in c.store && c.clock < c.store[c.evictor.key]
  }

  ghost predicate NeverDropsLive(ttl: int, actions: seq<Action>) {
    forall n :: 0 <= n < |actions| ==> !DropsLive(Run(ttl, actions[..n]), actions[n])
  }

  // --------------------------------------------------------------- what every run keeps

  /** A win that has not expired is still what the store holds. */
  ghost predicate LiveWinsStored(c: Cache) {
    forall n :: 0 <= n < |c.wins| && c.clock < c.wins[n].expiry ==>
      c.wins[n].key in c.store && c.store[c.wins[n].key] == c.wins[n].expiry
  }

  /** Whatever a caller is about to replace, or the evictor about to delete, has expired. */
  ghost predicate OnlyExpiredThreatened(c: Cache) {
    && (forall id :: id in c.callers && c.callers[id].Swapping? ==> c.callers[id].actual <= c.clock)
    && (c.evictor.Sweeping? || c.evictor.Condemning? ==> c.evictor.now <= c.clock)
    && (c.evictor.Condemning? ==> c.evictor.value <= c.clock)
  }

  /** Two wins of a key: the second came once the first had expired. */
  predicate InTurn(first: Win, second: Win) {
    first.key == second.key ==> first.expiry <= second.at
  }

  ghost predicate WinsInTurn(c: Cache) {
    && (forall n :: 0 <= n < |c.wins| ==> c.wins[n].at <= c.clock)
    && (forall m, n :: 0 <= m < n < |c.wins| ==> InTurn(c.wins[m], c.wins[n]))
  }

  ghost predicate Inv(c: Cache) {
    LiveWinsStored(c) && OnlyExpiredThreatened(c) && WinsInTurn(c)
  }

  /** Storing a value where there was none, or only an expired one, is a sound win. */
  lemma WinKeepsInv(c: Cache, id: int)
    requires Inv(c) && id in c.callers
    requires var key := c.callers[id].key; key in c.store ==> c.store[key] <= c.clock
    ensures Inv(Won(c, id))
  {
    var w := c.callers[id];
    var r := Won(c, id);
    forall n | 0 <= n < |c.wins|
      ensures c.wins[n].key == w.key ==> c.wins[n].expiry <= c.clock
    {
    }
  }

  lemma StepKeepsInv(ttl: int, c: Cache, a: Action)
    requires Inv(c) && !DropsLive(c, a)
    ensures Inv(Step(ttl, c, a))
  {
    if Enabled(c, a) {
      match a
      case LoadOrStore(id) =>
        if c.callers[id].key !in c.store {
          WinKeepsInv(c, id);
        }
      case CompareAndSwap(id) =>
        if c.callers[id].key in c.store && c.store[c.callers[id].key] == c.callers[id].actual {
          WinKeepsInv(c, id);
        }
      case _ =>
    }
  }

  lemma {:induction false} RunKeepsInv(ttl: int, actions: seq<Action>)
    requires NeverDropsLive(ttl, actions)
    ensures Inv(Run(ttl, actions))
  {
    if actions != [] {
      var earlier := actions[..|actions| - 1];
      forall n | 0 <= n < |earlier|
        ensures !DropsLive(Run(ttl, earlier[..n]), earlier[n])
      {
        assert earlier[..n] == actions[..n];
      }
      RunKeepsInv(ttl, earlier);
      StepKeepsInv(ttl, Run(ttl, earlier), actions[|actions| - 1]);
    }
  }

  /**
   In every interleaving of callers and evictor in which the evictor never deletes a live
   entry, which takes a replacement between its read and its delete, once a caller wins a key
   with expiry e nobody wins that key again before the clock reaches e.
   */
  lemma {:induction false} WinsExclude(ttl: int, actions: seq<Action>, m: nat, n: nat)
    requires NeverDropsLive(ttl, actions)
    requires m < n < |Run(ttl, actions).wins|
    requires Run(ttl, actions).wins[m].key == Run(ttl, actions).wins[n].key
    ensures Run(ttl, actions).wins[m].expiry <= Run(ttl, actions).wins[n].at
  {
    hide Run;
    RunKeepsInv(ttl, actions);
    assert InTurn(Run(ttl, actions).wins[m], Run(ttl, actions).wins[n]);
  }

  /** The entry the evictor read has expired, so a live one in its place is a replacement. */
  lemma {:induction false} LiveWasReplaced(ttl: int, actions: seq<Action>)
    requires NeverDropsLive(ttl, actions) && DropsLive(Run(ttl, actions), Delete)
    ensures var c := Run(ttl, actions); c.store[c.evictor.key] != c.evictor.value
  {
    hide Run;
    RunKeepsInv(ttl, actions);
  }

  // ------------------------------------------------------------ a caller without competition

  /** The steps of one CheckAndSet; those that no longer apply do nothing. */
  function Uncontended(ttl: int, c: Cache, id: int, key: string): Cache {
    Step(ttl, Step(ttl, Step(ttl, Step(ttl, c, Start(id, key)), LoadOrStore(id)), ReadClock(id)), CompareAndSwap(id))
  }

  /** A caller that nobody disturbs wins exactly when there is no live entry, and is refused otherwise. */
  lemma UncontendedCallDecides(ttl: int, c: Cache, id: int, key: string)
    requires id !in c.callers
    ensures var r := Uncontended(ttl, c, id, key);
            if key !in c.store || c.store[key] <= c.clock
            then r == c.(store := c.store[key := c.clock + ttl], begun := c.begun + 1,
                         wins := c.wins + [Win(id, key, c.clock + ttl, c.clock)])
            else r == c.(refusals := c.refusals + [Refusal(id, key, c.store[key], c.clock)], begun := c.begun + 1)
  {
    var w := Trying(key, c.clock + ttl);
    assert (c.callers[id := w]) - {id} == c.callers;
    if key in c.store {
      var l := Loaded(key, c.clock + ttl, c.store[key]);
      assert (c.callers[id := w][id := l]) - {id} == c.callers;
      var x := Swapping(key, c.clock + ttl, c.store[key]);
      assert (c.callers[id := w][id := l][id := x]) - {id} == c.callers;
    }
  }

  // ---------------------------------------------------------------- the split that breaks it

  lemma Then(ttl: int, actions: seq<Action>, c: Cache, a: Action) returns (longer: seq<Action>, next: Cache)
    requires c == Run(ttl, actions)
    ensures longer == actions + [a] && next == Step(ttl, c, a) == Run(ttl, longer)
  {
    longer, next := actions + [a], Step(ttl, c, a);
    assert longer[..|actions|] == actions;
  }

  /** A caller that nobody disturbs, as steps of a run. */
  lemma CallAlone(ttl: int, actions: seq<Action>, c: Cache, id: int, key: string)
    returns (longer: seq<Action>, next: Cache)
    requires c == Run(ttl, actions) && id !in c.callers && (key !in c.store || c.store[key] <= c.clock)
    ensures next == Run(ttl, longer)
    ensures next == c.(store := c.store[key := c.clock + ttl], begun := c.begun + 1,
                       wins := c.wins + [Win(id, key, c.clock + ttl, c.clock)])
  {
    UncontendedCallDecides(ttl, c, id, key);
    hide Run, Step;
    longer, next := Then(ttl, actions, c, Start(id, key));
    longer, next := Then(ttl, longer, next, LoadOrStore(id));
    longer, next := Then(ttl, longer, next, ReadClock(id));
    longer, next := Then(ttl, longer, next, CompareAndSwap(id));
  }

  /** Time passes, and the evictor reads an entry that has expired by then. */
  lemma Condemns(ttl: int, actions: seq<Action>, c: Cache, to: int, key: string)
    returns (longer: seq<Action>, next: Cache)
    requires c == Run(ttl, actions) && c.evictor.Resting? && c.clock <= to && key in c.store && c.store[key] <= to
    ensures next == Run(ttl, longer) && next == c.(clock := to, evictor := Condemning(to, key, c.store[key]))
  {
    hide Run;
    longer, next := Then(ttl, actions, c, Tick(to));
    longer, next := Then(ttl, longer, next, SweepStart);
    longer, next := Then(ttl, longer, next, Inspect(key));
  }

  /**
   For every positive ttl: the evictor reads an expired entry, a caller replaces it, and the
   evictor deletes the replacement: a third caller then wins the same key at the same time as
   the second.
   */
  lemma SplitLetsTwoWin(ttl: int) returns (actions: seq<Action>)
    requires ttl > 0
    ensures Run(ttl, actions).wins == [Win(1, "k", ttl, 0), Win(2, "k", 2 * ttl, ttl), Win(3, "k", 2 * ttl, ttl)]
  {
    var c;
    actions, c := [], NewCache;
    assert c == Run(ttl, actions);
    hide Run, Step;
    actions, c := CallAlone(ttl, actions, c, 1, "k");
    actions, c := Condemns(ttl, actions, c, ttl, "k");
    actions, c := CallAlone(ttl, actions, c, 2, "k");
    DeleteStep(ttl, c);
    actions, c := Then(ttl, actions, c, Delete);
    actions, c := CallAlone(ttl, actions, c, 3, "k");
  }

  /** Two callers that both read the entry "k", expired since, and go on to replace it. */
  lemma BothRead(ttl: int) returns (actions: seq<Action>)
    requires ttl > 0
    ensures var w := Swapping("k", 2 * ttl, ttl);
            Run(ttl, actions) == NewCache.(clock := ttl, store := map["k" := ttl], callers := map[2 := w, 3 := w],
                                           wins := [Win(1, "k", ttl, 0)], begun := 3)
  {
    var c;
    actions, c := [], NewCache;
    assert c == Run(ttl, actions);
    hide Run;
    actions, c := CallAlone(ttl, actions, c, 1, "k");
    assert c == NewCache.(store := map["k" := ttl], wins := [Win(1, "k", ttl, 0)], begun := 1);
    actions, c := Then(ttl, actions, c, Tick(ttl));
    var t, l, w := Trying("k", 2 * ttl), Loaded("k", 2 * ttl, ttl), Swapping("k", 2 * ttl, ttl);
    actions, c := Then(ttl, actions, c, Start(2, "k"));
    actions, c := Then(ttl, actions, c, Start(3, "k"));
    assert c.callers == map[2 := t, 3 := t];
    actions, c := Then(ttl, actions, c, LoadOrStore(2));
    actions, c := Then(ttl, actions, c, LoadOrStore(3));
    assert c.callers == map[2 := l, 3 := l];
    actions, c := Then(ttl, actions, c, ReadClock(2));
    actions, c := Then(ttl, actions, c, ReadClock(3));
    assert c.callers == map[2 := w, 3 := w];
  }

  /**
   For every positive ttl: two callers read the same expired entry at the same time and both go on
   to replace it. The one whose swap comes first wins; the other finds the entry changed, reads it
   again, and is refused.
   */
  lemma RacersWinOnce(ttl: int) returns (actions: seq<Action>)
    requires ttl > 0
    ensures Run(ttl, actions).wins == [Win(1, "k", ttl, 0), Win(2, "k", 2 * ttl, ttl)]
    ensures Run(ttl, actions).refusals == [Refusal(3, "k", 2 * ttl, ttl)]
  {
    var c;
    actions := BothRead(ttl);
    c := Run(ttl, actions);
    hide Run;
    actions, c := Then(ttl, actions, c, CompareAndSwap(2));
    assert c.callers == map[3 := Swapping("k", 2 * ttl, ttl)] && c.store == map["k" := 2 * ttl];
    actions, c := Then(ttl, actions, c, CompareAndSwap(3));
    assert c.callers == map[3 := Trying("k", 2 * ttl)];
    actions, c := Then(ttl, actions, c, LoadOrStore(3));
    actions, c := Then(ttl, actions, c, ReadClock(3));
  }

  lemma DeleteStep(ttl: int, c: Cache)
    requires c.evictor.Condemning?
    ensures Step(ttl, c, Delete) == c.(store := c.store - {c.evictor.key}, evictor := Sweeping(c.evictor.now))
  {
  }

  predicate Reserves(w: Win, key: string, expiry: int) {
    w.key == key && w.expiry == expiry
  }

  /** Every stored value was put there by a win. */
  ghost predicate StoredWasWon(c: Cache) {
    forall key :: key in c.store ==> exists n :: 0 <= n < |c.wins| && Reserves(c.wins[n], key, c.store[key])
  }

  lemma WonStaysWon(c: Cache, id: int)
    requires StoredWasWon(c) && id in c.callers
    ensures StoredWasWon(Won(c, id))
  {
    var w, r := c.callers[id], Won(c, id);
    forall key | key in r.store
      ensures exists n :: 0 <= n < |r.wins| && Reserves(r.wins[n], key, r.store[key])
    {
      if key == w.key {
        assert Reserves(r.wins[|c.wins|], key, r.store[key]);
      } else {
        var n :| 0 <= n < |c.wins| && Reserves(c.wins[n], key, c.store[key]);
        assert r.wins[n] == c.wins[n];
      }
    }
  }

  lemma {:induction false} RunStoredWasWon(ttl: int, actions: seq<Action>)
    ensures StoredWasWon(Run(ttl, actions))
  {
    if actions != [] {
      var c, a := Run(ttl, actions[..|actions| - 1]), actions[|actions| - 1];
      RunStoredWasWon(ttl, actions[..|actions| - 1]);
      if Enabled(c, a) && (a.LoadOrStore? || a.CompareAndSwap?) {
        WonStaysWon(c, a.id);
      }
    }
  }

  /** The value was the expiry of a reservation of the key that had been made by the time. */
  ghost predicate WasWon(c: Cache, key: string, expiry: int) {
    exists n :: 0 <= n < |c.wins| && Reserves(c.wins[n], key, expiry)
  }

  lemma {:induction false} WonMore(c: Cache, r: Cache)
    requires c.wins <= r.wins
    ensures forall key, expiry :: WasWon(c, key, expiry) ==> WasWon(r, key, expiry)
  {
    forall key, expiry | WasWon(c, key, expiry)
      ensures WasWon(r, key, expiry)
    {
      var n :| 0 <= n < |c.wins| && Reserves(c.wins[n], key, expiry);
      assert r.wins[n] == c.wins[n];
    }
  }

  /** What a running call has read, and what a refused one was refused for. */
  ghost predicate ReadsWereWon(c: Cache) {
    && (forall id :: id in c.callers && c.callers[id].Loaded? ==> WasWon(c, c.callers[id].key, c.callers[id].actual))
    && (forall n :: 0 <= n < |c.refusals| ==>
          c.refusals[n].read > c.refusals[n].at && WasWon(c, c.refusals[n].key, c.refusals[n].read))
  }

  lemma {:induction false} StepReadsWereWon(ttl: int, c: Cache, a: Action)
    requires ReadsWereWon(c) && StoredWasWon(c)
    ensures ReadsWereWon(Step(ttl, c, a))
  {
    WonMore(c, Step(ttl, c, a));
    assert forall key :: key in c.store ==> WasWon(c, key, c.store[key]);
    hide WasWon, StoredWasWon;
  }

  lemma {:induction false} RunReadsWereWon(ttl: int, actions: seq<Action>)
    ensures ReadsWereWon(Run(ttl, actions))
  {
    if actions != [] {
      var earlier := actions[..|actions| - 1];
      RunReadsWereWon(ttl, earlier);
      RunStoredWasWon(ttl, earlier);
      StepReadsWereWon(ttl, Run(ttl, earlier), actions[|actions| - 1]);
      hide Step, ReadsWereWon, StoredWasWon;
    }
  }

  /**
   In every interleaving a call is refused only if it read a reservation of its key that some call
   had won and that had not expired at the refused call's own reading of the clock.
   */
  lemma {:induction false} RefusedOnlyIfLive(ttl: int, actions: seq<Action>, n: nat)
    requires n < |Run(ttl, actions).refusals|
    ensures var c := Run(ttl, actions);
            c.refusals[n].at < c.refusals[n].read && WasWon(c, c.refusals[n].key, c.refusals[n].read)
  {
    hide Run, WasWon;
    RunReadsWereWon(ttl, actions);
  }

  predicate Adds(c: Cache) {
    c.begun == |c.callers| + |c.wins| + |c.refusals|
  }

  /** A running call that goes on, or ends with an answer. */
  lemma {:induction false} MoveAnswers(c: Cache, r: Cache, id: int)
    requires Adds(c) && r.callers - {id} == c.callers - {id} && r.begun == c.begun
    requires id in c.callers
    requires |r.wins| + |r.refusals| == |c.wins| + |c.refusals| + if id in r.callers then 0 else 1
    ensures Adds(r)
  {
    SizeOfOthers(c.callers, id);
    SizeOfOthers(r.callers, id);
  }

  /** A step of a call moves that call only, and answers it if it ends it. */
  lemma MovesOne(ttl: int, c: Cache, a: Action)
    requires Enabled(c, a) && (a.LoadOrStore? || a.ReadClock? || a.CompareAndSwap?)
    ensures var r := Step(ttl, c, a);
            && r.callers - {a.id} == c.callers - {a.id} && r.begun == c.begun
            && |r.wins| + |r.refusals| == |c.wins| + |c.refusals| + if a.id in r.callers then 0 else 1
  {
  }

  lemma {:induction false} StepAnswers(ttl: int, c: Cache, a: Action)
    requires Adds(c)
    ensures Adds(Step(ttl, c, a))
  {
    if Enabled(c, a) && (a.LoadOrStore? || a.ReadClock? || a.CompareAndSwap?) {
      MovesOne(ttl, c, a);
      assert a.id in c.callers;
      hide *;
      MoveAnswers(c, Step(ttl, c, a), a.id);
    } else if Enabled(c, a) && a.Start? {
      StartAnswers(ttl, c, a.id, a.key);
      hide *;
    } else {
      hide Won;
    }
  }

  lemma {:induction false} StartAnswers(ttl: int, c: Cache, id: int, key: string)
    requires Adds(c) && id !in c.callers
    ensures Adds(Step(ttl, c, Start(id, key)))
  {
    var r := Step(ttl, c, Start(id, key));
    assert r.callers - {id} == c.callers;
    SizeOfOthers(r.callers, id);
  }

  /** In every interleaving, the calls made are those still running, those that won and those that were refused. */
  lemma {:induction false} EveryCallIsAnswered(ttl: int, actions: seq<Action>)
    ensures var c := Run(ttl, actions); c.begun == |c.callers| + |c.wins| + |c.refusals|
  {
    assert actions == [] ==> Adds(Run(ttl, actions));
    if actions != [] {
      EveryCallIsAnswered(ttl, actions[..|actions| - 1]);
      StepAnswers(ttl, Run(ttl, actions[..|actions| - 1]), actions[|actions| - 1]);
      hide Step;
    }
  }

  lemma SizeOfOthers(m: map<int, Caller>, id: int)
    ensures |m| == |m - {id}| + if id in m then 1 else 0
  {
    assert (m - {id}).Keys == m.Keys - {id};
    assert |m.Keys| == |m| && |(m - {id}).Keys| == |m - {id}|;
  }

  /** The next step of a running call. */
  function OwnStep(w: Caller, id: int): Action {
    match w
    case Trying(_, _) => LoadOrStore(id)
    case Loaded(_, _, _) => ReadClock(id)
    case Swapping(_, _, _) => CompareAndSwap(id)
  }

  function OwnSteps(ttl: int, c: Cache, id: int, n: nat): Cache
    decreases n
  {
    if n == 0 || id !in c.callers then c else OwnSteps(ttl, Step(ttl, c, OwnStep(c.callers[id], id)), id, n - 1)
  }

  /**
   From every state: a running call that has not read a live entry and finds none wins within four
   more steps of its own, also when its compare-and-swap fails because the entry it read is gone
   or replaced.
   */
  lemma UnrefusedCallWins(ttl: int, c: Cache, id: int)
    requires id in c.callers && (c.callers[id].Loaded? ==> c.callers[id].actual <= c.clock)
    requires var key := c.callers[id].key; key in c.store ==> c.store[key] <= c.clock
    ensures var w, r := c.callers[id], OwnSteps(ttl, c, id, 5);
            r == Won(c, id) && r.wins == c.wins + [Win(id, w.key, w.expiry, c.clock)]
  {
    match c.callers[id]
    case Trying(_, _) => TryingWins(ttl, c, id, 5);
    case Loaded(_, _, _) =>
      var d := Step(ttl, c, ReadClock(id));
      assert Won(d, id) == Won(c, id);
      SwappingWins(ttl, d, id, 4);
    case Swapping(_, _, _) => SwappingWins(ttl, c, id, 5);
  }

  lemma TryingWins(ttl: int, c: Cache, id: int, n: nat)
    requires id in c.callers && c.callers[id].Trying? && n >= 3
    requires var key := c.callers[id].key; key in c.store ==> c.store[key] <= c.clock
    ensures OwnSteps(ttl, c, id, n) == Won(c, id)
  {
    var d := Step(ttl, c, LoadOrStore(id));
    if c.callers[id].key in c.store {
      var e := Step(ttl, d, ReadClock(id));
      var f := Step(ttl, e, CompareAndSwap(id));
      assert f == Won(e, id) && Won(e, id) == Won(c, id) by {
        assert e.callers - {id} == c.callers - {id};
      }
      assert OwnSteps(ttl, f, id, n - 3) == f;
      assert OwnSteps(ttl, e, id, n - 2) == f && OwnSteps(ttl, d, id, n - 1) == f;
    } else {
      assert OwnSteps(ttl, d, id, n - 1) == d;
    }
  }

  lemma SwappingWins(ttl: int, c: Cache, id: int, n: nat)
    requires id in c.callers && c.callers[id].Swapping? && n >= 4
    requires var key := c.callers[id].key; key in c.store ==> c.store[key] <= c.clock
    ensures OwnSteps(ttl, c, id, n) == Won(c, id)
  {
    var d := Step(ttl, c, CompareAndSwap(id));
    if id in d.callers {
      TryingWins(ttl, d, id, n - 1);
      assert Won(d, id) == Won(c, id) by {
        assert d.callers - {id} == c.callers - {id};
      }
    } else {
      assert OwnSteps(ttl, d, id, n - 1) == d;
    }
  }

  /** Two wins of the key overlap: the second came before the first had expired. */
  ghost predicate TwoWinners(c: Cache, key: string) {
    exists m, n :: 0 <= m < n < |c.wins| && c.wins[m].key == c.wins[n].key == key && !InTurn(c.wins[m], c.wins[n])
  }

  /**
   The hypothesis of WinsExclude is exact: from every reachable state in which the evictor is
   about to delete a live entry, the delete lets the next caller win the key while an earlier
   win of it has not expired.
   */
  lemma {:induction false} DroppingLiveBreaksExclusion(ttl: int, actions: seq<Action>, id: int)
    requires var c := Run(ttl, actions);
             DropsLive(c, Delete) && id !in c.callers
    ensures var key := Run(ttl, actions).evictor.key;
            TwoWinners(Run(ttl, actions + [Delete] + [Start(id, key)] + [LoadOrStore(id)]), key)
  {
    var c := Run(ttl, actions);
    var key := c.evictor.key;
    RunStoredWasWon(ttl, actions);
    hide Run;
    var m :| 0 <= m < |c.wins| && Reserves(c.wins[m], key, c.store[key]);
    var longer, next := Then(ttl, actions, c, Delete);
    longer, next := Then(ttl, longer, next, Start(id, key));
    longer, next := Then(ttl, longer, next, LoadOrStore(id));
    assert next.wins == c.wins + [Win(id, key, c.clock + ttl, c.clock)];
    assert !InTurn(next.wins[m], next.wins[|c.wins|]);
  }

  /** With a ttl that is not positive, a reservation has expired when it is made. */
  ghost predicate BornExpired(c: Cache) {
    && (forall id :: id in c.callers ==> c.callers[id].expiry <= c.clock)
    && (forall n :: 0 <= n < |c.wins| ==> c.wins[n].expiry <= c.wins[n].at <= c.clock)
    && (forall m, n :: 0 <= m < n < |c.wins| ==> InTurn(c.wins[m], c.wins[n]))
  }

  lemma {:induction false} RunBornExpired(ttl: int, actions: seq<Action>)
    requires ttl <= 0
    ensures BornExpired(Run(ttl, actions))
  {
    if actions != [] {
      RunBornExpired(ttl, actions[..|actions| - 1]);
    }
  }

  /** No key is ever won twice at once if and only if the ttl is not positive, that is, if winning means nothing. */
  lemma {:induction false} ExclusiveExactly(ttl: int)
    ensures (forall actions, key :: !TwoWinners(Run(ttl, actions), key)) <==> ttl <= 0
  {
    hide Run;
    if ttl <= 0 {
      forall actions, key
        ensures !TwoWinners(Run(ttl, actions), key)
      {
        RunBornExpired(ttl, actions);
      }
    } else {
      var actions := SplitLetsTwoWin(ttl);
      var wins := Run(ttl, actions).wins;
      assert !InTurn(wins[1], wins[2]) && wins[1].key == wins[2].key == "k";
      assert TwoWinners(Run(ttl, actions), "k");
    }
  }

  // ----------------------------------------------------- the operations without interference

  class LocalCache {
    var store: map<string, int>

    constructor ()
      ensures store == map[]
    {
      store := map[];
    }

    method LoadOrStoreValue(key: string, value: int) returns (actual: int, loaded: bool)
      modifies this
      ensures loaded == (key in old(store))
      ensures actual == if loaded then old(store)[key] else value
      ensures store == old(store)[key := actual]
    {
      if key in store {
        return store[key], true;
      }
      store := store[key := value];
      return value, false;
    }

    method CompareAndSwapValue(key: string, expected: int, replacement: int) returns (swapped: bool)
      modifies this
      ensures swapped == (key in old(store) && old(store)[key] == expected)
      ensures store == if swapped then old(store)[key := replacement] else old(store)
    {
      swapped := key in store && store[key] == expected;
      if swapped {
        store := store[key := replacement];
      }
    }

    /** Without interference the loop runs once: it wins exactly when no live entry is there. */
    method StoreIfAbsent(key: string, value: int, now: int) returns (won: bool)
      modifies this
      ensures won <==> key !in old(store) || old(store)[key] <= now
      ensures store == if won then old(store)[key := value] else old(store)
    {
      won := false;
      var retry := true;
      while retry
        invariant retry ==> store == old(store)
        invariant !retry ==> won && store == old(store)[key := value] && (key !in old(store) || old(store)[key] <= now)
        decreases retry
      {
        var actual, loaded := LoadOrStoreValue(key, value);
        if !loaded {
          return true;
        }
        if actual > now {
          assert store == old(store);
          return false;
        }
        won := CompareAndSwapValue(key, actual, value);
        retry := !won;
      }
    }

    /** One pass of the evictor keeps exactly the entries that are still live. */
    method Evict(now: int)
      modifies this
      ensures store == map k | k in old(store) && old(store)[k] > now :: old(store)[k]
    {
      var keys := store.Keys;
      while keys != {}
        invariant keys <= store.Keys <= old(store).Keys
        invariant forall k :: k in store ==> store[k] == old(store)[k]
        invariant forall k :: k in old(store) && k !in keys ==> (k in store <==> old(store)[k] > now)
      {
        var k :| k in keys;
        if store[k] <= now {
          store := store - {k};
        }
        keys := keys - {k};
      }
    }
  }
}
