/**
 The semaphore-bounded runner of aws/dynamodb: `runParallel` starts one goroutine per index,
 at most maxParallel of them holding the semaphore, waits for all, and returns the error of
 the lowest failing index. What fn does at an index is given by `outs`: it stores a result in
 the results slot of that index, or fails. A single index is run in place, without goroutines.
 */
module ParallelRunner {
  import opened Options
  import opened Counting

  datatype Progress =
    | Waiting   // not spawned yet
    | Spawned   // holds the semaphore, fn not called yet
    | Running   // inside fn
    | Stored    // fn has returned, its error is stored
    | Released  // has given the semaphore back
    | Finished  // has told the wait group

  /** One index: its goroutine, how often fn has been called for it, and its two slots. */
  datatype Slot<R, E> = Slot(progress: Progress, runs: nat, result: Option<R>, err: Option<E>)

  /** `returned` is what runParallel has returned, if it has. */
  datatype Group<R, E> = Group(next: nat, sem: nat, wg: nat, slots: seq<Slot<R, E>>, returned: Option<Option<E>>)

  datatype Action = Spawn | Begin(i: nat) | End(i: nat) | Release(i: nat) | Done(i: nat) | Return

  function New<R, E>(n: nat): Group<R, E> {
    Group(0, 0, 0, seq(n, i => Slot(Waiting, 0, None, None)), None)
  }

  predicate At<R, E>(g: Group<R, E>, i: nat, p: Progress) {
    i < |g.slots| && g.slots[i].progress == p
  }

  predicate Enabled<R, E>(maxParallel: nat, g: Group<R, E>, a: Action) {
    && g.returned.None?
    && match a
       case Spawn => At(g, g.next, Waiting) && g.sem < maxParallel
       case Begin(i) => At(g, i, Spawned)
       case End(i) => At(g, i, Running)
       case Release(i) => At(g, i, Stored) && g.sem > 0
       case Done(i) => At(g, i, Released) && g.wg > 0
       case Return => g.next == |g.slots| && g.wg == 0
  }

  /** The scan of errs after the wait: the first error found. */
  function FirstError<R, E>(slots: seq<Slot<R, E>>): Option<E> {
    if slots == [] then None
    else if slots[0].err.Some? then slots[0].err
    else FirstError(slots[1..])
  }

  /** The slot after fn has returned: its result or its error is in place. */
  function Filled<R, E>(s: Slot<R, E>, out: Result<R, E>): Slot<R, E> {
    match out
    case Ok(v) => s.(progress := Stored, result := Some(v))
    case Err(e) => s.(progress := Stored, err := Some(e))
  }

  /** The slot of index i after an action of its goroutine, or of the spawn that starts it. */
  function SlotAfter<R, E>(s: Slot<R, E>, a: Action, out: Result<R, E>): Slot<R, E> {
    match a
    case Spawn => s.(progress := Spawned)
    case Begin(_) => s.(progress := Running, runs := s.runs + 1)
    case End(_) => Filled(s, out)
    case Release(_) => s.(progress := Released)
    case Done(_) => s.(progress := Finished)
    case Return => s
  }

  function Index<R, E>(g: Group<R, E>, a: Action): nat {
    match a
    case Spawn => g.next
    case Begin(i) => i
    case End(i) => i
    case Release(i) => i
    case Done(i) => i
    case Return => 0
  }

  /** One atomic step; an action that cannot happen leaves the group as it is. */
  function Step<R, E>(outs: seq<Result<R, E>>, maxParallel: nat, g: Group<R, E>, a: Action): Group<R, E> {
    if !Enabled(maxParallel, g, a) || |g.slots| != |outs| then g
    else if a.Return? then g.(returned := Some(FirstError(g.slots)))
    else
      var i := Index(g, a);
      var r := g.(slots := g.slots[i := SlotAfter(g.slots[i], a, outs[i])]);
      match a
      case Spawn => r.(next := g.next + 1, sem := g.sem + 1, wg := g.wg + 1)
      case Release(_) => r.(sem := g.sem - 1)
      case Done(_) => r.(wg := g.wg - 1)
      case _ => r
  }

  function Run<R, E>(outs: seq<Result<R, E>>, maxParallel: nat, actions: seq<Action>): Group<R, E> {
    if actions == [] then New(|outs|)
    else Step(outs, maxParallel, Run(outs, maxParallel, actions[..|actions| - 1]), actions[|actions| - 1])
  }

  // --------------------------------------------------------------- what every run keeps

  function Holding<R, E>(): Slot<R, E> -> bool {
    (s: Slot<R, E>) => s.progress.Spawned? || s.progress.Running? || s.progress.Stored?
  }

  function InFn<R, E>(): Slot<R, E> -> bool {
    (s: Slot<R, E>) => s.progress.Running?
  }

  function Unfinished<R, E>(): Slot<R, E> -> bool {
    (s: Slot<R, E>) => !s.progress.Waiting? && !s.progress.Finished?
  }

  /** What a slot holds, given how far its goroutine has got. */
  predicate SlotOk<R(==), E(==)>(s: Slot<R, E>, out: Result<R, E>) {
    var called := !s.progress.Waiting? && !s.progress.Spawned?;
    var returned := called && !s.progress.Running?;
    && s.runs == One(called)
    && s.result == (if returned && out.Ok? then Some(out.value) else None)
    && s.err == (if returned && out.Err? then Some(out.error) else None)
  }

  ghost predicate Slots<R, E>(outs: seq<Result<R, E>>, g: Group<R, E>) {
    && |g.slots| == |outs| && g.next <= |outs|
    && (forall i :: 0 <= i < |outs| ==>
          SlotOk(g.slots[i], outs[i]) && (g.slots[i].progress.Waiting? <==> i >= g.next))
  }

  ghost predicate Counters<R, E>(maxParallel: nat, g: Group<R, E>) {
    && g.sem == Tally(g.slots, Holding()) <= maxParallel
    && g.wg == Tally(g.slots, Unfinished())
  }

  ghost predicate Ended<R, E>(g: Group<R, E>) {
    g.returned.Some? ==> g.next == |g.slots| && g.wg == 0 && g.returned == Some(FirstError(g.slots))
  }

  ghost predicate Inv<R, E>(outs: seq<Result<R, E>>, maxParallel: nat, g: Group<R, E>) {
    Slots(outs, g) && Counters(maxParallel, g) && Ended(g)
  }

  lemma StepKeepsInv<R, E>(outs: seq<Result<R, E>>, maxParallel: nat, g: Group<R, E>, a: Action)
    requires Inv(outs, maxParallel, g)
    ensures Inv(outs, maxParallel, Step(outs, maxParallel, g, a))
  {
    StepKeepsSlots(outs, maxParallel, g, a);
    StepKeepsCounters(outs, maxParallel, g, a);
    hide Slots, Counters, SlotAfter, FirstError;
  }

  lemma StepKeepsSlots<R, E>(outs: seq<Result<R, E>>, maxParallel: nat, g: Group<R, E>, a: Action)
    requires Slots(outs, g)
    ensures Slots(outs, Step(outs, maxParallel, g, a))
  {
    hide FirstError;
    if Enabled(maxParallel, g, a) && !a.Return? {
      var i := Index(g, a);
      assert SlotOk(SlotAfter(g.slots[i], a, outs[i]), outs[i]);
    }
  }

  lemma StepKeepsCounters<R, E>(outs: seq<Result<R, E>>, maxParallel: nat, g: Group<R, E>, a: Action)
    requires Counters(maxParallel, g) && Slots(outs, g)
    ensures Counters(maxParallel, Step(outs, maxParallel, g, a))
  {
    if Enabled(maxParallel, g, a) && !a.Return? {
      var i := Index(g, a);
      var s := SlotAfter(g.slots[i], a, outs[i]);
      assert a.Spawn? ==> g.slots[i].progress.Waiting?;
      TallySet(g.slots, Holding(), i, s);
      TallySet(g.slots, Unfinished(), i, s);
    }
    hide Slots, SlotOk, FirstError, Tally;
  }

  lemma {:induction false} RunKeepsInv<R, E>(outs: seq<Result<R, E>>, maxParallel: nat, actions: seq<Action>)
    ensures Inv(outs, maxParallel, Run(outs, maxParallel, actions))
  {
    if actions == [] {
      var g := New<R, E>(|outs|);
      TallyZero(g.slots, Holding());
      TallyZero(g.slots, Unfinished());
    } else {
      RunKeepsInv(outs, maxParallel, actions[..|actions| - 1]);
      StepKeepsInv(outs, maxParallel, Run(outs, maxParallel, actions[..|actions| - 1]), actions[|actions| - 1]);
    }
  }

  /** In every interleaving at most maxParallel calls of fn run at once, and none runs twice. */
  lemma {:induction false} BoundedParallelism<R, E>(outs: seq<Result<R, E>>, maxParallel: nat, actions: seq<Action>)
    ensures var g := Run(outs, maxParallel, actions);
            && Tally(g.slots, InFn()) <= maxParallel
            && |g.slots| == |outs| && forall i :: 0 <= i < |outs| ==> g.slots[i].runs <= 1
  {
    var g := Run(outs, maxParallel, actions);
    hide Run;
    RunKeepsInv(outs, maxParallel, actions);
    TallyWithin(g.slots, InFn(), Holding());
  }

  /** A group whose first k functions are running and nothing else has happened. */
  ghost predicate FirstRunning<R, E>(g: Group<R, E>, n: nat, k: nat) {
    && |g.slots| == n && g.next == g.sem == k <= n && g.returned.None?
    && forall i :: 0 <= i < n ==> g.slots[i].progress == if i < k then Running else Waiting
  }

  lemma {:induction false} AllOfFirst<R, E>(slots: seq<Slot<R, E>>, k: nat)
    requires k <= |slots|
    requires forall i :: 0 <= i < |slots| ==> slots[i].progress == if i < k then Running else Waiting
    ensures Tally(slots, InFn()) == k
  {
    if slots != [] {
      AllOfFirst(slots[..|slots| - 1], if k == |slots| then k - 1 else k);
    }
  }

  lemma NextRuns<R, E>(outs: seq<Result<R, E>>, maxParallel: nat, actions: seq<Action>, k: nat) returns (longer: seq<Action>)
    requires FirstRunning(Run(outs, maxParallel, actions), |outs|, k) && k < maxParallel && k < |outs|
    ensures FirstRunning(Run(outs, maxParallel, longer), |outs|, k + 1)
  {
    var g := Run(outs, maxParallel, actions);
    var spawned := actions + [Spawn];
    assert spawned[..|actions|] == actions;
    longer := spawned + [Begin(k)];
    assert longer[..|spawned|] == spawned;
    var h := Step(outs, maxParallel, g, Spawn);
    assert h.slots == g.slots[k := g.slots[k].(progress := Spawned)] && h.next == h.sem == k + 1;
    assert Run(outs, maxParallel, spawned) == h;
    assert Run(outs, maxParallel, longer) == Step(outs, maxParallel, h, Begin(k));
    hide Run;
  }

  /** The bound is used: for every k within it and the number of functions, k can run at once. */
  lemma {:induction false} ParallelismIsReached<R, E>(outs: seq<Result<R, E>>, maxParallel: nat, k: nat)
    returns (actions: seq<Action>)
    requires k <= maxParallel && k <= |outs|
    ensures FirstRunning(Run(outs, maxParallel, actions), |outs|, k)
    ensures Tally(Run(outs, maxParallel, actions).slots, InFn()) == k
  {
    actions := [];
    if k > 0 {
      var earlier := ParallelismIsReached(outs, maxParallel, k - 1);
      actions := NextRuns(outs, maxParallel, earlier, k - 1);
    }
    hide Run;
    AllOfFirst(Run(outs, maxParallel, actions).slots, k);
  }

  /** The error of the lowest index that fails; what a caller should see. */
  function LowestFailure<R, E>(outs: seq<Result<R, E>>): Option<E> {
    if outs == [] then None else if outs[0].Err? then Some(outs[0].error) else LowestFailure(outs[1..])
  }

  lemma {:induction false} ScanFindsLowest<R, E>(slots: seq<Slot<R, E>>, outs: seq<Result<R, E>>)
    requires |slots| == |outs|
    requires forall i :: 0 <= i < |outs| ==> SlotOk(slots[i], outs[i]) && slots[i].progress.Finished?
    ensures FirstError(slots) == LowestFailure(outs)
  {
    if slots != [] {
      ScanFindsLowest(slots[1..], outs[1..]);
    }
  }

  /**
   Whatever the interleaving, once runParallel has returned: fn has run exactly once at every
   index, the error is that of the lowest failing index, and every results slot holds what fn
   stored at that index. So nothing the caller sees depends on which goroutine finished first.
   */
  lemma {:induction false} ReturnIsDeterministic<R, E>(outs: seq<Result<R, E>>, maxParallel: nat, actions: seq<Action>)
    requires Run(outs, maxParallel, actions).returned.Some?
    ensures var g := Run(outs, maxParallel, actions);
            && g.returned == Some(LowestFailure(outs))
            && |g.slots| == |outs|
            && forall i :: 0 <= i < |outs| ==>
                 && g.slots[i].runs == 1
                 && g.slots[i].result == (if outs[i].Ok? then Some(outs[i].value) else None)
  {
    var g := Run(outs, maxParallel, actions);
    hide Run;
    RunKeepsInv(outs, maxParallel, actions);
    TallyZero(g.slots, Unfinished());
    forall i | 0 <= i < |outs|
      ensures g.slots[i].progress.Finished?
    {
      assert !Unfinished<R, E>()(g.slots[i]);
    }
    ScanFindsLowest(g.slots, outs);
  }

  // --------------------------------------------------------------------- it always returns

  function Rank(p: Progress): nat {
    match p
    case Waiting => 0
    case Spawned => 1
    case Running => 2
    case Stored => 3
    case Released => 4
    case Finished => 5
  }

  function TotalRank<R, E>(slots: seq<Slot<R, E>>): nat {
    if slots == [] then 0 else TotalRank(slots[..|slots| - 1]) + Rank(slots[|slots| - 1].progress)
  }

  /** Steps taken so far. */
  function StepsTaken<R, E>(g: Group<R, E>): nat {
    TotalRank(g.slots) + One(g.returned.Some?)
  }

  lemma {:induction false} TotalRankSet<R, E>(slots: seq<Slot<R, E>>, i: nat, s: Slot<R, E>)
    requires i < |slots|
    ensures TotalRank(slots[i := s]) == TotalRank(slots) - Rank(slots[i].progress) + Rank(s.progress)
  {
    var last := |slots| - 1;
    if i == last {
      assert slots[i := s][..last] == slots[..last];
    } else {
      TotalRankSet(slots[..last], i, s);
      assert slots[i := s][..last] == slots[..last][i := s];
    }
  }

  lemma {:induction false} TotalRankBound<R, E>(slots: seq<Slot<R, E>>)
    ensures TotalRank(slots) <= 5 * |slots|
  {
    if slots != [] {
      TotalRankBound(slots[..|slots| - 1]);
    }
  }

  lemma StepAdvances<R, E>(outs: seq<Result<R, E>>, maxParallel: nat, g: Group<R, E>, a: Action)
    requires Inv(outs, maxParallel, g) && Enabled(maxParallel, g, a)
    ensures StepsTaken(Step(outs, maxParallel, g, a)) == StepsTaken(g) + 1
  {
    if !a.Return? {
      var i := Index(g, a);
      TotalRankSet(g.slots, i, SlotAfter(g.slots[i], a, outs[i]));
    }
  }

  /** No deadlock: until runParallel has returned, somebody can take a step. */
  lemma SomebodyCanStep<R, E>(outs: seq<Result<R, E>>, maxParallel: nat, g: Group<R, E>)
    requires Inv(outs, maxParallel, g) && g.returned.None? && maxParallel >= 1
    ensures exists a :: Enabled(maxParallel, g, a)
  {
    var a;
    TallyZero(g.slots, Holding());
    TallyZero(g.slots, Unfinished());
    if i :| 0 <= i < |g.slots| && Unfinished<R, E>()(g.slots[i]) {
      match g.slots[i].progress {
        case Spawned => a := Begin(i);
        case Running => a := End(i);
        case Stored =>
          assert Holding<R, E>()(g.slots[i]);
          a := Release(i);
        case Released => a := Done(i);
      }
    } else if g.next < |g.slots| {
      forall i | 0 <= i < |g.slots|
        ensures !Holding<R, E>()(g.slots[i])
      {
        assert !Unfinished<R, E>()(g.slots[i]);
      }
      a := Spawn;
    } else {
      a := Return;
    }
    assert Enabled(maxParallel, g, a);
  }

  ghost predicate EveryActionHappens<R(!new), E(!new)>(outs: seq<Result<R, E>>, maxParallel: nat, actions: seq<Action>) {
    forall n :: 0 <= n < |actions| ==> Enabled(maxParallel, Run(outs, maxParallel, actions[..n]), actions[n])
  }

  lemma {:induction false} StepsAreCounted<R(!new), E(!new)>(outs: seq<Result<R, E>>, maxParallel: nat, actions: seq<Action>)
    requires EveryActionHappens(outs, maxParallel, actions)
    ensures StepsTaken(Run(outs, maxParallel, actions)) == |actions|
  {
    if actions == [] {
      NothingDoneYet<R, E>(|outs|);
    } else {
      var earlier, a := actions[..|actions| - 1], actions[|actions| - 1];
      forall n | 0 <= n < |earlier|
        ensures Enabled(maxParallel, Run(outs, maxParallel, earlier[..n]), earlier[n])
      {
        assert earlier[..n] == actions[..n];
      }
      StepsAreCounted(outs, maxParallel, earlier);
      RunKeepsInv(outs, maxParallel, earlier);
      StepAdvances(outs, maxParallel, Run(outs, maxParallel, earlier), a);
    }
  }

  lemma {:induction false} NothingDoneYet<R, E>(n: nat)
    ensures TotalRank(New<R, E>(n).slots) == 0
  {
    if n > 0 {
      NothingDoneYet<R, E>(n - 1);
      assert New<R, E>(n).slots[..n - 1] == New<R, E>(n - 1).slots;
    }
  }

  /**
   A run cannot go on for more than 5n + 1 steps, and with maxParallel at least one a run that
   has not returned can always go on: so every run that is continued for long enough returns.
   */
  lemma EveryRunReturns<R(!new), E(!new)>(outs: seq<Result<R, E>>, maxParallel: nat, actions: seq<Action>)
    requires maxParallel >= 1 && EveryActionHappens(outs, maxParallel, actions)
    ensures |actions| <= 5 * |outs| + 1
    ensures Run(outs, maxParallel, actions).returned.None?
            ==> exists a :: Enabled(maxParallel, Run(outs, maxParallel, actions), a)
  {
    var g := Run(outs, maxParallel, actions);
    RunKeepsInv(outs, maxParallel, actions);
    StepsAreCounted(outs, maxParallel, actions);
    TotalRankBound(g.slots);
    if g.returned.None? {
      SomebodyCanStep(outs, maxParallel, g);
    }
  }
}
