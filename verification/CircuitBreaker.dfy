/**
 The per-host circuit breaker of http/client. A call holds the entry's mutex twice, once to
 be admitted and once to report its outcome, and runs its request in between; any number of
 calls interleave. Times are nanoseconds of a clock that does not step back.
 */
module CircuitBreaker {
  import opened Options
  import opened Counting

  datatype Phase = Closed | Open | HalfOpen

  datatype Config = Config(failureThreshold: int, successThreshold: int, openTimeout: int, maxHalfOpen: int)

  datatype Breaker = Breaker(phase: Phase, failures: int, successes: int, inFlight: int, openedAt: int)

  const NewBreaker := Breaker(Closed, 0, 0, 0, 0)

  datatype Admission = Rejected | Probe | Normal

  function Moved(b: Breaker, to: Phase, now: int): Breaker {
    Breaker(to, 0, 0, 0, if to == Open then now else b.openedAt)
  }

  // ---------------------------------------------------------------- the two critical sections

  /** Whether being admitted first moves an open breaker to half-open. */
  predicate Thaws(cfg: Config, b: Breaker, now: int) {
    b.phase == Open && now - b.openedAt >= cfg.openTimeout
  }

  function Thawed(cfg: Config, b: Breaker, now: int): Breaker {
    if Thaws(cfg, b, now) then Moved(b, HalfOpen, now) else b
  }

  function AdmissionTo(cfg: Config, b: Breaker, now: int): Admission {
    var r := Thawed(cfg, b, now);
    match r.phase
    case Open => Rejected
    case HalfOpen => if r.inFlight >= cfg.maxHalfOpen then Rejected else Probe
    case Closed => Normal
  }

  function Admitted(cfg: Config, b: Breaker, now: int): Breaker {
    var r := Thawed(cfg, b, now);
    if AdmissionTo(cfg, b, now) == Probe then r.(inFlight := r.inFlight + 1) else r
  }

  /** The fields after the outcome has been counted, before any transition. */
  function Counted(b: Breaker, probe: bool, failed: bool): Breaker {
    if probe then b.(inFlight := b.inFlight - 1, successes := b.successes + One(!failed))
    else b.(failures := b.failures + One(failed))
  }

  /** The phase an outcome moves the breaker to, if it moves it. */
  function Target(cfg: Config, b: Breaker, probe: bool, failed: bool): Option<Phase> {
    var c := Counted(b, probe, failed);
    if probe then
      if failed then Some(Open)
      else if c.successes >= cfg.successThreshold then Some(Closed)
      else None
    else if failed && c.failures >= cfg.failureThreshold then Some(Open)
    else None
  }

  function Completed(cfg: Config, b: Breaker, probe: bool, failed: bool, now: int): Breaker {
    var c := Counted(b, probe, failed);
    match Target(cfg, b, probe, failed)
    case None => c
    case Some(to) => Moved(c, to, now)
  }

  class BreakerEntry {
    const cfg: Config
    var phase: Phase
    var failures: int
    var successes: int
    var halfOpenInFlight: int
    var openedAt: int

    function Value(): Breaker
      reads this
    {
      Breaker(phase, failures, successes, halfOpenInFlight, openedAt)
    }

    constructor (cfg: Config)
      ensures this.cfg == cfg && Value() == NewBreaker
    {
      this.cfg := cfg;
      phase, failures, successes, halfOpenInFlight, openedAt := Closed, 0, 0, 0, 0;
    }

    method Transition(to: Phase, now: int)
      modifies this
      ensures Value() == Moved(old(Value()), to, now)
    {
      phase := to;
      failures := 0;
      successes := 0;
      halfOpenInFlight := 0;
      if to == Open {
        openedAt := now;
      }
    }

    /** From taking the lock until releasing it to run the request, or to reject. */
    method Enter(now: int) returns (admission: Admission)
      modifies this
      ensures Value() == Admitted(cfg, old(Value()), now)
      ensures admission == AdmissionTo(cfg, old(Value()), now)
    {
      if phase == Open {
        if now - openedAt < cfg.openTimeout {
          return Rejected;
        }
        Transition(HalfOpen, now);
      }
      if phase == HalfOpen {
        if halfOpenInFlight >= cfg.maxHalfOpen {
          return Rejected;
        }
        halfOpenInFlight := halfOpenInFlight + 1;
        return Probe;
      }
      return Normal;
    }

    /** From retaking the lock once the request has returned. */
    method Leave(probe: bool, failed: bool, now: int)
      modifies this
      ensures Value() == Completed(cfg, old(Value()), probe, failed, now)
    {
      if probe {
        halfOpenInFlight := halfOpenInFlight - 1;
        if failed {
          Transition(Open, now);
          return;
        }
        successes := successes + 1;
        if successes >= cfg.successThreshold {
          Transition(Closed, now);
        }
      } else if failed {
        failures := failures + 1;
        if failures >= cfg.failureThreshold {
          Transition(Open, now);
        }
      }
    }
  }

  // ------------------------------------------------------------------ interleaved calls

  /** A call that has been admitted and not yet reported; `period` is when it was admitted. */
  datatype Running = Running(probe: bool, period: nat)

  /** One transition: by a call admitted in `callPeriod`, ending the period `period`. */
  datatype Change = Change(from: Phase, to: Phase, at: int, callPeriod: nat, period: nat)

  /** What a call reported, and in which period. */
  datatype Report = Report(probe: bool, failed: bool, period: nat)

  /**
   The breaker with its history. A period lasts from one transition to the next, so the
   current period is the number of transitions made; late[p] counts the probes admitted
   before period p that completed in it.
   */
  datatype System = System(
    b: Breaker, clock: int, live: map<int, Running>, log: seq<Change>, late: seq<nat>, reports: seq<Report>) {
    function Period(): nat { |log| }

    function Moves(to: Phase, after: Breaker, at: int, callPeriod: nat): System {
      System(after, at, live, log + [Change(b.phase, to, at, callPeriod, |log|)], late + [0], reports)
    }
  }

  const NewSystem := System(NewBreaker, 0, map[], [], [0], [])

  datatype Action = Begin(id: int, at: int) | End(id: int, failed: bool, at: int)

  function BeginStep(cfg: Config, s: System, id: int, at: int): System {
    var thawed :=
      if Thaws(cfg, s.b, at) then s.Moves(HalfOpen, Thawed(cfg, s.b, at), at, s.Period())
      else s.(clock := at);
    var admission := AdmissionTo(cfg, s.b, at);
    var r := thawed.(b := Admitted(cfg, s.b, at));
    if admission == Rejected then r
    else r.(live := s.live[id := Running(admission == Probe, r.Period())])
  }

  function EndStep(cfg: Config, s: System, id: int, failed: bool, at: int): System
    requires id in s.live && |s.late| == s.Period() + 1
  {
    var c := s.live[id];
    var late := c.probe && c.period < s.Period();
    var r := s.(live := s.live - {id}, clock := at, reports := s.reports + [Report(c.probe, failed, s.Period())],
                late := s.late[s.Period() := s.late[s.Period()] + One(late)]);
    var b := Completed(cfg, s.b, c.probe, failed, at);
    match Target(cfg, s.b, c.probe, failed)
    case None => r.(b := b)
    case Some(to) => r.Moves(to, b, at, c.period)
  }

  predicate Enabled(s: System, a: Action) {
    && s.clock <= a.at
    && |s.late| == s.Period() + 1
    && (if a.Begin? then a.id !in s.live else a.id in s.live)
  }

  /** One atomic step; an action that cannot happen leaves the system as it is. */
  function Step(cfg: Config, s: System, a: Action): System {
    if !Enabled(s, a) then s
    else match a
      case Begin(id, at) => BeginStep(cfg, s, id, at)
      case End(id, failed, at) => EndStep(cfg, s, id, failed, at)
  }

  /** The system after any interleaving of calls. */
  function Run(cfg: Config, actions: seq<Action>): System {
    if actions == [] then NewSystem
    else Step(cfg, Run(cfg, actions[..|actions| - 1]), actions[|actions| - 1])
  }

  // ----------------------------------------------------------------- what every run keeps

  function ProbeOf(period: nat): Running -> bool {
    (r: Running) => r.probe && r.period == period
  }

  /** The probes admitted in a period that are still running. */
  function LiveProbes(s: System, period: nat): nat {
    Count(s.live, ProbeOf(period))
  }

  function Cap(cfg: Config): nat {
    if cfg.maxHalfOpen < 0 then 0 else cfg.maxHalfOpen
  }

  ghost predicate CountsProbes(cfg: Config, s: System) {
    && |s.late| == s.Period() + 1
    && s.b.inFlight == LiveProbes(s, s.Period()) - s.late[s.Period()]
    && (forall p :: 0 <= p <= s.Period() ==> LiveProbes(s, p) <= Cap(cfg) + s.late[p])
  }

  /** Calls admitted in the current period were admitted in its phase. */
  ghost predicate CallsMatchPhase(s: System) {
    forall id :: id in s.live ==>
      && s.live[id].period <= s.Period()
      && (s.live[id].period == s.Period() ==> s.b.phase == if s.live[id].probe then HalfOpen else Closed)
  }

  predicate Textbook(from: Phase, to: Phase) {
    (from, to) in {(Closed, Open), (Open, HalfOpen), (HalfOpen, Open), (HalfOpen, Closed)}
  }

  predicate Follows(log: seq<Change>, i: nat)
    requires i < |log|
  {
    log[i].from == if i == 0 then Closed else log[i - 1].to
  }

  /** The log is a chain of transitions that ends in the current phase. */
  ghost predicate LogChains(s: System) {
    && s.b.phase == (if s.log == [] then Closed else s.log[|s.log| - 1].to)
    && (forall i :: 0 <= i < |s.log| ==>
          && s.log[i].period == i
          && s.log[i].at <= s.clock
          && Follows(s.log, i))
    && (s.b.phase == Open ==> s.log != [] && s.b.openedAt == s.log[|s.log| - 1].at)
  }

  ghost predicate GoodChange(cfg: Config, log: seq<Change>, i: int)
    requires 0 <= i < |log|
  {
    && log[i].callPeriod <= i
    && (Textbook(log[i].from, log[i].to) || log[i].callPeriod < i)
    && (log[i].to == HalfOpen ==> log[i].from == Open && i > 0 && log[i].at - log[i - 1].at >= cfg.openTimeout)
  }

  ghost predicate LogGood(cfg: Config, s: System) {
    forall i :: 0 <= i < |s.log| ==> GoodChange(cfg, s.log, i)
  }

  ghost predicate Inv(cfg: Config, s: System) {
    CountsProbes(cfg, s) && CallsMatchPhase(s) && LogChains(s) && LogGood(cfg, s)
  }

  lemma NoProbesYet(s: System, period: nat)
    requires forall id :: id in s.live ==> s.live[id].period < period
    ensures LiveProbes(s, period) == 0
  {
    forall id | id in s.live
      ensures !ProbeOf(period)(s.live[id])
    {
      assert s.live[id].period != period;
    }
    CountZero(s.live, ProbeOf(period));
  }

  /** Being admitted adds one probe to the current period, or nothing. */
  lemma BeginAddsProbe(cfg: Config, s: System, id: int, at: int)
    requires Enabled(s, Begin(id, at))
    ensures var r := BeginStep(cfg, s, id, at);
            forall p :: 0 <= p <= r.Period() ==>
              LiveProbes(r, p) == LiveProbes(s, p) + One(AdmissionTo(cfg, s.b, at) == Probe && p == r.Period())
  {
    var r := BeginStep(cfg, s, id, at);
    var c := Running(AdmissionTo(cfg, s.b, at) == Probe, r.Period());
    assert r.live == s.live || r.live == s.live[id := c];
    assert r.live == s.live ==> AdmissionTo(cfg, s.b, at) != Probe;
    forall p | 0 <= p <= r.Period()
      ensures LiveProbes(r, p) == LiveProbes(s, p) + One(AdmissionTo(cfg, s.b, at) == Probe && p == r.Period())
    {
      CountSet(s.live, ProbeOf(p), id, c);
    }
  }

  /** Reporting takes the call off the probes of its period. */
  lemma EndTakesProbe(cfg: Config, s: System, id: int, failed: bool, at: int)
    requires Enabled(s, End(id, failed, at))
    ensures var r := EndStep(cfg, s, id, failed, at);
            forall p :: 0 <= p <= r.Period() ==> LiveProbes(r, p) == LiveProbes(s, p) - One(ProbeOf(p)(s.live[id]))
  {
    var r := EndStep(cfg, s, id, failed, at);
    assert r.live == s.live - {id};
    forall p | 0 <= p <= r.Period()
      ensures LiveProbes(r, p) == LiveProbes(s, p) - One(ProbeOf(p)(s.live[id]))
    {
      CountRemove(s.live, ProbeOf(p), id);
    }
  }

  lemma BeginCountsProbes(cfg: Config, s: System, id: int, at: int)
    requires Inv(cfg, s) && Enabled(s, Begin(id, at))
    ensures CountsProbes(cfg, BeginStep(cfg, s, id, at))
  {
    NoProbesYet(s, s.Period() + 1);
    BeginAddsProbe(cfg, s, id, at);
    hide LiveProbes, LogChains, LogGood, CallsMatchPhase;
  }

  lemma EndCountsProbes(cfg: Config, s: System, id: int, failed: bool, at: int)
    requires Inv(cfg, s) && Enabled(s, End(id, failed, at))
    ensures CountsProbes(cfg, EndStep(cfg, s, id, failed, at))
  {
    NoProbesYet(s, s.Period() + 1);
    EndTakesProbe(cfg, s, id, failed, at);
    assert s.live[id].period <= s.Period();
    hide LiveProbes, LogChains, LogGood, CallsMatchPhase;
  }

  lemma StepMatchesPhase(cfg: Config, s: System, a: Action)
    requires Inv(cfg, s)
    ensures CallsMatchPhase(Step(cfg, s, a))
  {
    hide CountsProbes, LogChains, LogGood;
  }

  /** A transition that continues the chain and is good itself keeps the whole log good. */
  lemma MoveKeepsLog(cfg: Config, s: System, to: Phase, after: Breaker, at: int, callPeriod: nat)
    requires LogChains(s) && LogGood(cfg, s) && s.clock <= at && callPeriod <= s.Period()
    requires after.phase == to && (to == Open ==> after.openedAt == at)
    requires Textbook(s.b.phase, to) || callPeriod < s.Period()
    requires to == HalfOpen ==> s.b.phase == Open && at - s.b.openedAt >= cfg.openTimeout
    ensures var r := s.Moves(to, after, at, callPeriod); LogChains(r) && LogGood(cfg, r)
  {
    MoveChains(s, to, after, at, callPeriod);
    assert s.b.phase == Open ==> s.log != [] && s.b.openedAt == s.log[|s.log| - 1].at;
    hide LogChains, Textbook;
    var c := Change(s.b.phase, to, at, callPeriod, |s.log|);
    assert GoodChange(cfg, s.log + [c], |s.log|);
    GoodGrows(cfg, s.log, c);
  }

  lemma GoodGrows(cfg: Config, log: seq<Change>, c: Change)
    requires forall i :: 0 <= i < |log| ==> GoodChange(cfg, log, i)
    requires GoodChange(cfg, log + [c], |log|)
    ensures forall i :: 0 <= i < |log + [c]| ==> GoodChange(cfg, log + [c], i)
  {
    forall i | 0 <= i < |log|
      ensures GoodChange(cfg, log + [c], i)
    {
      assert GoodChange(cfg, log, i);
    }
  }

  lemma MoveChains(s: System, to: Phase, after: Breaker, at: int, callPeriod: nat)
    requires LogChains(s) && s.clock <= at
    requires after.phase == to && (to == Open ==> after.openedAt == at)
    ensures LogChains(s.Moves(to, after, at, callPeriod))
  {
    var r := s.Moves(to, after, at, callPeriod);
    forall i | 0 <= i < |r.log|
      ensures r.log[i].period == i && r.log[i].at <= r.clock && Follows(r.log, i)
    {
      assert i < |s.log| ==> r.log[i] == s.log[i] && Follows(s.log, i);
    }
  }

  /** Only the log, the clock and the phase of the breaker matter to the log's invariants. */
  lemma SameLog(cfg: Config, s: System, r: System)
    requires LogChains(s) && LogGood(cfg, s)
    requires r.log == s.log && s.clock <= r.clock
    requires r.b.phase == s.b.phase && r.b.openedAt == s.b.openedAt
    ensures LogChains(r) && LogGood(cfg, r)
  {
  }

  lemma BeginKeepsLog(cfg: Config, s: System, id: int, at: int)
    requires Inv(cfg, s) && Enabled(s, Begin(id, at))
    ensures var r := BeginStep(cfg, s, id, at); LogChains(r) && LogGood(cfg, r)
  {
    hide LogChains, LogGood, CountsProbes, CallsMatchPhase;
    var r := BeginStep(cfg, s, id, at);
    if Thaws(cfg, s.b, at) {
      var m := s.Moves(HalfOpen, Thawed(cfg, s.b, at), at, s.Period());
      MoveKeepsLog(cfg, s, HalfOpen, Thawed(cfg, s.b, at), at, s.Period());
      SameLog(cfg, m, r);
    } else {
      SameLog(cfg, s, r);
    }
  }

  lemma EndKeepsLog(cfg: Config, s: System, id: int, failed: bool, at: int)
    requires Inv(cfg, s) && Enabled(s, End(id, failed, at))
    ensures var r := EndStep(cfg, s, id, failed, at); LogChains(r) && LogGood(cfg, r)
  {
    assert s.live[id].period <= s.Period();
    assert s.live[id].period == s.Period() ==> s.b.phase == if s.live[id].probe then HalfOpen else Closed;
    hide LogChains, LogGood, CountsProbes, CallsMatchPhase;
    var c := s.live[id];
    var r := EndStep(cfg, s, id, failed, at);
    if Target(cfg, s.b, c.probe, failed).None? {
      SameLog(cfg, s, r);
    } else {
      var to, b := Target(cfg, s.b, c.probe, failed).value, Completed(cfg, s.b, c.probe, failed, at);
      MoveKeepsLog(cfg, s, to, b, at, c.period);
      SameLog(cfg, s.Moves(to, b, at, c.period), r);
    }
  }

  lemma StepKeepsInv(cfg: Config, s: System, a: Action)
    requires Inv(cfg, s)
    ensures Inv(cfg, Step(cfg, s, a))
  {
    StepMatchesPhase(cfg, s, a);
    if Enabled(s, a) {
      match a
      case Begin(id, at) =>
        BeginCountsProbes(cfg, s, id, at);
        BeginKeepsLog(cfg, s, id, at);
      case End(id, failed, at) =>
        EndCountsProbes(cfg, s, id, failed, at);
        EndKeepsLog(cfg, s, id, failed, at);
    }
  }

  lemma {:induction false} RunKeepsInv(cfg: Config, actions: seq<Action>)
    ensures Inv(cfg, Run(cfg, actions))
  {
    if actions == [] {
      NoProbesYet(NewSystem, 0);
    } else {
      RunKeepsInv(cfg, actions[..|actions| - 1]);
      StepKeepsInv(cfg, Run(cfg, actions[..|actions| - 1]), actions[|actions| - 1]);
    }
  }

  /**
   In every interleaving halfOpenInFlight is the number of probes of the current period that
   still run, less the earlier probes that completed in it. So the probes of a period that run
   at once never exceed the cap by more than those late completions, and never without them.
   */
  lemma {:induction false} InFlightIsExact(cfg: Config, actions: seq<Action>, period: nat)
    requires period <= Run(cfg, actions).Period()
    ensures var s := Run(cfg, actions);
            && |s.late| == s.Period() + 1
            && s.b.inFlight == LiveProbes(s, s.Period()) - s.late[s.Period()]
            && LiveProbes(s, period) <= Cap(cfg) + s.late[period]
            && (s.late[period] == 0 ==> LiveProbes(s, period) <= Cap(cfg))
  {
    hide Run;
    RunKeepsInv(cfg, actions);
  }

  /**
   In every interleaving, a transition off the textbook diagram is made by a call that was
   admitted before the previous transition, and an open breaker becomes half-open no sooner
   than openTimeout after the transition that opened it.
   */
  lemma {:induction false} TransitionsAreTextbookOrLate(cfg: Config, actions: seq<Action>, i: nat)
    requires i < |Run(cfg, actions).log|
    ensures var log := Run(cfg, actions).log;
            && log[i].from == (if i == 0 then Closed else log[i - 1].to)
            && (Textbook(log[i].from, log[i].to) || log[i].callPeriod < log[i].period == i)
            && (log[i].to == HalfOpen ==> i > 0 && log[i - 1].to == Open && log[i].from == Open
                                          && log[i].at - log[i - 1].at >= cfg.openTimeout)
  {
    hide Run;
    RunKeepsInv(cfg, actions);
    var s := Run(cfg, actions);
    assert s.log[i].period == i && Follows(s.log, i) && GoodChange(cfg, s.log, i);
  }

  // ------------------------------------------------------------ what the counts and phases are

  /** The reports of a period by calls admitted while closed that failed, and by probes that passed. */
  function FailedCalls(period: nat): Report -> bool {
    (r: Report) => !r.probe && r.failed && r.period == period
  }

  function PassedProbes(period: nat): Report -> bool {
    (r: Report) => r.probe && !r.failed && r.period == period
  }

  ghost predicate CountsReports(s: System) {
    && (forall i :: 0 <= i < |s.reports| ==> s.reports[i].period <= s.Period())
    && s.b.failures == Tally(s.reports, FailedCalls(s.Period()))
    && s.b.successes == Tally(s.reports, PassedProbes(s.Period()))
  }

  lemma {:induction false} NoReportsYet(reports: seq<Report>, period: nat)
    requires forall i :: 0 <= i < |reports| ==> reports[i].period < period
    ensures Tally(reports, FailedCalls(period)) == Tally(reports, PassedProbes(period)) == 0
  {
    TallyZero(reports, FailedCalls(period));
    TallyZero(reports, PassedProbes(period));
  }

  lemma {:induction false} StepCountsReports(cfg: Config, s: System, a: Action)
    requires CountsReports(s)
    ensures CountsReports(Step(cfg, s, a))
  {
    hide Tally;
    if Enabled(s, a) && a.End? {
      EndCountsReports(cfg, s, a.id, a.failed, a.at);
    } else {
      NoReportsYet(s.reports, s.Period() + 1);
      hide EndStep;
    }
  }

  lemma {:induction false} EndCountsReports(cfg: Config, s: System, id: int, failed: bool, at: int)
    requires CountsReports(s) && Enabled(s, End(id, failed, at))
    ensures CountsReports(EndStep(cfg, s, id, failed, at))
  {
    var r := Report(s.live[id].probe, failed, s.Period());
    TallyMore(s.reports, FailedCalls(s.Period()), r);
    TallyMore(s.reports, PassedProbes(s.Period()), r);
    NoReportsYet(s.reports + [r], s.Period() + 1);
    hide Tally;
  }

  /**
   In every interleaving the failure count is the number of calls admitted while closed that have
   reported a failure since the last transition, and the success count that of the probes that
   have reported a success since then.
   */
  lemma {:induction false} CountsAreReports(cfg: Config, actions: seq<Action>)
    ensures var s := Run(cfg, actions);
            && (forall i :: 0 <= i < |s.reports| ==> s.reports[i].period <= s.Period())
            && s.b.failures == Tally(s.reports, FailedCalls(s.Period()))
            && s.b.successes == Tally(s.reports, PassedProbes(s.Period()))
  {
    if actions != [] {
      CountsAreReports(cfg, actions[..|actions| - 1]);
      StepCountsReports(cfg, Run(cfg, actions[..|actions| - 1]), actions[|actions| - 1]);
      hide Step;
    }
  }

  /**
   In every interleaving, what a report does: a failed probe opens the breaker, a passed one closes
   it when it is the successThreshold-th of the period, a failed call of the closed phase opens it
   when it is the failureThreshold-th, and nothing else moves it.
   */
  lemma {:induction false} ReportsMoveExactly(cfg: Config, actions: seq<Action>, id: int, failed: bool, at: int)
    requires Enabled(Run(cfg, actions), End(id, failed, at))
    ensures var s := Run(cfg, actions);
            var r, c := Step(cfg, s, End(id, failed, at)), s.live[id];
            && r.reports == s.reports + [Report(c.probe, failed, s.Period())]
            && var fails, passes := Tally(r.reports, FailedCalls(s.Period())), Tally(r.reports, PassedProbes(s.Period()));
               if c.probe && failed then r.log == s.log + [Change(s.b.phase, Open, at, c.period, s.Period())]
               else if c.probe && passes >= cfg.successThreshold
               then r.log == s.log + [Change(s.b.phase, Closed, at, c.period, s.Period())]
               else if !c.probe && failed && fails >= cfg.failureThreshold
               then r.log == s.log + [Change(s.b.phase, Open, at, c.period, s.Period())]
               else r.log == s.log
  {
    var s := Run(cfg, actions);
    var r := Report(s.live[id].probe, failed, s.Period());
    CountsAreReports(cfg, actions);
    TallyMore(s.reports, FailedCalls(s.Period()), r);
    TallyMore(s.reports, PassedProbes(s.Period()), r);
    hide Tally, Run;
  }

  /**
   In every interleaving, who is let through: every call while closed, a probe once openTimeout has
   passed since the breaker opened, and a probe while half-open if the running probes of the
   period, less the late completions, leave a slot.
   */
  lemma {:induction false} AdmittedExactly(cfg: Config, actions: seq<Action>, id: int, at: int)
    requires Enabled(Run(cfg, actions), Begin(id, at))
    ensures var s := Run(cfg, actions);
            var r := Step(cfg, s, Begin(id, at));
            && (id in r.live ==> r.live[id].probe == (s.b.phase != Closed))
            && (id in r.live <==>
                  match s.b.phase
                  case Closed => true
                  case Open => s.log != [] && at - s.log[|s.log| - 1].at >= cfg.openTimeout && cfg.maxHalfOpen >= 1
                  case HalfOpen => |s.late| == s.Period() + 1 && LiveProbes(s, s.Period()) - s.late[s.Period()] < cfg.maxHalfOpen)
  {
    var s := Run(cfg, actions);
    RunKeepsInv(cfg, actions);
    assert |s.late| == s.Period() + 1 && s.b.inFlight == LiveProbes(s, s.Period()) - s.late[s.Period()];
    assert s.b.phase == Open ==> s.log != [] && s.b.openedAt == s.log[|s.log| - 1].at;
    hide Run, LiveProbes, CountsProbes, CallsMatchPhase, LogChains, LogGood;
  }

  // ---------------------------------------------------------- the simple claims that fail

  lemma Then(cfg: Config, actions: seq<Action>, s: System, a: Action) returns (longer: seq<Action>, next: System)
    requires s == Run(cfg, actions)
    ensures longer == actions + [a] && next == Step(cfg, s, a) == Run(cfg, longer)
  {
    longer, next := actions + [a], Step(cfg, s, a);
    assert longer[..|actions|] == actions;
  }

  /** The failures after which a breaker opens; a threshold below one opens at the first. */
  function Needed(cfg: Config): nat {
    if cfg.failureThreshold <= 1 then 1 else cfg.failureThreshold
  }

  /** Some calls admitted in the first period, the closed one. */
  function ClosedCalls(lo: int, hi: int): (calls: map<int, Running>)
    ensures forall id :: id in calls <==> lo <= id < hi
    ensures forall id :: id in calls ==> calls[id] == Running(false, 0)
    decreases hi - lo
  {
    if hi <= lo then map[] else ClosedCalls(lo, hi - 1)[hi - 1 := Running(false, 0)]
  }

  lemma {:induction false} StartMany(cfg: Config, k: nat) returns (actions: seq<Action>, s: System)
    ensures s == Run(cfg, actions) == System(NewBreaker, 0, ClosedCalls(0, k), [], [0], [])
  {
    if k == 0 {
      actions, s := [], NewSystem;
    } else {
      actions, s := StartMany(cfg, k - 1);
      hide Run;
      actions, s := Then(cfg, actions, s, Begin(k - 1, 0));
      assert s.live == ClosedCalls(0, k);
    }
  }

  lemma FailStep(cfg: Config, s: System, id: int)
    requires |s.late| == s.Period() + 1 && 0 <= s.b.failures < Needed(cfg) && id in s.live && !s.live[id].probe
    ensures var r := Step(cfg, s, End(id, true, s.clock));
            && r.clock == s.clock && r.live == s.live - {id}
            && if s.b.failures + 1 < Needed(cfg)
               then r.b == s.b.(failures := s.b.failures + 1) && r.log == s.log && r.late == s.late
               else r.b == Breaker(Open, 0, 0, 0, s.clock) && r.Period() == s.Period() + 1 && r.late == s.late + [0]
  {
  }

  /** Calls of the first period that fail one after another count, in whatever phase, until they open the breaker. */
  lemma {:induction false} FailMany(cfg: Config, actions: seq<Action>, s: System, lo: int, others: map<int, Running>)
    returns (longer: seq<Action>, next: System)
    requires s == Run(cfg, actions) && |s.late| == s.Period() + 1
    requires 0 <= s.b.failures < Needed(cfg) && forall id :: id in others ==> id < lo
    requires s.live == others + ClosedCalls(lo, lo + Needed(cfg) - s.b.failures)
    ensures next == Run(cfg, longer) && next.Period() == s.Period() + 1
    ensures next == System(Breaker(Open, 0, 0, 0, s.clock), s.clock, others, next.log, s.late + [0], next.reports)
    decreases Needed(cfg) - s.b.failures
  {
    hide Run, ClosedCalls, Needed;
    var id := lo + Needed(cfg) - s.b.failures - 1;
    assert s.live[id] == Running(false, 0);
    FailStep(cfg, s, id);
    hide Step;
    longer, next := Then(cfg, actions, s, End(id, true, s.clock));
    assert next.live == others + ClosedCalls(lo, id);
    if s.b.failures + 1 < Needed(cfg) {
      longer, next := FailMany(cfg, longer, next, lo, others);
    } else {
      assert ClosedCalls(lo, id) == map[];
    }
  }

  /** A time at which a breaker opened at `at` thaws. */
  function ThawTime(cfg: Config, at: int): int {
    if cfg.openTimeout > 0 then at + cfg.openTimeout else at
  }

  /** An open breaker under one orphaned probe, admitted two periods ago. */
  ghost predicate Orphaned(s: System) {
    && |s.log| == 3
    && s == System(Breaker(Open, 0, 0, 0, s.clock), s.clock, map[-1 := Running(true, 2)], s.log, [0, 0, 0, 0], s.reports)
  }

  /** Enough calls start while closed to open the breaker twice; a probe is admitted in between. */
  lemma OrphanedProbe(cfg: Config) returns (actions: seq<Action>, s: System)
    requires cfg.maxHalfOpen >= 1
    ensures s == Run(cfg, actions) && Orphaned(s)
  {
    var n := Needed(cfg);
    actions, s := OpenedOnce(cfg);
    ThawStep(cfg, s, -1);
    hide Run, Step, ClosedCalls, Needed;
    actions, s := Then(cfg, actions, s, Begin(-1, ThawTime(cfg, s.clock)));
    var probe := map[-1 := Running(true, 2)];
    assert s.live == probe + ClosedCalls(0, 0 + n);
    actions, s := FailMany(cfg, actions, s, 0, probe);
  }

  lemma OpenedOnce(cfg: Config) returns (actions: seq<Action>, s: System)
    ensures s == Run(cfg, actions) && |s.log| == 1
    ensures s == System(Breaker(Open, 0, 0, 0, s.clock), s.clock, ClosedCalls(0, Needed(cfg)), s.log, [0, 0], s.reports)
  {
    hide Run, Step, ClosedCalls;
    var n := Needed(cfg);
    actions, s := StartMany(cfg, 2 * n);
    assert ClosedCalls(0, 2 * n) == ClosedCalls(0, n) + ClosedCalls(n, n + n);
    actions, s := FailMany(cfg, actions, s, n, ClosedCalls(0, n));
  }

  /** A call that finds an open breaker at its thaw time is the first probe of the next period. */
  lemma ThawStep(cfg: Config, s: System, id: int)
    requires s.b == Breaker(Open, 0, 0, 0, s.clock) && |s.late| == s.Period() + 1
    requires cfg.maxHalfOpen >= 1 && id !in s.live
    ensures var r := Step(cfg, s, Begin(id, ThawTime(cfg, s.clock)));
            && r.b.phase == HalfOpen && r.b.failures == r.b.successes == 0 && r.b.inFlight == 1
            && r.live == s.live[id := Running(true, s.Period() + 1)]
            && r.late == s.late + [0] && r.Period() == s.Period() + 1
  {
  }

  /** The orphaned probe reports to a breaker that is open: halfOpenInFlight becomes negative. */
  lemma InFlightCanBeNegative(cfg: Config) returns (actions: seq<Action>)
    requires cfg.maxHalfOpen >= 1 && cfg.successThreshold >= 2
    ensures Run(cfg, actions).b.inFlight == -1
  {
    hide Run;
    var s;
    actions, s := OrphanedProbe(cfg);
    actions, s := Then(cfg, actions, s, End(-1, false, s.clock));
  }

  /** The next half-open period, with `inFlight` probes of its own and the orphan. */
  ghost predicate Filling(s: System, next: nat) {
    && s.b.phase == HalfOpen && s.b.successes == 0 && s.b.inFlight == next
    && -1 in s.live && s.live[-1] == Running(true, 2) && s.late == [0, 0, 0, 0, 0] && s.Period() == 4
    && forall id :: id in s.live ==> id < next
  }

  lemma {:induction false} FillProbes(cfg: Config, n: nat) returns (actions: seq<Action>, s: System)
    requires 1 <= n <= cfg.maxHalfOpen
    ensures s == Run(cfg, actions) && Filling(s, n)
  {
    hide Run;
    if n == 1 {
      actions, s := OrphanedProbe(cfg);
      ThawStep(cfg, s, 0);
      hide Step;
      actions, s := Then(cfg, actions, s, Begin(0, ThawTime(cfg, s.clock)));
    } else {
      actions, s := FillProbes(cfg, n - 1);
      actions, s := Then(cfg, actions, s, Begin(n - 1, s.clock));
    }
  }

  /**
   More probes of one period than the cap run at once: the orphaned probe completes in the
   next half-open period and gives back a slot it does not hold.
   */
  lemma CapCanBeOverrun(cfg: Config) returns (actions: seq<Action>)
    requires cfg.maxHalfOpen >= 1 && cfg.successThreshold >= 2
    ensures var s := Run(cfg, actions); LiveProbes(s, s.Period()) == cfg.maxHalfOpen + 1
  {
    hide Run;
    var s;
    actions, s := FillProbes(cfg, cfg.maxHalfOpen);
    actions, s := Then(cfg, actions, s, End(-1, false, s.clock));
    assert s.b.phase == HalfOpen && s.b.inFlight == cfg.maxHalfOpen - 1 && s.late[s.Period()] == 1;
    actions, s := Then(cfg, actions, s, Begin(cfg.maxHalfOpen, s.clock));
    assert s.b.inFlight == cfg.maxHalfOpen && s.late[s.Period()] == 1;
    RunKeepsInv(cfg, actions);
  }

  // ------------------------------------------------------------ exactly when they hold

  /** Every probe's outcome moves the breaker, or there are no probes. */
  predicate NoLateSlots(cfg: Config) {
    cfg.successThreshold <= 1 || cfg.maxHalfOpen <= 0
  }

  ghost predicate WithinCap(cfg: Config, s: System) {
    && |s.late| == s.Period() + 1 && s.late[s.Period()] == 0 && s.b.successes >= 0
    && (forall p :: 0 <= p <= s.Period() ==> LiveProbes(s, p) <= Cap(cfg))
  }

  lemma BeginKeepsWithinCap(cfg: Config, s: System, id: int, at: int)
    requires Inv(cfg, s) && WithinCap(cfg, s) && Enabled(s, Begin(id, at))
    ensures WithinCap(cfg, BeginStep(cfg, s, id, at))
  {
    NoProbesYet(s, s.Period() + 1);
    BeginAddsProbe(cfg, s, id, at);
    hide LiveProbes, LogChains, LogGood, CallsMatchPhase;
  }

  lemma EndKeepsWithinCap(cfg: Config, s: System, id: int, failed: bool, at: int)
    requires Inv(cfg, s) && WithinCap(cfg, s) && NoLateSlots(cfg) && Enabled(s, End(id, failed, at))
    ensures WithinCap(cfg, EndStep(cfg, s, id, failed, at))
  {
    var c := s.live[id];
    NoProbesYet(s, s.Period() + 1);
    EndTakesProbe(cfg, s, id, failed, at);
    assert c.period <= s.Period();
    if c.probe {
      CountSome(s.live, ProbeOf(c.period), id);
      assert 1 <= LiveProbes(s, c.period) <= Cap(cfg);
    }
    hide LiveProbes, LogChains, LogGood, CallsMatchPhase;
  }

  lemma {:induction false} RunKeepsWithinCap(cfg: Config, actions: seq<Action>)
    requires NoLateSlots(cfg)
    ensures WithinCap(cfg, Run(cfg, actions))
  {
    if actions == [] {
      NoProbesYet(NewSystem, 0);
    } else {
      var s, a := Run(cfg, actions[..|actions| - 1]), actions[|actions| - 1];
      RunKeepsWithinCap(cfg, actions[..|actions| - 1]);
      RunKeepsInv(cfg, actions[..|actions| - 1]);
      hide WithinCap, Inv;
      if Enabled(s, a) {
        match a
        case Begin(id, at) => BeginKeepsWithinCap(cfg, s, id, at);
        case End(id, failed, at) => EndKeepsWithinCap(cfg, s, id, failed, at);
      }
    }
  }

  ghost predicate InFlightInRange(cfg: Config) {
    forall actions :: 0 <= Run(cfg, actions).b.inFlight <= Cap(cfg)
  }

  ghost predicate ProbesInRange(cfg: Config) {
    forall actions, p :: 0 <= p <= Run(cfg, actions).Period() ==> LiveProbes(Run(cfg, actions), p) <= Cap(cfg)
  }

  /**
   Every run keeps halfOpenInFlight between zero and the cap, and every run keeps the live probes
   of every period within the cap, each exactly when one success closes the breaker or the cap
   lets no probe through.
   */
  lemma {:induction false} InRangeExactly(cfg: Config)
    ensures InFlightInRange(cfg) <==> cfg.successThreshold <= 1 || cfg.maxHalfOpen <= 0
    ensures ProbesInRange(cfg) <==> cfg.successThreshold <= 1 || cfg.maxHalfOpen <= 0
  {
    hide Run, LiveProbes;
    if NoLateSlots(cfg) {
      forall actions
        ensures 0 <= Run(cfg, actions).b.inFlight <= Cap(cfg)
        ensures forall p :: 0 <= p <= Run(cfg, actions).Period() ==> LiveProbes(Run(cfg, actions), p) <= Cap(cfg)
      {
        RunKeepsWithinCap(cfg, actions);
        RunKeepsInv(cfg, actions);
      }
    } else {
      var low := InFlightCanBeNegative(cfg);
      assert !InFlightInRange(cfg);
      var over := CapCanBeOverrun(cfg);
      assert LiveProbes(Run(cfg, over), Run(cfg, over).Period()) > Cap(cfg);
    }
  }

  // ------------------------------------------------------------ calls that never overlap

  /** The textbook breaker: each phase carries only the count that matters in it. */
  datatype Automaton = AClosed(failures: nat) | AOpen(since: int) | AHalfOpen(successes: nat)

  datatype Call = Call(id: int, start: int, finish: int, failed: bool)

  datatype Outcome = ErrOpen | Passed | Failed

  /** What the textbook breaker does with one whole call. */
  function Next(cfg: Config, a: Automaton, c: Call): (Automaton, Outcome) {
    match a
    case AClosed(f) =>
      if !c.failed then (a, Passed)
      else if f + 1 == cfg.failureThreshold then (AOpen(c.finish), Failed)
      else (AClosed(f + 1), Failed)
    case AOpen(since) =>
      if c.start - since < cfg.openTimeout then (a, ErrOpen) else TryProbe(cfg, 0, c)
    case AHalfOpen(n) => TryProbe(cfg, n, c)
  }

  function TryProbe(cfg: Config, successes: nat, c: Call): (Automaton, Outcome) {
    if cfg.maxHalfOpen <= 0 then (AHalfOpen(successes), ErrOpen)
    else if c.failed then (AOpen(c.finish), Failed)
    else if successes + 1 == cfg.successThreshold then (AClosed(0), Passed)
    else (AHalfOpen(successes + 1), Passed)
  }

  function Automatic(cfg: Config, calls: seq<Call>): (Automaton, seq<Outcome>) {
    if calls == [] then (AClosed(0), [])
    else
      var (a, outcomes) := Automatic(cfg, calls[..|calls| - 1]);
      var (a', o) := Next(cfg, a, calls[|calls| - 1]);
      (a', outcomes + [o])
  }

  /** The actions of calls that do not overlap. */
  function Sequential(calls: seq<Call>): seq<Action> {
    if calls == [] then []
    else
      var c := calls[|calls| - 1];
      Sequential(calls[..|calls| - 1]) + [Begin(c.id, c.start)] + [End(c.id, c.failed, c.finish)]
  }

  ghost predicate InTurn(calls: seq<Call>) {
    && (forall i :: 0 <= i < |calls| ==> 0 <= calls[i].start <= calls[i].finish)
    && (forall i, j :: 0 <= i < j < |calls| ==> calls[i].finish <= calls[j].start)
  }

  /** The breaker between calls is the automaton, with nothing in flight. */
  ghost predicate Shows(cfg: Config, b: Breaker, a: Automaton) {
    && b.inFlight == 0
    && match a
       case AClosed(f) => b.phase == Closed && b.failures == f < cfg.failureThreshold
       case AOpen(since) => b.phase == Open && b.openedAt == since
       case AHalfOpen(n) => b.phase == HalfOpen && b.successes == n < cfg.successThreshold
  }

  /** The outcome `execute` returns for a call that is alone on the host. */
  function OutcomeOf(cfg: Config, b: Breaker, c: Call): Outcome {
    if AdmissionTo(cfg, b, c.start) == Rejected then ErrOpen else if c.failed then Failed else Passed
  }

  function Alone(cfg: Config, b: Breaker, c: Call): Breaker {
    var admission, r := AdmissionTo(cfg, b, c.start), Admitted(cfg, b, c.start);
    if admission == Rejected then r else Completed(cfg, r, admission == Probe, c.failed, c.finish)
  }

  lemma AloneIsNext(cfg: Config, b: Breaker, a: Automaton, c: Call)
    requires cfg.failureThreshold >= 1 && cfg.successThreshold >= 1
    requires Shows(cfg, b, a)
    ensures Shows(cfg, Alone(cfg, b, c), Next(cfg, a, c).0)
    ensures OutcomeOf(cfg, b, c) == Next(cfg, a, c).1
  {
  }

  /** On an idle system the two steps of a call amount to running it alone. */
  lemma TwoStepsAreAlone(cfg: Config, s: System, c: Call)
    requires s.live == map[] && |s.late| == s.Period() + 1 && s.clock <= c.start <= c.finish
    ensures var r := Step(cfg, Step(cfg, s, Begin(c.id, c.start)), End(c.id, c.failed, c.finish));
            && r.b == Alone(cfg, s.b, c)
            && r.live == map[] && |r.late| == r.Period() + 1 && r.clock <= c.finish
  {
  }

  /** The outcomes of calls that do not overlap. */
  function Outcomes(cfg: Config, calls: seq<Call>): seq<Outcome> {
    if calls == [] then []
    else
      var earlier := calls[..|calls| - 1];
      Outcomes(cfg, earlier) + [OutcomeOf(cfg, Run(cfg, Sequential(earlier)).b, calls[|calls| - 1])]
  }

  /**
   When calls on a host never overlap and both thresholds are at least one, the breaker is
   the textbook automaton: same phase, same counts, nothing in flight, and every call gets the
   same outcome.
   */
  lemma {:induction false} SequentialIsTextbook(cfg: Config, calls: seq<Call>)
    requires cfg.failureThreshold >= 1 && cfg.successThreshold >= 1 && InTurn(calls)
    ensures var s := Run(cfg, Sequential(calls));
            && Shows(cfg, s.b, Automatic(cfg, calls).0)
            && s.live == map[] && |s.late| == s.Period() + 1
            && (if calls == [] then s.clock <= 0 else s.clock <= calls[|calls| - 1].finish)
    ensures Outcomes(cfg, calls) == Automatic(cfg, calls).1
  {
    if calls != [] {
      var earlier, c := calls[..|calls| - 1], calls[|calls| - 1];
      SequentialIsTextbook(cfg, earlier);
      var s := Run(cfg, Sequential(earlier));
      var actions, next := Then(cfg, Sequential(earlier), s, Begin(c.id, c.start));
      actions, next := Then(cfg, actions, next, End(c.id, c.failed, c.finish));
      assert s.clock <= c.start;
      hide Run, Step, Shows, OutcomeOf, Next;
      TwoStepsAreAlone(cfg, s, c);
      AloneIsNext(cfg, s.b, Automatic(cfg, earlier).0, c);
    }
  }
}
