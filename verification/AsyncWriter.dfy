/**
 The asynchronous log writer of logging/runtime: producers send lines into a bounded channel,
 one consumer goroutine writes them to dst, Flush waits for the consumer to drain the channel,
 and Close closes the channel and waits for the consumer to exit. Every channel operation and
 every write to dst is a step of its own.
 */
module AsyncWriter {
  import opened Counting
  import opened Sequences

  type Line = seq<int>

  /** Where the consumer is. It holds a line between receiving it and writing it. */
  datatype Consumer =
    | Selecting                      // in the select of run
    | Writing(line: Line)            // has received a line in run
    | Draining(ack: int)             // in the loop of drain, for the Flush with this id
    | DrainWriting(line: Line, ack: int)
    | Acking(ack: int)               // drain has returned
    | Exited                         // done is closed

  /** A running Flush; `mark` is how many lines had been accepted when it began. */
  datatype Flusher = Offering(mark: nat) | Awaiting(mark: nat) | Acked(mark: nat)

  datatype Closer = NotCalled | Called | Returned

  /**
   `accepted` are all lines sent into the channel, in order; `flushed` are the marks of the
   Flush calls that have returned. `crashed` records a panic: a send on the closed channel, or
   a drain that receives from it after it is empty.
   */
  datatype Writer = Writer(
    dst: seq<Line>, consumer: Consumer, queue: seq<Line>, closed: bool,
    writes: map<int, Line>, flushes: map<int, Flusher>, closer: Closer,
    accepted: seq<Line>, flushed: seq<nat>, crashed: bool)

  const NewWriter := Writer([], Selecting, [], false, map[], map[], NotCalled, [], [], false)

  datatype Action =
    | BeginWrite(id: int, line: Line)
    | Send(id: int)
    | HandOver(id: int)      // a send that meets the waiting consumer at an empty queue
    | Receive
    | WriteLine
    | BeginFlush(id: int)
    | OfferAck(id: int)
    | DrainDone
    | SendAck
    | FlushReturn(id: int)
    | BeginClose
    | Exit
    | CloseReturn

  /** The consumer is at a receive from the queue. */
  predicate AtReceive(c: Consumer) {
    c.Selecting? || c.Draining?
  }

  function Holding(c: Consumer, line: Line): Consumer
    requires AtReceive(c)
  {
    if c.Selecting? then Writing(line) else DrainWriting(line, c.ack)
  }

  function InHand(c: Consumer): seq<Line> {
    match c
    case Writing(line) => [line]
    case DrainWriting(line, _) => [line]
    case _ => []
  }

  predicate Enabled(size: nat, w: Writer, a: Action) {
    && !w.crashed
    && match a
       case BeginWrite(id, line) => id !in w.writes
       case Send(id) => id in w.writes && (w.closed || |w.queue| < size)
       case HandOver(id) => id in w.writes && !w.closed && w.queue == [] && AtReceive(w.consumer)
       case Receive => AtReceive(w.consumer) && (w.queue != [] || (w.closed && w.consumer.Draining?))
       case WriteLine => InHand(w.consumer) != []
       case BeginFlush(id) => id !in w.flushes
       case OfferAck(id) => id in w.flushes && w.flushes[id].Offering? && w.consumer.Selecting?
       case DrainDone => w.consumer.Draining? && w.queue == [] && !w.closed
       case SendAck => w.consumer.Acking?
       case FlushReturn(id) =>
         id in w.flushes && (w.flushes[id].Acked? || (w.flushes[id].Offering? && w.consumer.Exited?))
       case BeginClose => w.closer.NotCalled?
       case Exit => w.consumer.Selecting? && w.closed && w.queue == []
       case CloseReturn => w.closer.Called? && w.consumer.Exited?
  }

  /** One atomic step; an action that cannot happen leaves the writer as it is. */
  function Step(size: nat, w: Writer, a: Action): Writer {
    if !Enabled(size, w, a) then w
    else match a
      case BeginWrite(id, line) => w.(writes := w.writes[id := line])
      case Send(id) =>
        if w.closed then w.(crashed := true)
        else w.(queue := w.queue + [w.writes[id]], accepted := w.accepted + [w.writes[id]], writes := w.writes - {id})
      case HandOver(id) =>
        w.(consumer := Holding(w.consumer, w.writes[id]), accepted := w.accepted + [w.writes[id]], writes := w.writes - {id})
      case Receive =>
        if w.queue == [] then w.(crashed := true)
        else w.(consumer := Holding(w.consumer, w.queue[0]), queue := w.queue[1..])
      case WriteLine =>
        w.(dst := w.dst + InHand(w.consumer),
           consumer := if w.consumer.Writing? then Selecting else Draining(w.consumer.ack))
      case BeginFlush(id) => w.(flushes := w.flushes[id := Offering(|w.accepted|)])
      case OfferAck(id) => w.(flushes := w.flushes[id := Awaiting(w.flushes[id].mark)], consumer := Draining(id))
      case DrainDone => w.(consumer := Acking(w.consumer.ack))
      case SendAck =>
        var id := w.consumer.ack;
        w.(consumer := Selecting, flushes := if id in w.flushes then w.flushes[id := Acked(w.flushes[id].mark)] else w.flushes)
      case FlushReturn(id) => w.(flushes := w.flushes - {id}, flushed := w.flushed + [w.flushes[id].mark])
      case BeginClose => w.(closer := Called, closed := true)
      case Exit => w.(consumer := Exited)
      case CloseReturn => w.(closer := Returned)
  }

  function Run(size: nat, actions: seq<Action>): Writer {
    if actions == [] then NewWriter
    else Step(size, Run(size, actions[..|actions| - 1]), actions[|actions| - 1])
  }

  // --------------------------------------------------------------- what every run keeps

  /** Nothing is lost, repeated or reordered between the send and dst. */
  predicate InOrder(w: Writer) {
    w.dst + InHand(w.consumer) + w.queue == w.accepted
  }

  /** What is still promised to a running Flush, and what a returned one was promised. */
  ghost predicate FlushesKept(w: Writer) {
    && (forall id :: id in w.flushes ==> w.flushes[id].mark <= |w.accepted|)
    && (forall id :: id in w.flushes && w.flushes[id].Acked? ==> w.flushes[id].mark <= |w.dst|)
    && (forall n :: 0 <= n < |w.flushed| ==> w.flushed[n] <= |w.dst|)
    && (w.consumer.Draining? || w.consumer.DrainWriting? || w.consumer.Acking? ==>
          w.consumer.ack in w.flushes && w.flushes[w.consumer.ack].Awaiting?)
    && (forall id :: id in w.flushes && w.flushes[id].Awaiting? ==>
          (w.consumer.Draining? || w.consumer.DrainWriting? || w.consumer.Acking?) && w.consumer.ack == id)
    && (w.consumer.Acking? ==> w.flushes[w.consumer.ack].mark <= |w.dst|)
  }

  ghost predicate Closing(w: Writer) {
    && (w.closed <==> !w.closer.NotCalled?)
    && (w.consumer.Exited? ==> w.closed && w.queue == [])
    && (w.closer.Returned? ==> w.consumer.Exited?)
  }

  ghost predicate Inv(w: Writer) {
    InOrder(w) && FlushesKept(w) && Closing(w)
  }

  lemma StepKeepsOrder(size: nat, w: Writer, a: Action)
    requires InOrder(w)
    ensures InOrder(Step(size, w, a))
  {
    if Enabled(size, w, a) {
      var hand := InHand(w.consumer);
      match a
      case Send(id) => Associates(w.dst + hand, w.queue, [w.writes[id]]);
      case HandOver(id) => assert hand == [] && w.accepted == w.dst;
      case Receive =>
        assert hand == [] && w.accepted == w.dst + w.queue;
        if w.queue != [] {
          assert w.queue == [w.queue[0]] + w.queue[1..];
          Associates(w.dst, [w.queue[0]], w.queue[1..]);
        }
      case WriteLine => assert w.dst + hand + [] == w.dst + hand;
      case _ =>
    }
  }

  lemma StepKeepsClosing(size: nat, w: Writer, a: Action)
    requires Closing(w)
    ensures Closing(Step(size, w, a))
  {
  }

  lemma StepKeepsFlushes(size: nat, w: Writer, a: Action)
    requires Inv(w)
    ensures FlushesKept(Step(size, w, a))
  {
  }

  lemma {:induction false} RunKeepsInv(size: nat, actions: seq<Action>)
    ensures Inv(Run(size, actions))
  {
    if actions != [] {
      var w := Run(size, actions[..|actions| - 1]);
      RunKeepsInv(size, actions[..|actions| - 1]);
      StepKeepsOrder(size, w, actions[|actions| - 1]);
      StepKeepsClosing(size, w, actions[|actions| - 1]);
      StepKeepsFlushes(size, w, actions[|actions| - 1]);
    }
  }

  /** At every step of every run, dst plus the line in hand plus the queue is all lines accepted. */
  lemma {:induction false} NothingLostOrReordered(size: nat, actions: seq<Action>)
    ensures var w := Run(size, actions); w.dst + InHand(w.consumer) + w.queue == w.accepted
  {
    hide Run;
    RunKeepsInv(size, actions);
  }

  lemma StepOnlyGrows(size: nat, w: Writer, a: Action)
    ensures w.accepted <= Step(size, w, a).accepted && w.dst <= Step(size, w, a).dst
  {
  }

  /** Once accepted, a line keeps its place. */
  lemma {:induction false} AcceptedOnlyGrows(size: nat, actions: seq<Action>, n: nat)
    requires n <= |actions|
    ensures Run(size, actions[..n]).accepted <= Run(size, actions).accepted
    ensures Run(size, actions[..n]).dst <= Run(size, actions).dst
  {
    if n == |actions| {
      assert actions[..n] == actions;
    } else {
      var earlier := actions[..|actions| - 1];
      AcceptedOnlyGrows(size, earlier, n);
      assert earlier[..n] == actions[..n];
      StepOnlyGrows(size, Run(size, earlier), actions[|actions| - 1]);
      hide Step;
    }
  }

  /** No Write is dropped: from its call on it is still sending its line, or the line has been accepted. */
  lemma {:induction false} WriteIsAccepted(size: nat, actions: seq<Action>, n: nat, id: int, line: Line)
    requires n < |actions| && actions[n] == BeginWrite(id, line) && Enabled(size, Run(size, actions[..n]), actions[n])
    ensures var w := Run(size, actions); (id in w.writes && w.writes[id] == line) || line in w.accepted
  {
    if n < |actions| - 1 {
      var earlier := actions[..|actions| - 1];
      assert earlier[..n] == actions[..n];
      WriteIsAccepted(size, earlier, n, id, line);
      StepKeepsWrite(size, Run(size, earlier), actions[|actions| - 1], id, line);
      hide Step, Enabled;
    }
  }

  lemma StepKeepsWrite(size: nat, w: Writer, a: Action, id: int, line: Line)
    requires (id in w.writes && w.writes[id] == line) || line in w.accepted
    ensures var r := Step(size, w, a); (id in r.writes && r.writes[id] == line) || line in r.accepted
  {
  }

  /**
   When a Flush that began after n actions returns, every line accepted before it began, so
   every line whose Write had returned by then, is in dst.
   */
  lemma {:induction false} FlushDelivers(size: nat, actions: seq<Action>, n: nat, id: int)
    requires n < |actions| && actions[n] == BeginFlush(id) && Enabled(size, Run(size, actions[..n]), actions[n])
    requires forall k :: n < k < |actions| - 1 ==> actions[k] != FlushReturn(id)
    requires var w := Run(size, actions[..|actions| - 1]);
             actions[|actions| - 1] == FlushReturn(id) && Enabled(size, w, FlushReturn(id))
    ensures Run(size, actions[..n]).accepted <= Run(size, actions).dst
  {
    var earlier := actions[..|actions| - 1];
    assert n < |earlier| && earlier[..n] == actions[..n];
    var mark := |Run(size, actions[..n]).accepted|;
    MarkStays(size, earlier, n, id);
    RunKeepsInv(size, earlier);
    RunKeepsInv(size, actions);
    AcceptedOnlyGrows(size, actions, n);
    AcceptedOnlyGrows(size, earlier, n);
    var w := Run(size, earlier);
    assert w.flushes[id].mark == mark;
    var r := Run(size, actions);
    assert r.flushed == w.flushed + [mark] && r.flushed[|w.flushed|] == mark;
    assert r.dst <= r.accepted;
  }

  /** A running Flush keeps the mark it took when it began. */
  lemma {:induction false} MarkStays(size: nat, actions: seq<Action>, n: nat, id: int)
    requires n < |actions| && actions[n] == BeginFlush(id) && Enabled(size, Run(size, actions[..n]), actions[n])
    requires forall k :: n < k < |actions| ==> actions[k] != FlushReturn(id)
    ensures var w := Run(size, actions);
            id in w.flushes && w.flushes[id].mark == |Run(size, actions[..n]).accepted|
  {
    if n < |actions| - 1 {
      var earlier := actions[..|actions| - 1];
      assert earlier[..n] == actions[..n];
      MarkStays(size, earlier, n, id);
      StepKeepsMark(size, Run(size, earlier), actions[|actions| - 1], id);
      hide Step, Enabled;
    }
  }

  lemma StepKeepsMark(size: nat, w: Writer, a: Action, id: int)
    requires id in w.flushes && a != FlushReturn(id)
    ensures id in Step(size, w, a).flushes && Step(size, w, a).flushes[id].mark == w.flushes[id].mark
  {
  }

  /** When Close has returned, every line ever accepted is in dst. */
  lemma {:induction false} CloseDelivers(size: nat, actions: seq<Action>)
    requires Run(size, actions).closer.Returned?
    ensures Run(size, actions).dst == Run(size, actions).accepted
  {
    hide Run;
    RunKeepsInv(size, actions);
  }

  // --------------------------------------------------------------- closing in good order

  /**
   Close is called when no Write and no Flush is running, no Write starts after it, and no
   Flush starts after it until the consumer has exited.
   */
  ghost predicate Orderly(size: nat, actions: seq<Action>) {
    forall n :: 0 <= n < |actions| ==> InGoodOrder(Run(size, actions[..n]), actions[n])
  }

  predicate InGoodOrder(w: Writer, a: Action) {
    && (a.BeginClose? ==> w.writes == map[] && w.flushes == map[])
    && (a.BeginWrite? ==> !w.closed)
    && (a.BeginFlush? ==> !w.closed || w.consumer.Exited?)
  }

  predicate Quiet(w: Writer) {
    && !w.crashed
    && (w.closed ==> w.writes == map[] && (w.consumer.Selecting? || w.consumer.Writing? || w.consumer.Exited?))
    && (w.closed && !w.consumer.Exited? ==> w.flushes == map[])
  }

  lemma StepStaysQuiet(size: nat, w: Writer, a: Action)
    requires Inv(w) && Quiet(w) && InGoodOrder(w, a)
    ensures Quiet(Step(size, w, a))
  {
  }

  lemma {:induction false} OrderlyStaysQuiet(size: nat, actions: seq<Action>)
    requires Orderly(size, actions)
    ensures Quiet(Run(size, actions))
  {
    if actions != [] {
      var earlier := actions[..|actions| - 1];
      forall n | 0 <= n < |earlier|
        ensures InGoodOrder(Run(size, earlier[..n]), earlier[n])
      {
        assert earlier[..n] == actions[..n];
      }
      OrderlyStaysQuiet(size, earlier);
      RunKeepsInv(size, earlier);
      StepStaysQuiet(size, Run(size, earlier), actions[|actions| - 1]);
      hide Step;
    }
  }

  /** Steps the consumer still needs before it can exit. */
  function Backlog(w: Writer): nat {
    2 * |w.queue| + |InHand(w.consumer)| + if w.consumer.Exited? then 0 else 1
  }

  /** A step of the consumer once the writer is closed in good order. */
  predicate IsConsumerStep(a: Action) {
    a.Receive? || a.WriteLine? || a.Exit?
  }

  ghost predicate ConsumerCanGo(size: nat, w: Writer) {
    exists a :: IsConsumerStep(a) && Enabled(size, w, a)
  }

  /** Closed in good order, the consumer's steps shorten the backlog by one and no other step changes it. */
  lemma BacklogFalls(size: nat, w: Writer, a: Action)
    requires Quiet(w) && w.closed && InGoodOrder(w, a)
    ensures Backlog(Step(size, w, a)) == Backlog(w) - One(IsConsumerStep(a) && Enabled(size, w, a))
    ensures Step(size, w, a).closed
  {
  }

  /** The steps the consumer has taken after the first n actions. */
  function ConsumerSteps(size: nat, actions: seq<Action>, n: nat): nat
    requires n <= |actions|
  {
    if |actions| == n then 0
    else
      var earlier, a := actions[..|actions| - 1], actions[|actions| - 1];
      ConsumerSteps(size, earlier, n) + One(IsConsumerStep(a) && Enabled(size, Run(size, earlier), a))
  }

  lemma {:induction false} OrderlyEarlier(size: nat, actions: seq<Action>)
    requires Orderly(size, actions) && actions != []
    ensures Orderly(size, actions[..|actions| - 1])
    ensures InGoodOrder(Run(size, actions[..|actions| - 1]), actions[|actions| - 1])
  {
    var earlier := actions[..|actions| - 1];
    forall n | 0 <= n < |earlier|
      ensures InGoodOrder(Run(size, earlier[..n]), earlier[n])
    {
      assert earlier[..n] == actions[..n];
    }
  }

  lemma {:induction false} BacklogIsWorkedOff(size: nat, actions: seq<Action>, n: nat)
    requires Orderly(size, actions) && n <= |actions| && Run(size, actions[..n]).closed
    ensures Run(size, actions).closed
    ensures Backlog(Run(size, actions)) + ConsumerSteps(size, actions, n) == Backlog(Run(size, actions[..n]))
  {
    if n == |actions| {
      assert actions[..n] == actions;
    } else {
      var earlier := actions[..|actions| - 1];
      assert earlier[..n] == actions[..n];
      OrderlyEarlier(size, actions);
      BacklogIsWorkedOff(size, earlier, n);
      OrderlyStaysQuiet(size, earlier);
      BacklogFalls(size, Run(size, earlier), actions[|actions| - 1]);
      hide Step, Backlog, Quiet, Enabled, Orderly;
    }
  }

  /**
   A writer that is closed in good order never panics. From the state in which it was closed,
   the consumer takes at most as many steps as that state's backlog, and has exited exactly when
   it has taken them all; until then it can take one; then Close can return and all is in dst.
   */
  lemma {:induction false} OrderlyCloseCompletes(size: nat, actions: seq<Action>, n: nat)
    requires Orderly(size, actions) && n <= |actions|
    ensures var w := Run(size, actions);
            && !w.crashed
            && (Run(size, actions[..n]).closed ==>
                  && ConsumerSteps(size, actions, n) <= Backlog(Run(size, actions[..n]))
                  && (w.consumer.Exited? <==> ConsumerSteps(size, actions, n) == Backlog(Run(size, actions[..n])))
                  && (!w.consumer.Exited? ==> ConsumerCanGo(size, w)))
            && (w.closer.Called? && w.consumer.Exited? ==> Enabled(size, w, CloseReturn) && w.dst == w.accepted)
  {
    var w := Run(size, actions);
    OrderlyStaysQuiet(size, actions);
    RunKeepsInv(size, actions);
    ConsumerCanStep(size, w);
    if Run(size, actions[..n]).closed {
      BacklogIsWorkedOff(size, actions, n);
    }
    hide Run, ConsumerSteps, Backlog, Orderly, InOrder, FlushesKept;
  }

  lemma ConsumerCanStep(size: nat, w: Writer)
    requires Inv(w) && Quiet(w)
    ensures w.closed ==> (w.consumer.Exited? <==> Backlog(w) == 0) && (!w.consumer.Exited? ==> ConsumerCanGo(size, w))
    ensures w.consumer.Exited? ==> w.dst == w.accepted
  {
    var a := if w.consumer.Writing? then WriteLine else if w.queue != [] then Receive else Exit;
    assert w.closed && !w.consumer.Exited? ==> IsConsumerStep(a) && Enabled(size, w, a);
  }

  // ------------------------------------------------------------------ closing out of order

  predicate Drains(c: Consumer) {
    c.Draining? || c.DrainWriting?
  }

  /** A Flush waits to be served, or is being served. */
  ghost predicate FlushPending(w: Writer) {
    Drains(w.consumer) || exists id :: id in w.flushes && w.flushes[id].Offering?
  }

  /**
   What makes a closed writer panic: a Write under way, a drain under way, or a Flush that
   waits to be served by a consumer that has not exited.
   */
  ghost predicate AtRisk(w: Writer) {
    w.writes != map[] || (!w.consumer.Exited? && FlushPending(w))
  }

  ghost predicate NoNewCalls(more: seq<Action>) {
    forall i :: 0 <= i < |more| ==> !more[i].BeginWrite? && !more[i].BeginFlush?
  }

  /** Going on in this way, the writer panics. */
  predicate Panics(size: nat, actions: seq<Action>, more: seq<Action>) {
    Run(size, actions + more).crashed
  }

  lemma Then(size: nat, actions: seq<Action>, w: Writer, a: Action) returns (longer: seq<Action>, next: Writer)
    requires w == Run(size, actions)
    ensures longer == actions + [a] && next == Step(size, w, a) == Run(size, longer)
  {
    longer, next := actions + [a], Step(size, w, a);
    assert longer[..|actions|] == actions;
  }

  /** A closed writer that is not at risk stays so until a call begins. */
  lemma SafeStep(size: nat, w: Writer, a: Action)
    requires w.closed && !w.crashed && !AtRisk(w) && !a.BeginWrite? && !a.BeginFlush?
    ensures var r := Step(size, w, a); r.closed && !r.crashed && !AtRisk(r)
  {
  }

  lemma {:induction false} StaysSafe(size: nat, actions: seq<Action>, more: seq<Action>)
    requires var w := Run(size, actions); w.closed && !w.crashed && !AtRisk(w)
    requires NoNewCalls(more)
    ensures var w := Run(size, actions + more); w.closed && !w.crashed && !AtRisk(w)
  {
    if more == [] {
      assert actions + more == actions;
    } else {
      var fewer, a := more[..|more| - 1], more[|more| - 1];
      hide Step, AtRisk, Run;
      StaysSafe(size, actions, fewer);
      assert actions + more == actions + fewer + [a];
      var longer, next := Then(size, actions + fewer, Run(size, actions + fewer), a);
      SafeStep(size, Run(size, actions + fewer), a);
    }
  }

  /** A continuation that starts with one step. */
  lemma Before(size: nat, actions: seq<Action>, a: Action, rest: seq<Action>) returns (more: seq<Action>)
    requires NoNewCalls(rest) && Panics(size, actions + [a], rest) && !a.BeginWrite? && !a.BeginFlush?
    ensures NoNewCalls(more) && Panics(size, actions, more)
  {
    more := [a] + rest;
    assert actions + more == actions + [a] + rest;
  }

  /** A drain of a closed channel writes what is queued and then panics. */
  lemma {:induction false} DrainPanics(size: nat, actions: seq<Action>) returns (more: seq<Action>)
    requires var w := Run(size, actions); w.closed && !w.crashed && Drains(w.consumer)
    ensures NoNewCalls(more) && Panics(size, actions, more)
    decreases 2 * |Run(size, actions).queue| + |InHand(Run(size, actions).consumer)|
  {
    var w := Run(size, actions);
    var a := if w.consumer.Draining? then Receive else WriteLine;
    var longer, next := Then(size, actions, w, a);
    hide Run;
    more := [];
    if next.crashed {
      assert longer + [] == longer;
    } else {
      more := DrainPanics(size, longer);
    }
    more := Before(size, actions, a, more);
  }

  /** From every closed state at risk, without any new call, the writer can be driven to panic. */
  lemma {:induction false} RiskPanics(size: nat, actions: seq<Action>) returns (more: seq<Action>)
    requires var w := Run(size, actions); w.closed && !w.crashed && AtRisk(w)
    ensures NoNewCalls(more) && Panics(size, actions, more)
    decreases match Run(size, actions).consumer case Selecting => 0 case _ => 1
  {
    var w := Run(size, actions);
    hide Run;
    if w.writes != map[] {
      assert |w.writes.Keys| == |w.writes| != 0;
      var id := SomeElement(w.writes.Keys);
      var longer, next := Then(size, actions, w, Send(id));
      assert longer + [] == longer;
      more := Before(size, actions, Send(id), []);
    } else if Drains(w.consumer) {
      more := DrainPanics(size, actions);
    } else if w.consumer.Selecting? {
      var id :| id in w.flushes && w.flushes[id].Offering?;
      var longer, next := Then(size, actions, w, OfferAck(id));
      more := DrainPanics(size, longer);
      more := Before(size, actions, OfferAck(id), more);
    } else {
      var a := if w.consumer.Writing? then WriteLine else SendAck;
      RunKeepsInv(size, actions);
      RiskStays(size, w, a);
      var longer, next := Then(size, actions, w, a);
      more := RiskPanics(size, longer);
      more := Before(size, actions, a, more);
    }
  }

  lemma RiskStays(size: nat, w: Writer, a: Action)
    requires w.closed && !w.crashed && w.writes == map[] && AtRisk(w)
    requires if w.consumer.Writing? then a == WriteLine else w.consumer.Acking? && a == SendAck
    requires FlushesKept(w)
    ensures var r := Step(size, w, a); r.closed && !r.crashed && AtRisk(r) && r.consumer.Selecting?
  {
    var id :| id in w.flushes && w.flushes[id].Offering?;
    var r := Step(size, w, a);
    assert id in r.flushes && r.flushes[id].Offering?;
  }

  /**
   After Close, from every reachable state: without a new call the writer can panic if and only
   if a Write is under way, or the consumer has not exited and a Flush waits or is being served.
   */
  lemma {:induction false} PanicsExactlyAtRisk(size: nat, actions: seq<Action>)
    requires Run(size, actions).closed && !Run(size, actions).crashed
    ensures (exists more :: NoNewCalls(more) && Panics(size, actions, more)) <==> AtRisk(Run(size, actions))
  {
    hide Run;
    if AtRisk(Run(size, actions)) {
      var more := RiskPanics(size, actions);
    } else {
      forall more | NoNewCalls(more)
        ensures !Panics(size, actions, more)
      {
        StaysSafe(size, actions, more);
      }
    }
  }

  /** A Write that begins after Close puts the writer at risk, and so does a Flush until the consumer has exited. */
  lemma CallsAfterClose(size: nat, w: Writer, id: int, line: Line)
    requires w.closed && !w.crashed && !AtRisk(w) && id !in w.writes && id !in w.flushes
    ensures AtRisk(Step(size, w, BeginWrite(id, line)))
    ensures AtRisk(Step(size, w, BeginFlush(id))) <==> !w.consumer.Exited?
  {
    var r := Step(size, w, BeginWrite(id, line));
    assert id in r.writes;
    var f := Step(size, w, BeginFlush(id));
    assert id in f.flushes && f.flushes[id].Offering?;
  }

  /**
   What a caller of Close has to see to: in every reachable state, calling Close lets the writer
   panic without a further call if and only if a Write is under way, or a Flush waits or is being
   served.
   */
  lemma {:induction false} CloseIsSafeExactly(size: nat, actions: seq<Action>)
    requires Run(size, actions).closer.NotCalled? && !Run(size, actions).crashed
    ensures var w := Run(size, actions);
            (exists more :: NoNewCalls(more) && Panics(size, actions + [BeginClose], more))
            <==> w.writes != map[] || FlushPending(w)
  {
    var w := Run(size, actions);
    RunKeepsInv(size, actions);
    var longer, next := Then(size, actions, w, BeginClose);
    assert next == w.(closer := Called, closed := true);
    hide Run, Step, InOrder, FlushesKept;
    PanicsExactlyAtRisk(size, longer);
  }

  /**
   A Write or a drain that Close has caught cannot be saved: every further step leaves it there,
   or is the panic.
   */
  lemma CaughtStaysCaught(size: nat, w: Writer, a: Action)
    requires w.closed && !w.crashed
    ensures forall id :: id in w.writes ==> id in Step(size, w, a).writes || Step(size, w, a).crashed
    ensures Drains(w.consumer) ==> Drains(Step(size, w, a).consumer) || Step(size, w, a).crashed
    ensures Step(size, w, a).closed
  {
  }

  /** For every size: a Flush that is being served while Close is called receives from the closed channel. */
  lemma FlushRacingCloseCrashes(size: nat) returns (actions: seq<Action>)
    ensures Run(size, actions).crashed
  {
    var w;
    actions, w := [], NewWriter;
    assert w == Run(size, actions);
    hide Run;
    actions, w := Then(size, actions, w, BeginFlush(1));
    actions, w := Then(size, actions, w, OfferAck(1));
    actions, w := Then(size, actions, w, BeginClose);
    actions, w := Then(size, actions, w, Receive);
  }

  /** For every size: a Write that is still under way when Close is called sends on the closed channel. */
  lemma WriteRacingCloseCrashes(size: nat, line: Line) returns (actions: seq<Action>)
    ensures Run(size, actions).crashed
  {
    var w;
    actions, w := [], NewWriter;
    assert w == Run(size, actions);
    hide Run;
    actions, w := Then(size, actions, w, BeginWrite(1, line));
    actions, w := Then(size, actions, w, BeginClose);
    actions, w := Then(size, actions, w, Send(1));
  }

  // ------------------------------------------------------------------ every call returns

  function AnyWrite(): Line -> bool {
    (line: Line) => true
  }

  function AnyFlush(): Flusher -> bool {
    (f: Flusher) => true
  }

  function Unserved(): Flusher -> bool {
    (f: Flusher) => f.Offering?
  }

  /** What a consumer has before it, not counting lines. */
  function Ahead(c: Consumer): nat {
    match c
    case Selecting => 1
    case Writing(_) => 1
    case Draining(_) => 3
    case DrainWriting(_, _) => 3
    case Acking(_) => 2
    case Exited => 0
  }

  /** A bound on the steps that can still be taken unless another call begins. */
  function Work(w: Writer): nat {
    3 * Count(w.writes, AnyWrite()) + 2 * |w.queue| + |InHand(w.consumer)| + Ahead(w.consumer)
    + Count(w.flushes, AnyFlush()) + 3 * Count(w.flushes, Unserved())
    + (match w.closer case NotCalled => 2 case Called => 1 case Returned => 0) + One(!w.crashed)
  }

  lemma StepWorks(size: nat, w: Writer, a: Action)
    requires Enabled(size, w, a) && !a.BeginWrite? && !a.BeginFlush? && FlushesKept(w)
    ensures Work(Step(size, w, a)) < Work(w)
  {
    match a
    case Send(id) => CountRemove(w.writes, AnyWrite(), id);
    case HandOver(id) => CountRemove(w.writes, AnyWrite(), id);
    case OfferAck(id) =>
      CountSet(w.flushes, AnyFlush(), id, Awaiting(w.flushes[id].mark));
      CountSet(w.flushes, Unserved(), id, Awaiting(w.flushes[id].mark));
    case SendAck =>
      var id := w.consumer.ack;
      CountSet(w.flushes, AnyFlush(), id, Acked(w.flushes[id].mark));
      CountSet(w.flushes, Unserved(), id, Acked(w.flushes[id].mark));
    case FlushReturn(id) =>
      CountRemove(w.flushes, AnyFlush(), id);
      CountRemove(w.flushes, Unserved(), id);
    case _ =>
  }

  /** Some call that is under way, or the consumer, can take a step. */
  ghost predicate CanGoOn(size: nat, w: Writer) {
    exists a: Action :: !a.BeginWrite? && !a.BeginFlush? && !a.BeginClose? && Enabled(size, w, a)
  }

  /** Nothing is under way, and everything is in dst. */
  ghost predicate AtRest(w: Writer) {
    w.writes == map[] && w.flushes == map[] && !w.closer.Called? && w.dst == w.accepted
  }

  /** What the consumer does next when no producer meets it at an empty queue. */
  function ConsumerNext(w: Writer): Action {
    match w.consumer
    case Writing(_) => WriteLine
    case DrainWriting(_, _) => WriteLine
    case Acking(_) => SendAck
    case Draining(_) => if w.queue == [] && !w.closed then DrainDone else Receive
    case _ => if w.queue == [] then Exit else Receive
  }

  /** No call waits for ever: unless nothing is under way, somebody can take a step. */
  lemma SomebodyCanStep(size: nat, w: Writer)
    requires Inv(w)
    ensures w.crashed || CanGoOn(size, w) || AtRest(w)
  {
    if w.crashed || Enabled(size, w, ConsumerNext(w)) {
    } else if w.writes != map[] {
      assert |w.writes.Keys| == |w.writes| != 0;
      var id := SomeElement(w.writes.Keys);
      assert Enabled(size, w, Send(id)) || Enabled(size, w, HandOver(id));
    } else if w.flushes != map[] {
      assert |w.flushes.Keys| == |w.flushes| != 0;
      var id := SomeElement(w.flushes.Keys);
      assert Enabled(size, w, OfferAck(id)) || Enabled(size, w, FlushReturn(id));
    } else if w.closer.Called? {
      assert Enabled(size, w, CloseReturn);
    } else {
      assert w.dst + [] + [] == w.dst;
    }
  }

  ghost predicate EveryStepHappens(size: nat, actions: seq<Action>, more: seq<Action>) {
    forall i :: 0 <= i < |more| ==> Enabled(size, Run(size, actions + more[..i]), more[i])
  }

  lemma HappensEarlier(size: nat, actions: seq<Action>, more: seq<Action>)
    requires EveryStepHappens(size, actions, more) && more != []
    ensures var fewer := more[..|more| - 1];
            EveryStepHappens(size, actions, fewer) && Enabled(size, Run(size, actions + fewer), more[|fewer|])
  {
    hide Run, Enabled;
    var fewer := more[..|more| - 1];
    forall i | 0 <= i < |fewer|
      ensures Enabled(size, Run(size, actions + fewer[..i]), fewer[i])
    {
      assert fewer[..i] == more[..i];
    }
  }

  lemma {:induction false} WorkBounds(size: nat, actions: seq<Action>, more: seq<Action>)
    requires NoNewCalls(more) && EveryStepHappens(size, actions, more)
    ensures |more| + Work(Run(size, actions + more)) <= Work(Run(size, actions))
  {
    hide Step, Run, Work, InOrder, FlushesKept, Closing, Enabled, EveryStepHappens;
    if more == [] {
      assert actions + more == actions;
    } else {
      var fewer, a := more[..|more| - 1], more[|more| - 1];
      HappensEarlier(size, actions, more);
      WorkBounds(size, actions, fewer);
      assert actions + more == actions + fewer + [a];
      var before := Run(size, actions + fewer);
      var longer, next := Then(size, actions + fewer, before, a);
      RunKeepsInv(size, actions + fewer);
      StepWorks(size, before, a);
    }
  }

  /**
   From every reachable state, as long as no further Write or Flush begins, only so many steps
   can be taken as the work there is; and until the writer panics or nothing is under way and
   everything is in dst, one can be taken.
   */
  lemma {:induction false} EveryCallReturns(size: nat, actions: seq<Action>, more: seq<Action>)
    requires NoNewCalls(more) && EveryStepHappens(size, actions, more)
    ensures var w := Run(size, actions + more);
            && |more| + Work(w) <= Work(Run(size, actions))
            && (w.crashed || CanGoOn(size, w) || AtRest(w))
  {
    RunKeepsInv(size, actions + more);
    SomebodyCanStep(size, Run(size, actions + more));
    WorkBounds(size, actions, more);
    hide Run, Work, AtRest, Inv, CanGoOn, EveryStepHappens;
  }

  // ------------------------------------------------------------------------ the drain loop

  class Output {
    var dst: seq<Line>
    var queue: seq<Line>

    /** Writes what is queued, oldest first, until nothing is queued. */
    method Drain()
      modifies this
      ensures queue == [] && dst == old(dst) + old(queue)
    {
      while queue != []
        invariant dst + queue == old(dst) + old(queue)
        decreases |queue|
      {
        assert queue == [queue[0]] + queue[1..];
        dst := dst + [queue[0]];
        queue := queue[1..];
      }
    }
  }
}
