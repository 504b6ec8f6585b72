/** Cutting log events into PutLogEvents calls (aws/cloudwatch/logs). */
module LogBatches {
  import opened Options
  import opened Sequences
  import StableSort

  const MaxEventsPerCall := 10000
  const MaxBatchBytes := 1 * 1024 * 1024
  const LogEventOverhead := 26

  /** A timestamp of None is the zero time.Time. */
  datatype LogEvent = LogEvent(timestamp: Option<int>, message: seq<byte>)

  type Batch = seq<LogEvent>

  function Size(e: LogEvent): nat {
    |e.message| + LogEventOverhead
  }

  function Bytes(b: Batch): nat {
    if b == [] then 0 else Bytes(b[..|b| - 1]) + Size(b[|b| - 1])
  }

  /** What the service accepts in one call, except that an event too large for it goes alone. */
  predicate Fits(b: Batch) {
    1 <= |b| <= MaxEventsPerCall && (Bytes(b) <= MaxBatchBytes || |b| == 1)
  }

  /** An order-preserving split of the events into batches that fit. */
  ghost predicate Splits(batches: seq<Batch>, events: seq<LogEvent>) {
    Flatten(batches) == events && forall i :: 0 <= i < |batches| ==> Fits(batches[i])
  }

  /** The event must open a new batch. */
  predicate Full(current: Batch, e: LogEvent) {
    |current| >= MaxEventsPerCall || (Bytes(current) + Size(e) > MaxBatchBytes && |current| > 0)
  }

  /** The batches still to come when `current` is being filled and `rest` remains. */
  function Greedy(current: Batch, rest: seq<LogEvent>): seq<Batch>
    decreases |rest|
  {
    if rest == [] then (if current == [] then [] else [current])
    else if Full(current, rest[0]) then [current] + Greedy([rest[0]], rest[1..])
    else Greedy(current + [rest[0]], rest[1..])
  }

  lemma BytesPush(b: Batch, e: LogEvent)
    ensures Bytes(b + [e]) == Bytes(b) + Size(e)
  {
    assert (b + [e])[..|b|] == b;
  }

  lemma GreedyTakes(current: Batch, rest: seq<LogEvent>)
    requires rest != []
    ensures Full(current, rest[0]) ==> current != []
    ensures Greedy(current, rest)
            == if Full(current, rest[0]) then [current] + Greedy([rest[0]], rest[1..])
               else Greedy(current + [rest[0]], rest[1..])
  {
  }

  lemma GreedyEnds(current: Batch)
    ensures Greedy(current, []) == if current == [] then [] else [current]
  {
  }

  method PartitionLogEvents(events: seq<LogEvent>) returns (batches: seq<Batch>)
    ensures batches == Greedy([], events)
  {
    assert Bytes([]) == 0;
    hide Greedy, Bytes;
    batches := [];
    var current: Batch := [];
    var currentBytes := 0;
    for i := 0 to |events|
      invariant currentBytes == Bytes(current)
      invariant Greedy([], events) == batches + Greedy(current, events[i..])
    {
      var e := events[i];
      var msgSize := |e.message| + LogEventOverhead;
      assert events[i..][0] == e && events[i..][1..] == events[i + 1..];
      GreedyTakes(current, events[i..]);
      BytesPush(current, e);
      BytesPush([], e);
      if |current| >= MaxEventsPerCall || (currentBytes + msgSize > MaxBatchBytes && |current| > 0) {
        batches := batches + [current];
        current := [];
        currentBytes := 0;
        assert [] + [e] == [e];
      }
      current := current + [e];
      currentBytes := currentBytes + msgSize;
    }
    assert events[|events|..] == [];
    GreedyEnds(current);
    if |current| > 0 {
      batches := batches + [current];
    }
  }

  // ------------------------------------------------------------------- facts about splits

  lemma {:induction false} BytesAdd(a: Batch, b: Batch)
    ensures Bytes(a + b) == Bytes(a) + Bytes(b)
  {
    if b == [] {
      assert a + b == a;
    } else {
      BytesAdd(a, b[..|b| - 1]);
      assert (a + b)[..|a + b| - 1] == a + b[..|b| - 1];
    }
  }

  /** Every part of a batch that fits, fits. */
  lemma PartFits(b: Batch, lo: nat, hi: nat)
    requires Fits(b) && lo < hi <= |b|
    ensures Fits(b[lo..hi])
  {
    var before, part, after := b[..lo], b[lo..hi], b[hi..];
    BytesAdd(before, part);
    BytesAdd(before + part, after);
    assert b == before + part + after;
  }

  /** Dropping the first events of a split leaves a split that is no longer. */
  lemma {:induction false} DropSplits(batches: seq<Batch>, events: seq<LogEvent>, n: nat) returns (rest: seq<Batch>)
    requires Splits(batches, events) && n <= |events|
    ensures Splits(rest, events[n..]) && |rest| <= |batches|
    decreases |batches|
  {
    if n == 0 {
      rest := batches;
      assert events[0..] == events;
    } else {
      FlattenFirst(batches);
      var first, later := batches[0], batches[1..];
      assert events[|first|..] == Flatten(later);
      if n >= |first| {
        rest := DropSplits(later, events[|first|..], n - |first|);
        assert events[|first|..][n - |first|..] == events[n..];
      } else {
        PartFits(first, n, |first|);
        rest := [first[n..]] + later;
        FlattenFirst(rest);
        assert rest[1..] == later && first[n..] == first[n..|first|];
        assert events[n..] == first[n..] + Flatten(later);
      }
    }
  }

  // ------------------------------------------------------------------ the greedy partition

  lemma {:induction false} SplitsFirst(first: Batch, batches: seq<Batch>, events: seq<LogEvent>)
    requires Fits(first) && Splits(batches, events)
    ensures Splits([first] + batches, first + events)
  {
    var all := [first] + batches;
    FlattenFirst(all);
    assert all[1..] == batches;
    hide Fits, Flatten;
  }

  /** An event that fits into the current batch, or opens one, leaves a batch that fits. */
  lemma {:induction false} TakesEvent(current: Batch, e: LogEvent)
    requires current == [] || (Fits(current) && !Full(current, e))
    ensures Fits(current + [e])
  {
    BytesPush(current, e);
    hide Bytes;
  }

  lemma {:induction false} GreedySplits(current: Batch, rest: seq<LogEvent>)
    requires current == [] || Fits(current)
    ensures Splits(Greedy(current, rest), current + rest)
    decreases |rest|
  {
    assert Splits([], []);
    hide *;
    if rest == [] {
      GreedyEnds(current);
      assert current + rest == current;
      if current != [] {
        SplitsFirst(current, [], []);
        assert [current] + [] == [current] && current + [] == current;
      }
    } else {
      var e, later := rest[0], rest[1..];
      GreedyTakes(current, rest);
      assert rest == [e] + later;
      if Full(current, e) {
        TakesEvent([], e);
        assert [] + [e] == [e];
        GreedySplits([e], later);
        SplitsFirst(current, Greedy([e], later), rest);
      } else {
        TakesEvent(current, e);
        GreedySplits(current + [e], later);
        assert current + rest == current + [e] + later;
      }
    }
  }

  /** A batch that cannot take the next event: no batch that fits starts with both. */
  lemma FullMeansNoFit(current: Batch, e: LogEvent, longer: Batch)
    requires current != [] && Fits(current) && Full(current, e) && current + [e] <= longer
    ensures !Fits(longer)
  {
    BytesAdd(current, [e]);
    assert [e][..0] == [] && Bytes([e]) == Size(e);
    assert longer[0..|current| + 1] == current + [e];
    if Fits(longer) {
      PartFits(longer, 0, |current| + 1);
    }
  }

  /** Past a full batch, any split of the whole leaves a shorter split of the rest. */
  lemma RestSplits(current: Batch, rest: seq<LogEvent>, other: seq<Batch>) returns (shorter: seq<Batch>)
    requires current != [] && Fits(current) && rest != [] && Full(current, rest[0])
    requires Splits(other, current + rest)
    ensures Splits(shorter, rest) && |shorter| < |other|
  {
    hide Full, Fits, Bytes;
    FlattenFirst(other);
    var all, first := current + rest, other[0];
    assert all == first + Flatten(other[1..]);
    hide Flatten;
    if |first| > |current| {
      assert all[..|current| + 1] == current + [rest[0]];
      assert current + [rest[0]] <= first;
      FullMeansNoFit(current, rest[0], first);
      assert false;
    }
    assert all[|first|..] == Flatten(other[1..]);
    shorter := DropSplits(other[1..], all[|first|..], |current| - |first|);
    assert all[|first|..][|current| - |first|..] == rest;
  }

  lemma {:induction false} GreedyIsShortest(current: Batch, rest: seq<LogEvent>, other: seq<Batch>)
    requires current != [] && Fits(current) && Splits(other, current + rest)
    ensures |Greedy(current, rest)| <= |other|
    decreases |rest|
  {
    assert other != [];
    if rest != [] {
      var e, later := rest[0], rest[1..];
      BytesAdd(current, [e]);
      assert [e][..0] == [] && Bytes([e]) == Size(e);
      if Full(current, e) {
        var shorter := RestSplits(current, rest, other);
        hide Splits;
        assert rest == [e] + later;
        GreedyIsShortest([e], later, shorter);
      } else {
        assert current + rest == current + [e] + later;
        GreedyIsShortest(current + [e], later, other);
      }
    }
  }

  /**
   For every list of events the batches concatenate to the input, each is non-empty and
   within both limits unless it is a single event, and no other such split has fewer batches.
   */
  lemma {:induction false} PartitionIsShortestSplit(events: seq<LogEvent>, other: seq<Batch>)
    ensures Splits(Greedy([], events), events)
    ensures Splits(other, events) ==> |Greedy([], events)| <= |other|
  {
    hide *;
    GreedySplits([], events);
    assert [] + events == events;
    if events == [] {
      GreedyEnds([]);
    } else if Splits(other, events) {
      var e := events[0];
      GreedyTakes([], events);
      TakesEvent([], e);
      assert [] + [e] == [e] && events == [e] + events[1..];
      GreedyIsShortest([e], events[1..], other);
    }
  }

  /** The bytes of all messages. */
  function MessageBytes(b: Batch): nat {
    if b == [] then 0 else |b[0].message| + MessageBytes(b[1..])
  }

  lemma {:induction false} BytesAreMessages(b: Batch)
    ensures Bytes(b) == MessageBytes(b) + 26 * |b|
  {
    if b != [] {
      BytesAreMessages(b[1..]);
      BytesAdd([b[0]], b[1..]);
      assert b == [b[0]] + b[1..] && [b[0]][..0] == [];
    }
  }

  /** The limits of a call: ten thousand events, and a mebibyte of messages with 26 bytes more for each. */
  lemma {:induction false} FitsInNumbers(b: Batch)
    ensures Fits(b) <==> 1 <= |b| <= 10_000 && (|b| == 1 || MessageBytes(b) + 26 * |b| <= 1_048_576)
  {
    BytesAreMessages(b);
    hide Bytes, MessageBytes;
  }

  // ----------------------------------------------------------------------- PutLogEvents

  /** The events with their missing timestamps read from the clock, which is read per event. */
  function Resolved(events: seq<LogEvent>, now: nat -> int): seq<LogEvent> {
    seq(|events|, i requires 0 <= i < |events| =>
      if events[i].timestamp.None? then events[i].(timestamp := Some(now(i))) else events[i])
  }

  function Timestamp(): LogEvent -> int {
    (e: LogEvent) => match e.timestamp case Some(t) => t case None => 0
  }

  method Resolve(events: seq<LogEvent>, now: nat -> int) returns (resolved: seq<LogEvent>)
    ensures resolved == Resolved(events, now) && |resolved| == |events|
    ensures forall i :: 0 <= i < |events| ==>
              && resolved[i].message == events[i].message
              && resolved[i].timestamp == Some(if events[i].timestamp.None? then now(i) else events[i].timestamp.value)
  {
    resolved := [];
    for i := 0 to |events|
      invariant resolved == Resolved(events, now)[..i]
    {
      var e := events[i];
      if e.timestamp.None? {
        e := e.(timestamp := Some(now(i)));
      }
      resolved := resolved + [e];
    }
  }

  /** The calls, in order, up to the first that fails. */
  method SendAll(batches: seq<Batch>, fails: nat -> bool) returns (ok: bool, sent: seq<Batch>)
    ensures sent <= batches && (forall i :: 0 <= i < |sent| ==> !fails(i))
    ensures if ok then sent == batches else |sent| < |batches| && fails(|sent|)
  {
    ok, sent := true, [];
    for i := 0 to |batches|
      invariant ok && sent == batches[..i]
      invariant forall k :: 0 <= k < i ==> !fails(k)
    {
      if fails(i) {
        ok := false;
        return;
      }
      sent := sent + [batches[i]];
    }
  }

  /** No event comes after one with a later timestamp. */
  ghost predicate InTimeOrder(b: Batch) {
    forall i, j :: 0 <= i < j < |b| && b[i].timestamp.Some? && b[j].timestamp.Some? ==>
      b[i].timestamp.value <= b[j].timestamp.value
  }

  /**
   The batches hold exactly the events, in order of time, those of the same time in the order
   given, and no fewer batches would do.
   */
  ghost predicate Batched(batches: seq<Batch>, events: seq<LogEvent>) {
    && InTimeOrder(Flatten(batches))
    && (forall t :: StableSort.WithKey(Timestamp(), Flatten(batches), t) == StableSort.WithKey(Timestamp(), events, t))
    && Splits(batches, StableSort.Sort(Timestamp(), events))
    && StableSort.Sorted(Timestamp(), Flatten(batches))
    && multiset(Flatten(batches)) == multiset(events)
    && (forall other :: Splits(other, Flatten(batches)) ==> |batches| <= |other|)
  }

  lemma {:induction false} SortedAreBatched(events: seq<LogEvent>)
    ensures Batched(Greedy([], StableSort.Sort(Timestamp(), events)), events)
  {
    var sorted := StableSort.Sort(Timestamp(), events);
    StableSort.SortIsStable(Timestamp(), events);
    assert InTimeOrder(sorted) by {
      var key := Timestamp();
      assert forall i, j :: 0 <= i < j < |sorted| ==> key(sorted[i]) <= key(sorted[j]);
    }
    hide StableSort.Sort, StableSort.Sorted, StableSort.WithKey, Greedy, InTimeOrder;
    forall other
      ensures Splits(Greedy([], sorted), sorted) && (Splits(other, sorted) ==> |Greedy([], sorted)| <= |other|)
    {
      PartitionIsShortestSplit(sorted, other);
    }
    assert Splits(Greedy([], sorted), sorted);
  }

  /** `fails(i)` says whether the i-th call fails; `sent` are the batches of the calls that succeed. */
  method PutLogEvents(events: seq<LogEvent>, now: nat -> int, fails: nat -> bool)
    returns (ok: bool, sent: seq<Batch>, batches: seq<Batch>)
    ensures Batched(batches, Resolved(events, now))
    ensures sent <= batches && (forall i :: 0 <= i < |sent| ==> !fails(i))
    ensures if ok then sent == batches else |sent| < |batches| && fails(|sent|)
  {
    hide *;
    var resolved := Resolve(events, now);
    SortedAreBatched(resolved);
    batches := PartitionLogEvents(StableSort.Sort(Timestamp(), resolved));
    ok, sent := SendAll(batches, fails);
  }
}
