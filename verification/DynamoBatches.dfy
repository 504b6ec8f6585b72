/**
 Batch writes and reads of aws/dynamodb: cutting the items into batches, sending each batch,
 and sending what comes back unprocessed again, a bounded number of times.

 The service is a function from the number of the call within the batch and the request to
 a reply; it may depend on both in any way, so it also covers batches that run concurrently.
 */
module DynamoBatches {
  import opened Options
  import opened Counting
  import opened Sequences
  import ParallelRunner

  const MaxBatchSize := 25
  const MaxBatchRetries := 5
  const BatchRetryBaseDelayMs := 50

  // ------------------------------------------------------------------------------ chunks

  /** All chunks are full except the last, which is not empty. */
  predicate Chunked<T>(parts: seq<seq<T>>) {
    && (forall i :: 0 <= i < |parts| - 1 ==> |parts[i]| == MaxBatchSize)
    && (parts != [] ==> 1 <= |parts[|parts| - 1]| <= MaxBatchSize)
  }

  method Chunks<T>(items: seq<T>) returns (parts: seq<seq<T>>)
    ensures Flatten(parts) == items && Chunked(parts)
    ensures |parts| == (|items| + 24) / 25 && forall i :: 0 <= i < |parts| ==> |parts[i]| <= 25
  {
    parts := [];
    var i := 0;
    while i < |items|
      invariant 0 <= i <= |items| && (i % MaxBatchSize == 0 || i == |items|)
      invariant Flatten(parts) == items[..i]
      invariant forall k :: 0 <= k < |parts| ==>
                  |parts[k]| == if k < |parts| - 1 then MaxBatchSize else i - MaxBatchSize * (|parts| - 1)
      invariant parts != [] ==> 1 <= |parts[|parts| - 1]| <= MaxBatchSize
      invariant parts == [] <==> i == 0
      invariant |parts| == (i + MaxBatchSize - 1) / MaxBatchSize
    {
      var end := if i + MaxBatchSize <= |items| then i + MaxBatchSize else |items|;
      assert items[..end] == items[..i] + items[i..end];
      assert (parts + [items[i..end]])[..|parts|] == parts;
      parts := parts + [items[i..end]];
      i := end;
    }
    assert items[..i] == items;
  }

  // ----------------------------------------------------------------- one batch of requests

  /**
   The UnprocessedItems of a reply: no table at all, or the requests of the one table asked.
   The source tests the number of tables, so a table with an empty list still counts.
   */
  datatype Unprocessed<T> = NoTables | Table(requests: seq<T>)

  function Remaining<T>(u: Unprocessed<T>): seq<T> {
    if u.NoTables? then [] else u.requests
  }

  /** `handled` are the requests the call took care of, `items` what a read returns for them. */
  datatype Reply<T, V> = Failed | Answered(handled: seq<T>, items: seq<V>, unprocessed: Unprocessed<T>)

  type Service<!T, !V> = (nat, seq<T>) -> Reply<T, V>

  /** The call handled some of its requests and handed back exactly the others. */
  ghost predicate Conserves<T, V>(request: seq<T>, reply: Reply<T, V>) {
    reply.Answered? ==> multiset(reply.handled) + multiset(Remaining(reply.unprocessed)) == multiset(request)
  }

  ghost predicate Honest<T(!new), V(!new)>(service: Service<T, V>) {
    forall n, request :: Conserves(request, service(n, request))
  }

  datatype Error = ServiceError | ContextDone | StillUnprocessed

  /** What the calls on a batch have handled and returned so far, and what they have left. */
  datatype Sent<T, V> = Sent(handled: seq<T>, items: seq<V>, left: Unprocessed<T>)

  /** After `calls` calls, each sending exactly what the one before it handed back. */
  function After<T, V>(service: Service<T, V>, batch: seq<T>, calls: nat): Sent<T, V> {
    if calls == 0 then Sent([], [], Table(batch))
    else
      var s := After(service, batch, calls - 1);
      if s.left.NoTables? then s
      else match service(calls - 1, s.left.requests)
        case Failed => s
        case Answered(handled, items, unprocessed) => Sent(s.handled + handled, s.items + items, unprocessed)
  }

  /** Whatever the service does, no request is lost and none is handled twice. */
  lemma {:induction false} NothingLost<T(!new), V(!new)>(service: Service<T, V>, batch: seq<T>, calls: nat)
    requires Honest(service)
    ensures var s := After(service, batch, calls);
            multiset(s.handled) + multiset(Remaining(s.left)) == multiset(batch)
  {
    if calls > 0 {
      NothingLost(service, batch, calls - 1);
      var s := After(service, batch, calls - 1);
      if s.left.Table? {
        assert Conserves(s.left.requests, service(calls - 1, s.left.requests));
      }
    }
  }

  /** One call: what it adds to what has been sent, or nothing when it fails. */
  lemma AfterOneMore<T, V>(service: Service<T, V>, batch: seq<T>, calls: nat)
    requires After(service, batch, calls).left.Table?
    ensures var s := After(service, batch, calls);
            After(service, batch, calls + 1)
            == match service(calls, s.left.requests)
               case Failed => s
               case Answered(handled, items, unprocessed) => Sent(s.handled + handled, s.items + items, unprocessed)
  {
  }

  /** Call `k` of the batch was made with something left, and got an answer. */
  ghost predicate GotAnswer<T, V>(service: Service<T, V>, batch: seq<T>, k: nat) {
    var left := After(service, batch, k).left;
    left.Table? && service(k, left.requests).Answered?
  }

  /**
   What ends a batch after `calls` calls: nothing left, a call that failed, the context, or the
   sixth call; nothing of the kind came before.
   */
  ghost predicate EndsFor<T, V>(
    service: Service<T, V>, batch: seq<T>, done: nat -> bool, calls: nat, err: Option<Error>) {
    && 1 <= calls <= 6
    && (forall k :: 1 <= k < calls ==> GotAnswer(service, batch, k - 1) && !done(k))
    && (err.None? <==> After(service, batch, calls).left.NoTables?)
    && (err == Some(ServiceError) <==> !GotAnswer(service, batch, calls - 1))
    && (err == Some(ContextDone) ==> calls < 6 && done(calls))
    && (err == Some(StillUnprocessed) ==> calls == 6)
  }

  /**
   The retry loop, entered after the first call of the batch. `done(k)` says whether the
   context is done when retry k is due. A failing call is taken to have handled nothing.
   */
  method RetryUnprocessed<T, V>(batch: seq<T>, first: Sent<T, V>, service: Service<T, V>, done: nat -> bool)
    returns (err: Option<Error>, sent: Sent<T, V>, calls: nat, waits: seq<int>)
    requires first == After(service, batch, 1) && GotAnswer(service, batch, 0)
    ensures sent == After(service, batch, calls) && EndsFor(service, batch, done, calls, err)
    ensures |waits| == calls - 1 && forall i :: 0 <= i < |waits| ==> waits[i] == 50 * Pow2(i)
  {
    err, sent, calls, waits := None, first, 1, [];
    var delay := BatchRetryBaseDelayMs;
    while sent.left.Table?
      invariant 1 <= calls <= MaxBatchRetries + 1 && |waits| == calls - 1
      invariant err.None? && sent == After(service, batch, calls)
      invariant forall k :: 1 <= k < calls ==> !done(k)
      invariant forall k :: 0 <= k < calls ==> GotAnswer(service, batch, k)
      invariant delay == BatchRetryBaseDelayMs * Pow2(calls - 1)
      invariant forall i :: 0 <= i < |waits| ==> waits[i] == BatchRetryBaseDelayMs * Pow2(i)
      decreases MaxBatchRetries + 1 - calls
    {
      AfterOneMore(service, batch, calls);
      hide After;
      var attempt := calls;
      if attempt > MaxBatchRetries {
        err := Some(StillUnprocessed);
        return;
      }
      if done(attempt) {
        err := Some(ContextDone);
        return;
      }
      waits := waits + [delay];
      delay := delay * 2;
      var reply := service(attempt, sent.left.requests);
      calls := calls + 1;
      if reply.Failed? {
        err := Some(ServiceError);
        return;
      }
      sent := Sent(sent.handled + reply.handled, sent.items + reply.items, reply.unprocessed);
    }
  }

  /** One batch: the first call, and the retry loop when the reply names unprocessed requests. */
  method SendBatch<T(!new), V(!new)>(batch: seq<T>, service: Service<T, V>, done: nat -> bool)
    returns (err: Option<Error>, sent: Sent<T, V>, calls: nat)
    requires Honest(service)
    ensures sent == After(service, batch, calls) && EndsFor(service, batch, done, calls, err)
    ensures multiset(sent.handled) + multiset(Remaining(sent.left)) == multiset(batch)
    ensures err.None? ==> multiset(sent.handled) == multiset(batch)
  {
    hide Honest, Conserves;
    AfterOneMore(service, batch, 0);
    assert After(service, batch, 0) == Sent([], [], Table(batch));
    hide After;
    err, sent, calls := None, Sent([], [], Table(batch)), 1;
    var reply := service(0, batch);
    if reply.Failed? {
      err := Some(ServiceError);
    } else {
      sent := Sent([] + reply.handled, [] + reply.items, reply.unprocessed);
      if reply.unprocessed.Table? {
        var waits;
        err, sent, calls, waits := RetryUnprocessed(batch, sent, service, done);
      }
    }
    NothingLost(service, batch, calls);
  }

  // -------------------------------------------------------------------------- all batches

  ghost predicate AllHonest<T(!new), V(!new)>(services: nat -> Service<T, V>) {
    forall i :: Honest(services(i))
  }

  /** When the context is done, as one batch sees it. */
  function OfBatch(done: (nat, nat) -> bool, i: nat): nat -> bool {
    (k: nat) => done(i, k)
  }

  lemma {:induction false} LowestFailureOfMore<R>(outs: seq<Result<R, Error>>, out: Result<R, Error>)
    ensures ParallelRunner.LowestFailure(outs + [out])
            == if ParallelRunner.LowestFailure(outs).Some? then ParallelRunner.LowestFailure(outs)
               else if out.Err? then Some(out.error) else None
  {
    if outs != [] {
      LowestFailureOfMore(outs[1..], out);
      assert (outs + [out])[1..] == outs[1..] + [out];
    }
  }

  /** Every request is either handled or left, and none is both. */
  ghost predicate Accounted<T>(handled: seq<T>, left: seq<T>, requests: seq<T>) {
    multiset(handled) + multiset(left) == multiset(requests)
  }

  lemma AccountBatch<T>(handled: seq<T>, left: seq<T>, parts: seq<seq<T>>, i: nat, h: seq<T>, l: seq<T>)
    requires i < |parts|
    requires Accounted(handled, left, Flatten(parts[..i])) && Accounted(h, l, parts[i])
    ensures Accounted(handled + h, left + l, Flatten(parts[..i + 1]))
  {
    FlattenNext(parts, i);
  }

  /** The function that runParallel runs for one batch. */
  method WriteBatch<T(!new)>(batch: seq<T>, service: Service<T, ()>, done: nat -> bool)
    returns (out: Result<(), Error>, handled: seq<T>, left: Unprocessed<T>, calls: nat)
    requires Honest(service)
    ensures Accounted(handled, Remaining(left), batch) && (out.Ok? <==> left.NoTables?)
    ensures EndsFor(service, batch, done, calls, if out.Ok? then None else Some(out.error))
  {
    hide Honest, After;
    var err, sent, n := SendBatch(batch, service, done);
    handled, left, calls := sent.handled, sent.left, n;
    out := if err.None? then Ok(()) else Err(err.value);
  }

  /** What the batches have left, all together. */
  function AllRemaining<T>(lefts: seq<Unprocessed<T>>): seq<T> {
    if lefts == [] then [] else AllRemaining(lefts[..|lefts| - 1]) + Remaining(lefts[|lefts| - 1])
  }

  lemma {:induction false} AllRemainingMore<T>(lefts: seq<Unprocessed<T>>, left: Unprocessed<T>)
    ensures AllRemaining(lefts + [left]) == AllRemaining(lefts) + Remaining(left)
    ensures (forall i :: 0 <= i < |lefts| ==> lefts[i].NoTables?) ==> AllRemaining(lefts) == []
  {
    assert (lefts + [left])[..|lefts|] == lefts;
    if lefts != [] {
      AllRemainingMore(lefts[..|lefts| - 1], left);
    }
  }

  /** A batch's outcome is an error exactly when something of it is left. */
  ghost predicate ErrsExactlyOnRest<T, R>(outs: seq<Result<R, Error>>, lefts: seq<Unprocessed<T>>) {
    |outs| == |lefts| && forall i :: 0 <= i < |outs| ==> (outs[i].Ok? <==> lefts[i].NoTables?)
  }

  lemma {:induction false} NoFailure<R>(outs: seq<Result<R, Error>>)
    ensures ParallelRunner.LowestFailure(outs) == None <==> forall i :: 0 <= i < |outs| ==> outs[i].Ok?
  {
    if outs != [] {
      NoFailure(outs[1..]);
      assert forall i :: 1 <= i < |outs| ==> outs[i] == outs[1..][i - 1];
    }
  }

  /** In every interleaving of the batches, what runParallel returns is `err`. */
  ghost predicate ReturnsAlways<R>(outs: seq<Result<R, Error>>, err: Option<Error>) {
    forall maxParallel, actions ::
      var g := ParallelRunner.Run(outs, maxParallel, actions); g.returned.Some? ==> g.returned.value == err
  }

  lemma AlwaysTheLowest<R>(outs: seq<Result<R, Error>>)
    ensures ReturnsAlways(outs, ParallelRunner.LowestFailure(outs))
  {
    forall maxParallel, actions | ParallelRunner.Run(outs, maxParallel, actions).returned.Some?
      ensures ParallelRunner.Run(outs, maxParallel, actions).returned.value == ParallelRunner.LowestFailure(outs)
    {
      ParallelRunner.ReturnIsDeterministic(outs, maxParallel, actions);
    }
  }

  /**
   Writing items: batch i goes to services(i) and ends with outs[i], having left lefts[i]; `err` is
   what runParallel returns in every interleaving. Nothing is lost or written twice, no batch takes
   more than six calls, and there is no error if and only if no batch has anything left, and then
   everything is written.
   */
  method BatchWriteItems<T(!new)>(items: seq<T>, services: nat -> Service<T, ()>, done: (nat, nat) -> bool)
    returns (err: Option<Error>, outs: seq<Result<(), Error>>, handled: seq<T>, lefts: seq<Unprocessed<T>>, calls: seq<nat>)
    requires AllHonest(services)
    ensures |outs| == |calls| == (|items| + 24) / 25
    ensures forall i :: 0 <= i < |calls| ==> 1 <= calls[i] <= 6
    ensures err == ParallelRunner.LowestFailure(outs) && ReturnsAlways(outs, err)
    ensures ErrsExactlyOnRest(outs, lefts)
    ensures err.None? <==> forall i :: 0 <= i < |lefts| ==> lefts[i].NoTables?
    ensures multiset(handled) + multiset(AllRemaining(lefts)) == multiset(items)
    ensures err.None? ==> multiset(handled) == multiset(items)
  {
    var batches := Chunks(items);
    hide *;
    outs, handled, lefts, calls := WriteBatches(batches, services, done);
    err := FirstOf(outs);
    RestEnds(outs, lefts);
    AccountAll(handled, AllRemaining(lefts), items);
    AlwaysTheLowest(outs);
  }

  /** The batches' outcomes, and what they have handled and left together. */
  method WriteBatches<T(!new)>(batches: seq<seq<T>>, services: nat -> Service<T, ()>, done: (nat, nat) -> bool)
    returns (outs: seq<Result<(), Error>>, handled: seq<T>, lefts: seq<Unprocessed<T>>, calls: seq<nat>)
    requires AllHonest(services)
    ensures |outs| == |calls| == |batches| && forall i :: 0 <= i < |calls| ==> 1 <= calls[i] <= 6
    ensures ErrsExactlyOnRest(outs, lefts) && Accounted(handled, AllRemaining(lefts), Flatten(batches))
  {
    outs, handled, lefts, calls := [], [], [], [];
    assert ErrsExactlyOnRest(outs, lefts) && Accounted(handled, AllRemaining(lefts), Flatten(batches[..0]));
    hide *;
    for i := 0 to |batches|
      invariant |outs| == |calls| == i
      invariant forall k :: 0 <= k < i ==> 1 <= calls[k] <= 6
      invariant ErrsExactlyOnRest(outs, lefts)
      invariant Accounted(handled, AllRemaining(lefts), Flatten(batches[..i]))
    {
      HonestAt(services, i);
      var out, h, l, n := WriteBatch(batches[i], services(i), OfBatch(done, i));
      AllRemainingMore(lefts, l);
      AccountBatch(handled, AllRemaining(lefts), batches, i, h, Remaining(l));
      RestMore(outs, lefts, out, l);
      outs := outs + [out];
      handled, lefts, calls := handled + h, lefts + [l], calls + [n];
    }
    assert batches[..|batches|] == batches;
  }

  /** The scan of the errors. */
  method FirstOf<R>(outs: seq<Result<R, Error>>) returns (err: Option<Error>)
    ensures err == ParallelRunner.LowestFailure(outs)
  {
    for i := 0 to |outs|
      invariant ParallelRunner.LowestFailure(outs) == ParallelRunner.LowestFailure(outs[i..])
    {
      if outs[i].Err? {
        return Some(outs[i].error);
      }
      assert outs[i..][1..] == outs[i + 1..];
    }
    return None;
  }

  lemma RestMore<T, R>(outs: seq<Result<R, Error>>, lefts: seq<Unprocessed<T>>, out: Result<R, Error>, left: Unprocessed<T>)
    requires ErrsExactlyOnRest(outs, lefts) && (out.Ok? <==> left.NoTables?)
    ensures ErrsExactlyOnRest(outs + [out], lefts + [left])
  {
  }

  lemma {:induction false} RestEnds<T, R>(outs: seq<Result<R, Error>>, lefts: seq<Unprocessed<T>>)
    requires ErrsExactlyOnRest(outs, lefts)
    ensures ParallelRunner.LowestFailure(outs) == None <==> forall i :: 0 <= i < |lefts| ==> lefts[i].NoTables?
    ensures ParallelRunner.LowestFailure(outs) == None ==> AllRemaining(lefts) == []
  {
    NoFailure(outs);
    AllRemainingMore(lefts, NoTables);
    hide AllRemaining;
  }

  lemma AccountAll<T>(handled: seq<T>, left: seq<T>, requests: seq<T>)
    requires Accounted(handled, left, requests)
    ensures multiset(handled) + multiset(left) == multiset(requests)
    ensures left == [] ==> multiset(handled) == multiset(requests)
  {
  }

  lemma HonestAt<T(!new), V(!new)>(services: nat -> Service<T, V>, i: nat)
    requires AllHonest(services)
    ensures Honest(services(i))
  {
  }

  // ------------------------------------------------------------------------------- reads

  /** The stored items of some keys, in the order of the keys; missing keys give nothing. */
  function Found<K, V>(table: map<K, V>, keys: seq<K>): seq<V> {
    if keys == [] then []
    else Found(table, keys[..|keys| - 1]) + (if keys[|keys| - 1] in table then [table[keys[|keys| - 1]]] else [])
  }

  /** The service answers the keys it handles from the table. */
  ghost predicate ReadsFrom<K(!new), V(!new)>(table: map<K, V>, service: Service<K, V>) {
    forall n, request ::
      service(n, request).Answered? ==> service(n, request).items == Found(table, service(n, request).handled)
  }

  lemma {:induction false} FoundAdd<K, V>(table: map<K, V>, a: seq<K>, b: seq<K>)
    ensures Found(table, a + b) == Found(table, a) + Found(table, b)
  {
    if b == [] {
      assert a + b == a;
    } else {
      FoundAdd(table, a, b[..|b| - 1]);
      assert (a + b)[..|a + b| - 1] == a + b[..|b| - 1];
    }
  }

  function Without<K>(keys: seq<K>, k: nat): (rest: seq<K>)
    requires k < |keys|
    ensures |rest| == |keys| - 1 && multiset(rest) == multiset(keys) - multiset{keys[k]}
  {
    assert keys == keys[..k] + [keys[k]] + keys[k + 1..];
    keys[..k] + keys[k + 1..]
  }

  /** Taking one key out takes out what is found for it. */
  lemma FoundWithout<K, V>(table: map<K, V>, keys: seq<K>, k: nat)
    requires k < |keys|
    ensures multiset(Found(table, keys)) == multiset(Found(table, Without(keys, k))) + multiset(Found(table, [keys[k]]))
  {
    var before, x, after := keys[..k], [keys[k]], keys[k + 1..];
    assert keys == before + x + after;
    FoundAdd(table, before, after);
    FoundAdd(table, before + x, after);
    FoundAdd(table, before, x);
    hide Found;
  }

  /** Which items are found does not depend on the order of the keys. */
  lemma {:induction false} FoundInAnyOrder<K, V>(table: map<K, V>, a: seq<K>, b: seq<K>)
    requires multiset(a) == multiset(b)
    ensures multiset(Found(table, a)) == multiset(Found(table, b))
    decreases |a|
  {
    hide *;
    assert |multiset(a)| == |a| && |multiset(b)| == |b|;
    if a != [] {
      assert a[0] in multiset(b);
      var k :| 0 <= k < |b| && b[k] == a[0];
      FoundWithout(table, a, 0);
      FoundWithout(table, b, k);
      FoundInAnyOrder(table, Without(a, 0), Without(b, k));
    }
  }

  lemma {:induction false} ItemsAreFound<K(!new), V(!new)>(
    table: map<K, V>, service: Service<K, V>, batch: seq<K>, calls: nat)
    requires ReadsFrom(table, service)
    ensures After(service, batch, calls).items == Found(table, After(service, batch, calls).handled)
  {
    if calls > 0 {
      ItemsAreFound(table, service, batch, calls - 1);
      var s := After(service, batch, calls - 1);
      if s.left.Table? {
        var reply := service(calls - 1, s.left.requests);
        if reply.Answered? {
          FoundAdd(table, s.handled, reply.handled);
        }
      }
    }
  }

  /** Reading one batch: there is an error if and only if keys are left, and without one exactly the stored items come back. */
  method GetBatch<K(!new), V(!new)>(batch: seq<K>, ghost table: map<K, V>, service: Service<K, V>, done: nat -> bool)
    returns (out: Result<seq<V>, Error>, left: Unprocessed<K>, ghost calls: nat)
    requires Honest(service) && ReadsFrom(table, service)
    ensures left == After(service, batch, calls).left && (out.Ok? <==> left.NoTables?)
    ensures EndsFor(service, batch, done, calls, if out.Ok? then None else Some(out.error))
    ensures out.Ok? ==> multiset(out.value) == multiset(Found(table, batch))
  {
    var err, sent, n := SendBatch(batch, service, done);
    left, calls := sent.left, n;
    if err.Some? {
      out := Err(err.value);
      return;
    }
    ItemsAreFound(table, service, batch, n);
    FoundInAnyOrder(table, sent.handled, batch);
    out := Ok(sent.items);
  }

  function Values<V>(outs: seq<Result<seq<V>, Error>>): seq<seq<V>> {
    seq(|outs|, i requires 0 <= i < |outs| => if outs[i].Ok? then outs[i].value else [])
  }

  /** The results slots, an empty one counting as no items. */
  function Slots<V>(slots: seq<ParallelRunner.Slot<seq<V>, Error>>): seq<seq<V>> {
    seq(|slots|, i requires 0 <= i < |slots| => if slots[i].result.Some? then slots[i].result.value else [])
  }

  /** In every interleaving of the batches that has returned, the results slots concatenate to `items`. */
  ghost predicate CollectsAlways<V>(outs: seq<Result<seq<V>, Error>>, items: seq<V>) {
    forall maxParallel, actions ::
      var g := ParallelRunner.Run(outs, maxParallel, actions); g.returned.Some? ==> Flatten(Slots(g.slots)) == items
  }

  lemma AlwaysCollected<V>(outs: seq<Result<seq<V>, Error>>)
    ensures CollectsAlways(outs, Flatten(Values(outs)))
  {
    forall maxParallel, actions | ParallelRunner.Run(outs, maxParallel, actions).returned.Some?
      ensures Flatten(Slots(ParallelRunner.Run(outs, maxParallel, actions).slots)) == Flatten(Values(outs))
    {
      ParallelRunner.ReturnIsDeterministic(outs, maxParallel, actions);
      assert Slots(ParallelRunner.Run(outs, maxParallel, actions).slots) == Values(outs);
    }
  }

  /**
   Reading keys: in every interleaving of the batches the error is `err`, and without one the
   results slots concatenate, in batch order, to `items`, which holds exactly the stored items
   of the keys.
   */
  method BatchGetItems<K(!new), V(!new)>(
    keys: seq<K>, ghost table: map<K, V>, services: nat -> Service<K, V>, done: (nat, nat) -> bool)
    returns (err: Option<Error>, outs: seq<Result<seq<V>, Error>>, items: seq<V>, lefts: seq<Unprocessed<K>>)
    requires AllHonest(services) && forall i :: ReadsFrom(table, services(i))
    ensures |outs| == (|keys| + 24) / 25
    ensures err == ParallelRunner.LowestFailure(outs) && ReturnsAlways(outs, err)
    ensures ErrsExactlyOnRest(outs, lefts)
    ensures err.None? <==> forall i :: 0 <= i < |lefts| ==> lefts[i].NoTables?
    ensures items == if err.None? then Flatten(Values(outs)) else []
    ensures err.None? ==> CollectsAlways(outs, items)
    ensures err.None? ==> multiset(items) == multiset(Found(table, keys))
  {
    var batches := Chunks(keys);
    err, outs, items, lefts := None, [], [], [];
    for i := 0 to |batches|
      invariant |outs| == i
      invariant err == ParallelRunner.LowestFailure(outs)
      invariant ErrsExactlyOnRest(outs, lefts)
      invariant items == Flatten(Values(outs))
      invariant err.None? ==> multiset(items) == multiset(Found(table, Flatten(batches[..i])))
    {
      HonestAt(services, i);
      FlattenNext(batches, i);
      FoundAdd(table, Flatten(batches[..i]), batches[i]);
      assert ReadsFrom(table, services(i));
      hide *;
      var out, l, n := GetBatch(batches[i], table, services(i), OfBatch(done, i));
      LowestFailureOfMore(outs, out);
      ValuesSnoc(outs, out);
      RestMore(outs, lefts, out, l);
      if out.Ok? {
        items := items + out.value;
      } else if err.None? {
        err := Some(out.error);
      }
      outs, lefts := outs + [out], lefts + [l];
    }
    assert batches[..|batches|] == batches;
    AlwaysTheLowest(outs);
    AlwaysCollected(outs);
    RestEnds(outs, lefts);
    hide ReturnsAlways, CollectsAlways, ErrsExactlyOnRest;
    if err.Some? {
      items := [];
    }
  }

  lemma ValuesSnoc<V>(outs: seq<Result<seq<V>, Error>>, out: Result<seq<V>, Error>)
    ensures Flatten(Values(outs + [out])) == Flatten(Values(outs)) + (if out.Ok? then out.value else [])
  {
    var values := Values(outs + [out]);
    assert values == Values(outs) + [if out.Ok? then out.value else []];
    assert values[..|outs|] == Values(outs);
  }
}
