/**
 What happens to one key of api/ratelimit while callers and the evictor interleave: updates of
 its bucket in the order of the bucket's lock, some of them on a bucket that has been deleted
 from the map already, and deletions. The times of the updates may step back.
 */
module LimiterTraces {
  import opened Options
  import opened TokenBuckets
  import opened BucketProbes

  /** `stale` says that the bucket used is not the one the map holds. */
  datatype Entry =
    | Used(at: real, answer: Answer, stale: bool)
    | Dropped(at: real)

  type Trace = seq<Entry>

  /** The bucket the map holds for the key; a new one when it holds none. */
  function Replay(cfg: Config, trace: Trace): Bucket {
    if trace == [] then NewBucket(0.0)
    else
      var b := Replay(cfg, trace[..|trace| - 1]);
      match trace[|trace| - 1]
      case Used(at, _, stale) => if stale then b else Called(cfg, b, at)
      case Dropped(_) => NewBucket(0.0)
  }

  /** The bucket the key would have if nothing were ever deleted. */
  function Kept(cfg: Config, trace: Trace): Bucket {
    if trace == [] then NewBucket(0.0)
    else
      var b := Kept(cfg, trace[..|trace| - 1]);
      match trace[|trace| - 1]
      case Used(at, _, _) => Called(cfg, b, at)
      case Dropped(_) => b
  }

  /** An update of the map's bucket is answered by that bucket. */
  ghost predicate AnsweredAt(cfg: Config, trace: Trace, n: nat)
    requires n < |trace|
  {
    trace[n].Used? && !trace[n].stale ==> trace[n].answer == AnswerTo(cfg, Replay(cfg, trace[..n]), trace[n].at)
  }

  ghost predicate Consistent(cfg: Config, trace: Trace) {
    forall n :: 0 <= n < |trace| ==> AnsweredAt(cfg, trace, n)
  }

  /** The answer is the one that never deleting anything would have given. */
  ghost predicate UnseenAt(cfg: Config, trace: Trace, n: nat)
    requires n < |trace|
  {
    trace[n].Used? ==> trace[n].answer == AnswerTo(cfg, Kept(cfg, trace[..n]), trace[n].at)
  }

  /** No answer shows that the evictor exists. */
  ghost predicate Unseen(cfg: Config, trace: Trace) {
    forall n :: 0 <= n < |trace| ==> UnseenAt(cfg, trace, n)
  }

  /** The tokens a deletion makes the key forget having spent. */
  function Deficit(cfg: Config, trace: Trace, n: nat): real
    requires n < |trace| && trace[n].Dropped?
  {
    cfg.burst - Level(cfg, Replay(cfg, trace[..n]), trace[n].at)
  }

  /** Nothing is forgotten: no stale use, and every deleted bucket was full. */
  ghost predicate CleanAt(cfg: Config, trace: Trace, n: nat)
    requires n < |trace|
  {
    match trace[n]
    case Used(_, _, stale) => !stale
    case Dropped(_) => Deficit(cfg, trace, n) == 0.0
  }

  ghost predicate Clean(cfg: Config, trace: Trace) {
    forall n :: 0 <= n < |trace| ==> CleanAt(cfg, trace, n)
  }

  /** A deletion comes after everything before it, and no later use of the map's bucket is dated before it. */
  ghost predicate InOrderAt(trace: Trace, i: nat, j: nat)
    requires i < j < |trace|
  {
    && (trace[j].Dropped? ==> trace[i].at <= trace[j].at)
    && (trace[i].Dropped? && trace[j].Used? && !trace[j].stale ==> trace[i].at <= trace[j].at)
  }

  ghost predicate InOrder(trace: Trace) {
    forall i, j :: 0 <= i < j < |trace| ==> InOrderAt(trace, i, j)
  }

  ghost predicate EndsInOrder(trace: Trace) {
    forall i, j :: 0 <= i < j == |trace| - 1 ==> InOrderAt(trace, i, j)
  }

  // ------------------------------------------------------------------------ longer traces

  lemma {:induction false} ConsistentMore(cfg: Config, trace: Trace, e: Entry)
    requires Consistent(cfg, trace)
    requires e.Used? && !e.stale ==> e.answer == AnswerTo(cfg, Replay(cfg, trace), e.at)
    ensures Consistent(cfg, trace + [e])
  {
    hide Replay, AnswerTo;
    var more := trace + [e];
    forall n | 0 <= n < |more|
      ensures AnsweredAt(cfg, more, n)
    {
      assert n < |trace| ==> more[..n] == trace[..n] && AnsweredAt(cfg, trace, n);
      assert more[..|trace|] == trace;
    }
  }

  lemma {:induction false} UnseenMore(cfg: Config, trace: Trace, e: Entry)
    requires Unseen(cfg, trace) && (e.Used? ==> e.answer == AnswerTo(cfg, Kept(cfg, trace), e.at))
    ensures Unseen(cfg, trace + [e])
  {
    hide Kept, AnswerTo;
    var more := trace + [e];
    forall n | 0 <= n < |more|
      ensures UnseenAt(cfg, more, n)
    {
      assert n < |trace| ==> more[..n] == trace[..n] && UnseenAt(cfg, trace, n);
      assert more[..|trace|] == trace;
    }
  }

  lemma {:induction false} InOrderMore(trace: Trace, e: Entry)
    requires InOrder(trace)
    requires EndsInOrder(trace + [e])
    ensures InOrder(trace + [e])
  {
    var more := trace + [e];
    forall i, j | 0 <= i < j < |more|
      ensures InOrderAt(more, i, j)
    {
      if j < |trace| {
        assert InOrderAt(trace, i, j);
      }
    }
  }

  lemma {:induction false} ReplayMore(cfg: Config, trace: Trace, e: Entry)
    ensures Replay(cfg, trace + [e])
            == match e
               case Used(at, _, stale) => if stale then Replay(cfg, trace) else Called(cfg, Replay(cfg, trace), at)
               case Dropped(_) => NewBucket(0.0)
    ensures Kept(cfg, trace + [e])
            == match e
               case Used(at, _, _) => Called(cfg, Kept(cfg, trace), at)
               case Dropped(_) => Kept(cfg, trace)
  {
    assert (trace + [e])[..|trace|] == trace;
    hide Called;
  }

  lemma {:induction false} CleanMore(cfg: Config, trace: Trace, e: Entry)
    requires Clean(cfg, trace)
    requires match e
             case Used(_, _, stale) => !stale
             case Dropped(at) => Level(cfg, Replay(cfg, trace), at) == cfg.burst
    ensures Clean(cfg, trace + [e])
  {
    hide Replay, Level;
    var more := trace + [e];
    forall n | 0 <= n < |more|
      ensures CleanAt(cfg, more, n)
    {
      assert n < |trace| ==> more[..n] == trace[..n] && CleanAt(cfg, trace, n);
      assert more[..|trace|] == trace;
    }
  }

  // ----------------------------------------------------------------------------- ranges

  /** A bucket that has been used holds between no and burst tokens. */
  ghost predicate Sane(cfg: Config, b: Bucket) {
    b.last.Some? ==> 0.0 <= b.tokens <= cfg.burst
  }

  lemma CalledStaysSane(cfg: Config, b: Bucket, now: real)
    requires cfg.rps >= 0.0 && cfg.burst >= 0.0 && Sane(cfg, b)
    ensures Sane(cfg, Called(cfg, b, now)) && 0.0 <= Level(cfg, b, now) <= cfg.burst
  {
    if b.last.Some? && now > b.last.value {
      AccruedGrows(cfg, b.last.value, now);
    }
    hide Accrued;
  }

  lemma {:induction false} TracesStaySane(cfg: Config, trace: Trace)
    requires cfg.rps >= 0.0 && cfg.burst >= 0.0
    ensures Sane(cfg, Replay(cfg, trace)) && Sane(cfg, Kept(cfg, trace))
  {
    if trace != [] {
      var init, e := trace[..|trace| - 1], trace[|trace| - 1];
      TracesStaySane(cfg, init);
      CalledStaysSane(cfg, Replay(cfg, init), e.at);
      CalledStaysSane(cfg, Kept(cfg, init), e.at);
      hide Called, Level;
    }
  }

  // ------------------------------------------------------------------- nothing is forgotten

  /** The same tokens at the same time, whenever the buckets were created. */
  predicate SameBucket(a: Bucket, b: Bucket) {
    a.tokens == b.tokens && a.last == b.last
  }

  /** From the given time on, a bucket that never refuses a new one's first call. */
  ghost predicate FullFrom(cfg: Config, b: Bucket, at: real) {
    b.last.Some? ==> b.last.value <= at && 0.0 <= b.tokens <= cfg.burst && Level(cfg, b, at) == cfg.burst
  }

  lemma FullStaysFull(cfg: Config, b: Bucket, at: real, now: real)
    requires cfg.rps >= 0.0 && FullFrom(cfg, b, at) && at <= now
    ensures Level(cfg, b, now) == cfg.burst
  {
    if b.last.Some? {
      AccruedAdds(cfg, b.last.value, at, now);
      AccruedGrows(cfg, at, now);
    }
    hide Accrued;
  }

  /** A clean trace's bucket is the kept one, or new while the kept one is full. */
  ghost predicate Alike(cfg: Config, trace: Trace) {
    var b, kept := Replay(cfg, trace), Kept(cfg, trace);
    SameBucket(b, kept)
    || (b.last.None? && exists i :: 0 <= i < |trace| && trace[i].Dropped? && FullFrom(cfg, kept, trace[i].at))
  }

  /** Everything the kept bucket remembers is in the trace. */
  lemma {:induction false} KeptIsInTrace(cfg: Config, trace: Trace)
    requires Kept(cfg, trace).last.Some?
    ensures exists i :: 0 <= i < |trace| && trace[i].Used? && trace[i].at == Kept(cfg, trace).last.value
  {
    var init, e := trace[..|trace| - 1], trace[|trace| - 1];
    if e.Dropped? {
      KeptIsInTrace(cfg, init);
      var i :| 0 <= i < |init| && init[i].Used? && init[i].at == Kept(cfg, init).last.value;
      assert trace[i] == init[i];
    } else {
      assert trace[|trace| - 1].at == Kept(cfg, trace).last.value;
    }
  }

  lemma {:induction false} AlikeAnswers(cfg: Config, trace: Trace, now: real)
    requires cfg.rps >= 0.0 && Alike(cfg, trace)
    requires forall i :: 0 <= i < |trace| && trace[i].Dropped? ==> trace[i].at <= now
    ensures Level(cfg, Replay(cfg, trace), now) == Level(cfg, Kept(cfg, trace), now)
    ensures AnswerTo(cfg, Replay(cfg, trace), now) == AnswerTo(cfg, Kept(cfg, trace), now)
    ensures SameBucket(Called(cfg, Replay(cfg, trace), now), Called(cfg, Kept(cfg, trace), now))
  {
    var b, kept := Replay(cfg, trace), Kept(cfg, trace);
    hide Replay, Kept, Accrued;
    if !SameBucket(b, kept) {
      var i :| 0 <= i < |trace| && trace[i].Dropped? && FullFrom(cfg, kept, trace[i].at);
      FullStaysFull(cfg, kept, trace[i].at, now);
    }
  }

  lemma {:induction false} Earlier(cfg: Config, trace: Trace)
    requires trace != [] && Clean(cfg, trace) && InOrder(trace)
    ensures var init := trace[..|trace| - 1]; Clean(cfg, init) && InOrder(init)
    ensures EndsInOrder(trace)
    ensures CleanAt(cfg, trace, |trace| - 1)
  {
    var init := trace[..|trace| - 1];
    hide Deficit;
    forall n | 0 <= n < |init|
      ensures CleanAt(cfg, init, n)
    {
      assert CleanAt(cfg, trace, n) && init[..n] == trace[..n];
      DeficitOfPrefix(cfg, trace, |init|, n);
    }
    forall i, j | 0 <= i < j < |init|
      ensures InOrderAt(init, i, j)
    {
      assert InOrderAt(trace, i, j);
    }
  }

  lemma DeficitOfPrefix(cfg: Config, trace: Trace, m: nat, n: nat)
    requires n < m <= |trace|
    ensures trace[n].Dropped? ==> Deficit(cfg, trace[..m], n) == Deficit(cfg, trace, n)
  {
    assert trace[..m][..n] == trace[..n];
    hide Level, Replay;
  }

  lemma {:induction false} CleanStaysAlike(cfg: Config, trace: Trace)
    requires cfg.rps >= 0.0 && cfg.burst >= 0.0 && Clean(cfg, trace) && InOrder(trace)
    ensures Alike(cfg, trace)
  {
    if trace != [] {
      var init, e := trace[..|trace| - 1], trace[|trace| - 1];
      assert trace == init + [e];
      Earlier(cfg, trace);
      CleanStaysAlike(cfg, init);
      ReplayMore(cfg, init, e);
      TracesStaySane(cfg, init);
      hide Replay, Kept, Called, Level, Clean, InOrder;
      BeforeLast(trace);
      AlikeAnswers(cfg, init, e.at);
      if e.Dropped? {
        if Kept(cfg, init).last.Some? {
          KeptIsInTrace(cfg, init);
        }
        assert FullFrom(cfg, Kept(cfg, trace), trace[|init|].at);
      }
    }
  }

  /** The last entry of a trace in order: the deletions before a use of the map's bucket, or all before a deletion. */
  lemma BeforeLast(trace: Trace)
    requires trace != [] && EndsInOrder(trace)
    ensures var init, e := trace[..|trace| - 1], trace[|trace| - 1];
            forall i :: 0 <= i < |init| && (e.Dropped? || (init[i].Dropped? && !e.stale)) ==> init[i].at <= e.at
  {
    var init, e := trace[..|trace| - 1], trace[|trace| - 1];
    forall i | 0 <= i < |init| && (e.Dropped? || (init[i].Dropped? && !e.stale))
      ensures init[i].at <= e.at
    {
      assert InOrderAt(trace, i, |trace| - 1);
    }
  }

  /** When nothing is forgotten, every answer is that of a bucket that is never deleted. */
  lemma {:induction false} CleanIsUnseen(cfg: Config, trace: Trace)
    requires cfg.rps >= 0.0 && cfg.burst >= 0.0
    requires Consistent(cfg, trace) && Clean(cfg, trace) && InOrder(trace)
    ensures Unseen(cfg, trace)
  {
    if trace != [] {
      var init, last := trace[..|trace| - 1], |trace| - 1;
      Earlier(cfg, trace);
      assert Consistent(cfg, init) by {
        forall n | 0 <= n < |init|
          ensures AnsweredAt(cfg, init, n)
        {
          assert AnsweredAt(cfg, trace, n) && init[..n] == trace[..n];
        }
      }
      CleanIsUnseen(cfg, init);
      CleanStaysAlike(cfg, init);
      if trace[last].Used? {
        BeforeLast(trace);
        AlikeAnswers(cfg, init, trace[last].at);
      }
      forall n | 0 <= n < |trace|
        ensures UnseenAt(cfg, trace, n)
      {
        if n < last {
          assert UnseenAt(cfg, init, n) && init[..n] == trace[..n];
        } else {
          assert AnsweredAt(cfg, trace, last);
        }
      }
    }
  }

  // ------------------------------------------------------------------- whatever is forgotten

  function Times(trace: Trace): (times: seq<real>)
    ensures |times| == |trace|
  {
    seq(|trace|, i requires 0 <= i < |trace| => trace[i].at)
  }

  predicate Admits(e: Entry) {
    e.Used? && e.answer.allowed
  }

  /** How many of the entries lo..hi-1 let a call through. */
  function Admitted(trace: Trace, lo: nat, hi: nat): nat
    requires lo <= hi <= |trace|
  {
    if lo == hi then 0 else Admitted(trace, lo, hi - 1) + if Admits(trace[hi - 1]) then 1 else 0
  }

  /** The tokens an entry makes the key forget: a deletion's deficit, or one for an admitted stale use. */
  function ForgottenAt(cfg: Config, trace: Trace, n: nat): real
    requires n < |trace|
  {
    match trace[n]
    case Used(_, answer, stale) => if stale && answer.allowed then 1.0 else 0.0
    case Dropped(_) => Deficit(cfg, trace, n)
  }

  function Forgotten(cfg: Config, trace: Trace, lo: nat, hi: nat): real
    requires lo <= hi <= |trace|
  {
    if lo == hi then 0.0 else Forgotten(cfg, trace, lo, hi - 1) + ForgottenAt(cfg, trace, hi - 1)
  }

  /** The credit for moving from one time to another: none for moving back. */
  function Credit(cfg: Config, from: real, to: real): real {
    Accrued(cfg, 0.0, Max(to - from, 0.0))
  }

  lemma CreditAdds(cfg: Config, a: real, b: real, c: real)
    requires cfg.rps >= 0.0
    ensures 0.0 <= Credit(cfg, a, c) <= Credit(cfg, a, b) + Credit(cfg, b, c)
    ensures Credit(cfg, a, a) == 0.0
  {
    var x, y, z := Max(b - a, 0.0), Max(c - b, 0.0), Max(c - a, 0.0);
    AccruedAdds(cfg, 0.0, z, x + y);
    AccruedGrows(cfg, z, x + y);
    AccruedGrows(cfg, 0.0, z);
    AccruedAdds(cfg, 0.0, x, x + y);
    SameSpan(cfg, x, x + y, 0.0, y);
    AccruedAdds(cfg, 0.0, 0.0, 0.0);
    hide Accrued;
  }

  /** At no time does the bucket find more than `room` and the credit since `at`. */
  ghost predicate Covers(cfg: Config, b: Bucket, room: real, at: real) {
    forall x :: Level(cfg, b, x) <= room + Credit(cfg, at, x)
  }

  lemma LevelCredits(cfg: Config, b: Bucket, x: real)
    requires cfg.rps >= 0.0 && cfg.burst >= 0.0 && b.last.Some? && Sane(cfg, b)
    ensures Level(cfg, b, x) <= b.tokens + Credit(cfg, b.last.value, x)
  {
    var last := b.last.value;
    if x > last {
      SameSpan(cfg, last, x, 0.0, x - last);
    }
    CreditAdds(cfg, last, x, x);
    hide Accrued;
  }

  lemma CoversCall(cfg: Config, b: Bucket, room: real, at: real, now: real)
    requires cfg.rps >= 0.0 && cfg.burst >= 0.0 && Sane(cfg, b) && Covers(cfg, b, room, at)
    ensures var spent := if AnswerTo(cfg, b, now).allowed then 1.0 else 0.0;
            Covers(cfg, Called(cfg, b, now), room + Credit(cfg, at, now) - spent, now)
  {
    CalledStaysSane(cfg, b, now);
    var c := Called(cfg, b, now);
    assert Level(cfg, b, now) <= room + Credit(cfg, at, now);
    assert c.last == Some(now);
    assert c.tokens == Level(cfg, b, now) - if AnswerTo(cfg, b, now).allowed then 1.0 else 0.0;
    hide Level, Credit, Called, Sane;
    forall x
      ensures Level(cfg, c, x) <= c.tokens + Credit(cfg, now, x)
    {
      LevelCredits(cfg, c, x);
    }
  }

  lemma CoversLater(cfg: Config, b: Bucket, room: real, at: real, now: real)
    requires cfg.rps >= 0.0 && Covers(cfg, b, room, at)
    ensures Covers(cfg, b, room + Credit(cfg, at, now), now)
  {
    hide Level, Credit;
    forall x
      ensures Level(cfg, b, x) <= room + Credit(cfg, at, now) + Credit(cfg, now, x)
    {
      CreditAdds(cfg, at, now, x);
    }
  }

  lemma CoversFull(cfg: Config, b: Bucket, room: real, at: real)
    requires cfg.rps >= 0.0 && cfg.burst >= 0.0 && Sane(cfg, b) && room >= cfg.burst
    ensures Covers(cfg, b, room, at)
  {
    hide Level, Credit, Called;
    forall x
      ensures Level(cfg, b, x) <= room + Credit(cfg, at, x)
    {
      CalledStaysSane(cfg, b, x);
      CreditAdds(cfg, at, x, x);
    }
  }

  /** One entry: what it credits, spends and forgets. */
  lemma {:induction false} EntryCovers(cfg: Config, trace: Trace, n: nat, room: real, at: real)
    requires cfg.rps >= 0.0 && cfg.burst >= 0.0 && Consistent(cfg, trace) && n < |trace|
    requires Covers(cfg, Replay(cfg, trace[..n]), room, at)
    ensures var spent := if Admits(trace[n]) then 1.0 else 0.0;
            Covers(cfg, Replay(cfg, trace[..n + 1]),
                   room + Credit(cfg, at, trace[n].at) + ForgottenAt(cfg, trace, n) - spent, trace[n].at)
  {
    var b, e := Replay(cfg, trace[..n]), trace[n];
    assert trace[..n + 1] == trace[..n] + [e];
    ReplayMore(cfg, trace[..n], e);
    TracesStaySane(cfg, trace[..n]);
    assert AnsweredAt(cfg, trace, n);
    assert Level(cfg, b, e.at) <= room + Credit(cfg, at, e.at);
    hide Replay, Kept, Level, Credit, Called, Covers, Consistent, AnswerTo;
    match e
    case Used(_, answer, stale) =>
      if stale {
        CoversLater(cfg, b, room, at, e.at);
      } else {
        CoversCall(cfg, b, room, at, e.at);
      }
    case Dropped(_) =>
      CoversFull(cfg, NewBucket(0.0), room + Credit(cfg, at, e.at) + ForgottenAt(cfg, trace, n), e.at);
  }

  /** What a window of the trace still leaves after its entry n. */
  function Room(cfg: Config, trace: Trace, k: nat, n: nat): real
    requires k <= n < |trace|
  {
    cfg.burst + Accrued(cfg, 0.0, Forward(Times(trace), k, n)) + Forgotten(cfg, trace, k, n + 1)
    - Admitted(trace, k, n + 1) as real
  }

  lemma {:induction false} RoomMore(cfg: Config, trace: Trace, k: nat, n: nat)
    requires k <= n && n + 1 < |trace|
    ensures Room(cfg, trace, k, n + 1)
            == Room(cfg, trace, k, n) + Credit(cfg, trace[n].at, trace[n + 1].at)
               + ForgottenAt(cfg, trace, n + 1) - if Admits(trace[n + 1]) then 1.0 else 0.0
  {
    var times := Times(trace);
    var x, y := Forward(times, k, n), Max(times[n + 1] - times[n], 0.0);
    AccruedAdds(cfg, 0.0, x, x + y);
    SameSpan(cfg, x, x + y, 0.0, y);
    hide Accrued, ForgottenAt;
  }

  lemma {:induction false} RoomFirst(cfg: Config, trace: Trace, k: nat)
    requires k < |trace|
    ensures Room(cfg, trace, k, k)
            == cfg.burst + Credit(cfg, trace[k].at, trace[k].at) + ForgottenAt(cfg, trace, k)
               - if Admits(trace[k]) then 1.0 else 0.0
  {
    hide Accrued, ForgottenAt;
    assert Forgotten(cfg, trace, k, k) == 0.0 && Admitted(trace, k, k) == 0;
    assert Max(trace[k].at - trace[k].at, 0.0) == 0.0;
  }

  lemma {:induction false} RoomCovers(cfg: Config, trace: Trace, k: nat, n: nat)
    requires cfg.rps >= 0.0 && cfg.burst >= 0.0 && Consistent(cfg, trace) && k <= n < |trace|
    ensures Covers(cfg, Replay(cfg, trace[..n + 1]), Room(cfg, trace, k, n), trace[n].at)
    decreases n
  {
    hide *;
    if k == n {
      TracesStaySane(cfg, trace[..k]);
      CoversFull(cfg, Replay(cfg, trace[..k]), cfg.burst, trace[k].at);
      EntryCovers(cfg, trace, k, cfg.burst, trace[k].at);
      RoomFirst(cfg, trace, k);
    } else {
      RoomCovers(cfg, trace, k, n - 1);
      EntryCovers(cfg, trace, n, Room(cfg, trace, k, n - 1), trace[n - 1].at);
      RoomMore(cfg, trace, k, n - 1);
    }
  }

  /**
   Whatever the evictor and the callers do to a key, no window lets more calls through than
   burst + rps * (length + backward movement) and the tokens that were forgotten within it.
   */
  lemma {:induction false} WindowsForget(cfg: Config, trace: Trace, k: nat, n: nat)
    requires cfg.rps >= 0.0 && cfg.burst >= 0.0 && Consistent(cfg, trace) && k <= n < |trace|
    ensures Admitted(trace, k, n + 1) as real
            <= Allowance(cfg, Times(trace), k, n) + Forgotten(cfg, trace, k, n + 1)
  {
    var b, times := Replay(cfg, trace[..n + 1]), Times(trace);
    RoomCovers(cfg, trace, k, n);
    TracesStaySane(cfg, trace[..n + 1]);
    CalledStaysSane(cfg, b, trace[n].at);
    CreditAdds(cfg, trace[n].at, trace[n].at, trace[n].at);
    assert Level(cfg, b, trace[n].at) <= Room(cfg, trace, k, n) + Credit(cfg, trace[n].at, trace[n].at);
    ForwardLessBackward(times, k, n);
    SameSpan(cfg, 0.0, Forward(times, k, n), times[k], times[n] + Backward(times, k, n));
    hide Accrued, Forward, Backward, Level, Replay, Credit, Forgotten, Admitted, Times;
  }

  // --------------------------------------------------------------- telling traces apart

  /** The trace followed by uses of the map's bucket at some times. */
  function Extended(cfg: Config, trace: Trace, times: seq<real>): Trace
    decreases |times|
  {
    if times == [] then trace
    else Extended(cfg, trace + [Used(times[0], AnswerTo(cfg, Replay(cfg, trace), times[0]), false)], times[1..])
  }

  lemma {:induction false} ExtendedKeeps(cfg: Config, trace: Trace, times: seq<real>)
    ensures trace <= Extended(cfg, trace, times)
    decreases |times|
  {
    hide Replay, AnswerTo;
    if times != [] {
      ExtendedKeeps(cfg, trace + [Used(times[0], AnswerTo(cfg, Replay(cfg, trace), times[0]), false)], times[1..]);
    }
  }

  lemma {:induction false} UnseenMeansSame(cfg: Config, trace: Trace, times: seq<real>)
    requires Unseen(cfg, Extended(cfg, trace, times))
    ensures AnswersOf(cfg, Replay(cfg, trace), times) == AnswersOf(cfg, Kept(cfg, trace), times)
    decreases |times|
  {
    if times != [] {
      var e := Used(times[0], AnswerTo(cfg, Replay(cfg, trace), times[0]), false);
      var more, all := trace + [e], Extended(cfg, trace, times);
      ExtendedKeeps(cfg, more, times[1..]);
      ReplayMore(cfg, trace, e);
      UnseenMeansSame(cfg, more, times[1..]);
      assert UnseenAt(cfg, all, |trace|);
      assert all[|trace|] == e && all[..|trace|] == trace;
      hide Replay, Kept, AnswerTo, Called, Unseen, Extended;
    }
  }

  /** A trace whose bucket finds other tokens than the kept one can be continued until it shows. */
  lemma {:induction false} DifferenceShows(cfg: Config, trace: Trace, at: real) returns (times: seq<real>)
    requires cfg.rps > 0.0 && cfg.burst >= 1.0 && forall i :: 0 <= i < |trace| ==> trace[i].at <= at
    requires Level(cfg, Replay(cfg, trace), at) != Level(cfg, Kept(cfg, trace), at)
    ensures times != [] && Nondecreasing(times) && at <= times[0] && !Unseen(cfg, Extended(cfg, trace, times))
  {
    var b, kept := Replay(cfg, trace), Kept(cfg, trace);
    var x, y := Level(cfg, b, at), Level(cfg, kept, at);
    TracesStaySane(cfg, trace);
    LastInTrace(cfg, trace, at);
    CalledStaysSane(cfg, b, at);
    CalledStaysSane(cfg, kept, at);
    assert Holds(cfg, b, at, x) && Holds(cfg, kept, at, y);
    hide *;
    if x > y {
      times := Probe(cfg, x, y, at);
      ProbeTellsApart(cfg, b, kept, x, y, at);
    } else {
      times := Probe(cfg, y, x, at);
      ProbeTellsApart(cfg, kept, b, y, x, at);
    }
    if Unseen(cfg, Extended(cfg, trace, times)) {
      UnseenMeansSame(cfg, trace, times);
    }
  }

  lemma {:induction false} LastInTrace(cfg: Config, trace: Trace, at: real)
    requires forall i :: 0 <= i < |trace| ==> trace[i].at <= at
    ensures Replay(cfg, trace).last.Some? ==> Replay(cfg, trace).last.value <= at
    ensures Kept(cfg, trace).last.Some? ==> Kept(cfg, trace).last.value <= at
  {
    hide Level;
    if trace != [] {
      LastInTrace(cfg, trace[..|trace| - 1], at);
      assert trace[|trace| - 1].at <= at;
    }
  }

  // ------------------------------------------------------------------- verdicts of a key

  /** The times at which a trace's key was called. */
  function UseTimes(trace: Trace): seq<real> {
    if trace == [] then []
    else
      var e := trace[|trace| - 1];
      UseTimes(trace[..|trace| - 1]) + if e.Used? then [e.at] else []
  }

  function Verdicts(trace: Trace): seq<bool> {
    if trace == [] then []
    else
      var e := trace[|trace| - 1];
      Verdicts(trace[..|trace| - 1]) + if e.Used? then [e.answer.allowed] else []
  }

  lemma {:induction false} AfterPrefix(cfg: Config, times: seq<real>, later: seq<real>, n: nat)
    requires n <= |times|
    ensures After(cfg, times + later, n) == After(cfg, times, n)
  {
    hide Called;
    if n > 0 {
      AfterPrefix(cfg, times, later, n - 1);
    }
  }

  /** One call more: the earlier decisions stand, and the bucket after them decides. */
  lemma {:induction false} DecisionsMore(cfg: Config, times: seq<real>, t: real)
    ensures Decisions(cfg, times + [t]) == Decisions(cfg, times) + [Level(cfg, After(cfg, times, |times|), t) >= 1.0]
    ensures After(cfg, times + [t], |times| + 1) == Called(cfg, After(cfg, times, |times|), t)
  {
    var more := times + [t];
    forall n | 0 <= n <= |times|
      ensures After(cfg, more, n) == After(cfg, times, n)
    {
      AfterPrefix(cfg, times, [t], n);
    }
    hide Level, Called;
    assert After(cfg, more, |times| + 1) == Called(cfg, After(cfg, more, |times|), more[|times|]);
    hide After;
  }

  lemma LevelDecides(cfg: Config, b: Bucket, now: real)
    ensures AnswerTo(cfg, b, now).allowed <==> Level(cfg, b, now) >= 1.0
  {
    hide Level;
  }

  /** Answers that do not show the evictor are the decisions of a lone bucket called at the same times. */
  lemma {:induction false} UnseenDecides(cfg: Config, trace: Trace)
    requires Unseen(cfg, trace)
    ensures Verdicts(trace) == Decisions(cfg, UseTimes(trace))
    ensures Kept(cfg, trace) == After(cfg, UseTimes(trace), |UseTimes(trace)|)
  {
    if trace != [] {
      var init, e := trace[..|trace| - 1], trace[|trace| - 1];
      forall n | 0 <= n < |init|
        ensures UnseenAt(cfg, init, n)
      {
        assert UnseenAt(cfg, trace, n) && init[..n] == trace[..n];
      }
      UnseenDecides(cfg, init);
      assert UnseenAt(cfg, trace, |init|);
      assert trace == init + [e];
      ReplayMore(cfg, init, e);
      hide Kept, Decisions, After, Level, Called, Unseen, Replay, AnswerTo;
      if e.Used? {
        DecisionsMore(cfg, UseTimes(init), e.at);
        LevelDecides(cfg, Kept(cfg, init), e.at);
      } else {
        assert UseTimes(trace) == UseTimes(init) && Verdicts(trace) == Verdicts(init);
      }
    }
  }
}
