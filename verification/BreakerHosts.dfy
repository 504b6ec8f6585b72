/**
 The map of tracked hosts in http/client and the counter that caps it. Looking a host up
 and pruning are made of separate atomic steps (a map operation or a section under hostMu);
 any number of lookups and prunes interleave. MaxHosts is positive here; a negative value
 switches the counting off.
 */
module BreakerHosts {
  import opened Counting
  import CircuitBreaker

  /** Where a running entryFor has got to. */
  datatype Lookup =
    | Missing(key: string)   // the first Load found nothing
    | Reserved(key: string)  // counted, not yet stored
    | Surplus                // counted, but another lookup stored the host first

  /** Where a running Prune has got to with the host it is visiting. */
  datatype Pruning =
    | Marked(key: string)    // seen closed and without failures
    | Uncounted              // deleted, not yet taken off the counter

  /**
   `misses` counts the deletes that found their host already gone; `most` is the largest number
   of prunes that have been at work on a host at once.
   */
  datatype Table = Table(
    hosts: set<string>, hostCount: int, lookups: map<int, Lookup>, prunings: map<int, Pruning>, misses: nat, most: nat)

  const NewTable := Table({}, 0, map[], map[], 0, 0)

  datatype Action =
    | Load(id: int, key: string)
    | Reserve(id: int)
    | LoadOrStore(id: int)
    | GiveBack(id: int)
    | Visit(id: int, key: string)
    | Delete(id: int)
    | Discount(id: int)

  predicate Enabled(t: Table, a: Action) {
    match a
    case Load(id, key) => id !in t.lookups
    case Reserve(id) => id in t.lookups && t.lookups[id].Missing?
    case LoadOrStore(id) => id in t.lookups && t.lookups[id].Reserved?
    case GiveBack(id) => id in t.lookups && t.lookups[id].Surplus?
    case Visit(id, key) => id !in t.prunings && key in t.hosts
    case Delete(id) => id in t.prunings && t.prunings[id].Marked?
    case Discount(id) => id in t.prunings && t.prunings[id].Uncounted?
  }

  /** One atomic step; an action that cannot happen leaves the table as it is. */
  function Step(maxHosts: nat, t: Table, a: Action): Table {
    if !Enabled(t, a) then t
    else match a
      case Load(id, key) =>
        if key in t.hosts then t else t.(lookups := t.lookups[id := Missing(key)])
      case Reserve(id) =>
        if t.hostCount >= maxHosts then t.(lookups := t.lookups - {id})
        else t.(hostCount := t.hostCount + 1, lookups := t.lookups[id := Reserved(t.lookups[id].key)])
      case LoadOrStore(id) =>
        var key := t.lookups[id].key;
        if key in t.hosts then t.(lookups := t.lookups[id := Surplus])
        else t.(hosts := t.hosts + {key}, lookups := t.lookups - {id})
      case GiveBack(id) =>
        t.(hostCount := t.hostCount - 1, lookups := t.lookups - {id})
      case Visit(id, key) =>
        var prunings := t.prunings[id := Marked(key)];
        t.(prunings := prunings, most := if |prunings| > t.most then |prunings| else t.most)
      case Delete(id) =>
        var key := t.prunings[id].key;
        t.(hosts := t.hosts - {key}, prunings := t.prunings[id := Uncounted], misses := t.misses + One(key !in t.hosts))
      case Discount(id) =>
        t.(hostCount := t.hostCount - 1, prunings := t.prunings - {id})
  }

  function Run(maxHosts: nat, actions: seq<Action>): Table {
    if actions == [] then NewTable
    else Step(maxHosts, Run(maxHosts, actions[..|actions| - 1]), actions[|actions| - 1])
  }

  /** A lookup that is counted without its host being stored by it. */
  function Counted(): Lookup -> bool {
    (l: Lookup) => !l.Missing?
  }

  function Pending(): Pruning -> bool {
    (p: Pruning) => p.Uncounted?
  }

  ghost predicate Balanced(maxHosts: nat, t: Table) {
    && t.hostCount + t.misses == |t.hosts| + Count(t.lookups, Counted()) + Count(t.prunings, Pending())
    && t.hostCount <= maxHosts
  }

  lemma LookupBalances(maxHosts: nat, t: Table, a: Action)
    requires Balanced(maxHosts, t) && Enabled(t, a) && (a.Load? || a.Reserve? || a.LoadOrStore? || a.GiveBack?)
    ensures Balanced(maxHosts, Step(maxHosts, t, a))
  {
    hide Count;
    CountRemove(t.lookups, Counted(), a.id);
    match a
    case Load(id, key) => CountSet(t.lookups, Counted(), id, Missing(key));
    case Reserve(id) => CountSet(t.lookups, Counted(), id, Reserved(t.lookups[id].key));
    case LoadOrStore(id) => CountSet(t.lookups, Counted(), id, Surplus);
    case GiveBack(id) =>
  }

  lemma PruneBalances(maxHosts: nat, t: Table, a: Action)
    requires Balanced(maxHosts, t) && Enabled(t, a) && (a.Visit? || a.Delete? || a.Discount?)
    ensures Balanced(maxHosts, Step(maxHosts, t, a))
  {
    hide Count;
    match a
    case Visit(id, key) => CountSet(t.prunings, Pending(), id, Marked(key));
    case Delete(id) => CountSet(t.prunings, Pending(), id, Uncounted);
    case Discount(id) => CountRemove(t.prunings, Pending(), id);
  }

  lemma StepBalances(maxHosts: nat, t: Table, a: Action)
    requires Balanced(maxHosts, t)
    ensures Balanced(maxHosts, Step(maxHosts, t, a))
  {
    hide Balanced;
    if Enabled(t, a) {
      if a.Visit? || a.Delete? || a.Discount? {
        PruneBalances(maxHosts, t, a);
      } else {
        LookupBalances(maxHosts, t, a);
      }
    }
  }

  lemma {:induction false} RunBalances(maxHosts: nat, actions: seq<Action>)
    ensures Balanced(maxHosts, Run(maxHosts, actions))
  {
    if actions == [] {
      CountZero(NewTable.lookups, Counted());
      CountZero(NewTable.prunings, Pending());
    } else {
      RunBalances(maxHosts, actions[..|actions| - 1]);
      StepBalances(maxHosts, Run(maxHosts, actions[..|actions| - 1]), actions[|actions| - 1]);
    }
  }

  /**
   With any number of concurrent lookups and prunes, the counter is the tracked hosts plus the
   outstanding reservations plus the deletions not yet counted, less the deletes that found
   nothing to delete; so the tracked hosts exceed the cap by at most those.
   */
  lemma {:induction false} CounterIsExact(maxHosts: nat, actions: seq<Action>)
    ensures var t := Run(maxHosts, actions);
            && t.hostCount == |t.hosts| + Count(t.lookups, Counted()) + Count(t.prunings, Pending()) - t.misses
            && |t.hosts| <= maxHosts + t.misses
  {
    hide Run;
    RunBalances(maxHosts, actions);
  }

  // ------------------------------------------------------------------ one prune at a time

  ghost predicate NothingMissed(t: Table) {
    && t.misses == 0
    && (forall id :: id in t.prunings && t.prunings[id].Marked? ==> t.prunings[id].key in t.hosts)
  }

  lemma OnlyOne(m: map<int, Pruning>, id: int)
    requires id in m && |m| <= 1
    ensures m - {id} == map[]
  {
    assert |m.Keys| == |m|;
    assert m.Keys == {id} by {
      assert |m.Keys - {id}| == |m.Keys| - 1 == 0;
    }
  }

  lemma {:induction false} OnePruneMissesNothing(maxHosts: nat, actions: seq<Action>)
    requires Run(maxHosts, actions).most <= 1
    ensures NothingMissed(Run(maxHosts, actions)) && |Run(maxHosts, actions).prunings| <= 1
  {
    if actions != [] {
      var t, a := Run(maxHosts, actions[..|actions| - 1]), actions[|actions| - 1];
      OnePruneMissesNothing(maxHosts, actions[..|actions| - 1]);
      if (a.Delete? || a.Discount?) && a.id in t.prunings {
        OnlyOne(t.prunings, a.id);
      }
      OneStepMissesNothing(maxHosts, t, a);
    }
  }

  lemma OneStepMissesNothing(maxHosts: nat, t: Table, a: Action)
    requires NothingMissed(t) && |t.prunings| <= 1 && Step(maxHosts, t, a).most <= 1
    requires (a.Delete? || a.Discount?) && a.id in t.prunings ==> t.prunings - {a.id} == map[]
    ensures NothingMissed(Step(maxHosts, t, a)) && |Step(maxHosts, t, a).prunings| <= 1
  {
    if a.Delete? && Enabled(t, a) {
      var p := t.prunings[a.id := Uncounted];
      assert forall id :: id in p ==> id == a.id || id in t.prunings - {a.id};
      assert p.Keys == t.prunings.Keys && |p.Keys| == |p| && |t.prunings.Keys| == |t.prunings|;
    }
  }

  /**
   With at most one prune at work at a time, the counter is exactly the tracked hosts plus the
   outstanding reservations plus the deletions not yet counted, and the cap holds.
   */
  lemma {:induction false} CapHolds(maxHosts: nat, actions: seq<Action>)
    requires Run(maxHosts, actions).most <= 1
    ensures var t := Run(maxHosts, actions);
            && t.hostCount == |t.hosts| + Count(t.lookups, Counted()) + Count(t.prunings, Pending())
            && |t.hosts| <= t.hostCount <= maxHosts
  {
    hide Run;
    OnePruneMissesNothing(maxHosts, actions);
    RunBalances(maxHosts, actions);
  }

  // ---------------------------------------------------------- the bound is always reached

  lemma Then(maxHosts: nat, actions: seq<Action>, t: Table, a: Action) returns (longer: seq<Action>, next: Table)
    requires t == Run(maxHosts, actions)
    ensures longer == actions + [a] && next == Step(maxHosts, t, a) == Run(maxHosts, longer)
  {
    longer, next := actions + [a], Step(maxHosts, t, a);
    assert longer[..|actions|] == actions;
  }

  /** One lookup that is counted comes to its end: it stores its host, or gives its place back. */
  lemma Settle(maxHosts: nat, actions: seq<Action>, t: Table, id: int) returns (longer: seq<Action>, next: Table)
    requires t == Run(maxHosts, actions) && id in t.lookups && !t.lookups[id].Missing?
    ensures next == Run(maxHosts, longer) && actions <= longer
    ensures next.lookups == t.lookups - {id} && next.prunings == t.prunings && next.misses == t.misses && next.most == t.most
  {
    hide Run;
    longer, next := actions, t;
    if t.lookups[id].Reserved? {
      longer, next := Then(maxHosts, actions, t, LoadOrStore(id));
    }
    if id in next.lookups {
      longer, next := Then(maxHosts, longer, next, GiveBack(id));
    }
    assert next.lookups == t.lookups - {id};
  }

  lemma {:induction false} SettleAll(maxHosts: nat, actions: seq<Action>, t: Table)
    returns (longer: seq<Action>, next: Table)
    requires t == Run(maxHosts, actions)
    ensures next == Run(maxHosts, longer) && actions <= longer
    ensures Count(next.lookups, Counted()) == 0 && next.prunings == t.prunings && next.misses == t.misses && next.most == t.most
    decreases Count(t.lookups, Counted())
  {
    hide Run, Count;
    longer, next := actions, t;
    if Count(t.lookups, Counted()) > 0 {
      var id := CountWitness(t.lookups, Counted());
      longer, next := Settle(maxHosts, actions, t, id);
      CountRemove(t.lookups, Counted(), id);
      longer, next := SettleAll(maxHosts, longer, next);
    }
  }

  lemma {:induction false} DiscountAll(maxHosts: nat, actions: seq<Action>, t: Table)
    returns (longer: seq<Action>, next: Table)
    requires t == Run(maxHosts, actions)
    ensures next == Run(maxHosts, longer) && actions <= longer
    ensures Count(next.prunings, Pending()) == 0 && next.lookups == t.lookups && next.misses == t.misses && next.most == t.most
    decreases Count(t.prunings, Pending())
  {
    hide Run, Count;
    longer, next := actions, t;
    if Count(t.prunings, Pending()) > 0 {
      var id := CountWitness(t.prunings, Pending());
      longer, next := Then(maxHosts, actions, t, Discount(id));
      CountRemove(t.prunings, Pending(), id);
      longer, next := DiscountAll(maxHosts, longer, next);
    }
  }

  /** A host that is not tracked is looked up, counted and stored. */
  lemma Tracked(maxHosts: nat, actions: seq<Action>, t: Table, id: int, key: string)
    returns (longer: seq<Action>, next: Table)
    requires t == Run(maxHosts, actions) && id !in t.lookups && key !in t.hosts && t.hostCount < maxHosts
    ensures next == Run(maxHosts, longer) && actions <= longer
    ensures next == t.(hosts := t.hosts + {key}, hostCount := t.hostCount + 1)
  {
    hide Run;
    longer, next := Then(maxHosts, actions, t, Load(id, key));
    longer, next := Then(maxHosts, longer, next, Reserve(id));
    longer, next := Then(maxHosts, longer, next, LoadOrStore(id));
    assert next.lookups == t.lookups;
  }

  lemma {:induction false} TrackMany(maxHosts: nat, actions: seq<Action>, t: Table)
    returns (longer: seq<Action>, next: Table)
    requires t == Run(maxHosts, actions) && t.hostCount <= maxHosts
    ensures next == Run(maxHosts, longer) && actions <= longer
    ensures next == t.(hosts := next.hosts, hostCount := maxHosts)
    decreases maxHosts - t.hostCount
  {
    hide Run;
    longer, next := actions, t;
    if t.hostCount < maxHosts {
      var id := NewId(t.lookups.Keys);
      var key := NewKey(t.hosts);
      longer, next := Tracked(maxHosts, actions, t, id, key);
      longer, next := TrackMany(maxHosts, longer, next);
    }
  }

  lemma NewId(used: set<int>) returns (id: nat)
    ensures forall x :: x in used ==> x < id
  {
    id := 0;
    if used != {} {
      var x := SomeElement(used);
      var rest := used - {x};
      id := NewId(rest);
      id := if id > x then id else x + 1;
      assert forall y :: y in used ==> y == x || y in rest;
    }
  }

  lemma NewKey(used: set<string>) returns (key: string)
    ensures key !in used
  {
    var lengths := set k | k in used :: |k|;
    var n := NewId(lengths);
    key := seq(n, i => 'a');
    assert key in used ==> |key| in lengths;
  }

  /**
   The bound of CounterIsExact is tight: every run can be continued, without a further delete
   that finds nothing, until the tracked hosts exceed the cap by exactly the deletes that did.
   */
  lemma {:induction false} BoundIsReached(maxHosts: nat, actions: seq<Action>) returns (longer: seq<Action>)
    ensures actions <= longer && Run(maxHosts, longer).misses == Run(maxHosts, actions).misses
    ensures Run(maxHosts, longer).most == Run(maxHosts, actions).most
    ensures |Run(maxHosts, longer).hosts| == maxHosts + Run(maxHosts, actions).misses
  {
    hide Run, Count, Step;
    var t := Run(maxHosts, actions);
    longer, t := SettleAll(maxHosts, actions, t);
    longer, t := DiscountAll(maxHosts, longer, t);
    RunBalances(maxHosts, longer);
    longer, t := TrackMany(maxHosts, longer, t);
    RunBalances(maxHosts, longer);
  }

  /**
   Without a further delete that finds nothing, a run can go on to exceed the cap if and only if
   some delete already has.
   */
  lemma {:induction false} CapBreaksExactlyAfterMiss(maxHosts: nat, actions: seq<Action>)
    ensures (exists longer :: actions <= longer && Run(maxHosts, longer).misses == Run(maxHosts, actions).misses
                              && |Run(maxHosts, longer).hosts| > maxHosts)
            <==> Run(maxHosts, actions).misses > 0
  {
    hide Run;
    if Run(maxHosts, actions).misses > 0 {
      var longer := BoundIsReached(maxHosts, actions);
    } else {
      forall longer | Run(maxHosts, longer).misses == Run(maxHosts, actions).misses
        ensures |Run(maxHosts, longer).hosts| <= maxHosts
      {
        CounterIsExact(maxHosts, longer);
      }
    }
  }

  /** For every cap: two prunes that both mark a host both take it off the counter, and the cap breaks. */
  lemma TwoPrunesBreakTheCap(maxHosts: nat) returns (actions: seq<Action>)
    requires maxHosts >= 1
    ensures |Run(maxHosts, actions).hosts| == maxHosts + 1 && Run(maxHosts, actions).most == 2
  {
    var t;
    actions, t := [], NewTable;
    assert t == Run(maxHosts, actions);
    hide Run;
    actions, t := Tracked(maxHosts, actions, t, 1, "a");
    actions, t := Then(maxHosts, actions, t, Visit(1, "a"));
    actions, t := Then(maxHosts, actions, t, Visit(2, "a"));
    actions, t := Then(maxHosts, actions, t, Delete(1));
    actions, t := Then(maxHosts, actions, t, Delete(2));
    assert t.misses == 1 && t.most == 2;
    actions := BoundIsReached(maxHosts, actions);
  }

  /** With at most k prunes at work at once, every run keeps a positive cap if and only if k is at most one. */
  lemma {:induction false} CapHoldsExactly(maxHosts: nat, k: nat)
    requires maxHosts >= 1
    ensures (forall actions :: Run(maxHosts, actions).most <= k ==> |Run(maxHosts, actions).hosts| <= maxHosts) <==> k <= 1
  {
    hide Run;
    if k <= 1 {
      forall actions | Run(maxHosts, actions).most <= k
        ensures |Run(maxHosts, actions).hosts| <= maxHosts
      {
        CapHolds(maxHosts, actions);
      }
    } else {
      var actions := TwoPrunesBreakTheCap(maxHosts);
    }
  }

  // ------------------------------------------------------- lookups and prunes run alone

  class Hosts {
    const maxHosts: int
    var hosts: map<string, CircuitBreaker.Breaker>
    var hostCount: int

    /** MaxHosts left at zero becomes the default of 1024. */
    constructor (maxHosts: int)
      ensures this.maxHosts == (if maxHosts == 0 then 1024 else maxHosts)
      ensures hosts == map[] && hostCount == 0 && Valid()
    {
      this.maxHosts := if maxHosts == 0 then 1024 else maxHosts;
      hosts, hostCount := map[], 0;
    }

    ghost predicate Valid()
      reads this
    {
      maxHosts > 0 ==> |hosts| == hostCount <= maxHosts
    }

    /** Reports whether the host is tracked afterwards; it is not when the cap is reached. */
    method EntryFor(key: string) returns (tracked: bool)
      requires Valid()
      modifies this
      ensures Valid()
      ensures tracked <==> key in old(hosts) || maxHosts <= 0 || |old(hosts)| < maxHosts
      ensures hosts == if tracked && key !in old(hosts) then old(hosts)[key := CircuitBreaker.NewBreaker] else old(hosts)
    {
      if key in hosts {
        return true;
      }
      if maxHosts > 0 {
        if hostCount >= maxHosts {
          return false;
        }
        hostCount := hostCount + 1;
      }
      assert |hosts[key := CircuitBreaker.NewBreaker].Keys| == |hosts.Keys + {key}|;
      hosts := hosts[key := CircuitBreaker.NewBreaker];
      return true;
    }

    /** Removes exactly the hosts whose breaker is closed and without failures. */
    method Prune()
      requires Valid()
      modifies this
      ensures Valid()
      ensures forall k :: k in hosts <==>
                k in old(hosts) && (old(hosts)[k].phase != CircuitBreaker.Closed || old(hosts)[k].failures != 0)
      ensures forall k :: k in hosts ==> hosts[k] == old(hosts)[k]
    {
      var todo := hosts.Keys;
      while todo != {}
        invariant Valid()
        invariant todo <= hosts.Keys <= old(hosts).Keys
        invariant forall k :: k in hosts ==> hosts[k] == old(hosts)[k]
        invariant forall k :: k in old(hosts) && k !in todo ==>
                    (k in hosts <==> old(hosts)[k].phase != CircuitBreaker.Closed || old(hosts)[k].failures != 0)
      {
        var k :| k in todo;
        var removable := hosts[k].phase == CircuitBreaker.Closed && hosts[k].failures == 0;
        if removable {
          assert |(hosts - {k}).Keys| == |hosts.Keys - {k}|;
          hosts := hosts - {k};
          if maxHosts > 0 {
            hostCount := hostCount - 1;
          }
        }
        todo := todo - {k};
      }
    }
  }
}
