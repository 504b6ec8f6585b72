/** Counting the entries of a map or a sequence that satisfy a predicate; powers of two. */
module Counting {

  function Pow2(n: nat): nat {
    if n == 0 then 1 else 2 * Pow2(n - 1)
  }

  function Where<K, V>(m: map<K, V>, p: V -> bool): set<K> {
    set k | k in m && p(m[k])
  }

  function Count<K, V>(m: map<K, V>, p: V -> bool): nat {
    |Where(m, p)|
  }

  function One(b: bool): nat {
    if b then 1 else 0
  }

  lemma CountSet<K, V>(m: map<K, V>, p: V -> bool, k: K, v: V)
    ensures Count(m[k := v], p) == Count(m, p) - One(k in m && p(m[k])) + One(p(v))
  {
    var rest := Where(m, p) - {k};
    if k in m && p(m[k]) {
      assert Where(m, p) == rest + {k};
    } else {
      assert Where(m, p) == rest;
    }
    if p(v) {
      assert Where(m[k := v], p) == rest + {k};
    } else {
      assert Where(m[k := v], p) == rest;
    }
  }

  lemma CountRemove<K, V>(m: map<K, V>, p: V -> bool, k: K)
    ensures Count(m - {k}, p) == Count(m, p) - One(k in m && p(m[k]))
  {
    var rest := Where(m, p) - {k};
    if k in m && p(m[k]) {
      assert Where(m, p) == rest + {k};
    } else {
      assert Where(m, p) == rest;
    }
    assert Where(m - {k}, p) == rest;
  }

  lemma CountZero<K, V>(m: map<K, V>, p: V -> bool)
    requires forall k :: k in m ==> !p(m[k])
    ensures Count(m, p) == 0
  {
    assert Where(m, p) == {};
  }

  lemma CountSome<K, V>(m: map<K, V>, p: V -> bool, k: K)
    requires k in m && p(m[k])
    ensures Count(m, p) >= 1
  {
    assert k in Where(m, p);
  }

  lemma SomeElement<T>(s: set<T>) returns (x: T)
    requires s != {}
    ensures x in s
  {
    x :| x in s;
  }

  lemma CountWitness<K, V>(m: map<K, V>, p: V -> bool) returns (k: K)
    requires Count(m, p) > 0
    ensures k in m && p(m[k])
  {
    k := SomeElement(Where(m, p));
  }

  /** How many elements of a sequence satisfy a predicate. */
  function Tally<T>(s: seq<T>, p: T -> bool): nat {
    if s == [] then 0 else Tally(s[..|s| - 1], p) + One(p(s[|s| - 1]))
  }

  lemma TallyMore<T>(s: seq<T>, p: T -> bool, x: T)
    ensures Tally(s + [x], p) == Tally(s, p) + One(p(x))
  {
    assert (s + [x])[..|s|] == s;
  }

  lemma {:induction false} TallySet<T>(s: seq<T>, p: T -> bool, i: nat, x: T)
    requires i < |s|
    ensures Tally(s[i := x], p) == Tally(s, p) - One(p(s[i])) + One(p(x))
  {
    var last := |s| - 1;
    if i == last {
      assert s[i := x][..last] == s[..last];
    } else {
      TallySet(s[..last], p, i, x);
      assert s[i := x][..last] == s[..last][i := x];
    }
  }

  lemma {:induction false} TallyZero<T>(s: seq<T>, p: T -> bool)
    ensures Tally(s, p) == 0 <==> forall i :: 0 <= i < |s| ==> !p(s[i])
  {
    if s != [] {
      var init := s[..|s| - 1];
      TallyZero(init, p);
      assert forall i :: 0 <= i < |init| ==> init[i] == s[i];
    }
  }

  lemma {:induction false} TallyWithin<T>(s: seq<T>, p: T -> bool, q: T -> bool)
    requires forall x :: x in s && p(x) ==> q(x)
    ensures Tally(s, p) <= Tally(s, q)
  {
    if s != [] {
      TallyWithin(s[..|s| - 1], p, q);
    }
  }
}
