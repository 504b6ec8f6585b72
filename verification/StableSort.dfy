/** A stable sort by an integer key, as the source obtains it from sort.SliceStable. */
module StableSort {

  predicate Sorted<T>(key: T -> int, s: seq<T>) {
    forall i, j :: 0 <= i <= j < |s| ==> key(s[i]) <= key(s[j])
  }

  /** The elements with a given key, in order. */
  function WithKey<T>(key: T -> int, s: seq<T>, v: int): seq<T> {
    if s == [] then [] else (if key(s[0]) == v then [s[0]] else []) + WithKey(key, s[1..], v)
  }

  function Insert<T>(key: T -> int, x: T, s: seq<T>): seq<T> {
    if s == [] || key(x) <= key(s[0]) then [x] + s else [s[0]] + Insert(key, x, s[1..])
  }

  function Sort<T>(key: T -> int, s: seq<T>): seq<T> {
    if s == [] then [] else Insert(key, s[0], Sort(key, s[1..]))
  }

  lemma {:induction false} InsertSorts<T>(key: T -> int, x: T, s: seq<T>)
    requires Sorted(key, s)
    ensures Sorted(key, Insert(key, x, s))
    ensures multiset(Insert(key, x, s)) == multiset{x} + multiset(s)
  {
    if s != [] && key(x) > key(s[0]) {
      InsertSorts(key, x, s[1..]);
      var r := Insert(key, x, s[1..]);
      assert s == [s[0]] + s[1..] && Insert(key, x, s) == [s[0]] + r;
      hide Insert;
      forall i | 0 <= i < |r|
        ensures key(s[0]) <= key(r[i])
      {
        assert r[i] in multiset(r);
        assert r[i] == x || r[i] in s[1..];
      }
    }
  }

  lemma WithKeyFirst<T>(key: T -> int, x: T, s: seq<T>, v: int)
    ensures WithKey(key, [x] + s, v) == (if key(x) == v then [x] else []) + WithKey(key, s, v)
  {
    assert ([x] + s)[1..] == s;
  }

  lemma {:induction false} InsertIsStable<T>(key: T -> int, x: T, s: seq<T>, v: int)
    ensures WithKey(key, Insert(key, x, s), v) == (if key(x) == v then [x] else []) + WithKey(key, s, v)
  {
    if s == [] || key(x) <= key(s[0]) {
      WithKeyFirst(key, x, s, v);
    } else {
      var y, rest := s[0], s[1..];
      assert s == [y] + rest && Insert(key, x, s) == [y] + Insert(key, x, rest);
      hide WithKey, Insert;
      InsertIsStable(key, x, rest, v);
      WithKeyFirst(key, y, rest, v);
      WithKeyFirst(key, y, Insert(key, x, rest), v);
    }
  }

  /** Sorting orders the elements, loses and adds none, and keeps elements with equal keys in order. */
  lemma {:induction false} SortIsStable<T>(key: T -> int, s: seq<T>)
    ensures Sorted(key, Sort(key, s))
    ensures multiset(Sort(key, s)) == multiset(s)
    ensures forall v :: WithKey(key, Sort(key, s), v) == WithKey(key, s, v)
  {
    if s != [] {
      SortIsStable(key, s[1..]);
      InsertSorts(key, s[0], Sort(key, s[1..]));
      assert s == [s[0]] + s[1..];
      forall v
        ensures WithKey(key, Sort(key, s), v) == WithKey(key, s, v)
      {
        InsertIsStable(key, s[0], Sort(key, s[1..]), v);
      }
    }
  }
}
