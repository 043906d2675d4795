/** Facts about Python lists used across the builder: `sorted(xs, key=...)`,
    a stable sort in ascending order of an integer key (modelled as insertion
    sort; what matters is the result, the unique stable ordering by key), and
    lists without repeated elements. */
module Sequences {

  /** No element of `s` occurs twice. */
  ghost predicate Distinct<T>(s: seq<T>)
  {
    forall i, j :: 0 <= i < j < |s| ==> s[i] != s[j]
  }

  /** `s` is in ascending order of `key`. */
  ghost predicate SortedBy<T>(s: seq<T>, key: T -> int)
  {
    forall i, j :: 0 <= i < j < |s| ==> key(s[i]) <= key(s[j])
  }

  /** Inserts `x` in front of every element whose key is not smaller, so that
      `x` keeps its place before elements of the same key that followed it. */
  function Insert<T>(x: T, s: seq<T>, key: T -> int): (r: seq<T>)
    requires SortedBy(s, key)
    ensures SortedBy(r, key)
    ensures multiset(r) == multiset(s) + multiset{x}
  {
    if s == [] || key(x) <= key(s[0]) then [x] + s
    else
      var rest := Insert(x, s[1..], key);
      assert s == [s[0]] + s[1..];
      LowerBoundKept(x, s[0], s[1..], rest, key);
      [s[0]] + rest
  }

  /** Putting `y` in front of `rest` keeps it sorted when `y`'s key is at most
      that of `x` and of every element of `t`, and `rest` holds exactly those. */
  lemma LowerBoundKept<T>(x: T, y: T, t: seq<T>, rest: seq<T>, key: T -> int)
    requires key(y) <= key(x)
    requires forall j :: 0 <= j < |t| ==> key(y) <= key(t[j])
    requires SortedBy(rest, key)
    requires multiset(rest) == multiset(t) + multiset{x}
    ensures SortedBy([y] + rest, key)
  {
    forall j | 0 <= j < |rest| ensures key(y) <= key(rest[j]) {
      assert rest[j] in multiset(rest);
      if rest[j] != x {
        assert rest[j] in multiset(t);
        var i :| 0 <= i < |t| && t[i] == rest[j];
      }
    }
  }

  /** The sequence `s` in ascending order of `key`, equal keys in their
      original order. */
  function SortBy<T>(s: seq<T>, key: T -> int): (r: seq<T>)
    ensures SortedBy(r, key)
    ensures multiset(r) == multiset(s)
    ensures |r| == |s|
  {
    if s == [] then []
    else
      assert s == [s[0]] + s[1..];
      Insert(s[0], SortBy(s[1..], key), key)
  }

  /** The elements of `s` whose key is `k`, in their order in `s`. */
  function WithKey<T>(s: seq<T>, k: int, key: T -> int): seq<T>
  {
    if s == [] then []
    else (if key(s[0]) == k then [s[0]] else []) + WithKey(s[1..], k, key)
  }

  lemma {:induction false} WithKeyCons<T>(y: T, t: seq<T>, k: int, key: T -> int)
    ensures WithKey([y] + t, k, key) == (if key(y) == k then [y] else []) + WithKey(t, k, key)
  {
    assert ([y] + t)[0] == y && ([y] + t)[1..] == t;
  }

  lemma {:induction false} InsertWithKey<T>(x: T, s: seq<T>, k: int, key: T -> int)
    requires SortedBy(s, key)
    ensures WithKey(Insert(x, s, key), k, key)
            == (if key(x) == k then [x] else []) + WithKey(s, k, key)
  {
    if s == [] || key(x) <= key(s[0]) {
      WithKeyCons(x, s, k, key);
    } else {
      var rest := Insert(x, s[1..], key);
      var kx: seq<T> := if key(x) == k then [x] else [];
      var ky: seq<T> := if key(s[0]) == k then [s[0]] else [];
      var tail := WithKey(s[1..], k, key);
      assert Insert(x, s, key) == [s[0]] + rest;
      assert WithKey(rest, k, key) == kx + tail by {
        InsertWithKey(x, s[1..], k, key);
      }
      assert WithKey([s[0]] + rest, k, key) == ky + (kx + tail) by {
        WithKeyCons(s[0], rest, k, key);
      }
      assert WithKey(s, k, key) == ky + tail by {
        assert s == [s[0]] + s[1..];
        WithKeyCons(s[0], s[1..], k, key);
      }
      if key(x) == k {
        assert ky == [];
        assert ky + (kx + tail) == kx + tail;
      } else {
        assert kx == [];
        assert ky + (kx + tail) == ky + tail;
        assert [] + (ky + tail) == ky + tail;
      }
    }
  }

  /** Stability: sorting keeps, for every key, the elements carrying that key
      in the order they had before (ties keep their configured order). */
  lemma {:induction false} SortByStable<T>(s: seq<T>, k: int, key: T -> int)
    ensures WithKey(SortBy(s, key), k, key) == WithKey(s, k, key)
  {
    if s != [] {
      SortByStable(s[1..], k, key);
      InsertWithKey(s[0], SortBy(s[1..], key), k, key);
    }
  }
}
