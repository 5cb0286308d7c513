/**
 * `array.sort((a, b) => key(a) - key(b))` on the report rows: a stable
 * sort by an integer key, as JavaScript's `Array.prototype.sort` is.
 */
module Sorting {
  import opened Sequences


  predicate SortedBy<T>(s: seq<T>, key: T -> int)
  {
    forall i, j :: 0 <= i < j < |s| ==> key(s[i]) <= key(s[j])
  }

  /** `x` placed after every element whose key is not greater than its own. */
  function Insert<T>(s: seq<T>, x: T, key: T -> int): (r: seq<T>)
    requires SortedBy(s, key)
    ensures SortedBy(r, key)
    ensures multiset(r) == multiset(s) + multiset{x}
    ensures |r| == |s| + 1
    ensures r[0] == x || (s != [] && r[0] == s[0])
  {
    if s == [] then [x]
    else if key(x) < key(s[0]) then [x] + s
    else
      var rest := Insert(s[1..], x, key);
      SortedTail(s, key);
      SortedCons(s[0], rest, key);
      assert s == [s[0]] + s[1..];
      [s[0]] + rest
  }

  /** `x` in front of a sorted list whose first key is not smaller keeps it sorted. */
  lemma SortedCons<T>(x: T, s: seq<T>, key: T -> int)
    requires SortedBy(s, key) && s != [] && key(x) <= key(s[0])
    ensures SortedBy([x] + s, key)
  {
    var r := [x] + s;
    forall i, j | 0 <= i < j < |r|
      ensures key(r[i]) <= key(r[j])
    {
      assert r[j] == s[j - 1];
      if i > 0 {
        assert r[i] == s[i - 1];
      } else if j > 1 {
        assert key(s[0]) <= key(s[j - 1]);
      }
    }
  }

  /** The elements of `s` whose key is `k`, in their order in `s`. */
  function WithKey<T>(s: seq<T>, key: T -> int, k: int): seq<T>
    decreases |s|
  {
    if s == [] then [] else (if key(s[0]) == k then [s[0]] else []) + WithKey(s[1..], key, k)
  }

  lemma {:induction false} WithKeyAppend<T>(a: seq<T>, b: seq<T>, key: T -> int, k: int)
    ensures WithKey(a + b, key, k) == WithKey(a, key, k) + WithKey(b, key, k)
    decreases |a|
  {
    if a == [] {
      assert a + b == b;
    } else {
      var head := if key(a[0]) == k then [a[0]] else [];
      assert (a + b)[0] == a[0] && (a + b)[1..] == a[1..] + b;
      assert WithKey(a + b, key, k) == head + WithKey(a[1..] + b, key, k);
      WithKeyAppend(a[1..], b, key, k);
    }
  }

  /** No element of `s` has key `k`. */
  lemma {:induction false} WithKeyNone<T>(s: seq<T>, key: T -> int, k: int)
    requires forall i :: 0 <= i < |s| ==> key(s[i]) != k
    ensures WithKey(s, key, k) == []
    decreases |s|
  {
    if s != [] {
      assert forall i :: 0 <= i < |s[1..]| ==> s[1..][i] == s[i + 1];
      WithKeyNone(s[1..], key, k);
    }
  }

  /** `Insert` puts `x` after the elements of its own key: each key's elements keep their order. */
  lemma {:induction false} InsertStable<T>(s: seq<T>, x: T, key: T -> int, k: int)
    requires SortedBy(s, key)
    ensures WithKey(Insert(s, x, key), key, k) == WithKey(s, key, k) + (if key(x) == k then [x] else [])
    decreases |s|
  {
    if s == [] {
    } else if key(x) < key(s[0]) {
      InsertFront(s, x, key, k);
    } else {
      SortedTail(s, key);
      InsertStable(s[1..], x, key, k);
      InsertBehind(s, x, key, k, if key(x) == k then [x] else []);
    }
  }

  /** `x` inserted behind the first element: that element stays in front of every key's list. */
  lemma InsertBehind<T>(s: seq<T>, x: T, key: T -> int, k: int, last: seq<T>)
    requires SortedBy(s, key) && s != [] && key(s[0]) <= key(x)
    requires SortedBy(s[1..], key)
    requires WithKey(Insert(s[1..], x, key), key, k) == WithKey(s[1..], key, k) + last
    ensures WithKey(Insert(s, x, key), key, k) == WithKey(s, key, k) + last
  {
    var rest := Insert(s[1..], x, key);
    var head := if key(s[0]) == k then [s[0]] else [];
    assert Insert(s, x, key) == [s[0]] + rest;
    WithKeyCons(s[0], rest, key, k);
    WithKeyCons(s[0], s[1..], key, k);
    assert [s[0]] + s[1..] == s;
    ConcatAssoc(head, WithKey(s[1..], key, k), last);
  }

  /** `x` inserted in front of elements all of greater key. */
  lemma InsertFront<T>(s: seq<T>, x: T, key: T -> int, k: int)
    requires SortedBy(s, key) && s != [] && key(x) < key(s[0])
    ensures WithKey(Insert(s, x, key), key, k) == WithKey(s, key, k) + (if key(x) == k then [x] else [])
  {
    assert Insert(s, x, key) == [x] + s;
    WithKeyCons(x, s, key, k);
    if key(x) == k {
      assert forall i :: 0 <= i < |s| ==> key(s[0]) <= key(s[i]);
      WithKeyNone(s, key, k);
    }
  }

  lemma WithKeyCons<T>(x: T, s: seq<T>, key: T -> int, k: int)
    ensures WithKey([x] + s, key, k) == (if key(x) == k then [x] else []) + WithKey(s, key, k)
  {
    assert ([x] + s)[0] == x && ([x] + s)[1..] == s;
  }

  lemma SortedTail<T>(s: seq<T>, key: T -> int)
    requires SortedBy(s, key) && s != []
    ensures SortedBy(s[1..], key)
  {
    forall i, j | 0 <= i < j < |s| - 1
      ensures key(s[1..][i]) <= key(s[1..][j])
    {
      assert s[1..][i] == s[i + 1] && s[1..][j] == s[j + 1];
    }
  }

  /**
   * The elements of `s` ordered by `key`, a permutation of `s`; stable: the
   * elements of any one key come in their order in `s`.
   */
  function SortBy<T>(s: seq<T>, key: T -> int): (r: seq<T>)
    ensures SortedBy(r, key)
    ensures multiset(r) == multiset(s)
    ensures |r| == |s|
    ensures forall k :: WithKey(r, key, k) == WithKey(s, key, k)
  {
    if s == [] then []
    else
      var init, x := s[..|s| - 1], s[|s| - 1];
      assert s == init + [x];
      var sorted := SortBy(init, key);
      SortByStep(init, x, sorted, key);
      Insert(sorted, x, key)
  }

  /** One step of `SortBy`: inserting the last element keeps every key's order. */
  lemma SortByStep<T>(init: seq<T>, x: T, sorted: seq<T>, key: T -> int)
    requires SortedBy(sorted, key)
    requires forall k :: WithKey(sorted, key, k) == WithKey(init, key, k)
    ensures forall k :: WithKey(Insert(sorted, x, key), key, k) == WithKey(init + [x], key, k)
  {
    forall k
      ensures WithKey(Insert(sorted, x, key), key, k) == WithKey(init + [x], key, k)
    {
      InsertStable(sorted, x, key, k);
      WithKeyAppend(init, [x], key, k);
    }
  }
}
