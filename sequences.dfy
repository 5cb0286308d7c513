/**
 * Sequence operations the dashboard applies to its key and item lists:
 * `Array.prototype.filter`, the in-order subsequence relation a filter
 * establishes, and `[...new Set(s)]`.
 */
module Sequences {
  import opened OrderedMaps

  /**
   * `a` can be obtained from `b` by deleting elements: matched greedily,
   * element by element, from the front.
   */
  predicate IsSubsequence<T(==)>(a: seq<T>, b: seq<T>)
    decreases |b|
  {
    if a == [] then true
    else if b == [] then false
    else if a[0] == b[0] then IsSubsequence(a[1..], b[1..])
    else IsSubsequence(a, b[1..])
  }

  /** A subsequence of the tail is a subsequence of the whole. */
  lemma {:induction false} SubsequenceOfTail<T>(a: seq<T>, b: seq<T>)
    requires b != [] && IsSubsequence(a, b[1..])
    ensures IsSubsequence(a, b)
    decreases |a| + |b|, 1
  {
    if a != [] && a[0] == b[0] {
      SubsequenceDropFirst(a, b[1..]);
    }
  }

  /** Dropping the first element keeps a subsequence a subsequence. */
  lemma {:induction false} SubsequenceDropFirst<T>(a: seq<T>, c: seq<T>)
    requires a != [] && IsSubsequence(a, c)
    ensures IsSubsequence(a[1..], c)
    decreases |a| + |c|, 0
  {
    if a[0] == c[0] {
      SubsequenceOfTail(a[1..], c);
    } else {
      SubsequenceDropFirst(a, c[1..]);
      SubsequenceOfTail(a[1..], c);
    }
  }

  /**
   * Extending the whole sequence keeps a subsequence one; extending both by
   * the same element keeps the match.
   */
  lemma {:induction false} SubsequenceSnoc<T>(a: seq<T>, b: seq<T>, x: T)
    requires IsSubsequence(a, b)
    ensures IsSubsequence(a, b + [x])
    ensures IsSubsequence(a + [x], b + [x])
    decreases |b|
  {
    if b != [] {
      assert (b + [x])[1..] == b[1..] + [x];
      if a != [] && a[0] == b[0] {
        SubsequenceSnoc(a[1..], b[1..], x);
        assert (a + [x])[1..] == a[1..] + [x];
      } else {
        SubsequenceSnoc(a, b[1..], x);
      }
    }
  }

  /** Every sequence is a subsequence of itself. */
  lemma {:induction false} SubsequenceReflexive<T>(s: seq<T>)
    ensures IsSubsequence(s, s)
    decreases |s|
  {
    if s != [] {
      SubsequenceReflexive(s[1..]);
    }
  }

  /** Concatenation regrouped. */
  lemma ConcatAssoc<T>(a: seq<T>, b: seq<T>, c: seq<T>)
    ensures a + (b + c) == (a + b) + c
  {
  }

  /** The first element, then the next `i - 1`, then `rest`: the first `i` elements, then `rest`. */
  lemma ConsPrefix<T>(s: seq<T>, i: nat, rest: seq<T>)
    requires 0 < i <= |s|
    ensures [s[0]] + (s[1..][..i - 1] + rest) == s[..i] + rest
  {
    assert s[..i] == [s[0]] + s[1..][..i - 1];
    ConcatAssoc([s[0]], s[1..][..i - 1], rest);
  }

  /** `s.filter(p)`: the elements of `s` that satisfy `p`, in their order in `s`. */
  function Keep<T(==)>(s: seq<T>, p: T -> bool): (r: seq<T>)
    ensures |r| <= |s|
    ensures forall x :: x in r ==> x in s && p(x)
    ensures forall x :: x in s && p(x) ==> x in r
    ensures IsSubsequence(r, s)
    decreases |s|
  {
    if s == [] then []
    else if p(s[0]) then [s[0]] + Keep(s[1..], p)
    else
      var rest := Keep(s[1..], p);
      SubsequenceOfTail(rest, s);
      rest
  }

  /** Filtering a sequence extended by one element. */
  lemma {:induction false} KeepSnoc<T>(s: seq<T>, x: T, p: T -> bool)
    ensures Keep(s + [x], p) == Keep(s, p) + (if p(x) then [x] else [])
    decreases |s|
  {
    if s == [] {
      assert Keep([x], p) == (if p(x) then [x] else []) + Keep([], p);
    } else {
      assert (s + [x])[0] == s[0];
      assert (s + [x])[1..] == s[1..] + [x];
      KeepSnoc(s[1..], x, p);
    }
  }

  /** Filtering twice is filtering once by both predicates. */
  lemma {:induction false} KeepTwice<T>(s: seq<T>, p: T -> bool, q: T -> bool)
    ensures Keep(Keep(s, p), q) == Keep(s, x => p(x) && q(x))
    decreases |s|
  {
    if s != [] {
      KeepTwice(s[1..], p, q);
      if p(s[0]) {
        assert Keep(s, p) == [s[0]] + Keep(s[1..], p);
        assert Keep(s, p)[1..] == Keep(s[1..], p);
      }
    }
  }

  /** `filter` keeps every occurrence of a kept element and no occurrence of a dropped one. */
  lemma {:induction false} KeepMultiset<T>(s: seq<T>, p: T -> bool)
    ensures forall x :: multiset(Keep(s, p))[x] == if p(x) then multiset(s)[x] else 0
    decreases |s|
  {
    if s != [] {
      KeepMultiset(s[1..], p);
      assert s == [s[0]] + s[1..];
    }
  }

  /** Predicates that agree on the elements of `s` keep the same elements. */
  lemma {:induction false} KeepAgree<T>(s: seq<T>, p: T -> bool, q: T -> bool)
    requires forall x :: x in s ==> p(x) == q(x)
    ensures Keep(s, p) == Keep(s, q)
    decreases |s|
  {
    if s != [] {
      KeepAgree(s[1..], p, q);
    }
  }

  /** Removing a key from a key list is filtering out that key. */
  lemma {:induction false} WithoutIsKeep(s: seq<string>, k: string)
    ensures Without(s, k) == Keep(s, x => x != k)
    decreases |s|
  {
    if s != [] {
      WithoutIsKeep(s[1..], k);
    }
  }

  /** Removing a key from a filtered key list is filtering by the stricter test. */
  lemma {:induction false} WithoutKeep(s: seq<string>, k: string, p: string -> bool, q: string -> bool)
    requires forall x :: x in s ==> q(x) == (p(x) && x != k)
    ensures Without(Keep(s, p), k) == Keep(s, q)
    decreases |s|
  {
    if s != [] {
      WithoutKeep(s[1..], k, p, q);
      if p(s[0]) {
        assert Keep(s, p) == [s[0]] + Keep(s[1..], p);
        assert Keep(s, p)[1..] == Keep(s[1..], p);
      }
    }
  }

  /** A predicate that holds everywhere keeps everything. */
  lemma {:induction false} KeepAll<T>(s: seq<T>, p: T -> bool)
    requires forall x :: x in s ==> p(x)
    ensures Keep(s, p) == s
    decreases |s|
  {
    if s != [] {
      KeepAll(s[1..], p);
    }
  }

  /** The position of the first occurrence of `x` in `s`. */
  function FirstIndex<T(==)>(s: seq<T>, x: T): (i: nat)
    requires x in s
    ensures i < |s| && s[i] == x
    ensures forall j :: 0 <= j < i ==> s[j] != x
    decreases |s|
  {
    if s[0] == x then 0 else 1 + FirstIndex(s[1..], x)
  }

  /** Appending an element does not move a first occurrence already present. */
  lemma FirstIndexSnoc<T>(s: seq<T>, x: T, y: T)
    requires y in s
    ensures FirstIndex(s + [x], y) == FirstIndex(s, y)
  {
    var i, k := FirstIndex(s + [x], y), FirstIndex(s, y);
    assert (s + [x])[k] == y;
    assert i <= k;
    assert s[i] == y;
  }

  /** `[...new Set(s)]`: each element once, at the place of its first occurrence. */
  function Dedup<T(==)>(s: seq<T>): (r: seq<T>)
    ensures forall x :: x in r ==> x in s
    ensures forall x :: x in s ==> x in r
    ensures Distinct(r)
    ensures |r| <= |s|
    decreases |s|
  {
    if s == [] then []
    else
      var init := Dedup(s[..|s| - 1]);
      assert s == s[..|s| - 1] + [s[|s| - 1]];
      if s[|s| - 1] in init then init else init + [s[|s| - 1]]
  }

  /** The elements of `Dedup(s)` are ordered by their first occurrence in `s`. */
  lemma {:induction false} DedupKeepsFirstOccurrenceOrder<T>(s: seq<T>)
    ensures forall i, j :: 0 <= i < j < |Dedup(s)| ==>
              FirstIndex(s, Dedup(s)[i]) < FirstIndex(s, Dedup(s)[j])
    decreases |s|
  {
    if s != [] {
      var init, x := s[..|s| - 1], s[|s| - 1];
      assert s == init + [x];
      DedupKeepsFirstOccurrenceOrder(init);
      var d, r := Dedup(init), Dedup(s);
      forall i, j | 0 <= i < j < |r|
        ensures FirstIndex(s, r[i]) < FirstIndex(s, r[j])
      {
        assert r[i] in init;
        FirstIndexSnoc(init, x, r[i]);
        if j < |d| {
          FirstIndexSnoc(init, x, r[j]);
        } else {
          assert r[j] == x && x !in init;
        }
      }
    }
  }

  /** An already duplicate-free sequence is its own `Dedup`. */
  lemma {:induction false} DedupOfDistinct<T>(s: seq<T>)
    requires Distinct(s)
    ensures Dedup(s) == s
    decreases |s|
  {
    if s != [] {
      var init := s[..|s| - 1];
      DedupOfDistinct(init);
      assert s[|s| - 1] !in init;
      assert s == init + [s[|s| - 1]];
    }
  }
}
