/**
 * `s.replace(/p/gi, rep)` for a literal pattern, as the phrase rules of
 * the suggestion engine and the placeholder machine translation apply it:
 * the replacement itself, where its occurrences are found, and what it
 * leaves unchanged.
 */
module Replacing {
  import opened Text
  import opened Sequences

  /**
   * `s.replace(/p/gi, rep)` for a literal, non-empty pattern `p`: every
   * leftmost, non-overlapping case-insensitive occurrence of `p` is replaced.
   */
  function ReplaceAllIgnoringCase(s: string, p: string, rep: string): string
    requires p != []
    decreases |s|
  {
    if |s| < |p| then s
    else if StartsWithIgnoringCase(s, p) then rep + ReplaceAllIgnoringCase(s[|p|..], p, rep)
    else [s[0]] + ReplaceAllIgnoringCase(s[1..], p, rep)
  }

  /** Global replacement changes nothing where the pattern does not occur. */
  lemma {:induction false} ReplaceAbsentIsIdentity(s: string, p: string, rep: string)
    requires p != []
    requires !ContainsIgnoringCase(s, p)
    ensures ReplaceAllIgnoringCase(s, p, rep) == s
    decreases |s|
  {
    if |s| >= |p| {
      assert ToLower(s)[..|p|] == ToLower(s[..|p|]);
      assert !StartsWithIgnoringCase(s, p);
      assert ToLower(s)[1..] == ToLower(s[1..]);
      ReplaceAbsentIsIdentity(s[1..], p, rep);
    }
  }

  /** A case-insensitive occurrence of `p` starts at index `i` of `s`. */
  predicate MatchesAt(s: string, p: string, i: nat)
  {
    i <= |s| && StartsWithIgnoringCase(s[i..], p)
  }

  /**
   * The leftmost occurrence is the first one replaced: the text before it is
   * kept, the occurrence becomes `rep`, and the search resumes after it.
   */
  lemma ReplaceAtFirst(s: string, p: string, rep: string, i: nat)
    requires p != [] && MatchesAt(s, p, i)
    requires forall j :: 0 <= j < i ==> !MatchesAt(s, p, j)
    ensures ReplaceAllIgnoringCase(s, p, rep) == s[..i] + rep + ReplaceAllIgnoringCase(s[i + |p|..], p, rep)
  {
    ReplaceSkips(s, p, rep, i);
    ReplaceMatch(s[i..], p, rep);
    assert s[i..][|p|..] == s[i + |p|..];
    ConcatAssoc(s[..i], rep, ReplaceAllIgnoringCase(s[i + |p|..], p, rep));
  }

  /** A prefix in which no occurrence starts is copied unchanged. */
  lemma {:induction false} ReplaceSkips(s: string, p: string, rep: string, i: nat)
    requires p != [] && i + |p| <= |s|
    requires forall j :: 0 <= j < i ==> !MatchesAt(s, p, j)
    ensures ReplaceAllIgnoringCase(s, p, rep) == s[..i] + ReplaceAllIgnoringCase(s[i..], p, rep)
    decreases i
  {
    if i == 0 {
      assert s[0..] == s;
    } else {
      NoMatchBefore(s, p, i);
      ReplaceSkips(s[1..], p, rep, i - 1);
      ReplaceSkipsStep(s, p, rep, i);
    }
  }

  /** One character more of the prefix copied. */
  lemma ReplaceSkipsStep(s: string, p: string, rep: string, i: nat)
    requires p != [] && 0 < i && i + |p| <= |s| && !StartsWithIgnoringCase(s, p)
    requires ReplaceAllIgnoringCase(s[1..], p, rep) == s[1..][..i - 1] + ReplaceAllIgnoringCase(s[i..], p, rep)
    ensures ReplaceAllIgnoringCase(s, p, rep) == s[..i] + ReplaceAllIgnoringCase(s[i..], p, rep)
  {
    ReplaceNoMatch(s, p, rep);
    ConsPrefix(s, i, ReplaceAllIgnoringCase(s[i..], p, rep));
  }

  /** An occurrence at the front becomes `rep`. */
  lemma ReplaceMatch(s: string, p: string, rep: string)
    requires p != [] && StartsWithIgnoringCase(s, p)
    ensures ReplaceAllIgnoringCase(s, p, rep) == rep + ReplaceAllIgnoringCase(s[|p|..], p, rep)
  {
  }

  /** Where no occurrence starts at the front, the first character is kept. */
  lemma ReplaceNoMatch(s: string, p: string, rep: string)
    requires p != [] && |p| <= |s| && !StartsWithIgnoringCase(s, p)
    ensures ReplaceAllIgnoringCase(s, p, rep) == [s[0]] + ReplaceAllIgnoringCase(s[1..], p, rep)
  {
  }

  /** No occurrence before `i` in `s`: none at the front, and none before `i - 1` in the rest. */
  lemma NoMatchBefore(s: string, p: string, i: nat)
    requires 0 < i && i + |p| <= |s|
    requires forall j :: 0 <= j < i ==> !MatchesAt(s, p, j)
    ensures !StartsWithIgnoringCase(s, p)
    ensures s[1..][i - 1..] == s[i..]
    ensures forall j :: 0 <= j < i - 1 ==> !MatchesAt(s[1..], p, j)
  {
    assert !MatchesAt(s, p, 0);
    assert s[0..] == s;
    forall j | 0 <= j < i - 1
      ensures !MatchesAt(s[1..], p, j)
    {
      assert !MatchesAt(s, p, j + 1);
      assert s[1..][j..] == s[j + 1..];
    }
  }

  /** An occurrence at some index is an occurrence: `/p/i.test(s)` holds. */
  lemma MatchesAtContains(s: string, p: string, i: nat)
    requires MatchesAt(s, p, i)
    ensures ContainsIgnoringCase(s, p)
  {
    var t, q := ToLower(s), ToLower(p);
    assert t[i..i + |q|] == ToLower(s[i..][..|p|]);
    ContainsAt(t, q, i);
  }

  /** A sequence found at index `i` is contained. */
  lemma {:induction false} ContainsAt(t: string, q: string, i: nat)
    requires i + |q| <= |t| && t[i..i + |q|] == q
    ensures Contains(t, q)
    decreases i
  {
    if i == 0 {
      assert t[..|q|] == t[0..|q|];
    } else {
      assert t[1..][i - 1..i - 1 + |q|] == t[i..i + |q|];
      ContainsAt(t[1..], q, i - 1);
    }
  }

  /** Replacing by something no longer never lengthens the text; by something no shorter, never shortens it. */
  lemma {:induction false} ReplaceLength(s: string, p: string, rep: string)
    requires p != []
    ensures |rep| <= |p| ==> |ReplaceAllIgnoringCase(s, p, rep)| <= |s|
    ensures |rep| >= |p| ==> |ReplaceAllIgnoringCase(s, p, rep)| >= |s|
    decreases |s|
  {
    if |s| >= |p| {
      if StartsWithIgnoringCase(s, p) {
        ReplaceLength(s[|p|..], p, rep);
      } else {
        ReplaceLength(s[1..], p, rep);
      }
    }
  }

  /**
   * Where the first occurrence is replaced by text other than what it
   * matched, the replacement changes the text.
   */
  lemma ReplaceChanges(s: string, p: string, rep: string, i: nat)
    requires p != [] && MatchesAt(s, p, i)
    requires forall j :: 0 <= j < i ==> !MatchesAt(s, p, j)
    requires rep != s[i..i + |p|]
    ensures ReplaceAllIgnoringCase(s, p, rep) != s
  {
    ReplaceAtFirst(s, p, rep, i);
    var rest := ReplaceAllIgnoringCase(s[i + |p|..], p, rep);
    ReplaceLength(s[i + |p|..], p, rep);
    if |rep| == |p| {
      assert (s[..i] + rep + rest)[i..i + |p|] == rep;
    }
  }

  /** A replacement that happens means that the pattern occurs. */
  lemma ReplaceChangedMeansPresent(s: string, p: string, rep: string)
    requires p != []
    requires ReplaceAllIgnoringCase(s, p, rep) != s
    ensures ContainsIgnoringCase(s, p)
  {
    if !ContainsIgnoringCase(s, p) {
      ReplaceAbsentIsIdentity(s, p, rep);
    }
  }
}
