/**
 * String helpers that stand in for the JavaScript built-ins the translation
 * tools use: `trim`, `toLowerCase`/`toUpperCase` (ASCII case mapping only),
 * `includes`, `split(/\s+/)`, `join`, the `/^\d+$/` test and a literal,
 * case-insensitive, global `replace`.
 */
module Text {
  import opened Sequences

  /** A character matched by JavaScript's `\s` and removed by `trim()`. */
  predicate IsSpace(c: char)
  {
    || c == ' ' || c == '\t' || c == '\n' || c == '\r' || c == '\U{000B}' || c == '\U{000C}'
    || c == '\U{00A0}' || c == '\U{1680}' || ('\U{2000}' <= c <= '\U{200A}')
    || c == '\U{2028}' || c == '\U{2029}' || c == '\U{202F}' || c == '\U{205F}'
    || c == '\U{3000}' || c == '\U{FEFF}'
  }

  /** The end of the run of white space that starts at `i`. */
  function SpacesFrom(s: string, i: nat): (n: nat)
    requires i <= |s|
    ensures i <= n <= |s|
    ensures forall j :: i <= j < n ==> IsSpace(s[j])
    ensures n < |s| ==> !IsSpace(s[n])
    decreases |s| - i
  {
    if i < |s| && IsSpace(s[i]) then SpacesFrom(s, i + 1) else i
  }

  /** The start of the run of white space that ends at `j`, not before `lo`. */
  function SpacesBefore(s: string, lo: nat, j: nat): (n: nat)
    requires lo <= j <= |s|
    ensures lo <= n <= j
    ensures forall k :: n <= k < j ==> IsSpace(s[k])
    ensures n > lo ==> !IsSpace(s[n - 1])
    decreases j
  {
    if j > lo && IsSpace(s[j - 1]) then SpacesBefore(s, lo, j - 1) else j
  }

  /** The number of white-space characters `s` starts with. */
  function LeadingSpaces(s: string): (n: nat)
    ensures n <= |s|
    ensures forall i :: 0 <= i < n ==> IsSpace(s[i])
    ensures n < |s| ==> !IsSpace(s[n])
  {
    SpacesFrom(s, 0)
  }

  /**
   * JavaScript's `s.trim()`: the slice of `s` that follows its leading white
   * space and is followed by nothing but white space; a non-empty result
   * neither starts nor ends with white space.
   */
  function Trim(s: string): (r: string)
    ensures |r| <= |s|
    ensures r != [] ==> !IsSpace(r[0]) && !IsSpace(r[|r| - 1])
    ensures var a := LeadingSpaces(s);
            && a + |r| <= |s| && r == s[a..a + |r|]
            && (forall i :: a + |r| <= i < |s| ==> IsSpace(s[i]))
  {
    var a := LeadingSpaces(s);
    s[a..SpacesBefore(s, a, |s|)]
  }

  /** `!value || value.trim() === ''`: empty, or only white space. */
  predicate IsBlank(value: string)
  {
    value == "" || Trim(value) == ""
  }

  predicate IsDigit(c: char)
  {
    '0' <= c <= '9'
  }

  /** The regular expression `^\d+$`: one or more ASCII digits and nothing else. */
  predicate IsDigits(s: string)
  {
    |s| > 0 && forall i :: 0 <= i < |s| ==> IsDigit(s[i])
  }

  function LowerChar(c: char): char
  {
    if 'A' <= c <= 'Z' then (c as int + 32) as char else c
  }

  function UpperChar(c: char): char
  {
    if 'a' <= c <= 'z' then (c as int - 32) as char else c
  }

  /** `s.toLowerCase()` with ASCII case mapping. */
  function ToLower(s: string): (r: string)
    ensures |r| == |s|
    ensures forall i :: 0 <= i < |s| ==> r[i] == LowerChar(s[i])
  {
    seq(|s|, i requires 0 <= i < |s| => LowerChar(s[i]))
  }

  /** `s.toUpperCase()` with ASCII case mapping. */
  function ToUpper(s: string): (r: string)
    ensures |r| == |s|
    ensures forall i :: 0 <= i < |s| ==> r[i] == UpperChar(s[i])
  {
    seq(|s|, i requires 0 <= i < |s| => UpperChar(s[i]))
  }

  /** `s.startsWith(p)`. */
  predicate StartsWith(s: string, p: string)
  {
    |p| <= |s| && s[..|p|] == p
  }

  /** `s.includes(sub)`: `sub` occurs in `s` at some position. */
  predicate Contains(s: string, sub: string)
    decreases |s|
  {
    StartsWith(s, sub) || (s != [] && Contains(s[1..], sub))
  }

  /** A pattern longer than the text does not occur in it. */
  lemma {:induction false} TooLongAbsent(s: string, sub: string)
    requires |sub| > |s|
    ensures !Contains(s, sub)
    decreases |s|
  {
    if s != [] {
      TooLongAbsent(s[1..], sub);
    }
  }

  /** A case-insensitive test of a literal regular expression against `s`. */
  predicate ContainsIgnoringCase(s: string, sub: string)
  {
    Contains(ToLower(s), ToLower(sub))
  }

  /** `s` starts with `p` when both are compared case-insensitively. */
  predicate StartsWithIgnoringCase(s: string, p: string)
  {
    |p| <= |s| && ToLower(s[..|p|]) == ToLower(p)
  }

  /** The characters of `s` in `a`..`z`, in order. */
  function KeepLowerLetters(s: string): (r: string)
    ensures |r| <= |s|
    ensures forall i :: 0 <= i < |r| ==> 'a' <= r[i] <= 'z'
  {
    if s == [] then []
    else if 'a' <= s[0] <= 'z' then [s[0]] + KeepLowerLetters(s[1..])
    else KeepLowerLetters(s[1..])
  }

  /** The letters kept are those of `s`, in order, each as often as it occurs in `s`. */
  lemma {:induction false} KeepLowerLettersKeepsLetters(s: string)
    ensures IsSubsequence(KeepLowerLetters(s), s)
    ensures forall c :: 'a' <= c <= 'z' ==> multiset(KeepLowerLetters(s))[c] == multiset(s)[c]
  {
    if s != [] {
      assert s == [s[0]] + s[1..];
      var rest := KeepLowerLetters(s[1..]);
      KeepLowerLettersKeepsLetters(s[1..]);
      if !('a' <= s[0] <= 'z') {
        assert rest != [] ==> rest[0] != s[0];
      }
    }
  }

  /**
   * `word.toLowerCase().replace(/[^a-z]/g, '')`, the dictionary key of one
   * word: only `a`-`z`, and no longer than the word.
   */
  function CleanWord(w: string): (r: string)
    ensures |r| <= |w|
    ensures forall i :: 0 <= i < |r| ==> 'a' <= r[i] <= 'z'
  {
    KeepLowerLetters(ToLower(w))
  }

  /** The cleaned word is every `a`-`z` of the lowered word, in order, and nothing else. */
  lemma CleanWordLetters(w: string)
    ensures IsSubsequence(CleanWord(w), ToLower(w))
    ensures forall c :: 'a' <= c <= 'z' ==> multiset(CleanWord(w))[c] == multiset(ToLower(w))[c]
  {
    KeepLowerLettersKeepsLetters(ToLower(w));
  }

  /** The white-space run at the start of `s` removed. */
  function SkipSpaces(s: string): (r: string)
    ensures |r| <= |s|
    ensures s != [] && IsSpace(s[0]) ==> |r| < |s|
    ensures r != [] ==> !IsSpace(r[0])
  {
    if s != [] && IsSpace(s[0]) then SkipSpaces(s[1..]) else s
  }

  /**
   * The pieces of `cur + s` between maximal runs of white space, where `cur`
   * is the piece read so far.
   */
  function SplitFrom(s: string, cur: string): (r: seq<string>)
    requires forall i :: 0 <= i < |cur| ==> !IsSpace(cur[i])
    ensures |r| >= 1
    ensures forall i, j :: 0 <= i < |r| && 0 <= j < |r[i]| ==> !IsSpace(r[i][j])
    decreases |s|
  {
    if s == [] then [cur]
    else if IsSpace(s[0]) then [cur] + SplitFrom(SkipSpaces(s), "")
    else SplitFrom(s[1..], cur + [s[0]])
  }

  /**
   * `s.split(/\s+/)`: never empty; a leading or trailing run of white space
   * gives an empty first or last piece, and `""` gives `[""]`.
   */
  function SplitWords(s: string): (r: seq<string>)
    ensures |r| >= 1
    ensures forall i, j :: 0 <= i < |r| && 0 <= j < |r[i]| ==> !IsSpace(r[i][j])
    ensures (forall i :: 0 <= i < |s| ==> !IsSpace(s[i])) ==> r == [s]
  {
    if forall i :: 0 <= i < |s| ==> !IsSpace(s[i]) then
      SplitFromWord(s, "", "");
      assert s + "" == s && "" + s == s;
      SplitFrom(s, "")
    else SplitFrom(s, "")
  }

  /** A word without white space is read into the current piece whole. */
  lemma {:induction false} SplitFromWord(w: string, rest: string, cur: string)
    requires forall i :: 0 <= i < |cur| ==> !IsSpace(cur[i])
    requires forall i :: 0 <= i < |w| ==> !IsSpace(w[i])
    ensures SplitFrom(w + rest, cur) == SplitFrom(rest, cur + w)
    decreases |w|
  {
    if w == [] {
      assert w + rest == rest && cur + w == cur;
    } else {
      assert (w + rest)[0] == w[0];
      assert (w + rest)[1..] == w[1..] + rest;
      SplitFromWord(w[1..], rest, cur + [w[0]]);
      assert cur + [w[0]] + w[1..] == cur + w;
    }
  }

  /** A string without leading or trailing white space is its own trim. */
  lemma TrimUnchanged(s: string)
    requires s != [] ==> !IsSpace(s[0]) && !IsSpace(s[|s| - 1])
    ensures Trim(s) == s
  {
  }

  /** A string of lower-case letters keeps all of them. */
  lemma {:induction false} KeepLowerLettersOfLetters(s: string)
    requires forall i :: 0 <= i < |s| ==> 'a' <= s[i] <= 'z'
    ensures KeepLowerLetters(s) == s
  {
    if s != [] {
      KeepLowerLettersOfLetters(s[1..]);
    }
  }

  /** `words.join(' ')`. */
  function JoinWords(words: seq<string>): string
  {
    if words == [] then ""
    else if |words| == 1 then words[0]
    else words[0] + " " + JoinWords(words[1..])
  }

  /**
   * Splitting undoes joining: words without white space, none empty except
   * possibly the first and the last, come back as they were joined.
   */
  lemma SplitJoin(words: seq<string>)
    requires |words| >= 1
    requires forall i, j :: 0 <= i < |words| && 0 <= j < |words[i]| ==> !IsSpace(words[i][j])
    requires forall i :: 0 < i < |words| - 1 ==> words[i] != ""
    ensures SplitWords(JoinWords(words)) == words
  {
    SplitFromJoin(words, "");
    assert "" + words[0] == words[0];
  }

  /** `cur + words.join(' ')` splits into `cur + words[0]`, then the other words. */
  lemma {:induction false} SplitFromJoin(words: seq<string>, cur: string)
    requires |words| >= 1
    requires forall i :: 0 <= i < |cur| ==> !IsSpace(cur[i])
    requires forall i, j :: 0 <= i < |words| && 0 <= j < |words[i]| ==> !IsSpace(words[i][j])
    requires forall i :: 0 < i < |words| - 1 ==> words[i] != ""
    ensures SplitFrom(JoinWords(words), cur) == [cur + words[0]] + words[1..]
    decreases |words|
  {
    var w := words[0];
    if |words| == 1 {
      SplitFromWord(w, "", cur);
      assert w + "" == w;
    } else {
      var rest := JoinWords(words[1..]);
      ConcatAssoc(w, " ", rest);
      assert JoinWords(words) == w + (" " + rest);
      SplitFromWord(w, " " + rest, cur);
      assert IsSpace((" " + rest)[0]);
      assert SplitFrom(" " + rest, cur + w) == [cur + w] + SplitFrom(SkipSpaces(" " + rest), "");
      assert (" " + rest)[1..] == rest;
      assert SkipSpaces(" " + rest) == SkipSpaces(rest);
      if words[1] != "" {
        assert rest[0] == words[1][0];
      }
      assert SkipSpaces(rest) == rest;
      SplitFromJoin(words[1..], "");
      assert "" + words[1] == words[1];
      assert [words[1]] + words[2..] == words[1..];
    }
  }
}
