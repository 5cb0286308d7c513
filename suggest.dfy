/**
 * The suggestion engine of the `AITranslator` class and the batch loop of
 * `generateAITranslations`: a deterministic fallthrough chain of dictionary
 * and pattern substitutions that proposes a translation, a confidence and
 * the name of the tier that produced it.
 */
module Suggest {
  import opened Text
  import opened Replacing
  import opened OrderedMaps

  /** The insurance dictionary: lower-case phrase or word → translation. */
  type Dictionary = map<string, string>

  /** `dictionary[k]` is truthy: present with a non-empty translation. */
  predicate Hits(d: Dictionary, k: string)
  {
    k in d && d[k] != ""
  }

  /**
   * The empty key never hits. An empty value or word looks up the empty key,
   * and a hit there would make `preserveCase` read the first character of an
   * empty string, which throws; every other dictionary is accepted.
   */
  predicate WellFormed(d: Dictionary)
  {
    !Hits(d, "")
  }

  /** One pattern rule: a literal phrase matched case-insensitively, and its replacement. */
  datatype Rule = Rule(phrase: string, replacement: string)

  /** Every phrase is non-empty (a regular expression literal cannot be empty). */
  predicate ValidRules(rules: seq<Rule>)
  {
    forall i :: 0 <= i < |rules| ==> rules[i].phrase != ""
  }

  /** `loadPatterns`: the Italian rules for `it`, none for any other language. */
  function LoadPatterns(language: string): (rules: seq<Rule>)
    ensures ValidRules(rules)
    ensures language != "it" ==> rules == []
    ensures language == "it" ==> |rules| == 6
  {
    if language == "it" then
      [ Rule("annual premium", "premio annuale"),
        Rule("insurance policy", "polizza assicurativa"),
        Rule("deductible", "franchigia"),
        Rule("coverage limit", "massimale di copertura"),
        Rule("claim", "sinistro"),
        Rule("third party", "terzi") ]
    else []
  }

  /** The tier that produced a suggestion. */
  datatype Tier = Exact | Partial | Pattern | Basic

  /** The method tag written into the suggestion file. */
  function Tag(m: Tier): string
  {
    match m
    case Exact => "dictionary"
    case Partial => "dictionary-partial"
    case Pattern => "pattern"
    case Basic => "basic"
  }

  /** What one tier returns: `{ translation, confidence, method }`. */
  datatype Candidate = Candidate(translation: string, confidence: real, tier: Tier)

  /** What `translate` returns: a candidate with the key, the original text and the review flag. */
  datatype Suggestion = Suggestion(key: string, original: string, translation: string,
                                   confidence: real, tier: Tier, needsReview: bool)

  /**
   * `preserveCase`: when the first character of `original` is unchanged by
   * upper-casing (an upper-case letter, a digit, a space, ...), the
   * translation with its first character upper-cased; otherwise the whole
   * translation lower-cased.
   */
  function PreserveCase(original: string, translated: string): (r: string)
    requires original != []
    ensures |r| == |translated|
    ensures UpperChar(original[0]) == original[0] && translated != [] ==>
              r[0] == UpperChar(translated[0]) && forall i :: 1 <= i < |r| ==> r[i] == translated[i]
    ensures UpperChar(original[0]) != original[0] ==> r == ToLower(translated)
  {
    if UpperChar(original[0]) == original[0] then
      (if translated == [] then [] else [UpperChar(translated[0])] + translated[1..])
    else ToLower(translated)
  }

  /** An original starting with a lower-case letter gives a translation without upper-case letters. */
  lemma LowerOriginalGivesLowerResult(original: string, translated: string)
    requires original != [] && 'a' <= original[0] <= 'z'
    ensures forall i :: 0 <= i < |translated| ==> !('A' <= PreserveCase(original, translated)[i] <= 'Z')
  {
  }

  /** The cleaned form of `word` is a dictionary hit. */
  predicate WordHit(d: Dictionary, word: string)
  {
    Hits(d, CleanWord(word))
  }

  /** One word of the partial and basic tiers: its case-preserved translation on a hit, else itself. */
  function WordResult(d: Dictionary, word: string): string
    requires WellFormed(d)
  {
    if WordHit(d, word) then PreserveCase(word, d[CleanWord(word)]) else word
  }

  /** `words.map(...)` of the partial tier and the `push` loop of the basic tier. */
  function TranslateWords(d: Dictionary, words: seq<string>): (r: seq<string>)
    requires WellFormed(d)
    ensures |r| == |words|
    decreases |words|
  {
    if words == [] then []
    else TranslateWords(d, words[..|words| - 1]) + [WordResult(d, words[|words| - 1])]
  }

  /**
   * Word by word: a word whose cleaned form hits becomes its case-preserved
   * dictionary entry, every other word is kept as it is.
   */
  lemma {:induction false} TranslateWordsAt(d: Dictionary, words: seq<string>)
    requires WellFormed(d)
    ensures forall i :: 0 <= i < |words| && !WordHit(d, words[i]) ==> TranslateWords(d, words)[i] == words[i]
    ensures forall i :: 0 <= i < |words| && WordHit(d, words[i]) ==>
              TranslateWords(d, words)[i] == PreserveCase(words[i], d[CleanWord(words[i])])
    decreases |words|
  {
    if words != [] {
      var init := words[..|words| - 1];
      TranslateWordsAt(d, init);
      assert forall i :: 0 <= i < |init| ==> words[i] == init[i];
    }
  }

  /** The number of words whose cleaned form hits. */
  function CountHits(d: Dictionary, words: seq<string>): (n: nat)
    ensures n <= |words|
    decreases |words|
  {
    if words == [] then 0
    else CountHits(d, words[..|words| - 1]) + (if WordHit(d, words[|words| - 1]) then 1 else 0)
  }

  /** Some word hits exactly when the hit count is positive. */
  lemma {:induction false} CountHitsPositive(d: Dictionary, words: seq<string>)
    ensures CountHits(d, words) > 0 <==> exists i :: 0 <= i < |words| && WordHit(d, words[i])
    decreases |words|
  {
    if words != [] {
      var init := words[..|words| - 1];
      CountHitsPositive(d, init);
      if exists i :: 0 <= i < |init| && WordHit(d, init[i]) {
        var i :| 0 <= i < |init| && WordHit(d, init[i]);
        assert words[i] == init[i];
      }
      if exists i :: 0 <= i < |words| && WordHit(d, words[i]) {
        var i :| 0 <= i < |words| && WordHit(d, words[i]);
        if i < |init| {
          assert init[i] == words[i];
        }
      }
    }
  }

  /** With an empty dictionary no word hits. */
  lemma {:induction false} EmptyDictionaryHitsNothing(words: seq<string>)
    ensures CountHits(map[], words) == 0
    decreases |words|
  {
    if words != [] {
      EmptyDictionaryHitsNothing(words[..|words| - 1]);
    }
  }

  /** `m / n` as a real number lies in (0, 1] when 0 < m <= n. */
  lemma RatioInUnitInterval(m: nat, n: nat)
    requires 0 < m <= n
    ensures 0.0 < m as real / n as real <= 1.0
  {
    var q := m as real / n as real;
    assert q * n as real == m as real;
  }

  /** `Math.min(0.9, 0.7 + (matches / words) * 0.2)`. */
  function PartialConfidence(matches: nat, words: nat): (c: real)
    requires 0 < matches <= words
    ensures 0.7 < c <= 0.9
    ensures c == 0.7 + (matches as real / words as real) * 0.2
  {
    RatioInUnitInterval(matches, words);
    var raw := 0.7 + (matches as real / words as real) * 0.2;
    if raw < 0.9 then raw else 0.9
  }

  /** `0.6 + (translatedCount / words) * 0.2`. */
  function BasicConfidence(count: nat, words: nat): (c: real)
    requires 0 < count <= words
    ensures 0.6 < c <= 0.8
    ensures c == 0.6 + (count as real / words as real) * 0.2
  {
    RatioInUnitInterval(count, words);
    0.6 + (count as real / words as real) * 0.2
  }

  /** The exact-match key: `text.toLowerCase().trim()`. */
  function ExactKey(text: string): string
  {
    Trim(ToLower(text))
  }

  /** An empty text has the empty exact-match key, which never hits. */
  lemma EmptyTextMisses(d: Dictionary, text: string)
    requires WellFormed(d) && Hits(d, ExactKey(text))
    ensures text != []
  {
  }

  /** `translateWithDictionary`: an exact hit, else a partial per-word hit, else nothing. */
  function DictionaryTier(d: Dictionary, text: string): (r: Option<Candidate>)
    requires WellFormed(d)
    ensures r.Some? && r.value.tier == Exact <==> Hits(d, ExactKey(text))
    ensures r.Some? ==> r.value.tier == Exact || r.value.tier == Partial
    ensures r.Some? && r.value.tier == Exact ==> r.value.confidence == 0.95
    ensures r.Some? && r.value.tier == Partial ==> 0.7 < r.value.confidence <= 0.9
  {
    var lower := ExactKey(text);
    if Hits(d, lower) then
      EmptyTextMisses(d, text);
      Some(Candidate(PreserveCase(text, d[lower]), 0.95, Exact))
    else
      var words := SplitWords(text);
      var matches := CountHits(d, words);
      if matches > 0 then
        Some(Candidate(JoinWords(TranslateWords(d, words)), PartialConfidence(matches, |words|), Partial))
      else None
  }

  /** An exact hit on the lower-cased, trimmed text gives the case-preserved entry at 0.95. */
  lemma ExactHitResult(d: Dictionary, text: string)
    requires WellFormed(d) && Hits(d, ExactKey(text))
    ensures text != []
    ensures DictionaryTier(d, text) == Some(Candidate(PreserveCase(text, d[ExactKey(text)]), 0.95, Exact))
  {
  }

  /**
   * The partial tier fires exactly when the text has no exact hit and some
   * word hits; its confidence is then in (0.7, 0.9] and its translation is the
   * per-word results, as many as the words, joined by single spaces.
   */
  lemma PartialTierResult(d: Dictionary, text: string)
    requires WellFormed(d) && !Hits(d, ExactKey(text))
    ensures var words := SplitWords(text);
            DictionaryTier(d, text).Some? <==> exists i :: 0 <= i < |words| && WordHit(d, words[i])
    ensures var words := SplitWords(text);
            DictionaryTier(d, text).Some? ==>
              var c := DictionaryTier(d, text).value;
              && c.tier == Partial
              && 0.7 < c.confidence <= 0.9
              && c.translation == JoinWords(TranslateWords(d, words))
              && |TranslateWords(d, words)| == |words|
  {
    CountHitsPositive(d, SplitWords(text));
  }

  /**
   * The pattern loop over the first rules: the working text and whether any
   * rule applied. A rule is tested against the ORIGINAL text and, when it
   * matches there, replaces in the WORKING text.
   */
  function PatternFold(text: string, rules: seq<Rule>): (r: (string, bool))
    requires ValidRules(rules)
    decreases |rules|
  {
    if rules == [] then (text, false)
    else
      var (working, applied) := PatternFold(text, rules[..|rules| - 1]);
      var rule := rules[|rules| - 1];
      if ContainsIgnoringCase(text, rule.phrase) then
        (ReplaceAllIgnoringCase(working, rule.phrase, rule.replacement), true)
      else (working, applied)
  }

  /** Some rule applied exactly when some rule's phrase occurs in the original text. */
  lemma {:induction false} PatternAppliedIff(text: string, rules: seq<Rule>)
    requires ValidRules(rules)
    ensures PatternFold(text, rules).1 <==>
              exists i :: 0 <= i < |rules| && ContainsIgnoringCase(text, rules[i].phrase)
    decreases |rules|
  {
    if rules != [] {
      var init := rules[..|rules| - 1];
      PatternAppliedIff(text, init);
      if exists i :: 0 <= i < |init| && ContainsIgnoringCase(text, init[i].phrase) {
        var i :| 0 <= i < |init| && ContainsIgnoringCase(text, init[i].phrase);
        assert rules[i] == init[i];
      }
      if exists i :: 0 <= i < |rules| && ContainsIgnoringCase(text, rules[i].phrase) {
        var i :| 0 <= i < |rules| && ContainsIgnoringCase(text, rules[i].phrase);
        if i < |init| {
          assert init[i] == rules[i];
        }
      }
    }
  }

  /** When no rule applies the working text is the original text. */
  lemma {:induction false} PatternUnappliedKeepsText(text: string, rules: seq<Rule>)
    requires ValidRules(rules)
    requires !PatternFold(text, rules).1
    ensures PatternFold(text, rules).0 == text
    decreases |rules|
  {
    if rules != [] {
      PatternUnappliedKeepsText(text, rules[..|rules| - 1]);
    }
  }

  /** `translateWithPatterns`: a result when some rule applied and the text changed. */
  function PatternTier(text: string, rules: seq<Rule>): (r: Option<Candidate>)
    requires ValidRules(rules)
    ensures r.Some? ==> r.value.tier == Pattern && r.value.confidence == 0.8 && r.value.translation != text
  {
    var (working, applied) := PatternFold(text, rules);
    if applied && working != text then Some(Candidate(working, 0.8, Pattern)) else None
  }

  /**
   * The pattern tier answers exactly when some rule's phrase occurs in the
   * original text and the rewritten text differs from it; the answer is
   * then the rewritten text at confidence 0.8.
   */
  lemma PatternTierResult(text: string, rules: seq<Rule>)
    requires ValidRules(rules)
    ensures PatternTier(text, rules).Some? <==>
              (exists i :: 0 <= i < |rules| && ContainsIgnoringCase(text, rules[i].phrase))
              && PatternFold(text, rules).0 != text
    ensures PatternTier(text, rules).Some? ==>
              PatternTier(text, rules).value == Candidate(PatternFold(text, rules).0, 0.8, Pattern)
  {
    PatternAppliedIff(text, rules);
  }

  /**
   * A text in which only the `k`-th rule's phrase occurs gets the pattern
   * answer when that rule's replacement differs from the first occurrence
   * it matches: every occurrence of the phrase replaced, at confidence 0.8.
   */
  lemma OnePhraseAnswers(text: string, rules: seq<Rule>, k: nat, i: nat)
    requires ValidRules(rules) && k < |rules|
    requires forall j :: 0 <= j < |rules| && j != k ==> !ContainsIgnoringCase(text, rules[j].phrase)
    requires MatchesAt(text, rules[k].phrase, i)
    requires forall j :: 0 <= j < i ==> !MatchesAt(text, rules[k].phrase, j)
    requires rules[k].replacement != text[i..i + |rules[k].phrase|]
    ensures PatternTier(text, rules)
            == Some(Candidate(ReplaceAllIgnoringCase(text, rules[k].phrase, rules[k].replacement), 0.8, Pattern))
  {
    MatchesAtContains(text, rules[k].phrase, i);
    ReplaceChanges(text, rules[k].phrase, rules[k].replacement, i);
    OnePhraseFold(text, rules, k, |rules|);
    assert rules[..|rules|] == rules;
  }

  /** The pattern loop over the first `n` rules when only the `k`-th rule's phrase occurs. */
  lemma {:induction false} OnePhraseFold(text: string, rules: seq<Rule>, k: nat, n: nat)
    requires ValidRules(rules) && k < |rules| && n <= |rules|
    requires forall j :: 0 <= j < |rules| && j != k ==> !ContainsIgnoringCase(text, rules[j].phrase)
    requires ContainsIgnoringCase(text, rules[k].phrase)
    ensures PatternFold(text, rules[..n])
            == if n <= k then (text, false)
               else (ReplaceAllIgnoringCase(text, rules[k].phrase, rules[k].replacement), true)
    decreases n
  {
    if n > 0 {
      OnePhraseFold(text, rules, k, n - 1);
      assert rules[..n][..n - 1] == rules[..n - 1];
      assert rules[..n][n - 1] == rules[n - 1];
    }
  }

  /** "Claim" under the Italian rules: only "claim" occurs, any case, and it becomes "sinistro". */
  lemma ClaimPatternExample()
    ensures PatternTier("Claim", LoadPatterns("it")) == Some(Candidate("sinistro", 0.8, Pattern))
  {
    var rules := LoadPatterns("it");
    forall j | 0 <= j < |rules| && j != 4
      ensures !ContainsIgnoringCase("Claim", rules[j].phrase)
    {
      TooLongAbsent(ToLower("Claim"), ToLower(rules[j].phrase));
    }
    assert ToLower("Claim") == "claim";
    assert "Claim"[0..] == "Claim" && "Claim"[..5] == "Claim" && "Claim"[5..] == "";
    assert MatchesAt("Claim", "claim", 0);
    OnePhraseAnswers("Claim", rules, 4, 0);
    ReplaceMatch("Claim", "claim", "sinistro");
    assert ReplaceAllIgnoringCase("", "claim", "sinistro") == "";
    assert "sinistro" + "" == "sinistro";
  }

  /**
   * `translateBasic`: answers exactly when some word of the text hits, with
   * the per-word results joined by spaces and a confidence rising with the
   * share of words that hit.
   */
  function BasicTier(d: Dictionary, text: string): (r: Option<Candidate>)
    requires WellFormed(d)
    ensures r.Some? <==> CountHits(d, SplitWords(text)) > 0
    ensures r.Some? ==> r.value.tier == Basic && 0.6 < r.value.confidence <= 0.8
    ensures var words := SplitWords(text);
            r.Some? ==> && r.value.translation == JoinWords(TranslateWords(d, words))
                        && r.value.confidence == 0.6 + (CountHits(d, words) as real / |words| as real) * 0.2
  {
    var words := SplitWords(text);
    var count := CountHits(d, words);
    if count > 0 then
      Some(Candidate(JoinWords(TranslateWords(d, words)), BasicConfidence(count, |words|), Basic))
    else None
  }

  /** The basic tier answers exactly when some word of the text hits. */
  lemma BasicTierResult(d: Dictionary, text: string)
    requires WellFormed(d)
    ensures var words := SplitWords(text);
            BasicTier(d, text).Some? <==> exists i :: 0 <= i < |words| && WordHit(d, words[i])
  {
    CountHitsPositive(d, SplitWords(text));
  }

  /**
   * The basic tier never answers after the dictionary tier declined: both
   * clean the words the same way, so a declined dictionary tier saw no hit.
   */
  lemma BasicAfterDictionaryMissIsNone(d: Dictionary, text: string)
    requires WellFormed(d)
    requires DictionaryTier(d, text) == None
    ensures BasicTier(d, text) == None
  {
  }

  /** `translateWithDictionary(text) || translateWithPatterns(text) || translateBasic(text)`. */
  function FirstAnswer(d: Dictionary, rules: seq<Rule>, text: string): (r: Option<Candidate>)
    requires WellFormed(d) && ValidRules(rules)
  {
    if DictionaryTier(d, text).Some? then DictionaryTier(d, text)
    else if PatternTier(text, rules).Some? then PatternTier(text, rules)
    else BasicTier(d, text)
  }

  /**
   * `translate`: the numeric guard, then the first tier that answers. A
   * suggestion keeps its key and original text and asks for review exactly
   * below 0.8; an exact dictionary hit always answers.
   */
  function Translate(d: Dictionary, rules: seq<Rule>, key: string, value: string): (r: Option<Suggestion>)
    requires WellFormed(d) && ValidRules(rules)
    ensures IsDigits(Trim(value)) ==> r == None
    ensures r.Some? ==> r.value.key == key && r.value.original == value
                        && r.value.needsReview == (r.value.confidence < 0.8)
    ensures !IsDigits(Trim(value)) && Hits(d, ExactKey(value)) ==> r.Some? && r.value.tier == Exact
  {
    if IsDigits(Trim(value)) then None
    else
      match FirstAnswer(d, rules, value)
      case None => None
      case Some(c) =>
        Some(Suggestion(key, value, c.translation, c.confidence, c.tier, c.confidence < 0.8))
  }

  /** A trimmed value of digits only is never translated, whatever the dictionary holds. */
  lemma NumericValueSkipped(d: Dictionary, rules: seq<Rule>, key: string, value: string)
    requires WellFormed(d) && ValidRules(rules)
    requires IsDigits(Trim(value))
    ensures Translate(d, rules, key, value) == None
  {
  }

  /**
   * Every suggestion carries its key and original text, is flagged for
   * review exactly when its confidence is below 0.8, never comes from the
   * basic tier, and has the confidence of its tier: 0.95 for an exact hit,
   * (0.7, 0.9] for a partial hit, 0.8 for a pattern rewrite.
   */
  lemma SuggestionShape(d: Dictionary, rules: seq<Rule>, key: string, value: string)
    requires WellFormed(d) && ValidRules(rules)
    requires Translate(d, rules, key, value).Some?
    ensures var s := Translate(d, rules, key, value).value;
            && s.key == key && s.original == value
            && !IsDigits(Trim(value))
            && s.needsReview == (s.confidence < 0.8)
            && s.tier != Basic
            && 0.0 <= s.confidence <= 1.0
            && (s.tier == Exact ==> s.confidence == 0.95 && !s.needsReview)
            && (s.tier == Partial ==> 0.7 < s.confidence <= 0.9)
            && (s.tier == Pattern ==> s.confidence == 0.8 && !s.needsReview)
  {
    var c := FirstAnswer(d, rules, value).value;
    if DictionaryTier(d, value).Some? {
      assert c == DictionaryTier(d, value).value;
    } else {
      BasicAfterDictionaryMissIsNone(d, value);
      assert c == PatternTier(value, rules).value;
    }
  }

  /** An exact hit is the suggestion: case-preserved entry, tag `dictionary`, 0.95, no review. */
  lemma ExactHitSuggestion(d: Dictionary, rules: seq<Rule>, key: string, value: string)
    requires WellFormed(d) && ValidRules(rules)
    requires !IsDigits(Trim(value)) && Hits(d, ExactKey(value))
    ensures value != []
    ensures Translate(d, rules, key, value) ==
              Some(Suggestion(key, value, PreserveCase(value, d[ExactKey(value)]), 0.95, Exact, false))
    ensures Tag(Translate(d, rules, key, value).value.tier) == "dictionary"
  {
  }

  /** With an empty dictionary and no rules nothing is ever suggested. */
  lemma NothingWithoutResources(key: string, value: string)
    ensures Translate(map[], [], key, value) == None
  {
    EmptyDictionaryHitsNothing(SplitWords(value));
  }

  lemma SplitPremiumDue(text: string)
    requires text == "Premium due"
    ensures SplitWords(text) == ["Premium", "due"]
  {
    var first, rest := "Premium", " due";
    assert text == first + rest;
    ReadPremium(first);
    SplitFromWord(first, rest, "");
    assert "" + first == first;
    SplitSpaceDue(rest, first);
  }

  lemma ReadPremium(w: string)
    requires w == "Premium"
    ensures forall i :: 0 <= i < |w| ==> !IsSpace(w[i])
  {
  }

  lemma ReadDue(w: string)
    requires w == "due"
    ensures forall i :: 0 <= i < |w| ==> !IsSpace(w[i])
  {
  }

  lemma SkipToDue(rest: string)
    requires rest == " due"
    ensures SkipSpaces(rest) == "due"
  {
    var w := "due";
    assert IsSpace(rest[0]) && rest[1..] == w;
    assert !IsSpace(w[0]);
  }

  lemma SplitSpaceDue(rest: string, cur: string)
    requires rest == " due" && cur == "Premium"
    requires forall i :: 0 <= i < |cur| ==> !IsSpace(cur[i])
    ensures SplitFrom(rest, cur) == ["Premium", "due"]
  {
    var w := "due";
    assert IsSpace(rest[0]);
    SkipToDue(rest);
    assert SplitFrom(rest, cur) == [cur] + SplitFrom(w, "");
    ReadDue(w);
    SplitFromWord(w, "", "");
    assert w + "" == w && "" + w == w;
  }

  lemma ExactKeyPremiumDue(text: string)
    requires text == "Premium due"
    ensures ExactKey(text) == "premium due"
  {
    assert ToLower(text) == "premium due";
    TrimUnchanged("premium due");
  }

  lemma CleanPremium(w: string)
    requires w == "Premium"
    ensures CleanWord(w) == "premium"
  {
    var l := ToLower(w);
    assert l[0] == 'p';
    assert l[1..] == "remium";
    assert l == "premium";
    KeepLowerLettersOfLetters("premium");
  }

  lemma CleanDue(w: string)
    requires w == "due"
    ensures CleanWord(w) == "due"
  {
    assert ToLower(w) == "due";
    KeepLowerLettersOfLetters("due");
  }

  lemma TranslatePremiumDueWords(d: Dictionary, words: seq<string>)
    requires d == map["premium" := "premio"] && words == ["Premium", "due"]
    ensures WellFormed(d)
    ensures TranslateWords(d, words) == ["Premio", "due"]
    ensures CountHits(d, words) == 1
  {
    CleanPremium(words[0]);
    CleanDue(words[1]);
    assert words[..1] == [words[0]];
    assert words[..1][..0] == [];
    assert PreserveCase(words[0], "premio") == "Premio";
  }

  lemma JoinPremioDue(words: seq<string>)
    requires words == ["Premio", "due"]
    ensures JoinWords(words) == "Premio due"
  {
    assert words[1..] == ["due"];
  }

  lemma DictionaryPremiumDue(d: Dictionary, text: string)
    requires d == map["premium" := "premio"] && text == "Premium due"
    ensures WellFormed(d)
    ensures DictionaryTier(d, text) == Some(Candidate("Premio due", 0.8, Partial))
  {
    ExactKeyPremiumDue(text);
    var words := SplitWords(text);
    SplitPremiumDue(text);
    TranslatePremiumDueWords(d, words);
    JoinPremioDue(TranslateWords(d, words));
    assert PartialConfidence(1, |words|) == 0.8;
  }

  /**
   * A dictionary holding only `premium`: `Premium due` is a partial hit on
   * one word of two, `Premio due` at confidence 0.8, not flagged for review.
   */
  lemma PartialHitExample(d: Dictionary, text: string)
    requires d == map["premium" := "premio"] && text == "Premium due"
    ensures WellFormed(d)
    ensures Translate(d, LoadPatterns("it"), "policy.due", text)
            == Some(Suggestion("policy.due", text, "Premio due", 0.8, Partial, false))
  {
    DictionaryPremiumDue(d, text);
    assert !IsDigits(Trim(text)) by {
      TrimUnchanged(text);
      assert !IsDigit(text[0]);
    }
  }

  /**
   * Rules are tested against the original text, not the rewritten one: the
   * second rule's phrase appears only after the first rewrite, so it does
   * not apply.
   */
  lemma PatternTestsOriginalExample()
    ensures PatternTier("abc", [Rule("ab", "x"), Rule("xc", "y")]) == Some(Candidate("xc", 0.8, Pattern))
  {
    var rules := [Rule("ab", "x"), Rule("xc", "y")];
    assert ToLower("abc") == "abc";
    assert ToLower("ab") == "ab";
    assert ToLower("xc") == "xc";
    assert ContainsIgnoringCase("abc", "ab") by {
      assert StartsWith("abc", "ab");
    }
    assert ReplaceAllIgnoringCase("abc", "ab", "x") == "xc" by {
      assert ToLower("abc"[..2]) == "ab";
      assert StartsWithIgnoringCase("abc", "ab");
      assert "abc"[2..] == "c";
      assert ReplaceAllIgnoringCase("c", "ab", "x") == "c";
    }
    assert !ContainsIgnoringCase("abc", "xc") by {
      assert "abc"[1..] == "bc";
      assert "bc"[1..] == "c";
      assert "c"[1..] == "";
      assert !StartsWith("abc", "xc") by { assert "abc"[0] != "xc"[0]; }
      assert !StartsWith("bc", "xc") by { assert "bc"[0] != "xc"[0]; }
      assert !Contains("c", "xc");
    }
    assert rules[..1] == [Rule("ab", "x")];
    assert rules[..1][..0] == [];
    assert PatternFold("abc", rules[..1]) == ("xc", true);
    assert PatternFold("abc", rules) == ("xc", true);
  }

  /** `translateWithDictionary`, the `map` over the words counting the hits in `matches`. */
  method TranslateWithDictionary(d: Dictionary, text: string) returns (r: Option<Candidate>)
    requires WellFormed(d)
    ensures r == DictionaryTier(d, text)
  {
    var lower := ExactKey(text);
    if lower in d && d[lower] != "" {
      ExactHitResult(d, text);
      return Some(Candidate(PreserveCase(text, d[lower]), 0.95, Exact));
    }
    var words := SplitWords(text);
    var translatedWords, matches := MapWords(d, words);
    if matches > 0 {
      return Some(Candidate(JoinWords(translatedWords), PartialConfidence(matches, |words|), Partial));
    }
    return None;
  }

  /** The `map` of `translateWithDictionary` over the words, counting the hits in `matches`. */
  method MapWords(d: Dictionary, words: seq<string>) returns (translatedWords: seq<string>, matches: nat)
    requires WellFormed(d)
    ensures translatedWords == TranslateWords(d, words)
    ensures matches == CountHits(d, words)
  {
    translatedWords := [];
    matches := 0;
    var i := 0;
    while i < |words|
      invariant 0 <= i <= |words|
      invariant translatedWords == TranslateWords(d, words[..i])
      invariant matches == CountHits(d, words[..i])
    {
      var cleanWord := CleanWord(words[i]);
      if cleanWord in d && d[cleanWord] != "" {
        matches := matches + 1;
        translatedWords := translatedWords + [PreserveCase(words[i], d[cleanWord])];
      } else {
        translatedWords := translatedWords + [words[i]];
      }
      assert words[..i + 1][..i] == words[..i];
      i := i + 1;
    }
    assert words[..i] == words;
  }

  /** `translateWithPatterns`: the loop over the rules updating `translated` and `applied`. */
  method TranslateWithPatterns(text: string, rules: seq<Rule>) returns (r: Option<Candidate>)
    requires ValidRules(rules)
    ensures r == PatternTier(text, rules)
  {
    var translated := text;
    var applied := false;
    var i := 0;
    while i < |rules|
      invariant 0 <= i <= |rules|
      invariant (translated, applied) == PatternFold(text, rules[..i])
    {
      var rule := rules[i];
      assert rules[..i + 1][..i] == rules[..i];
      if ContainsIgnoringCase(text, rule.phrase) {
        translated := ReplaceAllIgnoringCase(translated, rule.phrase, rule.replacement);
        applied := true;
      }
      i := i + 1;
    }
    assert rules[..i] == rules;
    if applied && translated != text {
      return Some(Candidate(translated, 0.8, Pattern));
    }
    return None;
  }

  /** `translateBasic`: the loop pushing translated words and counting them. */
  method TranslateBasic(d: Dictionary, text: string) returns (r: Option<Candidate>)
    requires WellFormed(d)
    ensures r == BasicTier(d, text)
  {
    var words := SplitWords(text);
    var translated: seq<string> := [];
    var translatedCount := 0;
    var i := 0;
    while i < |words|
      invariant 0 <= i <= |words|
      invariant translated == TranslateWords(d, words[..i])
      invariant translatedCount == CountHits(d, words[..i])
    {
      var clean := CleanWord(words[i]);
      if clean in d && d[clean] != "" {
        translated := translated + [PreserveCase(words[i], d[clean])];
        translatedCount := translatedCount + 1;
      } else {
        translated := translated + [words[i]];
      }
      assert words[..i + 1][..i] == words[..i];
      i := i + 1;
    }
    assert words[..i] == words;
    if translatedCount > 0 {
      return Some(Candidate(JoinWords(translated), BasicConfidence(translatedCount, |words|), Basic));
    }
    return None;
  }

  /** `translate`: the guard, the `||` chain of tiers, and the metadata added to the result. */
  method TranslateValue(d: Dictionary, rules: seq<Rule>, key: string, value: string)
    returns (r: Option<Suggestion>)
    requires WellFormed(d) && ValidRules(rules)
    ensures r == Translate(d, rules, key, value)
  {
    if IsDigits(Trim(value)) {
      return None;
    }
    var result := TranslateWithDictionary(d, value);
    if result.None? {
      result := TranslateWithPatterns(value, rules);
    }
    if result.None? {
      result := TranslateBasic(d, value);
    }
    assert result == FirstAnswer(d, rules, value);
    if result.None? {
      return None;
    }
    var c := result.value;
    return Some(Suggestion(key, value, c.translation, c.confidence, c.tier, c.confidence < 0.8));
  }
}
