/**
 * The advanced tools of dashboard/js/advanced.js: the four tests that
 * pick keys for bulk deletion, the de-duplicated selection, the deletion
 * of the selected keys from every language, the summary cards and the
 * placeholder machine translation.
 */
module BulkDelete {
  import opened Text
  import opened Replacing
  import opened OrderedMaps
  import opened Sequences
  import opened Classify
  import opened Languages

  /** `/test|demo|example|sample|dummy/i.test(s)`. */
  predicate MentionsTestWord(s: string)
  {
    var lower := ToLower(s);
    Contains(lower, "test") || Contains(lower, "demo") || Contains(lower, "example")
    || Contains(lower, "sample") || Contains(lower, "dummy")
  }

  predicate IsHexDigit(c: char)
  {
    '0' <= c <= '9' || 'a' <= c <= 'f' || 'A' <= c <= 'F'
  }

  /** `/^[0-9a-f]{8}-[0-9a-f]{4}-[0-9a-f]{4}-[0-9a-f]{4}-[0-9a-f]{12}$/i.test(key)`. */
  predicate IsUuid(key: string)
  {
    |key| == 36
    && forall i :: 0 <= i < 36 ==>
         if i == 8 || i == 13 || i == 18 || i == 23 then key[i] == '-' else IsHexDigit(key[i])
  }

  /** A UUID-shaped key is never a numeric key: the two tests pick different keys. */
  lemma UuidIsNotNumeric(key: string)
    requires IsUuid(key)
    ensures !IsDigits(key)
  {
    assert key[8] == '-' && !IsDigit(key[8]);
  }

  /** The deletion criteria, one per check box. */
  datatype Criterion = NumericKeys | EmptyValues | TestEntries | UuidKeys

  /** Whether the entry `key: value` of the reference table meets criterion `c`. */
  predicate Meets(c: Criterion, key: string, value: string)
  {
    match c
    case NumericKeys => IsDigits(key)
    case EmptyValues => IsBlank(value)
    case TestEntries => MentionsTestWord(key) || MentionsTestWord(value)
    case UuidKeys => IsUuid(key)
  }

  /** The keys among `keys` whose reference entry meets `c`, in the order of `keys`. */
  function MatchingIn(reference: Table, c: Criterion, keys: seq<string>): (r: seq<string>)
    ensures forall k :: k in r ==> k in keys && Meets(c, k, ValueOr(reference, k))
    ensures forall k :: k in keys && Meets(c, k, ValueOr(reference, k)) ==> k in r
    ensures IsSubsequence(r, keys)
  {
    Keep(keys, k => Meets(c, k, ValueOr(reference, k)))
  }

  /** Going one key further adds that key when its entry meets `c`. */
  lemma MatchingInSnoc(reference: Table, c: Criterion, keys: seq<string>, k: string)
    ensures MatchingIn(reference, c, keys + [k])
            == MatchingIn(reference, c, keys) + (if Meets(c, k, ValueOr(reference, k)) then [k] else [])
  {
    KeepSnoc(keys, k, k => Meets(c, k, ValueOr(reference, k)));
  }

  /** The same step, for a loop that has seen the first `i` keys. */
  lemma MatchingInStep(reference: Table, c: Criterion, keys: seq<string>, i: nat)
    requires i < |keys|
    ensures MatchingIn(reference, c, keys[..i + 1])
            == MatchingIn(reference, c, keys[..i]) + (if Meets(c, keys[i], ValueOr(reference, keys[i])) then [keys[i]] else [])
  {
    assert keys[..i + 1] == keys[..i] + [keys[i]];
    MatchingInSnoc(reference, c, keys[..i], keys[i]);
  }

  /** The reference keys that meet `c`, in reference order. */
  function Matching(reference: Table, c: Criterion): (r: seq<string>)
    ensures forall k :: k in r ==> k in reference.keys && Meets(c, k, ValueOr(reference, k))
    ensures forall k :: k in reference.keys && Meets(c, k, ValueOr(reference, k)) ==> k in r
    ensures IsSubsequence(r, reference.keys)
  {
    MatchingIn(reference, c, reference.keys)
  }

  /** Which boxes are checked: numeric, empty, test, uuid. */
  datatype Checked = Checked(numeric: bool, empty: bool, test: bool, uuid: bool)

  predicate IsChecked(checked: Checked, c: Criterion)
  {
    match c
    case NumericKeys => checked.numeric
    case EmptyValues => checked.empty
    case TestEntries => checked.test
    case UuidKeys => checked.uuid
  }

  /** The lists of the checked criteria concatenated in the order numeric, empty, test, uuid. */
  function Candidates(reference: Table, checked: Checked): seq<string>
  {
    (if checked.numeric then Matching(reference, NumericKeys) else [])
    + (if checked.empty then Matching(reference, EmptyValues) else [])
    + (if checked.test then Matching(reference, TestEntries) else [])
    + (if checked.uuid then Matching(reference, UuidKeys) else [])
  }

  /** Whether `k` is in the list of criterion `c` when that box is checked. */
  predicate InList(reference: Table, checked: Checked, c: Criterion, k: string)
  {
    k in reference.keys && IsChecked(checked, c) && Meets(c, k, ValueOr(reference, k))
  }

  /** The candidates are the union of the four checked lists. */
  lemma CandidatesUnion(reference: Table, checked: Checked, k: string)
    ensures k in Candidates(reference, checked) <==>
              InList(reference, checked, NumericKeys, k) || InList(reference, checked, EmptyValues, k)
              || InList(reference, checked, TestEntries, k) || InList(reference, checked, UuidKeys, k)
  {
    var numeric := if checked.numeric then Matching(reference, NumericKeys) else [];
    var empty := if checked.empty then Matching(reference, EmptyValues) else [];
    var test := if checked.test then Matching(reference, TestEntries) else [];
    var uuid := if checked.uuid then Matching(reference, UuidKeys) else [];
    assert Candidates(reference, checked) == numeric + empty + test + uuid;
    assert k in numeric <==> InList(reference, checked, NumericKeys, k);
    assert k in empty <==> InList(reference, checked, EmptyValues, k);
    assert k in test <==> InList(reference, checked, TestEntries, k);
    assert k in uuid <==> InList(reference, checked, UuidKeys, k);
  }

  /** A candidate is a reference key meeting some checked criterion, and every such key is one. */
  lemma CandidatesExact(reference: Table, checked: Checked, k: string)
    ensures k in Candidates(reference, checked) <==> exists c :: InList(reference, checked, c, k)
  {
    CandidatesUnion(reference, checked, k);
    if exists c :: InList(reference, checked, c, k) {
      var c :| InList(reference, checked, c, k);
      assert c == NumericKeys || c == EmptyValues || c == TestEntries || c == UuidKeys;
    }
  }

  /**
   * `keysToDelete` after `updateDeletePreview`: the candidates without
   * duplicates, each at its first occurrence. A key is selected exactly when
   * it is a reference key meeting some checked criterion.
   */
  function Selection(reference: Table, checked: Checked): (r: seq<string>)
    ensures Distinct(r)
    ensures forall k :: k in r <==> exists c :: InList(reference, checked, c, k)
    ensures checked == Checked(false, false, false, false) ==> r == []
  {
    forall k
      ensures k in Candidates(reference, checked) <==> exists c :: InList(reference, checked, c, k)
    {
      CandidatesExact(reference, checked, k);
    }
    Dedup(Candidates(reference, checked))
  }

  /** The selection is ordered by first occurrence in the concatenated candidate lists. */
  lemma SelectionOrder(reference: Table, checked: Checked)
    ensures forall i, j :: 0 <= i < j < |Selection(reference, checked)| ==>
              FirstIndex(Candidates(reference, checked), Selection(reference, checked)[i])
              < FirstIndex(Candidates(reference, checked), Selection(reference, checked)[j])
  {
    DedupKeepsFirstOccurrenceOrder(Candidates(reference, checked));
  }

  /** `if (t[key]) delete t[key]`: only a truthy value is deleted. */
  function DropIfTruthy(table: Table, key: string): (r: Table)
    requires Valid(table)
    ensures Valid(r)
  {
    if key in table.values && table.values[key] != "" then Remove(table, key) else table
  }

  /** Whether the entry is present with a truthy value. */
  predicate Truthy(v: Option<string>)
  {
    v.Some? && v.value != ""
  }

  /** The inner loop of the deletion: `key` deleted from every language where its value is truthy. */
  function DeleteEverywhere(t: Translations, key: string): (r: Translations)
    requires ValidTranslations(t)
    ensures ValidTranslations(r)
    ensures r.keys == t.keys
    ensures forall l, k :: Lookup(r, l, k) == if k == key && Truthy(Lookup(t, l, k)) then None else Lookup(t, l, k)
    ensures forall l :: l in t.values ==>
              r.values[l].keys == if Truthy(Lookup(t, l, key)) then Without(t.values[l].keys, key) else t.values[l].keys
  {
    OMap(t.keys, map l | l in t.values :: DropIfTruthy(t.values[l], key))
  }

  /** The whole deletion: each key of `keys` in turn. */
  function DeleteKeys(t: Translations, keys: seq<string>): (r: Translations)
    requires ValidTranslations(t)
    ensures ValidTranslations(r)
    ensures r.keys == t.keys
    decreases |keys|
  {
    if keys == [] then t else DeleteEverywhere(DeleteKeys(t, keys[..|keys| - 1]), keys[|keys| - 1])
  }

  /**
   * After the deletion, a selected key is gone from every language where it
   * had a truthy value; empty values, unselected keys and the list of
   * languages stay as they were.
   */
  lemma {:induction false} DeleteKeysLookup(t: Translations, keys: seq<string>, l: string, k: string)
    requires ValidTranslations(t)
    ensures Lookup(DeleteKeys(t, keys), l, k) == if k in keys && Truthy(Lookup(t, l, k)) then None else Lookup(t, l, k)
    decreases |keys|
  {
    if keys != [] {
      var init := keys[..|keys| - 1];
      assert keys == init + [keys[|keys| - 1]];
      DeleteKeysLookup(t, init, l, k);
    }
  }

  /** The keys of language `l` that the deletion of `keys` leaves in place. */
  function Survives(t: Translations, l: string, keys: seq<string>): string -> bool
  {
    k => !(k in keys && Truthy(Lookup(t, l, k)))
  }

  /**
   * After the deletion, each language's keys are its old keys, in their old
   * order, less the selected keys it held with a truthy value.
   */
  lemma {:induction false} DeleteKeysOrder(t: Translations, keys: seq<string>, l: string)
    requires ValidTranslations(t) && l in t.values
    ensures DeleteKeys(t, keys).values[l].keys == Keep(t.values[l].keys, Survives(t, l, keys))
    decreases |keys|
  {
    var before := t.values[l].keys;
    if keys == [] {
      KeepAll(before, Survives(t, l, keys));
    } else {
      var init, last := keys[..|keys| - 1], keys[|keys| - 1];
      assert keys == init + [last];
      DeleteKeysOrder(t, init, l);
      var d := DeleteKeys(t, init);
      DeleteKeysLookup(t, init, l, last);
      assert DeleteKeys(t, keys) == DeleteEverywhere(d, last);
      assert d.values[l].keys == Keep(before, Survives(t, l, init));
      if Truthy(Lookup(d, l, last)) {
        WithoutKeep(before, last, Survives(t, l, init), Survives(t, l, keys));
      } else {
        KeepAgree(before, Survives(t, l, init), Survives(t, l, keys));
      }
    }
  }

  /** The figures of the summary cards. */
  datatype SummaryCards = SummaryCards(
    totalTranslated: nat, totalMissing: nat, totalNumeric: nat,
    best: Option<LanguageSummary>, bestCoverage: nat)

  function SumTranslated(langs: seq<LanguageSummary>): nat
    decreases |langs|
  {
    if langs == [] then 0 else SumTranslated(langs[..|langs| - 1]) + langs[|langs| - 1].translated
  }

  function SumMissing(langs: seq<LanguageSummary>): nat
    decreases |langs|
  {
    if langs == [] then 0 else SumMissing(langs[..|langs| - 1]) + langs[|langs| - 1].missing
  }

  /** When every row counts `total` keys, the two totals together are rows × keys. */
  lemma {:induction false} TotalsCoverEveryKey(langs: seq<LanguageSummary>, total: nat)
    requires forall i :: 0 <= i < |langs| ==> langs[i].translated + langs[i].missing == total
    ensures SumTranslated(langs) + SumMissing(langs) == |langs| * total
    decreases |langs|
  {
    if langs != [] {
      var init, n := langs[..|langs| - 1], |langs| - 1;
      TotalsCoverEveryKey(init, total);
      assert (n + 1) * total == n * total + total;
    }
  }

  /** The best coverage seen so far: 0 before any language beats it. */
  function CoverageOf(best: Option<LanguageSummary>): nat
  {
    if best.Some? then best.value.coverage else 0
  }

  /** `bestLanguage`: replaced only by a language with strictly greater coverage. */
  function Best(langs: seq<LanguageSummary>): Option<LanguageSummary>
    decreases |langs|
  {
    if langs == [] then None
    else
      var best, last := Best(langs[..|langs| - 1]), langs[|langs| - 1];
      if last.coverage > CoverageOf(best) then Some(last) else best
  }

  /**
   * The best language is the first one of maximal coverage, and there is
   * none when every coverage is 0.
   */
  lemma {:induction false} BestIsFirstMaximum(langs: seq<LanguageSummary>)
    ensures Best(langs).None? <==> forall i :: 0 <= i < |langs| ==> langs[i].coverage == 0
    ensures Best(langs).Some? ==>
              exists i :: (0 <= i < |langs| && langs[i] == Best(langs).value && langs[i].coverage > 0
                           && (forall j :: 0 <= j < |langs| ==> langs[j].coverage <= langs[i].coverage)
                           && (forall j :: 0 <= j < i ==> langs[j].coverage < langs[i].coverage))
    decreases |langs|
  {
    if langs != [] {
      var init, last := langs[..|langs| - 1], langs[|langs| - 1];
      BestIsFirstMaximum(init);
      var best := Best(init);
      if last.coverage > CoverageOf(best) {
        var i := |langs| - 1;
        assert langs[i] == last;
        forall j | 0 <= j < |langs|
          ensures langs[j].coverage <= last.coverage
        {
          if j < i {
            assert langs[j] == init[j];
          }
        }
        forall j | 0 <= j < i
          ensures langs[j].coverage < last.coverage
        {
          assert langs[j] == init[j];
        }
      } else if best.Some? {
        var i :| 0 <= i < |init| && init[i] == best.value && init[i].coverage > 0
                 && (forall j :: 0 <= j < |init| ==> init[j].coverage <= init[i].coverage)
                 && (forall j :: 0 <= j < i ==> init[j].coverage < init[i].coverage);
        assert langs[i] == init[i];
        forall j | 0 <= j < |langs|
          ensures langs[j].coverage <= langs[i].coverage
        {
          if j < |init| {
            assert langs[j] == init[j];
          }
        }
        forall j | 0 <= j < i
          ensures langs[j].coverage < langs[i].coverage
        {
          assert langs[j] == init[j];
        }
      } else {
        forall j | 0 <= j < |langs|
          ensures langs[j].coverage == 0
        {
          if j < |init| {
            assert langs[j] == init[j];
          }
        }
      }
    }
  }

  /** The language codes with a prefix of their own in `mockAITranslate`. */
  const MockLanguages: set<string> := {"it", "de", "fr", "es", "pt", "nl", "da", "sv", "nb", "fi", "pl", "et"}

  /**
   * The prefix of `mockAITranslate`: the upper-cased code in brackets for a
   * known language (`[NO] ` for `nb`), `'[TR] '` for any other.
   */
  function MockPrefix(lang: string): (p: string)
    ensures |p| == 5 && p[0] == '[' && p[3] == ']' && p[4] == ' '
    ensures lang !in MockLanguages ==> p == "[TR] "
    ensures lang == "nb" ==> p == "[NO] "
    ensures lang in MockLanguages && lang != "nb" ==> p == "[" + ToUpper(lang) + "] "
  {
    match lang
    case "it" => "[IT] "
    case "de" => "[DE] "
    case "fr" => "[FR] "
    case "es" => "[ES] "
    case "pt" => "[PT] "
    case "nl" => "[NL] "
    case "da" => "[DA] "
    case "sv" => "[SV] "
    case "nb" => "[NO] "
    case "fi" => "[FI] "
    case "pl" => "[PL] "
    case "et" => "[ET] "
    case _ => "[TR] "
  }

  /**
   * `mockAITranslate`: the prefix, then the text — in the insurance context
   * with every "policy" and then every "claim" (any case) spelled out.
   */
  function MockTranslate(text: string, lang: string, context: string): (r: string)
    ensures StartsWith(r, MockPrefix(lang))
    ensures context != "insurance" ==> r == MockPrefix(lang) + text
  {
    if context == "insurance" then
      MockPrefix(lang) + ReplaceAllIgnoringCase(ReplaceAllIgnoringCase(text, "policy", "insurance policy"),
                                                "claim", "insurance claim")
    else MockPrefix(lang) + text
  }

  /**
   * In the insurance context, a text that mentions "claim" (any case) but
   * not "policy" has its first "claim" spelled out as "insurance claim",
   * the text before it kept, so the result is not the merely prefixed text.
   */
  lemma InsuranceContextRewritesClaim(text: string, lang: string, i: nat)
    requires !ContainsIgnoringCase(text, "policy")
    requires MatchesAt(text, "claim", i) && forall j :: 0 <= j < i ==> !MatchesAt(text, "claim", j)
    ensures MockTranslate(text, lang, "insurance")
            == MockPrefix(lang) + (text[..i] + "insurance claim" + ReplaceAllIgnoringCase(text[i + 5..], "claim", "insurance claim"))
    ensures MockTranslate(text, lang, "insurance") != MockPrefix(lang) + text
  {
    ReplaceAbsentIsIdentity(text, "policy", "insurance policy");
    ReplaceAtFirst(text, "claim", "insurance claim", i);
    ReplaceChanges(text, "claim", "insurance claim", i);
    var r := ReplaceAllIgnoringCase(text, "claim", "insurance claim");
    assert (MockPrefix(lang) + r)[5..] == r;
    assert (MockPrefix(lang) + text)[5..] == text;
  }

  /** `mockAITranslate('Claim', lang, 'insurance')` is the prefix, then "insurance claim". */
  lemma InsuranceClaimExample(lang: string)
    ensures MockTranslate("Claim", lang, "insurance") == MockPrefix(lang) + "insurance claim"
  {
    var text := "Claim";
    assert ToLower(text) == "claim";
    assert !ContainsIgnoringCase(text, "policy") by {
      TooLongAbsent(ToLower(text), ToLower("policy"));
    }
    assert text[0..] == text && text[..5] == text;
    assert ToLower("claim") == "claim";
    assert MatchesAt(text, "claim", 0);
    InsuranceContextRewritesClaim(text, lang, 0);
    assert text[..0] == [] && text[5..] == [];
    assert ReplaceAllIgnoringCase([], "claim", "insurance claim") == [];
    assert [] + "insurance claim" + [] == "insurance claim";
  }

  /** In the insurance context, a text that mentions neither word is only prefixed. */
  lemma InsuranceContextKeepsPlainText(text: string, lang: string)
    requires !ContainsIgnoringCase(text, "policy") && !ContainsIgnoringCase(text, "claim")
    ensures MockTranslate(text, lang, "insurance") == MockPrefix(lang) + text
  {
    ReplaceAbsentIsIdentity(text, "policy", "insurance policy");
    ReplaceAbsentIsIdentity(text, "claim", "insurance claim");
  }
}
