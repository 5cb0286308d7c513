/**
 * `generateAITranslations`: every missing entry of one language is run
 * through the suggestion engine; suggestions at or above the confidence
 * threshold are kept, and the statistics count kept and skipped entries by
 * tier and by confidence band.
 */
module Generate {
  import opened Text
  import opened OrderedMaps
  import opened Suggest
  import Sequences

  /** `data[language] || {}`: the missing entries of one language, none when it is absent. */
  function MissingFor(data: map<string, OMap<string>>, language: string): (t: OMap<string>)
    ensures language in data ==> t == data[language]
    ensures language !in data ==> t.keys == [] && t.values == map[]
  {
    if language in data then data[language] else Empty()
  }

  datatype MethodCounts = MethodCounts(dictionary: nat, dictionaryPartial: nat, pattern: nat, basic: nat)
  datatype ConfidenceCounts = ConfidenceCounts(high: nat, medium: nat, low: nat)
  datatype Statistics = Statistics(translated: nat, skipped: nat,
                                   byMethod: MethodCounts, byConfidence: ConfidenceCounts)
  datatype Metadata = Metadata(language: string, totalKeys: nat, threshold: real)
  datatype Results = Results(metadata: Metadata, translations: OMap<Suggestion>, statistics: Statistics)

  function NoStatistics(): Statistics
  {
    Statistics(0, 0, MethodCounts(0, 0, 0, 0), ConfidenceCounts(0, 0, 0))
  }

  /** A suggestion is kept when there is one and its confidence reaches the threshold. */
  predicate Kept(o: Option<Suggestion>, threshold: real)
  {
    o.Some? && o.value.confidence >= threshold
  }

  /** `byMethod[translation.method]++`. */
  function CountTier(m: MethodCounts, t: Tier): (r: MethodCounts)
    ensures r.dictionary + r.dictionaryPartial + r.pattern + r.basic
            == m.dictionary + m.dictionaryPartial + m.pattern + m.basic + 1
  {
    match t
    case Exact => m.(dictionary := m.dictionary + 1)
    case Partial => m.(dictionaryPartial := m.dictionaryPartial + 1)
    case Pattern => m.(pattern := m.pattern + 1)
    case Basic => m.(basic := m.basic + 1)
  }

  /** The confidence bands: high above 0.9, medium from 0.7, low below. */
  function CountBand(c: ConfidenceCounts, confidence: real): (r: ConfidenceCounts)
    ensures r.high + r.medium + r.low == c.high + c.medium + c.low + 1
    ensures r.high == c.high + (if confidence > 0.9 then 1 else 0)
    ensures r.medium == c.medium + (if 0.7 <= confidence <= 0.9 then 1 else 0)
    ensures r.low == c.low + (if confidence < 0.7 then 1 else 0)
  {
    if confidence > 0.9 then c.(high := c.high + 1)
    else if confidence >= 0.7 then c.(medium := c.medium + 1)
    else c.(low := c.low + 1)
  }

  /** One turn of the loop's bookkeeping. */
  function Record(st: Statistics, o: Option<Suggestion>, threshold: real): Statistics
  {
    if Kept(o, threshold) then
      st.(translated := st.translated + 1,
          byMethod := CountTier(st.byMethod, o.value.tier),
          byConfidence := CountBand(st.byConfidence, o.value.confidence))
    else st.(skipped := st.skipped + 1)
  }

  /** The statistics after the outcomes `os`, in order. */
  function Tally(os: seq<Option<Suggestion>>, threshold: real): Statistics
    decreases |os|
  {
    if os == [] then NoStatistics()
    else Record(Tally(os[..|os| - 1], threshold), os[|os| - 1], threshold)
  }

  /** The number of kept outcomes. */
  function CountKept(os: seq<Option<Suggestion>>, threshold: real): (n: nat)
    ensures n <= |os|
    decreases |os|
  {
    if os == [] then 0
    else CountKept(os[..|os| - 1], threshold) + (if Kept(os[|os| - 1], threshold) then 1 else 0)
  }

  /**
   * Every entry is either translated or skipped, the translated count is the
   * number of kept suggestions, and both the per-tier and the per-band
   * counts add up to the translated count.
   */
  lemma {:induction false} TallyAccounts(os: seq<Option<Suggestion>>, threshold: real)
    ensures var st := Tally(os, threshold);
            && st.translated + st.skipped == |os|
            && st.translated == CountKept(os, threshold)
            && st.byMethod.dictionary + st.byMethod.dictionaryPartial + st.byMethod.pattern
               + st.byMethod.basic == st.translated
            && st.byConfidence.high + st.byConfidence.medium + st.byConfidence.low == st.translated
    decreases |os|
  {
    if os != [] {
      TallyAccounts(os[..|os| - 1], threshold);
    }
  }

  /** The shape every suggestion of `translate` has (see `SuggestionShape`). */
  predicate WellShaped(o: Option<Suggestion>)
  {
    o.Some? ==>
      && o.value.tier != Basic
      && (o.value.tier == Exact ==> o.value.confidence == 0.95)
      && (o.value.tier == Partial ==> 0.7 < o.value.confidence <= 0.9)
      && (o.value.tier == Pattern ==> o.value.confidence == 0.8)
  }

  /**
   * Over well-shaped outcomes the basic-tier and low-confidence counts stay
   * 0, and the high-confidence count is the exact-match count: only an exact
   * dictionary hit scores above 0.9.
   */
  lemma {:induction false} TallyOfWellShaped(os: seq<Option<Suggestion>>, threshold: real)
    requires forall i :: 0 <= i < |os| ==> WellShaped(os[i])
    ensures Tally(os, threshold).byMethod.basic == 0
    ensures Tally(os, threshold).byConfidence.low == 0
    ensures Tally(os, threshold).byConfidence.high == Tally(os, threshold).byMethod.dictionary
    ensures Tally(os, threshold).byConfidence.medium
            == Tally(os, threshold).byMethod.dictionaryPartial + Tally(os, threshold).byMethod.pattern
    decreases |os|
  {
    if os != [] {
      TallyOfWellShaped(os[..|os| - 1], threshold);
    }
  }

  /** `results.translations` after the outcomes `os` of the keys `keys`. */
  function KeptTable(keys: seq<string>, os: seq<Option<Suggestion>>, threshold: real): (t: OMap<Suggestion>)
    requires |keys| == |os|
    ensures Valid(t)
    decreases |keys|
  {
    if keys == [] then Empty()
    else
      var n := |keys| - 1;
      var t := KeptTable(keys[..n], os[..n], threshold);
      if Kept(os[n], threshold) then Put(t, keys[n], os[n].value) else t
  }

  /**
   * For distinct keys, the kept table lists exactly the keys whose
   * suggestion was kept, in input order, each with its own suggestion.
   */
  lemma {:induction false} KeptTableContents(keys: seq<string>, os: seq<Option<Suggestion>>, threshold: real)
    requires |keys| == |os| && Distinct(keys)
    ensures var t := KeptTable(keys, os, threshold);
            && |t.keys| == CountKept(os, threshold)
            && (forall i :: 0 <= i < |keys| ==>
                  (keys[i] in t.values <==> Kept(os[i], threshold))
                  && (keys[i] in t.values ==> t.values[keys[i]] == os[i].value))
            && (forall k :: k in t.values ==> k in keys)
    decreases |keys|
  {
    if keys != [] {
      var n := |keys| - 1;
      var init, oinit := keys[..n], os[..n];
      assert Distinct(init);
      KeptTableContents(init, oinit, threshold);
      var t0 := KeptTable(init, oinit, threshold);
      assert keys[n] !in init;
      assert keys[n] !in t0.values;
      forall i | 0 <= i < n
        ensures keys[i] == init[i] && os[i] == oinit[i] && keys[i] != keys[n]
      {
      }
    }
  }

  /** The outcome of `translate` for each of `keys`, in order. */
  function OutcomesOf(d: Dictionary, rules: seq<Rule>, missing: OMap<string>, keys: seq<string>)
    : (os: seq<Option<Suggestion>>)
    requires WellFormed(d) && ValidRules(rules)
    requires forall k :: k in keys ==> k in missing.values
    ensures |os| == |keys|
    decreases |keys|
  {
    if keys == [] then []
    else
      var last := keys[|keys| - 1];
      OutcomesOf(d, rules, missing, keys[..|keys| - 1]) + [Translate(d, rules, last, missing.values[last])]
  }

  /** The outcome of `translate` for every entry, in `Object.entries` order. */
  function Outcomes(d: Dictionary, rules: seq<Rule>, missing: OMap<string>): (os: seq<Option<Suggestion>>)
    requires WellFormed(d) && ValidRules(rules) && Valid(missing)
    ensures |os| == |missing.keys|
  {
    OutcomesOf(d, rules, missing, missing.keys)
  }

  /** The outcome at index `i` is the suggestion for the key at index `i`. */
  lemma {:induction false} OutcomeAt(d: Dictionary, rules: seq<Rule>, missing: OMap<string>, keys: seq<string>, i: nat)
    requires WellFormed(d) && ValidRules(rules)
    requires forall k :: k in keys ==> k in missing.values
    requires i < |keys|
    ensures OutcomesOf(d, rules, missing, keys)[i] == Translate(d, rules, keys[i], missing.values[keys[i]])
    decreases |keys|
  {
    var n := |keys| - 1;
    var init, last := keys[..n], keys[n];
    assert keys == init + [last];
    OutcomesOfSnoc(d, rules, missing, init, last);
    if i < n {
      OutcomeAt(d, rules, missing, init, i);
      assert keys[i] == init[i];
    }
  }

  /** Each outcome of a run is the suggestion for the entry at the same index. */
  lemma OutcomesAt(d: Dictionary, rules: seq<Rule>, missing: OMap<string>)
    requires WellFormed(d) && ValidRules(rules) && Valid(missing)
    ensures forall i :: 0 <= i < |missing.keys| ==>
              Outcomes(d, rules, missing)[i] == Translate(d, rules, missing.keys[i], missing.values[missing.keys[i]])
  {
    forall i | 0 <= i < |missing.keys|
      ensures Outcomes(d, rules, missing)[i] == Translate(d, rules, missing.keys[i], missing.values[missing.keys[i]])
    {
      OutcomeAt(d, rules, missing, missing.keys, i);
    }
  }

  /** Every outcome of a run is well shaped. */
  lemma OutcomesWellShaped(d: Dictionary, rules: seq<Rule>, missing: OMap<string>)
    requires WellFormed(d) && ValidRules(rules) && Valid(missing)
    ensures forall i :: 0 <= i < |missing.keys| ==> WellShaped(Outcomes(d, rules, missing)[i])
  {
    var os := Outcomes(d, rules, missing);
    OutcomesAt(d, rules, missing);
    forall i | 0 <= i < |missing.keys|
      ensures WellShaped(os[i])
    {
      var k := missing.keys[i];
      if os[i].Some? {
        SuggestionShape(d, rules, k, missing.values[k]);
      }
    }
  }

  /**
   * `generateAITranslations` without its file and console I/O: the loop
   * over the missing entries of `language` in the missing-translations file
   * `data`, with the translator built on `d` and the rules of `language`.
   */
  method GenerateAITranslations(d: Dictionary, language: string, data: map<string, OMap<string>>, threshold: real)
    returns (results: Results)
    requires WellFormed(d) && Valid(MissingFor(data, language))
    ensures var missing := MissingFor(data, language);
            && results.metadata == Metadata(language, |missing.keys|, threshold)
            && results.statistics == Tally(Outcomes(d, LoadPatterns(language), missing), threshold)
            && results.translations == KeptTable(missing.keys, Outcomes(d, LoadPatterns(language), missing), threshold)
  {
    var missing := MissingFor(data, language);
    var rules := LoadPatterns(language);
    var translations: OMap<Suggestion> := Empty();
    var statistics := NoStatistics();
    ghost var os: seq<Option<Suggestion>> := [];
    var i := 0;
    while i < |missing.keys|
      invariant 0 <= i <= |missing.keys|
      invariant os == OutcomesOf(d, rules, missing, missing.keys[..i])
      invariant statistics == Tally(os, threshold)
      invariant translations == KeptTable(missing.keys[..i], os, threshold)
    {
      var key := missing.keys[i];
      var translation := TranslateValue(d, rules, key, missing.values[key]);
      translations, statistics := RecordTranslation(translations, statistics, key, translation, threshold);
      TakeOneMore(missing.keys, i);
      OutcomesOfSnoc(d, rules, missing, missing.keys[..i], key);
      TallySnoc(os, translation, threshold);
      KeptTableSnoc(missing.keys[..i], os, key, translation, threshold);
      os := os + [translation];
      i := i + 1;
    }
    assert missing.keys[..i] == missing.keys;
    results := Results(Metadata(language, |missing.keys|, threshold), translations, statistics);
  }

  lemma TakeOneMore<T>(s: seq<T>, i: nat)
    requires i < |s|
    ensures s[..i + 1] == s[..i] + [s[i]]
  {
  }

  lemma OutcomesOfSnoc(d: Dictionary, rules: seq<Rule>, missing: OMap<string>, keys: seq<string>, k: string)
    requires WellFormed(d) && ValidRules(rules)
    requires forall x :: x in keys ==> x in missing.values
    requires k in missing.values
    ensures OutcomesOf(d, rules, missing, keys + [k])
            == OutcomesOf(d, rules, missing, keys) + [Translate(d, rules, k, missing.values[k])]
  {
    assert (keys + [k])[..|keys|] == keys;
  }

  lemma TallySnoc(os: seq<Option<Suggestion>>, o: Option<Suggestion>, threshold: real)
    ensures Tally(os + [o], threshold) == Record(Tally(os, threshold), o, threshold)
  {
    assert (os + [o])[..|os|] == os;
  }

  lemma KeptTableSnoc(keys: seq<string>, os: seq<Option<Suggestion>>, k: string, o: Option<Suggestion>,
                      threshold: real)
    requires |keys| == |os|
    ensures KeptTable(keys + [k], os + [o], threshold)
            == if Kept(o, threshold) then Put(KeptTable(keys, os, threshold), k, o.value)
               else KeptTable(keys, os, threshold)
  {
    assert (keys + [k])[..|keys|] == keys;
    assert (os + [o])[..|os|] == os;
  }

  /**
   * The body of the loop of `generateAITranslations`: a suggestion at or
   * above the threshold is stored under its key and counted by tier and by
   * confidence band; anything else is counted as skipped.
   */
  method RecordTranslation(translations: OMap<Suggestion>, statistics: Statistics, key: string,
                           translation: Option<Suggestion>, threshold: real)
    returns (translations': OMap<Suggestion>, statistics': Statistics)
    requires Valid(translations)
    ensures statistics' == Record(statistics, translation, threshold)
    ensures translations' == if Kept(translation, threshold) then Put(translations, key, translation.value)
                             else translations
  {
    translations', statistics' := translations, statistics;
    if translation.Some? && translation.value.confidence >= threshold {
      translations' := Put(translations', key, translation.value);
      statistics' := statistics'.(translated := statistics'.translated + 1,
                                  byMethod := CountTier(statistics'.byMethod, translation.value.tier));
      if translation.value.confidence > 0.9 {
        statistics' := statistics'.(byConfidence := statistics'.byConfidence.(high := statistics'.byConfidence.high + 1));
      } else if translation.value.confidence >= 0.7 {
        statistics' := statistics'.(byConfidence := statistics'.byConfidence.(medium := statistics'.byConfidence.medium + 1));
      } else {
        statistics' := statistics'.(byConfidence := statistics'.byConfidence.(low := statistics'.byConfidence.low + 1));
      }
    } else {
      statistics' := statistics'.(skipped := statistics'.skipped + 1);
    }
  }

  /**
   * What a run promises: every entry is translated or skipped; the kept
   * suggestions are exactly the entries whose suggestion reaches the
   * threshold, each under its own key; no basic-tier and no low-confidence
   * suggestion is ever counted; and the high band is the exact-match count.
   */
  lemma RunSummary(d: Dictionary, language: string, missing: OMap<string>, threshold: real)
    requires WellFormed(d) && Valid(missing)
    ensures var rules := LoadPatterns(language);
            var os := Outcomes(d, rules, missing);
            var st := Tally(os, threshold);
            var t := KeptTable(missing.keys, os, threshold);
            && st.translated + st.skipped == |missing.keys|
            && |t.keys| == st.translated
            && (forall k :: k in t.values <==>
                  k in missing.values && Kept(Translate(d, rules, k, missing.values[k]), threshold))
            && (forall k :: k in t.values ==> Some(t.values[k]) == Translate(d, rules, k, missing.values[k]))
            && st.byMethod.basic == 0 && st.byConfidence.low == 0
            && st.byConfidence.high == st.byMethod.dictionary
  {
    var rules := LoadPatterns(language);
    var os := Outcomes(d, rules, missing);
    TallyAccounts(os, threshold);
    KeptTableContents(missing.keys, os, threshold);
    OutcomesWellShaped(d, rules, missing);
    TallyOfWellShaped(os, threshold);
    KeptIsTranslate(d, rules, missing, threshold);
  }

  /** The kept table holds, under each key of `missing`, its suggestion exactly when it is kept. */
  lemma KeptIsTranslate(d: Dictionary, rules: seq<Rule>, missing: OMap<string>, threshold: real)
    requires WellFormed(d) && ValidRules(rules) && Valid(missing)
    ensures var t := KeptTable(missing.keys, Outcomes(d, rules, missing), threshold);
            && (forall k :: k in t.values <==>
                  k in missing.values && Kept(Translate(d, rules, k, missing.values[k]), threshold))
            && (forall k :: k in t.values ==> Some(t.values[k]) == Translate(d, rules, k, missing.values[k]))
  {
    KeptTableContents(missing.keys, Outcomes(d, rules, missing), threshold);
    forall k | k in missing.values
      ensures KeptAtKey(d, rules, missing, threshold, k)
    {
      KeptAt(d, rules, missing, threshold, Sequences.FirstIndex(missing.keys, k));
    }
  }

  /** What the kept table says about the key `k` of `missing`. */
  ghost predicate KeptAtKey(d: Dictionary, rules: seq<Rule>, missing: OMap<string>, threshold: real, k: string)
    requires WellFormed(d) && ValidRules(rules) && Valid(missing) && k in missing.values
  {
    var t := KeptTable(missing.keys, Outcomes(d, rules, missing), threshold);
    && (k in t.values <==> Kept(Translate(d, rules, k, missing.values[k]), threshold))
    && (k in t.values ==> Some(t.values[k]) == Translate(d, rules, k, missing.values[k]))
  }

  lemma KeptAt(d: Dictionary, rules: seq<Rule>, missing: OMap<string>, threshold: real, i: nat)
    requires WellFormed(d) && ValidRules(rules) && Valid(missing) && i < |missing.keys|
    ensures missing.keys[i] in missing.values && KeptAtKey(d, rules, missing, threshold, missing.keys[i])
  {
    var os := Outcomes(d, rules, missing);
    KeptTableContents(missing.keys, os, threshold);
    OutcomesAt(d, rules, missing);
    assert os[i] == Translate(d, rules, missing.keys[i], missing.values[missing.keys[i]]);
  }
}
