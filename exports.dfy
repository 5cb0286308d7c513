/**
 * The exports of dashboard/js/editor.js: the missing-translation lists per
 * language and the full coverage report with its per-language breakdown.
 */
module Exports {
  import opened OrderedMaps
  import opened Sequences
  import opened Sorting
  import opened Classify
  import opened Languages

  /** A key is exported as missing when its target value is falsy or equal to the reference value. */
  predicate Needs(reference: Table, target: Table, key: string)
  {
    !CountsAsTranslated(ValueOr(reference, key), ValueOr(target, key))
  }

  function NeedsTranslation(reference: Table, target: Table): string -> bool
  {
    key => Needs(reference, target, key)
  }

  /** One element of a language's missing list; `current` is `None` for a falsy target value. */
  datatype MissingEntry = MissingEntry(key: string, reference: string, current: Option<string>)

  function MissingEntryFor(reference: Table, target: Table, key: string): MissingEntry
  {
    var current := ValueOr(target, key);
    MissingEntry(key, ValueOr(reference, key), if current == "" then None else Some(current))
  }

  /** The missing list over `keys`, built by appending as the export's `forEach` does. */
  function MissingEntries(reference: Table, target: Table, keys: seq<string>): seq<MissingEntry>
    decreases |keys|
  {
    if keys == [] then []
    else
      var init, key := MissingEntries(reference, target, keys[..|keys| - 1]), keys[|keys| - 1];
      if Needs(reference, target, key) then init + [MissingEntryFor(reference, target, key)] else init
  }

  /**
   * The missing list holds exactly the keys that need translation, in key
   * order, each with its reference value and current value.
   */
  lemma {:induction false} MissingEntriesExact(reference: Table, target: Table, keys: seq<string>)
    ensures |MissingEntries(reference, target, keys)| == |Keep(keys, NeedsTranslation(reference, target))|
    ensures forall i :: 0 <= i < |MissingEntries(reference, target, keys)| ==>
              MissingEntries(reference, target, keys)[i]
              == MissingEntryFor(reference, target, Keep(keys, NeedsTranslation(reference, target))[i])
    decreases |keys|
  {
    if keys != [] {
      var init := keys[..|keys| - 1];
      assert keys == init + [keys[|keys| - 1]];
      MissingEntriesExact(reference, target, init);
      KeepSnoc(init, keys[|keys| - 1], NeedsTranslation(reference, target));
    }
  }

  /** The number of keys needing translation is the number not counted as translated. */
  lemma {:induction false} NeedsTranslationCount(reference: Table, target: Table, keys: seq<string>)
    ensures |Keep(keys, NeedsTranslation(reference, target))| == |keys| - CountTranslated(reference, target, keys)
    decreases |keys|
  {
    if keys != [] {
      var init := keys[..|keys| - 1];
      assert keys == init + [keys[|keys| - 1]];
      NeedsTranslationCount(reference, target, init);
      KeepSnoc(init, keys[|keys| - 1], NeedsTranslation(reference, target));
    }
  }

  /** A language's `missingCount` is the `missing` figure of its statistics. */
  lemma MissingCountIsStatsMissing(reference: Table, target: Table)
    ensures |MissingEntries(reference, target, reference.keys)| == StatsOf(reference, target).missing
  {
    MissingEntriesExact(reference, target, reference.keys);
    NeedsTranslationCount(reference, target, reference.keys);
  }

  /** One language of the missing export. */
  datatype MissingExport = MissingExport(
    language: string, languageName: string, missingCount: nat, translations: seq<MissingEntry>)

  /** The export of `lang`: `missingCount` is the length of its list and the stats' `missing`. */
  function ExportFor(t: Translations, ref: string, lang: string): (r: MissingExport)
    ensures r.language == lang && r.languageName == LanguageName(lang)
    ensures r.missingCount == |r.translations|
    ensures r.missingCount == StatsOf(TableOf(t, ref), TableOf(t, lang)).missing
  {
    var list := MissingEntries(TableOf(t, ref), TableOf(t, lang), TableOf(t, ref).keys);
    MissingCountIsStatsMissing(TableOf(t, ref), TableOf(t, lang));
    MissingExport(lang, LanguageName(lang), |list|, list)
  }

  /** `missingByLanguage` after the languages `langs`. */
  function MissingByLanguage(t: Translations, ref: string, langs: seq<string>): (r: OMap<MissingExport>)
    ensures Valid(r)
    ensures forall l :: l in r.values ==> l in langs
    decreases |langs|
  {
    if langs == [] then Empty()
    else
      var m, lang := MissingByLanguage(t, ref, langs[..|langs| - 1]), langs[|langs| - 1];
      var entry := ExportFor(t, ref, lang);
      if lang != ref && entry.missingCount > 0 then Put(m, lang, entry) else m
  }

  /**
   * The export holds exactly the languages other than the reference that
   * miss at least one key, each with its list.
   */
  lemma {:induction false} MissingByLanguageExact(t: Translations, ref: string, langs: seq<string>, l: string)
    ensures l in MissingByLanguage(t, ref, langs).values <==>
              l in langs && l != ref && ExportFor(t, ref, l).missingCount > 0
    ensures l in MissingByLanguage(t, ref, langs).values ==>
              MissingByLanguage(t, ref, langs).values[l] == ExportFor(t, ref, l)
    decreases |langs|
  {
    if langs != [] {
      var init, lang := langs[..|langs| - 1], langs[|langs| - 1];
      assert langs == init + [lang];
      MissingByLanguageExact(t, ref, init, l);
      var m, e := MissingByLanguage(t, ref, init), ExportFor(t, ref, lang);
      if lang != ref && e.missingCount > 0 {
        assert MissingByLanguage(t, ref, langs) == Put(m, lang, e);
        if l != lang && l in m.values {
          PutKeepsOthers(m, lang, e, l);
        }
      } else {
        assert MissingByLanguage(t, ref, langs) == m;
      }
    }
  }

  lemma PutKeepsOthers<V>(m: OMap<V>, k: string, v: V, l: string)
    requires Valid(m) && l != k && l in m.values
    ensures Put(m, k, v).values[l] == m.values[l]
  {
  }

  /** `Object.values(m)`, in key order. */
  function ValuesOf<V>(m: OMap<V>): (r: seq<V>)
    requires Valid(m)
    ensures |r| == |m.keys|
  {
    seq(|m.keys|, i requires 0 <= i < |m.keys| => m.values[m.keys[i]])
  }

  /** One step of the export loop: the language is added when it is not the reference and misses a key. */
  lemma MissingByLanguageStep(t: Translations, ref: string, langs: seq<string>, i: nat)
    requires i < |langs|
    ensures MissingByLanguage(t, ref, langs[..i + 1])
            == if langs[i] != ref && ExportFor(t, ref, langs[i]).missingCount > 0
               then Put(MissingByLanguage(t, ref, langs[..i]), langs[i], ExportFor(t, ref, langs[i]))
               else MissingByLanguage(t, ref, langs[..i])
  {
    assert langs[..i + 1][..i] == langs[..i];
  }

  function SumCounts(exports: seq<MissingExport>): nat
    decreases |exports|
  {
    if exports == [] then 0 else SumCounts(exports[..|exports| - 1]) + exports[|exports| - 1].missingCount
  }

  /** `totalMissing`: the sum of `missingCount` over the exported languages. */
  function TotalMissing(m: OMap<MissingExport>): nat
    requires Valid(m)
  {
    SumCounts(ValuesOf(m))
  }

  /** The sum of the stats' `missing` over the languages of `langs` other than `ref`. */
  function MissingSum(t: Translations, ref: string, langs: seq<string>): nat
    decreases |langs|
  {
    if langs == [] then 0
    else
      var lang := langs[|langs| - 1];
      MissingSum(t, ref, langs[..|langs| - 1])
        + (if lang != ref then StatsOf(TableOf(t, ref), TableOf(t, lang)).missing else 0)
  }

  /**
   * The export's total is the sum of the `missing` statistics over the
   * target languages: languages with nothing missing are left out of the
   * export and add nothing to the sum.
   */
  lemma {:induction false} TotalMissingIsMissingSum(t: Translations, ref: string, langs: seq<string>)
    requires Distinct(langs)
    ensures TotalMissing(MissingByLanguage(t, ref, langs)) == MissingSum(t, ref, langs)
    decreases |langs|
  {
    if langs != [] {
      var init, lang := langs[..|langs| - 1], langs[|langs| - 1];
      TotalMissingIsMissingSum(t, ref, init);
      var m, entry := MissingByLanguage(t, ref, init), ExportFor(t, ref, lang);
      if lang != ref && entry.missingCount > 0 {
        assert lang !in init;
        assert MissingByLanguage(t, ref, langs) == Put(m, lang, entry);
        PutNewValue(m, lang, entry);
      } else {
        assert MissingByLanguage(t, ref, langs) == m;
      }
    }
  }

  /** Adding a new key appends its value to `Object.values`. */
  lemma PutNewValue(m: OMap<MissingExport>, k: string, v: MissingExport)
    requires Valid(m) && k !in m.values
    ensures TotalMissing(Put(m, k, v)) == TotalMissing(m) + v.missingCount
  {
    var m' := Put(m, k, v);
    assert ValuesOf(m') == ValuesOf(m) + [v] by {
      forall i | 0 <= i < |m.keys|
        ensures ValuesOf(m')[i] == ValuesOf(m)[i]
      {
        assert m.keys[i] != k;
      }
    }
    assert ValuesOf(m')[..|ValuesOf(m')| - 1] == ValuesOf(m);
  }

  /** One element of a language's breakdown in the full report. */
  datatype Detail =
    | MissingDetail(key: string, reference: string)
    | IdenticalDetail(key: string, value: string)
    | TranslatedDetail(key: string, reference: string, translation: string)

  datatype Breakdown = Breakdown(missing: seq<Detail>, identical: seq<Detail>, translated: seq<Detail>)

  /** `report.details[lang]` over `keys`: each key appended to the bucket of its status. */
  function BreakdownOf(reference: Table, target: Table, keys: seq<string>): Breakdown
    decreases |keys|
  {
    if keys == [] then Breakdown([], [], [])
    else
      var b, key := BreakdownOf(reference, target, keys[..|keys| - 1]), keys[|keys| - 1];
      var refValue, langValue := ValueOr(reference, key), ValueOr(target, key);
      if langValue == "" then b.(missing := b.missing + [MissingDetail(key, refValue)])
      else if langValue == refValue then b.(identical := b.identical + [IdenticalDetail(key, refValue)])
      else b.(translated := b.translated + [TranslatedDetail(key, refValue, langValue)])
  }

  /** Each bucket holds as many keys as have its status. */
  lemma {:induction false} BreakdownCounts(reference: Table, target: Table, keys: seq<string>)
    ensures |BreakdownOf(reference, target, keys).missing| == CountStatus(reference, target, keys, Missing)
    ensures |BreakdownOf(reference, target, keys).identical| == CountStatus(reference, target, keys, Identical)
    ensures |BreakdownOf(reference, target, keys).translated| == CountStatus(reference, target, keys, Translated)
    decreases |keys|
  {
    if keys != [] {
      BreakdownCounts(reference, target, keys[..|keys| - 1]);
    }
  }

  /**
   * The buckets partition the reference keys, the translated bucket has the
   * stats' `translated` keys and the two others together the stats' `missing`.
   */
  lemma BreakdownAgreesWithStats(reference: Table, target: Table)
    ensures var b := BreakdownOf(reference, target, reference.keys);
            |b.missing| + |b.identical| + |b.translated| == |reference.keys|
            && |b.translated| == StatsOf(reference, target).translated
            && |b.missing| + |b.identical| == StatsOf(reference, target).missing
  {
    BreakdownCounts(reference, target, reference.keys);
    StatusCountsPartition(reference, target, reference.keys);
    CountTranslatedIsStatusCount(reference, target, reference.keys);
  }

  /** `report.details` after the languages `langs`. */
  function DetailsOf(t: Translations, ref: string, langs: seq<string>): (r: OMap<Breakdown>)
    ensures Valid(r)
    ensures forall l :: l in r.values <==> l in langs && l != ref
    ensures forall l :: l in r.values ==> r.values[l] == BreakdownOf(TableOf(t, ref), TableOf(t, l), TableOf(t, ref).keys)
    decreases |langs|
  {
    if langs == [] then Empty()
    else
      var m, lang := DetailsOf(t, ref, langs[..|langs| - 1]), langs[|langs| - 1];
      assert langs == langs[..|langs| - 1] + [lang];
      if lang != ref then Put(m, lang, BreakdownOf(TableOf(t, ref), TableOf(t, lang), TableOf(t, ref).keys))
      else m
  }

  /** One step of the report loop: the language's breakdown is added unless it is the reference. */
  lemma DetailsStep(t: Translations, ref: string, langs: seq<string>, i: nat)
    requires i < |langs|
    ensures DetailsOf(t, ref, langs[..i + 1])
            == if langs[i] != ref
               then Put(DetailsOf(t, ref, langs[..i]), langs[i],
                        BreakdownOf(TableOf(t, ref), TableOf(t, langs[i]), TableOf(t, ref).keys))
               else DetailsOf(t, ref, langs[..i])
  {
    assert langs[..i + 1][..i] == langs[..i];
  }

  /** The sort key of `summary.languages.sort((a, b) => a.coverage - b.coverage)`. */
  function ByCoverage(s: LanguageSummary): int
  {
    s.coverage
  }

  /** The full report: the key count, the summary rows sorted by ascending coverage, the breakdowns. */
  datatype FullReport = FullReport(totalKeys: nat, languages: seq<LanguageSummary>, details: OMap<Breakdown>)

  function FullReportOf(t: Translations, ref: string): (r: FullReport)
    ensures r.totalKeys == |TableOf(t, ref).keys|
    ensures SortedBy(r.languages, ByCoverage)
    ensures multiset(r.languages) == multiset(Summaries(t, ref, t.keys))
    ensures forall l :: l in r.details.values <==> l in t.keys && l != ref
  {
    FullReport(|TableOf(t, ref).keys|, SortBy(Summaries(t, ref, t.keys), ByCoverage), DetailsOf(t, ref, t.keys))
  }
}
