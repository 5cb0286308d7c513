/**
 * The data the translation dashboard loads — one key→value table per
 * language code — and the per-language figures derived from it in
 * docs/dashboard/js/app.js: the tables' lookups and updates, the
 * statistics of one language, the average coverage in the header and the
 * per-language summary rows of the charts and the full report.
 */
module Languages {
  import opened OrderedMaps
  import opened Sequences
  import opened Classify

  /** `translations`: language code → that language's table, in `Object.keys` order. */
  type Translations = OMap<Table>

  ghost predicate ValidTranslations(t: Translations)
  {
    Valid(t) && forall l :: l in t.values ==> Valid(t.values[l])
  }

  /** `translations[lang] || {}`. */
  function TableOf(t: Translations, lang: string): Table
  {
    GetOr(t, lang, Empty())
  }

  /** `translations[lang][key]`, `None` where the table or the key is absent. */
  function Lookup(t: Translations, lang: string, key: string): Option<string>
  {
    if lang in t.values && key in t.values[lang].values then Some(t.values[lang].values[key]) else None
  }

  /**
   * `if (!t[lang]) t[lang] = {}; t[lang][key] = value;`: the one entry is
   * set, creating the language's table if needed, and every other entry
   * keeps its value and its place.
   */
  function SetEntry(t: Translations, lang: string, key: string, value: string): (r: Translations)
    requires ValidTranslations(t)
    ensures ValidTranslations(r)
    ensures Lookup(r, lang, key) == Some(value)
    ensures forall l, k :: l != lang || k != key ==> Lookup(r, l, k) == Lookup(t, l, k)
    ensures lang in t.values ==> r.keys == t.keys
    ensures lang !in t.values ==> r.keys == t.keys + [lang]
    ensures key in TableOf(t, lang).values ==> TableOf(r, lang).keys == TableOf(t, lang).keys
    ensures key !in TableOf(t, lang).values ==> TableOf(r, lang).keys == TableOf(t, lang).keys + [key]
  {
    Put(t, lang, Put(TableOf(t, lang), key, value))
  }

  /** `languageNames[lang] || lang`. */
  function LanguageName(lang: string): string
  {
    match lang
    case "en" => "English"
    case "da" => "Danish"
    case "de" => "German"
    case "en-US" => "English (US)"
    case "en-CA" => "English (Canada)"
    case "es" => "Spanish"
    case "et" => "Estonian"
    case "fi" => "Finnish"
    case "fr" => "French"
    case "it" => "Italian"
    case "nb" => "Norwegian"
    case "nl" => "Dutch"
    case "pl" => "Polish"
    case "pt" => "Portuguese"
    case "sv" => "Swedish"
    case _ => lang
  }

  /** The coverage of `lang` against the reference language `ref` (`calculateCoverage`). */
  function LanguageCoverage(t: Translations, ref: string, lang: string): (r: nat)
    ensures r <= 100
  {
    Coverage(TableOf(t, ref), TableOf(t, lang))
  }

  datatype LanguageStats = LanguageStats(translated: nat, missing: nat, total: nat)

  /** `getLanguageStats`: every reference key is either translated or missing. */
  function StatsOf(reference: Table, target: Table): (s: LanguageStats)
    ensures s.translated + s.missing == s.total == |reference.keys|
    ensures s.translated == CountTranslated(reference, target, reference.keys)
    ensures Coverage(reference, target) == CoveragePercent(s.translated, s.total)
  {
    var n := CountTranslated(reference, target, reference.keys);
    LanguageStats(n, |reference.keys| - n, |reference.keys|)
  }

  /** The stats' `missing` counts both the missing and the identical keys. */
  lemma StatsMissingCountsIdentical(reference: Table, target: Table)
    ensures StatsOf(reference, target).missing
            == CountStatus(reference, target, reference.keys, Missing)
               + CountStatus(reference, target, reference.keys, Identical)
  {
    CountTranslatedIsStatusCount(reference, target, reference.keys);
    StatusCountsPartition(reference, target, reference.keys);
  }

  /** The languages of `langs` other than the reference language, in order. */
  function TargetLanguages(langs: seq<string>, ref: string): (r: seq<string>)
    ensures ref !in r
    ensures forall l :: l in langs && l != ref ==> l in r
    ensures forall l :: l in r ==> l in langs
  {
    Keep(langs, l => l != ref)
  }

  lemma TargetLanguagesSnoc(langs: seq<string>, lang: string, ref: string)
    ensures TargetLanguages(langs + [lang], ref)
            == TargetLanguages(langs, ref) + (if lang != ref then [lang] else [])
  {
    KeepSnoc(langs, lang, l => l != ref);
  }

  /** The same step, for a loop that has seen the first `i` languages. */
  lemma TargetLanguagesStep(langs: seq<string>, i: nat, ref: string)
    requires i < |langs|
    ensures TargetLanguages(langs[..i + 1], ref)
            == TargetLanguages(langs[..i], ref) + (if langs[i] != ref then [langs[i]] else [])
  {
    assert langs[..i + 1] == langs[..i] + [langs[i]];
    TargetLanguagesSnoc(langs[..i], langs[i], ref);
  }

  /** `totalCoverage` after the header loop has seen `langs`. */
  function CoverageSum(t: Translations, ref: string, langs: seq<string>): nat
    decreases |langs|
  {
    if langs == [] then 0
    else
      var lang := langs[|langs| - 1];
      CoverageSum(t, ref, langs[..|langs| - 1]) + (if lang != ref then LanguageCoverage(t, ref, lang) else 0)
  }

  /** Each language adds at most 100 to the sum. */
  lemma {:induction false} CoverageSumBound(t: Translations, ref: string, langs: seq<string>)
    ensures CoverageSum(t, ref, langs) <= 100 * |TargetLanguages(langs, ref)|
    decreases |langs|
  {
    if langs != [] {
      var init := langs[..|langs| - 1];
      assert langs == init + [langs[|langs| - 1]];
      CoverageSumBound(t, ref, init);
      TargetLanguagesSnoc(init, langs[|langs| - 1], ref);
    }
  }

  /**
   * The header's average coverage: the rounded mean of the per-language
   * coverages over the languages other than the reference, 0 when there are
   * none.
   */
  function AverageCoverage(t: Translations, ref: string): (r: nat)
    ensures r <= 100
    ensures TargetLanguages(t.keys, ref) == [] ==> r == 0
    ensures var n := |TargetLanguages(t.keys, ref)|;
            n > 0 ==> 2 * n * r <= 2 * CoverageSum(t, ref, t.keys) + n < 2 * n * (r + 1)
  {
    var n := |TargetLanguages(t.keys, ref)|;
    if n > 0 then
      CoverageSumBound(t, ref, t.keys);
      RoundRatioBounded(CoverageSum(t, ref, t.keys), n, 100);
      RoundRatio(CoverageSum(t, ref, t.keys), n)
    else 0
  }

  /** When every sum term equals `c`, the sum is `c` times the number of terms. */
  lemma {:induction false} CoverageSumUniform(t: Translations, ref: string, langs: seq<string>, c: nat)
    requires forall i :: 0 <= i < |langs| && langs[i] != ref ==> LanguageCoverage(t, ref, langs[i]) == c
    ensures CoverageSum(t, ref, langs) == c * |TargetLanguages(langs, ref)|
    decreases |langs|
  {
    if langs != [] {
      var init, lang := langs[..|langs| - 1], langs[|langs| - 1];
      assert langs == init + [lang];
      assert forall i :: 0 <= i < |init| ==> init[i] == langs[i];
      CoverageSumUniform(t, ref, init, c);
      TargetLanguagesSnoc(init, lang, ref);
      var k := |TargetLanguages(init, ref)|;
      assert CoverageSum(t, ref, init) == c * k;
      if lang != ref {
        assert LanguageCoverage(t, ref, langs[|langs| - 1]) == c;
        assert |TargetLanguages(langs, ref)| == k + 1;
        MulSucc(c, k);
      } else {
        assert |TargetLanguages(langs, ref)| == k;
      }
    }
  }

  /** `Math.round(c * n / n)` is `c`. */
  lemma RoundRatioExact(c: nat, n: nat)
    requires n > 0
    ensures RoundRatio(c * n, n) == c
  {
    var a, q := 2 * n, RoundRatio(c * n, n);
    assert 2 * (c * n) == a * c;
    assert a * q <= a * c + n < a * (q + 1);
    if q < c {
      MulMonotone(a, q + 1, c);
      assert false;
    } else if q > c {
      assert a * (c + 1) == a * c + a;
      MulMonotone(a, c + 1, q);
      assert false;
    }
  }

  /** The average of languages that all have coverage `c` is `c`. */
  lemma AverageOfUniformCoverage(t: Translations, ref: string, c: nat)
    requires TargetLanguages(t.keys, ref) != []
    requires forall l :: l in t.keys && l != ref ==> LanguageCoverage(t, ref, l) == c
    ensures AverageCoverage(t, ref) == c
  {
    assert forall i :: 0 <= i < |t.keys| ==> t.keys[i] in t.keys;
    CoverageSumUniform(t, ref, t.keys, c);
    RoundRatioExact(c, |TargetLanguages(t.keys, ref)|);
  }

  /** One row of the charts' statistics and of the full report's summary. */
  datatype LanguageSummary = LanguageSummary(
    code: string, name: string, translated: nat, missing: nat, total: nat, coverage: nat)

  /** The summary row of `lang`: its stats and its coverage, which agree. */
  function SummaryOf(t: Translations, ref: string, lang: string): (s: LanguageSummary)
    ensures s.code == lang && s.name == LanguageName(lang)
    ensures s.translated + s.missing == s.total == |TableOf(t, ref).keys|
    ensures s.coverage == CoveragePercent(s.translated, s.total) <= 100
  {
    var stats := StatsOf(TableOf(t, ref), TableOf(t, lang));
    LanguageSummary(lang, LanguageName(lang), stats.translated, stats.missing, stats.total,
                    LanguageCoverage(t, ref, lang))
  }

  /** One summary row per language other than the reference, in `Object.keys` order. */
  function Summaries(t: Translations, ref: string, langs: seq<string>): (r: seq<LanguageSummary>)
    ensures |r| == |TargetLanguages(langs, ref)|
    ensures forall i :: 0 <= i < |r| ==> r[i] == SummaryOf(t, ref, TargetLanguages(langs, ref)[i])
  {
    var targets := TargetLanguages(langs, ref);
    seq(|targets|, i requires 0 <= i < |targets| => SummaryOf(t, ref, targets[i]))
  }

  /** Going one language further adds that language's row unless it is the reference. */
  lemma SummariesSnoc(t: Translations, ref: string, langs: seq<string>, lang: string)
    ensures Summaries(t, ref, langs + [lang])
            == Summaries(t, ref, langs) + (if lang != ref then [SummaryOf(t, ref, lang)] else [])
  {
    TargetLanguagesSnoc(langs, lang, ref);
  }

  /** The same step, for a loop that has seen the first `i` languages. */
  lemma SummariesStep(t: Translations, ref: string, langs: seq<string>, i: nat)
    requires i < |langs|
    ensures Summaries(t, ref, langs[..i + 1])
            == Summaries(t, ref, langs[..i]) + (if langs[i] != ref then [SummaryOf(t, ref, langs[i])] else [])
  {
    assert langs[..i + 1] == langs[..i] + [langs[i]];
    SummariesSnoc(t, ref, langs[..i], langs[i]);
  }

  /** No summary row is the reference language's, and each target language has one. */
  lemma SummariesCoverTargets(t: Translations, ref: string, langs: seq<string>)
    ensures forall s :: s in Summaries(t, ref, langs) ==> s.code != ref && s.code in langs
    ensures forall l :: l in langs && l != ref ==> exists s :: s in Summaries(t, ref, langs) && s.code == l
  {
    var targets, r := TargetLanguages(langs, ref), Summaries(t, ref, langs);
    forall l | l in langs && l != ref
      ensures exists s :: s in r && s.code == l
    {
      var i :| 0 <= i < |targets| && targets[i] == l;
      assert r[i] in r && r[i].code == l;
    }
  }
}
