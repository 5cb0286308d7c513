/**
 * The translation dashboard as a whole: the globals shared by
 * docs/dashboard/js/app.js, dashboard/js/search.js, dashboard/js/advanced.js
 * and dashboard/js/editor.js become the fields of `App`, and each handler
 * that reads or updates them becomes a method proved against the
 * specification functions of the other modules.
 */
module Dashboard {
  import opened Text
  import opened OrderedMaps
  import opened Sequences
  import opened Sorting
  import opened Classify
  import opened Languages
  import opened Browser
  import opened BulkDelete
  import opened Exports

  /** The items the browser lists for `lang`: one per reference key, in reference order. */
  function BrowserItems(t: Translations, ref: string, lang: string): (items: seq<Item>)
    ensures |items| == |TableOf(t, ref).keys|
    ensures forall i :: 0 <= i < |items| ==> items[i].key == TableOf(t, ref).keys[i]
  {
    ItemsFor(TableOf(t, ref), TableOf(t, lang), TableOf(t, ref).keys)
  }

  /** The loop of `loadTranslationBrowser` that pushes one item per reference key. */
  method BuildItems(referenceData: Table, languageData: Table) returns (items: seq<Item>)
    ensures items == ItemsFor(referenceData, languageData, referenceData.keys)
  {
    var keys := referenceData.keys;
    items := [];
    var i := 0;
    while i < |keys|
      invariant 0 <= i <= |keys|
      invariant items == ItemsFor(referenceData, languageData, keys[..i])
    {
      var key := keys[i];
      var referenceValue := ValueOr(referenceData, key);
      var translationValue := ValueOr(languageData, key);
      var status := if translationValue == "" then Missing
                    else if translationValue == referenceValue then Identical
                    else Translated;
      items := items + [Item(key, referenceValue, translationValue, status, IsDigits(key))];
      assert items[i] == ItemFor(referenceData, languageData, keys[..i + 1][i]);
      i := i + 1;
    }
    assert keys[..i] == keys;
  }

  /** One of the collecting loops of `updateDeletePreview`: the reference keys meeting `c`. */
  method CollectMatching(referenceData: Table, c: Criterion) returns (keys: seq<string>)
    ensures keys == Matching(referenceData, c)
  {
    var all := referenceData.keys;
    keys := [];
    var i := 0;
    while i < |all|
      invariant 0 <= i <= |all|
      invariant keys == MatchingIn(referenceData, c, all[..i])
    {
      var key := all[i];
      MatchingInStep(referenceData, c, all, i);
      if Meets(c, key, ValueOr(referenceData, key)) {
        keys := keys + [key];
      }
      i := i + 1;
    }
    assert all[..i] == all;
  }

  /** The inner loop of the deletion: `key` deleted from each language where its value is truthy. */
  method DropKeyEverywhere(t: Translations, key: string) returns (r: Translations)
    requires ValidTranslations(t)
    ensures r == DeleteEverywhere(t, key)
  {
    r := t;
    var langs := t.keys;
    var j := 0;
    while j < |langs|
      invariant 0 <= j <= |langs|
      invariant r.keys == t.keys
      invariant forall l :: l in r.values <==> l in t.values
      invariant forall l :: l in r.values ==>
                  r.values[l] == if l in langs[..j] then DropIfTruthy(t.values[l], key) else t.values[l]
    {
      var lang := langs[j];
      assert lang !in langs[..j];
      assert langs[..j + 1] == langs[..j] + [lang];
      var table := r.values[lang];
      if key in table.values && table.values[key] != "" {
        r := OMap(r.keys, r.values[lang := Remove(table, key)]);
      }
      j := j + 1;
    }
    assert langs[..j] == langs;
    assert r.values == DeleteEverywhere(t, key).values;
  }

  /** The outer loop of the deletion: each key of `keys` in turn deleted from every language. */
  method DropKeys(t: Translations, keys: seq<string>) returns (r: Translations)
    requires ValidTranslations(t)
    ensures r == DeleteKeys(t, keys)
  {
    r := t;
    var i := 0;
    while i < |keys|
      invariant 0 <= i <= |keys|
      invariant ValidTranslations(r)
      invariant r == DeleteKeys(t, keys[..i])
    {
      assert keys[..i + 1][..i] == keys[..i];
      r := DropKeyEverywhere(r, keys[i]);
      i := i + 1;
    }
    assert keys[..i] == keys;
  }

  /** The inner loop of `exportMissingTranslations`: the keys `lang` still needs, in reference order. */
  method CollectMissing(referenceData: Table, languageData: Table) returns (missing: seq<MissingEntry>)
    ensures missing == MissingEntries(referenceData, languageData, referenceData.keys)
  {
    var keys := referenceData.keys;
    missing := [];
    var i := 0;
    while i < |keys|
      invariant 0 <= i <= |keys|
      invariant missing == MissingEntries(referenceData, languageData, keys[..i])
    {
      var key := keys[i];
      assert keys[..i + 1] == keys[..i] + [key];
      var value := ValueOr(languageData, key);
      if value == "" || value == ValueOr(referenceData, key) {
        missing := missing + [MissingEntry(key, ValueOr(referenceData, key), if value == "" then None else Some(value))];
      }
      i := i + 1;
    }
    assert keys[..i] == keys;
  }

  /** The inner loop of `exportFullReport`: each reference key pushed to the bucket of its status. */
  method BreakDown(referenceData: Table, languageData: Table) returns (b: Breakdown)
    ensures b == BreakdownOf(referenceData, languageData, referenceData.keys)
  {
    var keys := referenceData.keys;
    b := Breakdown([], [], []);
    var i := 0;
    while i < |keys|
      invariant 0 <= i <= |keys|
      invariant b == BreakdownOf(referenceData, languageData, keys[..i])
    {
      var key := keys[i];
      assert keys[..i + 1] == keys[..i] + [key];
      var refValue, langValue := ValueOr(referenceData, key), ValueOr(languageData, key);
      if langValue == "" {
        b := b.(missing := b.missing + [MissingDetail(key, refValue)]);
      } else if langValue == refValue {
        b := b.(identical := b.identical + [IdenticalDetail(key, refValue)]);
      } else {
        b := b.(translated := b.translated + [TranslatedDetail(key, refValue, langValue)]);
      }
      i := i + 1;
    }
    assert keys[..i] == keys;
  }

  /**
   * `if (!t[lang]) t[lang] = {}; t[lang][key] = value;`, the update both
   * `saveModification` and `saveTranslation` make.
   */
  method SetValue(t: Translations, lang: string, key: string, value: string) returns (r: Translations)
    requires ValidTranslations(t)
    ensures r == SetEntry(t, lang, key, value)
  {
    r := t;
    if lang !in r.values {
      r := Put(r, lang, Empty());
    }
    r := Put(r, lang, Put(r.values[lang], key, value));
  }

  /** The numeric-key count of `updateSummaryCards`. */
  method CountNumericKeys(referenceData: Table) returns (totalNumeric: nat)
    ensures totalNumeric == |Matching(referenceData, NumericKeys)|
  {
    var keys := referenceData.keys;
    totalNumeric := 0;
    var i := 0;
    while i < |keys|
      invariant 0 <= i <= |keys|
      invariant totalNumeric == |MatchingIn(referenceData, NumericKeys, keys[..i])|
    {
      totalNumeric := CountIfNumeric(referenceData, keys, i, totalNumeric);
      i := i + 1;
    }
    assert keys[..i] == keys;
  }

  /** One key of that loop: `/^\d+$/.test(key)` adds one to the count. */
  method CountIfNumeric(referenceData: Table, keys: seq<string>, i: nat, count: nat) returns (next: nat)
    requires i < |keys| && count == |MatchingIn(referenceData, NumericKeys, keys[..i])|
    ensures next == |MatchingIn(referenceData, NumericKeys, keys[..i + 1])|
  {
    MatchingInStep(referenceData, NumericKeys, keys, i);
    next := count;
    if IsDigits(keys[i]) {
      next := count + 1;
    }
  }

  /** The loop of `updateSummaryCards` over the summary rows. */
  method TallyRows(langs: seq<LanguageSummary>)
    returns (totalTranslated: nat, totalMissing: nat, bestLanguage: Option<LanguageSummary>, bestCoverage: nat)
    ensures totalTranslated == SumTranslated(langs) && totalMissing == SumMissing(langs)
    ensures bestLanguage == Best(langs) && bestCoverage == CoverageOf(bestLanguage)
  {
    totalTranslated, totalMissing := 0, 0;
    bestLanguage, bestCoverage := None, 0;
    var j := 0;
    while j < |langs|
      invariant 0 <= j <= |langs|
      invariant totalTranslated == SumTranslated(langs[..j])
      invariant totalMissing == SumMissing(langs[..j])
      invariant bestLanguage == Best(langs[..j]) && bestCoverage == CoverageOf(bestLanguage)
    {
      var lang := langs[j];
      assert langs[..j + 1][..j] == langs[..j];
      totalTranslated := totalTranslated + lang.translated;
      totalMissing := totalMissing + lang.missing;
      if lang.coverage > bestCoverage {
        bestCoverage := lang.coverage;
        bestLanguage := Some(lang);
      }
      j := j + 1;
    }
    assert langs[..j] == langs;
  }

  /**
   * The selection of `updateDeletePreview`: the lists of the checked
   * criteria, in the order numeric, empty, test, uuid, concatenated and
   * freed of duplicates.
   */
  method SelectKeys(referenceData: Table, checked: Checked) returns (keys: seq<string>)
    ensures keys == Selection(referenceData, checked)
  {
    var numericKeys, emptyKeys, testKeys, uuidKeys := [], [], [], [];
    if checked.numeric {
      numericKeys := CollectMatching(referenceData, NumericKeys);
    }
    if checked.empty {
      emptyKeys := CollectMatching(referenceData, EmptyValues);
    }
    if checked.test {
      testKeys := CollectMatching(referenceData, TestEntries);
    }
    if checked.uuid {
      uuidKeys := CollectMatching(referenceData, UuidKeys);
    }
    keys := Dedup(numericKeys + emptyKeys + testKeys + uuidKeys);
  }

  /** The figures of the page header. */
  datatype HeaderStats = HeaderStats(totalKeys: nat, totalLanguages: int, avgCoverage: nat)

  /** What `getTranslationStats` returns. */
  datatype TranslationStats = TranslationStats(languages: seq<LanguageSummary>, totalKeys: nat)

  /** The content of the missing-translations export and the total it logs. */
  datatype MissingReport = MissingReport(byLanguage: OMap<MissingExport>, totalMissing: nat)

  /** A snapshot of the dashboard globals. */
  datatype AppState = AppState(
    translations: Translations, referenceLanguage: string, modifiedTranslations: Translations,
    currentLanguage: string, currentFilter: string, allTranslationItems: seq<Item>,
    keysToDelete: seq<string>, currentEditKey: string, currentEditLanguage: string)

  class App {
    var translations: Translations
    var referenceLanguage: string
    var modifiedTranslations: Translations
    var currentLanguage: string
    var currentFilter: string
    var allTranslationItems: seq<Item>
    var keysToDelete: seq<string>
    var currentEditKey: string
    var currentEditLanguage: string

    ghost function State(): AppState
      reads this
    {
      AppState(translations, referenceLanguage, modifiedTranslations, currentLanguage, currentFilter,
               allTranslationItems, keysToDelete, currentEditKey, currentEditLanguage)
    }

    /** Both dictionaries of tables are well formed. */
    ghost predicate Valid()
      reads this
    {
      ValidTranslations(translations) && ValidTranslations(modifiedTranslations)
    }

    /** The globals once `loadTranslations` has stored the tables it loaded. */
    constructor (loaded: Translations)
      requires ValidTranslations(loaded)
      ensures Valid()
      ensures State() == AppState(loaded, "en", Empty(), "", "all", [], [], "", "")
    {
      translations := loaded;
      referenceLanguage := "en";
      modifiedTranslations := Empty();
      currentLanguage := "";
      currentFilter := "all";
      allTranslationItems := [];
      keysToDelete := [];
      currentEditKey := "";
      currentEditLanguage := "";
    }

    /** `calculateCoverage`: the rounded percentage of reference keys `language` translates. */
    method CalculateCoverage(language: string) returns (coverage: nat)
      ensures coverage == LanguageCoverage(translations, referenceLanguage, language)
      ensures coverage <= 100
      ensures TableOf(translations, referenceLanguage).keys == [] ==> coverage == 0
    {
      var referenceData := TableOf(translations, referenceLanguage);
      var languageData := TableOf(translations, language);
      var referenceKeys := referenceData.keys;
      if |referenceKeys| == 0 {
        return 0;
      }
      var translatedCount := 0;
      var i := 0;
      while i < |referenceKeys|
        invariant 0 <= i <= |referenceKeys|
        invariant translatedCount == CountTranslated(referenceData, languageData, referenceKeys[..i])
      {
        var key := referenceKeys[i];
        assert referenceKeys[..i + 1][..i] == referenceKeys[..i];
        var value := ValueOr(languageData, key);
        if value != "" && value != ValueOr(referenceData, key) {
          translatedCount := translatedCount + 1;
        }
        i := i + 1;
      }
      assert referenceKeys[..i] == referenceKeys;
      coverage := RoundRatio(100 * translatedCount, |referenceKeys|);
    }

    /** `getLanguageStats`: the translated and the missing reference keys of `language`. */
    method GetLanguageStats(language: string) returns (stats: LanguageStats)
      ensures stats == StatsOf(TableOf(translations, referenceLanguage), TableOf(translations, language))
      ensures stats.translated + stats.missing == stats.total == |TableOf(translations, referenceLanguage).keys|
    {
      var referenceData := TableOf(translations, referenceLanguage);
      var languageData := TableOf(translations, language);
      var referenceKeys := referenceData.keys;
      var translated, missing := 0, 0;
      var i := 0;
      while i < |referenceKeys|
        invariant 0 <= i <= |referenceKeys|
        invariant translated == CountTranslated(referenceData, languageData, referenceKeys[..i])
        invariant translated + missing == i
      {
        var key := referenceKeys[i];
        assert referenceKeys[..i + 1][..i] == referenceKeys[..i];
        var value := ValueOr(languageData, key);
        if value != "" && value != ValueOr(referenceData, key) {
          translated := translated + 1;
        } else {
          missing := missing + 1;
        }
        i := i + 1;
      }
      assert referenceKeys[..i] == referenceKeys;
      stats := LanguageStats(translated, missing, |referenceKeys|);
    }

    /**
     * `updateHeaderStats`: the number of reference keys, the number of
     * languages less one, and the rounded mean coverage of the languages
     * other than the reference.
     */
    method UpdateHeaderStats() returns (header: HeaderStats)
      ensures header.totalKeys == |TableOf(translations, referenceLanguage).keys|
      ensures header.totalLanguages == |translations.keys| - 1
      ensures header.avgCoverage == AverageCoverage(translations, referenceLanguage)
      ensures header.avgCoverage <= 100
    {
      var totalKeys := if referenceLanguage in translations.values
                       then |translations.values[referenceLanguage].keys| else 0;
      var totalLanguages := |translations.keys| - 1;
      var totalCoverage, languageCount := 0, 0;
      var langs := translations.keys;
      var i := 0;
      while i < |langs|
        invariant 0 <= i <= |langs|
        invariant totalCoverage == CoverageSum(translations, referenceLanguage, langs[..i])
        invariant languageCount == |TargetLanguages(langs[..i], referenceLanguage)|
      {
        var lang := langs[i];
        assert langs[..i + 1][..i] == langs[..i];
        TargetLanguagesStep(langs, i, referenceLanguage);
        if lang != referenceLanguage {
          var coverage := CalculateCoverage(lang);
          totalCoverage := totalCoverage + coverage;
          languageCount := languageCount + 1;
        }
        i := i + 1;
      }
      assert langs[..i] == langs;
      var avgCoverage := if languageCount > 0 then RoundRatio(totalCoverage, languageCount) else 0;
      header := HeaderStats(totalKeys, totalLanguages, avgCoverage);
    }

    /** `saveModification`: the one entry of the modified tables is set, creating its table if needed. */
    method SaveModification(language: string, key: string, value: string)
      requires Valid()
      modifies this
      ensures Valid()
      ensures State() == old(State()).(modifiedTranslations := SetEntry(old(modifiedTranslations), language, key, value))
    {
      modifiedTranslations := SetValue(modifiedTranslations, language, key, value);
    }

    /**
     * `applyFilter`: remembers the filter and returns the items that the
     * list shows, those of `allTranslationItems` with the filter's status
     * that mention the lower-cased search term.
     */
    method ApplyFilter(filter: string, searchInput: string) returns (shown: seq<Item>)
      modifies this
      ensures State() == old(State()).(currentFilter := filter)
      ensures shown == Filtered(allTranslationItems, filter, searchInput)
    {
      currentFilter := filter;
      var searchTerm := ToLower(searchInput);
      var filteredItems := allTranslationItems;
      if filter != "all" {
        filteredItems := Keep(filteredItems, HasStatus(filter));
      }
      if searchTerm != "" {
        filteredItems := Keep(filteredItems, Mentions(searchTerm));
      }
      shown := filteredItems;
    }

    /**
     * `loadTranslationBrowser`: selects `language`, rebuilds the items from
     * the reference keys and shows them under the current filter.
     */
    method LoadTranslationBrowser(language: string, searchInput: string) returns (shown: seq<Item>)
      modifies this
      ensures State() == old(State()).(currentLanguage := language,
                                       allTranslationItems := BrowserItems(translations, referenceLanguage, language))
      ensures shown == Filtered(allTranslationItems, currentFilter, searchInput)
    {
      currentLanguage := language;
      var referenceData := TableOf(translations, referenceLanguage);
      var languageData := TableOf(translations, language);
      allTranslationItems := BuildItems(referenceData, languageData);
      shown := ApplyFilter(currentFilter, searchInput);
    }

    /** `viewMissingTranslations`: the browser for `language` showing its missing keys only. */
    method ViewMissingTranslations(language: string, searchInput: string) returns (shown: seq<Item>)
      modifies this
      ensures State() == old(State()).(currentLanguage := language, currentFilter := "missing",
                                       allTranslationItems := BrowserItems(translations, referenceLanguage, language))
      ensures shown == Filtered(allTranslationItems, "missing", searchInput)
      ensures forall it :: it in shown ==> it.status == Missing
    {
      shown := LoadTranslationBrowser(language, searchInput);
      currentFilter := "missing";
      shown := ApplyFilter("missing", searchInput);
    }

    /** The counting loop of `renderStatusChart`: every item falls in exactly one count. */
    method CountStatuses() returns (translated: nat, identical: nat, missing: nat)
      ensures translated == CountItems(allTranslationItems, Translated)
      ensures identical == CountItems(allTranslationItems, Identical)
      ensures missing == CountItems(allTranslationItems, Missing)
      ensures translated + identical + missing == |allTranslationItems|
    {
      var items := allTranslationItems;
      translated, identical, missing := 0, 0, 0;
      var i := 0;
      while i < |items|
        invariant 0 <= i <= |items|
        invariant translated == CountItems(items[..i], Translated)
        invariant identical == CountItems(items[..i], Identical)
        invariant missing == CountItems(items[..i], Missing)
      {
        assert items[..i + 1][..i] == items[..i];
        var status := items[i].status;
        if status == Translated {
          translated := translated + 1;
        } else if status == Identical {
          identical := identical + 1;
        } else if status == Missing {
          missing := missing + 1;
        }
        i := i + 1;
      }
      assert items[..i] == items;
      ItemCountsPartition(items);
    }

    /** `getTranslationStats`: one summary row per language other than the reference. */
    method GetTranslationStats() returns (stats: TranslationStats)
      ensures stats.totalKeys == |TableOf(translations, referenceLanguage).keys|
      ensures stats.languages == Summaries(translations, referenceLanguage, translations.keys)
    {
      var langs := translations.keys;
      var languages := [];
      var i := 0;
      while i < |langs|
        invariant 0 <= i <= |langs|
        invariant languages == Summaries(translations, referenceLanguage, langs[..i])
      {
        var lang := langs[i];
        assert langs[..i + 1][..i] == langs[..i];
        SummariesStep(translations, referenceLanguage, langs, i);
        if lang != referenceLanguage {
          var langStats := GetLanguageStats(lang);
          var coverage := CalculateCoverage(lang);
          languages := languages + [LanguageSummary(lang, LanguageName(lang), langStats.translated,
                                                    langStats.missing, langStats.total, coverage)];
        }
        i := i + 1;
      }
      assert langs[..i] == langs;
      stats := TranslationStats(languages, |TableOf(translations, referenceLanguage).keys|);
    }

    /**
     * `updateSummaryCards`: the number of numeric reference keys, the sums
     * of the rows' translated and missing counts, and the first row of
     * strictly greatest positive coverage.
     */
    method UpdateSummaryCards(stats: TranslationStats) returns (cards: SummaryCards)
      ensures cards.totalNumeric == |Matching(TableOf(translations, referenceLanguage), NumericKeys)|
      ensures cards.totalTranslated == SumTranslated(stats.languages)
      ensures cards.totalMissing == SumMissing(stats.languages)
      ensures cards.best == Best(stats.languages) && cards.bestCoverage == CoverageOf(cards.best)
    {
      var totalNumeric := CountNumericKeys(TableOf(translations, referenceLanguage));
      var totalTranslated, totalMissing, bestLanguage, bestCoverage := TallyRows(stats.languages);
      cards := SummaryCards(totalTranslated, totalMissing, totalNumeric, bestLanguage, bestCoverage);
    }

    /** `showDeleteNumericKeys`: the numeric reference keys become the keys to delete. */
    method ShowDeleteNumericKeys() returns (numericKeyCount: nat)
      modifies this
      ensures State() == old(State()).(keysToDelete := keysToDelete)
      ensures keysToDelete == Matching(TableOf(translations, referenceLanguage), NumericKeys)
      ensures numericKeyCount == |keysToDelete|
    {
      var numericKeys := CollectMatching(TableOf(translations, referenceLanguage), NumericKeys);
      numericKeyCount := |numericKeys|;
      keysToDelete := numericKeys;
    }

    /**
     * `updateDeletePreview`: the lists of the checked criteria concatenated
     * and freed of duplicates become the keys to delete.
     */
    method UpdateDeletePreview(checked: Checked) returns (deleteCount: nat)
      modifies this
      ensures State() == old(State()).(keysToDelete := keysToDelete)
      ensures keysToDelete == Selection(TableOf(translations, referenceLanguage), checked)
      ensures deleteCount == |keysToDelete|
    {
      keysToDelete := SelectKeys(TableOf(translations, referenceLanguage), checked);
      deleteCount := |keysToDelete|;
    }

    /**
     * `confirmBulkDelete` and `confirmDeleteNumeric`, which share their
     * logic: with keys to delete, each is deleted from every language where
     * its value is truthy, and the browser of the current language, if any,
     * is rebuilt; with none, nothing happens.
     */
    method ConfirmDelete(searchInput: string)
      requires Valid()
      modifies this
      ensures Valid()
      ensures old(keysToDelete) == [] ==> State() == old(State())
      ensures old(keysToDelete) != [] ==>
                var deleted := DeleteKeys(old(translations), old(keysToDelete));
                State() == old(State()).(
                  translations := deleted,
                  allTranslationItems := if old(currentLanguage) != ""
                                         then BrowserItems(deleted, referenceLanguage, currentLanguage)
                                         else old(allTranslationItems))
    {
      if |keysToDelete| == 0 {
        return;
      }
      translations := DropKeys(translations, keysToDelete);
      if currentLanguage != "" {
        var shown := LoadTranslationBrowser(currentLanguage, searchInput);
      }
    }

    /** `openEditModal`: the key and the current language become the edited entry. */
    method OpenEditModal(key: string)
      modifies this
      ensures State() == old(State()).(currentEditKey := key, currentEditLanguage := currentLanguage)
    {
      currentEditKey := key;
      currentEditLanguage := currentLanguage;
    }

    /** `closeEditModal`: no entry is being edited. */
    method CloseEditModal()
      modifies this
      ensures State() == old(State()).(currentEditKey := "", currentEditLanguage := "")
    {
      currentEditKey := "";
      currentEditLanguage := "";
    }

    /**
     * `saveTranslation`: without an edited entry nothing happens; otherwise
     * the entry is set in the tables and in the modified tables, the
     * browser shows the edited language and the editor closes.
     */
    method SaveTranslation(newValue: string, searchInput: string)
      requires Valid()
      modifies this
      ensures Valid()
      ensures old(currentEditKey) == "" || old(currentEditLanguage) == "" ==> State() == old(State())
      ensures old(currentEditKey) != "" && old(currentEditLanguage) != "" ==>
                var lang, key := old(currentEditLanguage), old(currentEditKey);
                var updated := SetEntry(old(translations), lang, key, newValue);
                State() == old(State()).(
                  translations := updated,
                  modifiedTranslations := SetEntry(old(modifiedTranslations), lang, key, newValue),
                  currentLanguage := lang,
                  allTranslationItems := BrowserItems(updated, referenceLanguage, lang),
                  currentEditKey := "",
                  currentEditLanguage := "")
    {
      if currentEditKey == "" || currentEditLanguage == "" {
        return;
      }
      translations := SetValue(translations, currentEditLanguage, currentEditKey, newValue);
      SaveModification(currentEditLanguage, currentEditKey, newValue);
      var shown := LoadTranslationBrowser(currentEditLanguage, searchInput);
      CloseEditModal();
    }

    /**
     * `exportMissingTranslations`: per language other than the reference
     * that misses a key, the list of the keys it misses, and their total.
     * `None` where the source fails: the reference table is absent and
     * another language is loaded.
     */
    method ExportMissingTranslations() returns (r: Option<MissingReport>)
      requires Valid()
      ensures referenceLanguage !in translations.values && translations.keys != [] ==> r == None
      ensures referenceLanguage in translations.values || translations.keys == [] ==>
                r == Some(MissingReport(MissingByLanguage(translations, referenceLanguage, translations.keys),
                                        TotalMissing(MissingByLanguage(translations, referenceLanguage, translations.keys))))
      ensures r.Some? ==> r.value.totalMissing == MissingSum(translations, referenceLanguage, translations.keys)
    {
      var missingByLanguage: OMap<MissingExport> := Empty();
      var langs := translations.keys;
      var i := 0;
      while i < |langs|
        invariant 0 <= i <= |langs|
        invariant missingByLanguage == MissingByLanguage(translations, referenceLanguage, langs[..i])
        invariant referenceLanguage !in translations.values ==> i == 0
      {
        var lang := langs[i];
        MissingByLanguageStep(translations, referenceLanguage, langs, i);
        if lang != referenceLanguage {
          if referenceLanguage !in translations.values {
            return None;
          }
          var referenceData := translations.values[referenceLanguage];
          var languageData := TableOf(translations, lang);
          var missing := CollectMissing(referenceData, languageData);
          if |missing| > 0 {
            missingByLanguage := Put(missingByLanguage, lang, MissingExport(lang, LanguageName(lang), |missing|, missing));
          }
        } else {
          assert referenceLanguage in translations.values;
        }
        i := i + 1;
      }
      assert langs[..i] == langs;
      TotalMissingIsMissingSum(translations, referenceLanguage, langs);
      r := Some(MissingReport(missingByLanguage, TotalMissing(missingByLanguage)));
    }

    /**
     * The body of the report loop for one language other than the
     * reference: its summary row and its breakdown are added.
     */
    method ReportLanguage(lang: string, languages: seq<LanguageSummary>, details: OMap<Breakdown>)
      returns (nextLanguages: seq<LanguageSummary>, nextDetails: OMap<Breakdown>)
      requires referenceLanguage in translations.values && lang != referenceLanguage && OrderedMaps.Valid(details)
      ensures nextLanguages == languages + [SummaryOf(translations, referenceLanguage, lang)]
      ensures nextDetails == Put(details, lang, BreakdownOf(TableOf(translations, referenceLanguage),
                                                            TableOf(translations, lang),
                                                            TableOf(translations, referenceLanguage).keys))
    {
      var stats := GetLanguageStats(lang);
      var coverage := CalculateCoverage(lang);
      nextLanguages := languages + [LanguageSummary(lang, LanguageName(lang), stats.translated,
                                                    stats.missing, stats.total, coverage)];
      var referenceData := translations.values[referenceLanguage];
      var breakdown := BreakDown(referenceData, TableOf(translations, lang));
      nextDetails := Put(details, lang, breakdown);
    }

    /**
     * The loop of `exportFullReport`: the summary rows and the breakdowns
     * of the languages other than the reference, in `Object.keys` order.
     * `None` where the source fails: the reference table is absent and
     * another language is loaded.
     */
    method ReportRows() returns (rows: Option<(seq<LanguageSummary>, OMap<Breakdown>)>)
      requires Valid()
      ensures referenceLanguage !in translations.values && translations.keys != [] ==> rows == None
      ensures referenceLanguage in translations.values || translations.keys == [] ==>
                rows == Some((Summaries(translations, referenceLanguage, translations.keys),
                              DetailsOf(translations, referenceLanguage, translations.keys)))
    {
      var languages := [];
      var details: OMap<Breakdown> := Empty();
      var langs := translations.keys;
      var i := 0;
      while i < |langs|
        invariant 0 <= i <= |langs|
        invariant languages == Summaries(translations, referenceLanguage, langs[..i])
        invariant details == DetailsOf(translations, referenceLanguage, langs[..i])
        invariant referenceLanguage !in translations.values ==> i == 0
      {
        var lang := langs[i];
        SummariesStep(translations, referenceLanguage, langs, i);
        DetailsStep(translations, referenceLanguage, langs, i);
        if lang != referenceLanguage {
          if referenceLanguage !in translations.values {
            return None;
          }
          languages, details := ReportLanguage(lang, languages, details);
        } else {
          assert referenceLanguage in translations.values;
        }
        i := i + 1;
      }
      assert langs[..i] == langs;
      rows := Some((languages, details));
    }

    /**
     * `exportFullReport`: the number of reference keys, the summary rows
     * sorted by ascending coverage and the per-language breakdowns, or
     * `None` where the report loop fails.
     */
    method ExportFullReport() returns (r: Option<FullReport>)
      requires Valid()
      ensures referenceLanguage !in translations.values && translations.keys != [] ==> r == None
      ensures referenceLanguage in translations.values || translations.keys == [] ==>
                r == Some(FullReportOf(translations, referenceLanguage))
    {
      var totalKeys := |TableOf(translations, referenceLanguage).keys|;
      var rows := ReportRows();
      if rows == None {
        return None;
      }
      var (languages, details) := rows.value;
      r := Some(FullReport(totalKeys, SortBy(languages, ByCoverage), details));
    }
  }

  /**
   * After a save, the browser lists the edited key of a reference key with
   * the new value as its translation, and the status that value has.
   */
  lemma SavedValueShows(t: Translations, ref: string, lang: string, key: string, v: string)
    requires ValidTranslations(t)
    requires key in TableOf(t, ref).values
    ensures var items := BrowserItems(SetEntry(t, lang, key, v), ref, lang);
            exists i :: 0 <= i < |items| && items[i].key == key && items[i].translation == v
                        && items[i].status == StatusOf(items[i].reference, v)
  {
    var updated := SetEntry(t, lang, key, v);
    var items := BrowserItems(updated, ref, lang);
    assert Lookup(updated, ref, key).Some?;
    assert ref in updated.values && Valid(updated.values[ref]);
    var i :| 0 <= i < |TableOf(updated, ref).keys| && TableOf(updated, ref).keys[i] == key;
    assert Lookup(updated, lang, key) == Some(v);
    assert items[i] == ItemFor(TableOf(updated, ref), TableOf(updated, lang), key);
  }
}
