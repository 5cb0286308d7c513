/**
 * The coverage analyser of scripts/analyze-coverage.js: coverage by key
 * presence, the four-way classification of a language's entries, and the
 * report it writes (summary, per-language rows sorted by coverage, and the
 * two alert lists). The script formats percentages with `toFixed(2)`; here
 * a percentage is a whole number of hundredths of a percent, so 100% is
 * 10000.
 */
module AnalyzeCoverage {
  import opened Text
  import opened OrderedMaps
  import opened Sorting
  import opened Listing
  import Classify

  type Table = Classify.Table

  /** `translations || {}`: a file that did not load reads as the empty object. */
  function OrEmpty(t: Option<Table>): Table
  {
    if t.Some? then t.value else OMap([], map[])
  }

  /** `a.filter(k => b.includes(k))`. */
  function Present(a: seq<string>, b: seq<string>): (r: seq<string>)
    ensures forall k :: k in r <==> k in a && k in b
    ensures Distinct(a) ==> Distinct(r)
    ensures |r| <= |a|
    decreases |a|
  {
    if a == [] then []
    else
      var k := a[|a| - 1];
      var init := Present(a[..|a| - 1], b);
      assert a == a[..|a| - 1] + [k];
      assert Distinct(a) ==> k !in a[..|a| - 1];
      if k in b then init + [k] else init
  }

  /** `a.filter(k => !b.includes(k))`. */
  function Absent(a: seq<string>, b: seq<string>): (r: seq<string>)
    ensures forall k :: k in r <==> k in a && k !in b
    ensures |r| <= |a|
    decreases |a|
  {
    if a == [] then []
    else
      var k := a[|a| - 1];
      var init := Absent(a[..|a| - 1], b);
      assert a == a[..|a| - 1] + [k];
      if k !in b then init + [k] else init
  }

  /** Every element of `a` is kept by exactly one of the two filters. */
  lemma {:induction false} PresentAbsentSplit(a: seq<string>, b: seq<string>)
    ensures |Present(a, b)| + |Absent(a, b)| == |a|
    decreases |a|
  {
    if a != [] {
      PresentAbsentSplit(a[..|a| - 1], b);
    }
  }

  /** A sequence without repetitions has as many elements as its set. */
  lemma {:induction false} DistinctCardinality(s: seq<string>)
    requires Distinct(s)
    ensures |set x | x in s| == |s|
    decreases |s|
  {
    if s != [] {
      var init, x := s[..|s| - 1], s[|s| - 1];
      assert s == init + [x];
      DistinctCardinality(init);
      assert (set y | y in s) == (set y | y in init) + {x};
      assert x !in (set y | y in init);
    }
  }

  /** For key lists without repetitions, the keys of `a` in `b` are as many as the keys of `b` in `a`. */
  lemma PresentSymmetric(a: seq<string>, b: seq<string>)
    requires Distinct(a) && Distinct(b)
    ensures |Present(a, b)| == |Present(b, a)|
  {
    var p, q := Present(a, b), Present(b, a);
    assert (set x | x in p) == (set x | x in q);
    DistinctCardinality(p);
    DistinctCardinality(q);
  }

  /** `(part / whole * 100).toFixed(2)` in hundredths: the nearest whole number of hundredths. */
  function Hundredths(part: nat, whole: nat): (r: nat)
    requires whole > 0
    ensures 2 * whole * r <= 20000 * part + whole < 2 * whole * (r + 1)
  {
    Classify.RoundRatio(10000 * part, whole)
  }

  datatype CoverageStats = CoverageStats(total: nat, translated: nat, missing: nat, coverage: nat)

  /**
   * `calculateCoverage`: translated counts the target's keys that the
   * reference has, missing the reference keys the target lacks; values
   * play no part.
   */
  function CalculateCoverage(referenceKeys: seq<string>, target: Option<Table>): (c: CoverageStats)
    requires Distinct(referenceKeys)
    requires target.Some? ==> Distinct(target.value.keys)
    ensures c.total == |referenceKeys|
    ensures c.translated == |Present(referenceKeys, OrEmpty(target).keys)|
    ensures c.translated + c.missing == c.total
    ensures c.translated <= c.total && c.coverage == Percentage(c.translated, c.total)
    ensures target.None? ==> c.translated == 0 && c.missing == c.total
  {
    var targetKeys := OrEmpty(target).keys;
    var translated := |Present(targetKeys, referenceKeys)|;
    var missing := |Absent(referenceKeys, targetKeys)|;
    PresentSymmetric(targetKeys, referenceKeys);
    PresentAbsentSplit(referenceKeys, targetKeys);
    assert translated <= |referenceKeys|;
    CoverageStats(|referenceKeys|, translated, missing, Percentage(translated, |referenceKeys|))
  }

  /** `total > 0 ? (part / total * 100) : 0`, in hundredths. */
  function Percentage(part: nat, total: nat): (r: nat)
    requires part <= total
    ensures r <= 10000
    ensures total == 0 ==> r == 0
    ensures total > 0 ==> 2 * total * r <= 20000 * part + total < 2 * total * (r + 1)
  {
    if total > 0 then
      Classify.RoundRatioBounded(10000 * part, total, 10000);
      Hundredths(part, total)
    else 0
  }

  /** A target holding every reference key (whatever its values) has full coverage. */
  lemma EveryKeyPresentIsFullCoverage(referenceKeys: seq<string>, target: Table)
    requires Distinct(referenceKeys) && Distinct(target.keys) && referenceKeys != []
    requires forall k :: k in referenceKeys ==> k in target.keys
    ensures CalculateCoverage(referenceKeys, Some(target)).missing == 0
    ensures CalculateCoverage(referenceKeys, Some(target)).coverage == 10000
  {
    var c, n := CalculateCoverage(referenceKeys, Some(target)), |referenceKeys|;
    var p := Present(referenceKeys, target.keys);
    assert forall k :: k in p <==> k in referenceKeys;
    assert (set x | x in p) == (set x | x in referenceKeys);
    DistinctCardinality(p);
    DistinctCardinality(referenceKeys);
    assert c.translated == n;
    assert 2 * n * c.coverage <= 20001 * n < 2 * n * (c.coverage + 1);
    if c.coverage < 10000 {
      Classify.MulMonotone(2 * n, c.coverage + 1, 10000);
      assert false;
    }
  }

  datatype EntryType = EmptyEntry | NumericEntry | IdenticalEntry | TranslatedEntry

  /**
   * The class of one entry, its tests taken in the script's order: blank
   * values are empty; digits on both sides are numeric; otherwise a value
   * equal to its key once trimmed is identical, and anything else is
   * translated.
   */
  function TypeOf(key: string, value: string): (r: EntryType)
    ensures r == EmptyEntry <==> IsBlank(value)
    ensures r == NumericEntry <==> IsDigits(Trim(key)) && IsDigits(Trim(value))
    ensures r == IdenticalEntry <==> !IsBlank(value) && !IsDigits(Trim(value)) && Trim(key) == Trim(value)
    ensures r == TranslatedEntry <==>
              !IsBlank(value) && !(IsDigits(Trim(key)) && IsDigits(Trim(value))) && Trim(key) != Trim(value)
  {
    if IsBlank(value) then EmptyEntry
    else if IsDigits(Trim(key)) && IsDigits(Trim(value)) then NumericEntry
    else if Trim(key) == Trim(value) then IdenticalEntry
    else TranslatedEntry
  }

  datatype TypeCounts = TypeCounts(numeric: nat, identical: nat, translated: nat, empty: nat)

  function Total(c: TypeCounts): nat
  {
    c.numeric + c.identical + c.translated + c.empty
  }

  /** One more entry of type `t`. */
  function Tally(c: TypeCounts, t: EntryType): (r: TypeCounts)
    ensures Total(r) == Total(c) + 1
  {
    match t
    case EmptyEntry => c.(empty := c.empty + 1)
    case NumericEntry => c.(numeric := c.numeric + 1)
    case IdenticalEntry => c.(identical := c.identical + 1)
    case TranslatedEntry => c.(translated := c.translated + 1)
  }

  /** The entry types of `keys` in `t`, counted. */
  function TypeCountsOf(t: Table, keys: seq<string>): TypeCounts
    decreases |keys|
  {
    if keys == [] then TypeCounts(0, 0, 0, 0)
    else
      var k := keys[|keys| - 1];
      Tally(TypeCountsOf(t, keys[..|keys| - 1]), TypeOf(k, Classify.ValueOr(t, k)))
  }

  /** The four counters partition the entries: their sum is the entry count. */
  lemma {:induction false} TypeCountsPartition(t: Table, keys: seq<string>)
    ensures Total(TypeCountsOf(t, keys)) == |keys|
    decreases |keys|
  {
    if keys != [] {
      TypeCountsPartition(t, keys[..|keys| - 1]);
    }
  }

  lemma TypeCountsOfStep(t: Table, keys: seq<string>, i: nat)
    requires i < |keys|
    ensures TypeCountsOf(t, keys[..i + 1]) == Tally(TypeCountsOf(t, keys[..i]), TypeOf(keys[i], Classify.ValueOr(t, keys[i])))
  {
    assert keys[..i + 1][..i] == keys[..i];
  }

  /** `analyzeTranslationTypes`: one counter incremented per entry. */
  method AnalyzeTranslationTypes(translations: Option<Table>) returns (types: TypeCounts)
    ensures types == TypeCountsOf(OrEmpty(translations), OrEmpty(translations).keys)
    ensures Total(types) == |OrEmpty(translations).keys|
  {
    var table := OrEmpty(translations);
    var keys := table.keys;
    types := TypeCounts(0, 0, 0, 0);
    for i := 0 to |keys|
      invariant types == TypeCountsOf(table, keys[..i])
    {
      TypeCountsOfStep(table, keys, i);
      types := CountEntry(types, keys[i], Classify.ValueOr(table, keys[i]));
    }
    assert keys[..|keys|] == keys;
    TypeCountsPartition(table, keys);
  }

  /** The `forEach` callback of `analyzeTranslationTypes`: one counter incremented. */
  method CountEntry(types: TypeCounts, key: string, value: string) returns (next: TypeCounts)
    ensures next == Tally(types, TypeOf(key, value))
  {
    if IsBlank(value) {
      next := types.(empty := types.empty + 1);
    } else if IsDigits(Trim(key)) && IsDigits(Trim(value)) {
      next := types.(numeric := types.numeric + 1);
    } else if Trim(key) == Trim(value) {
      next := types.(identical := types.identical + 1);
    } else {
      next := types.(translated := types.translated + 1);
    }
  }

  /** An entry of `_metadata.json`'s `languages` list. */
  datatype MetaLanguage = MetaLanguage(code: string, name: string)

  /** `list.find(l => l.code === code)`: the first entry with that code. */
  function FindCode(list: seq<MetaLanguage>, code: string): (r: Option<MetaLanguage>)
    ensures r.None? <==> forall m :: m in list ==> m.code != code
    ensures r.Some? ==> r.value in list && r.value.code == code
    decreases |list|
  {
    if list == [] then None
    else if list[0].code == code then Some(list[0])
    else FindCode(list[1..], code)
  }

  /** The entry found is the first one with the code. */
  lemma {:induction false} FindCodeFirst(list: seq<MetaLanguage>, code: string, i: nat)
    requires i < |list| && list[i].code == code
    requires forall j :: 0 <= j < i ==> list[j].code != code
    ensures FindCode(list, code) == Some(list[i])
    decreases i
  {
    if i > 0 {
      assert list[0].code != code;
      assert list[1..][i - 1] == list[i];
      forall j | 0 <= j < i - 1
        ensures list[1..][j].code != code
      {
        assert list[1..][j] == list[j + 1];
      }
      FindCodeFirst(list[1..], code, i - 1);
    }
  }

  /** `metadata?.languages?.find(l => l.code === language)?.name || language`. */
  function DisplayName(metadata: Option<seq<MetaLanguage>>, language: string): (name: string)
    ensures name == language || (metadata.Some? && exists m :: m in metadata.value && m.code == language && m.name == name)
    ensures (metadata.None? || forall m :: m in metadata.value ==> m.code != language) ==> name == language
    ensures language != "" ==> name != ""
  {
    if metadata.None? then language
    else
      var found := FindCode(metadata.value, language);
      if found.Some? && found.value.name != "" then found.value.name else language
  }

  /** The name shown is that of the first entry with the code, or the code when that name is empty. */
  lemma DisplayNameFirst(list: seq<MetaLanguage>, language: string, i: nat)
    requires i < |list| && list[i].code == language
    requires forall j :: 0 <= j < i ==> list[j].code != language
    ensures DisplayName(Some(list), language) == if list[i].name != "" then list[i].name else language
  {
    FindCodeFirst(list, language, i);
  }

  datatype LanguageRow = LanguageRow(code: string, name: string, stats: CoverageStats, types: TypeCounts)

  /** The report row of one loaded target language. */
  function RowOf(referenceKeys: seq<string>, code: string, translations: Table, metadata: Option<seq<MetaLanguage>>): (row: LanguageRow)
    requires Distinct(referenceKeys) && Distinct(translations.keys)
    ensures row.code == code
    ensures row.stats.total == |referenceKeys| && row.stats.translated + row.stats.missing == row.stats.total
    ensures row.stats.coverage <= 10000
    ensures Total(row.types) == |translations.keys|
  {
    TypeCountsPartition(translations, translations.keys);
    LanguageRow(code, DisplayName(metadata, code), CalculateCoverage(referenceKeys, Some(translations)),
                TypeCountsOf(translations, translations.keys))
  }

  /** A row whose counts agree with a reference of `totalKeys` keys. */
  predicate WellFormed(row: LanguageRow, totalKeys: nat)
  {
    row.stats.total == totalKeys && row.stats.translated + row.stats.missing == totalKeys && row.stats.coverage <= 10000
  }

  /** Every loaded table's keys are distinct, as `Object.keys` are. */
  ghost predicate LoadedTables(tables: map<string, Table>)
  {
    forall l :: l in tables ==> Distinct(tables[l].keys)
  }

  /**
   * The rows the analyser's loop pushes for the translation files among
   * `files`: the reference language and the files that do not load are
   * skipped.
   */
  function Rows(referenceLanguage: string, referenceKeys: seq<string>, tables: map<string, Table>,
                metadata: Option<seq<MetaLanguage>>, files: seq<string>): (rows: seq<LanguageRow>)
    requires Distinct(referenceKeys) && LoadedTables(tables)
    ensures |rows| <= |files|
    ensures forall i :: 0 <= i < |rows| ==> WellFormed(rows[i], |referenceKeys|)
    ensures forall row :: row in rows ==>
              row.code != referenceLanguage && row.code in tables
              && row == RowOf(referenceKeys, row.code, tables[row.code], metadata)
    decreases |files|
  {
    if files == [] then []
    else
      var init := Rows(referenceLanguage, referenceKeys, tables, metadata, files[..|files| - 1]);
      var f := files[|files| - 1];
      if !IsTranslationFile(f) then init
      else
        var language := LanguageOfFile(f);
        if language == referenceLanguage || language !in tables then init
        else init + [RowOf(referenceKeys, language, tables[language], metadata)]
  }

  lemma RowsStep(referenceLanguage: string, referenceKeys: seq<string>, tables: map<string, Table>,
                 metadata: Option<seq<MetaLanguage>>, files: seq<string>, i: nat)
    requires Distinct(referenceKeys) && LoadedTables(tables)
    requires i < |files| && IsTranslationFile(files[i])
    ensures var language := LanguageOfFile(files[i]);
            Rows(referenceLanguage, referenceKeys, tables, metadata, files[..i + 1])
            == if language == referenceLanguage || language !in tables
               then Rows(referenceLanguage, referenceKeys, tables, metadata, files[..i])
               else Rows(referenceLanguage, referenceKeys, tables, metadata, files[..i])
                    + [RowOf(referenceKeys, language, tables[language], metadata)]
  {
    assert files[..i + 1][..i] == files[..i];
  }

  /** Every listed translation file of a loaded target language has its row. */
  lemma {:induction false} RowsComplete(referenceLanguage: string, referenceKeys: seq<string>, tables: map<string, Table>,
                                         metadata: Option<seq<MetaLanguage>>, files: seq<string>, language: string)
    requires Distinct(referenceKeys) && LoadedTables(tables)
    requires language + ".json" in files && IsTranslationFile(language + ".json")
    requires language != referenceLanguage && language in tables
    ensures RowOf(referenceKeys, language, tables[language], metadata)
              in Rows(referenceLanguage, referenceKeys, tables, metadata, files)
    decreases |files|
  {
    var init, f := files[..|files| - 1], files[|files| - 1];
    assert files == init + [f];
    if f != language + ".json" {
      RowsComplete(referenceLanguage, referenceKeys, tables, metadata, init, language);
    } else {
      LanguageOfFileOfLanguage(language);
    }
  }

  function SumCoverage(rows: seq<LanguageRow>): nat
    decreases |rows|
  {
    if rows == [] then 0 else SumCoverage(rows[..|rows| - 1]) + rows[|rows| - 1].stats.coverage
  }

  lemma SumCoverageSnoc(rows: seq<LanguageRow>, row: LanguageRow)
    ensures SumCoverage(rows + [row]) == SumCoverage(rows) + row.stats.coverage
  {
    assert (rows + [row])[..|rows|] == rows;
  }

  lemma {:induction false} SumCoverageBound(rows: seq<LanguageRow>)
    requires forall i :: 0 <= i < |rows| ==> rows[i].stats.coverage <= 10000
    ensures SumCoverage(rows) <= 10000 * |rows|
    decreases |rows|
  {
    if rows != [] {
      SumCoverageBound(rows[..|rows| - 1]);
    }
  }

  /** `(totalCoverage / languageCount).toFixed(2)`, or `'0.00'` with no language. */
  function Average(rows: seq<LanguageRow>): (avg: nat)
    requires forall i :: 0 <= i < |rows| ==> rows[i].stats.coverage <= 10000
    ensures avg <= 10000
    ensures rows == [] ==> avg == 0
    ensures rows != [] ==> 2 * |rows| * avg <= 2 * SumCoverage(rows) + |rows| < 2 * |rows| * (avg + 1)
  {
    if rows == [] then 0
    else
      SumCoverageBound(rows);
      Classify.RoundRatioBounded(SumCoverage(rows), |rows|, 10000);
      Classify.RoundRatio(SumCoverage(rows), |rows|)
  }

  datatype Summary = Summary(totalKeys: nat, totalLanguages: nat, targetLanguages: nat, averageCoverage: nat)
  datatype ReferenceInfo = ReferenceInfo(code: string, totalKeys: nat, types: TypeCounts)
  datatype LowCoverageAlert = LowCoverageAlert(code: string, coverage: nat, missing: nat)
  /** `percentage` is `None` where the script divides by zero translated keys and writes `"Infinity"`. */
  datatype HighIdenticalAlert = HighIdenticalAlert(code: string, identical: nat, percentage: Option<nat>)

  predicate IsLowCoverage(row: LanguageRow)
  {
    row.stats.coverage < 5000
  }

  /** `l.types.identical > l.translated * 0.5`. */
  predicate IsHighIdentical(row: LanguageRow)
  {
    2 * row.types.identical > row.stats.translated
  }

  function LowAlert(row: LanguageRow): LowCoverageAlert
  {
    LowCoverageAlert(row.code, row.stats.coverage, row.stats.missing)
  }

  function HighAlert(row: LanguageRow): HighIdenticalAlert
  {
    HighIdenticalAlert(row.code, row.types.identical,
                       if row.stats.translated == 0 then None else Some(Hundredths(row.types.identical, row.stats.translated)))
  }

  /** `lowCoverage`: the rows below 50% coverage, in loop order, as alerts. */
  function LowCoverageAlerts(rows: seq<LanguageRow>): (alerts: seq<LowCoverageAlert>)
    ensures forall row :: row in rows ==> (LowAlert(row) in alerts <==> IsLowCoverage(row))
    ensures forall a :: a in alerts ==> exists row :: row in rows && IsLowCoverage(row) && a == LowAlert(row)
    ensures forall a :: a in alerts ==> a.coverage < 5000
    ensures |alerts| <= |rows|
    decreases |rows|
  {
    if rows == [] then []
    else
      var init := LowCoverageAlerts(rows[..|rows| - 1]);
      var row := rows[|rows| - 1];
      assert rows == rows[..|rows| - 1] + [row];
      if IsLowCoverage(row) then init + [LowAlert(row)] else init
  }

  /**
   * `highIdentical`: the rows with more identical entries than half their
   * translated keys, as alerts; a percentage is at least 50%, and is absent
   * only when nothing is translated.
   */
  function HighIdenticalAlerts(rows: seq<LanguageRow>): (alerts: seq<HighIdenticalAlert>)
    ensures forall row :: row in rows && IsHighIdentical(row) ==> HighAlert(row) in alerts
    ensures forall a :: a in alerts ==> exists row :: row in rows && IsHighIdentical(row) && a == HighAlert(row)
    ensures forall a :: a in alerts ==> a.identical > 0
    ensures forall a :: a in alerts && a.percentage.Some? ==> a.percentage.value >= 5000
    ensures |alerts| <= |rows|
    decreases |rows|
  {
    if rows == [] then []
    else
      var init := HighIdenticalAlerts(rows[..|rows| - 1]);
      var row := rows[|rows| - 1];
      assert rows == rows[..|rows| - 1] + [row];
      if IsHighIdentical(row) then
        HighPercentage(row.types.identical, row.stats.translated);
        init + [HighAlert(row)]
      else init
  }

  /** More than half identical rounds to at least 50.00%. */
  lemma HighPercentage(identical: nat, translated: nat)
    requires 2 * identical > translated
    ensures translated > 0 ==> Hundredths(identical, translated) >= 5000
  {
    if translated > 0 {
      var r := Hundredths(identical, translated);
      assert 20000 * identical >= 10000 * translated + 10000;
      assert 2 * translated * (r + 1) > 10000 * translated + translated;
      if r < 5000 {
        Classify.MulMonotone(2 * translated, r + 1, 5000);
        assert false;
      }
    }
  }

  /** The sort key of `languages.sort((a, b) => b.coverage - a.coverage)`. */
  function CoverageDescending(row: LanguageRow): int
  {
    -(row.stats.coverage as int)
  }

  /** The sorted rows are the rows, highest coverage first. */
  lemma SortedByCoverage(rows: seq<LanguageRow>)
    ensures var sorted := SortBy(rows, CoverageDescending);
            (forall i, j :: 0 <= i < j < |sorted| ==> sorted[i].stats.coverage >= sorted[j].stats.coverage)
            && (forall row :: row in sorted <==> row in rows)
  {
    var sorted := SortBy(rows, CoverageDescending);
    forall row ensures row in sorted <==> row in rows {
      assert row in sorted <==> row in multiset(sorted);
      assert row in rows <==> row in multiset(rows);
    }
    forall i, j | 0 <= i < j < |sorted| ensures sorted[i].stats.coverage >= sorted[j].stats.coverage {
      assert CoverageDescending(sorted[i]) <= CoverageDescending(sorted[j]);
    }
  }

  datatype CoverageReport = CoverageReport(
    summary: Summary,
    referenceLanguage: ReferenceInfo,
    languages: seq<LanguageRow>,
    lowCoverage: seq<LowCoverageAlert>,
    highIdentical: seq<HighIdenticalAlert>)

  /** The report of a directory whose reference language loads. */
  function ReportOf(referenceLanguage: string, tables: map<string, Table>, listing: seq<string>,
                    metadata: Option<seq<MetaLanguage>>): (r: CoverageReport)
    requires referenceLanguage in tables && LoadedTables(tables)
    ensures r.summary.targetLanguages == |r.languages| && r.summary.totalLanguages == |r.languages| + 1
    ensures r.summary.totalKeys == r.referenceLanguage.totalKeys == |tables[referenceLanguage].keys|
    ensures r.summary.averageCoverage <= 10000
    ensures forall i, j :: 0 <= i < j < |r.languages| ==> r.languages[i].stats.coverage >= r.languages[j].stats.coverage
    ensures forall row :: row in r.languages ==>
              row.code != referenceLanguage && row.code in tables
              && row.stats.translated + row.stats.missing == r.summary.totalKeys && row.stats.coverage <= 10000
    ensures Total(r.referenceLanguage.types) == r.summary.totalKeys
  {
    var reference := tables[referenceLanguage];
    var files := TranslationFiles(listing);
    var rows := Rows(referenceLanguage, reference.keys, tables, metadata, files);
    var sorted := SortBy(rows, CoverageDescending);
    SortedByCoverage(rows);
    TypeCountsPartition(reference, reference.keys);
    CoverageReport(
      Summary(|reference.keys|, |rows| + 1, |rows|, Average(rows)),
      ReferenceInfo(referenceLanguage, |reference.keys|, TypeCountsOf(reference, reference.keys)),
      sorted,
      LowCoverageAlerts(rows),
      HighIdenticalAlerts(rows))
  }

  /** `ReportOf` spelled out component by component. */
  lemma ReportOfParts(referenceLanguage: string, tables: map<string, Table>, listing: seq<string>,
                      metadata: Option<seq<MetaLanguage>>)
    requires referenceLanguage in tables && LoadedTables(tables)
    ensures var reference := tables[referenceLanguage];
            var rows := Rows(referenceLanguage, reference.keys, tables, metadata, TranslationFiles(listing));
            ReportOf(referenceLanguage, tables, listing, metadata)
            == CoverageReport(
                 Summary(|reference.keys|, |rows| + 1, |rows|,
                         if rows == [] then 0 else Classify.RoundRatio(SumCoverage(rows), |rows|)),
                 ReferenceInfo(referenceLanguage, |reference.keys|, TypeCountsOf(reference, reference.keys)),
                 SortBy(rows, CoverageDescending), LowCoverageAlerts(rows), HighIdenticalAlerts(rows))
  {
  }

  /**
   * `analyzeCoverage`, with the translation directory given as its listing
   * and the tables that load. A missing reference ends the script; that is
   * `None` here.
   */
  method Analyze(referenceLanguage: string, tables: map<string, Table>, listing: seq<string>,
                 metadata: Option<seq<MetaLanguage>>) returns (report: Option<CoverageReport>)
    requires LoadedTables(tables)
    ensures report.None? <==> referenceLanguage !in tables
    ensures report.Some? ==> report.value == ReportOf(referenceLanguage, tables, listing, metadata)
  {
    if referenceLanguage !in tables {
      return None;
    }
    var reference := tables[referenceLanguage];
    var referenceKeys := reference.keys;
    ReportOfParts(referenceLanguage, tables, listing, metadata);
    var languages, totalCoverage, languageCount :=
      CollectRows(referenceLanguage, referenceKeys, tables, metadata, TranslationFiles(listing));
    var averageCoverage := if languageCount > 0 then Classify.RoundRatio(totalCoverage, languageCount) else 0;
    var summary := Summary(|referenceKeys|, languageCount + 1, languageCount, averageCoverage);
    var referenceTypes := AnalyzeTranslationTypes(Some(reference));
    var lowCoverage := LowCoverageAlerts(languages);
    var highIdentical := HighIdenticalAlerts(languages);
    languages := SortBy(languages, CoverageDescending);
    report := Some(CoverageReport(summary, ReferenceInfo(referenceLanguage, |referenceKeys|, referenceTypes),
                                  languages, lowCoverage, highIdentical));
  }

  /**
   * The loop of `analyzeCoverage` over the translation files: the rows it
   * pushes, with the running coverage total and language count.
   */
  method CollectRows(referenceLanguage: string, referenceKeys: seq<string>, tables: map<string, Table>,
                     metadata: Option<seq<MetaLanguage>>, files: seq<string>)
    returns (languages: seq<LanguageRow>, totalCoverage: nat, languageCount: nat)
    requires Distinct(referenceKeys) && LoadedTables(tables)
    requires forall f :: f in files ==> IsTranslationFile(f)
    ensures languages == Rows(referenceLanguage, referenceKeys, tables, metadata, files)
    ensures totalCoverage == SumCoverage(languages) && languageCount == |languages|
  {
    languages := [];
    totalCoverage := 0;
    languageCount := 0;
    for i := 0 to |files|
      invariant languages == Rows(referenceLanguage, referenceKeys, tables, metadata, files[..i])
      invariant totalCoverage == SumCoverage(languages)
      invariant languageCount == |languages|
    {
      assert files[i] in files;
      languages, totalCoverage, languageCount :=
        CollectFile(referenceLanguage, referenceKeys, tables, metadata, files, i, languages, totalCoverage, languageCount);
    }
    assert files[..|files|] == files;
  }

  /**
   * One file of that loop: the reference and languages that failed to load
   * are skipped; any other language gets its row, its coverage is added to
   * the total and it is counted.
   */
  method CollectFile(referenceLanguage: string, referenceKeys: seq<string>, tables: map<string, Table>,
                     metadata: Option<seq<MetaLanguage>>, files: seq<string>, i: nat,
                     languages: seq<LanguageRow>, totalCoverage: nat, languageCount: nat)
    returns (languages': seq<LanguageRow>, totalCoverage': nat, languageCount': nat)
    requires Distinct(referenceKeys) && LoadedTables(tables)
    requires i < |files| && IsTranslationFile(files[i])
    requires languages == Rows(referenceLanguage, referenceKeys, tables, metadata, files[..i])
    requires totalCoverage == SumCoverage(languages) && languageCount == |languages|
    ensures languages' == Rows(referenceLanguage, referenceKeys, tables, metadata, files[..i + 1])
    ensures totalCoverage' == SumCoverage(languages') && languageCount' == |languages'|
  {
    RowsStep(referenceLanguage, referenceKeys, tables, metadata, files, i);
    var language := LanguageOfFile(files[i]);
    if language == referenceLanguage || language !in tables {
      languages', totalCoverage', languageCount' := languages, totalCoverage, languageCount;
    } else {
      var row := AnalyzeLanguage(referenceKeys, language, tables[language], metadata);
      SumCoverageSnoc(languages, row);
      languages' := languages + [row];
      totalCoverage' := totalCoverage + row.stats.coverage;
      languageCount' := languageCount + 1;
    }
  }

  /** The work done for one target language: its coverage, its value types and its display name. */
  method AnalyzeLanguage(referenceKeys: seq<string>, code: string, translations: Table,
                         metadata: Option<seq<MetaLanguage>>)
    returns (row: LanguageRow)
    requires Distinct(referenceKeys) && Distinct(translations.keys)
    ensures row == RowOf(referenceKeys, code, translations, metadata)
  {
    var coverage := CalculateCoverage(referenceKeys, Some(translations));
    var types := AnalyzeTranslationTypes(Some(translations));
    row := LanguageRow(code, DisplayName(metadata, code), coverage, types);
  }

  /** Every listed translation file of a loaded target language appears in the report. */
  lemma ReportCoversListedLanguages(referenceLanguage: string, tables: map<string, Table>, listing: seq<string>,
                                    metadata: Option<seq<MetaLanguage>>, language: string)
    requires referenceLanguage in tables && LoadedTables(tables)
    requires language + ".json" in listing && IsTranslationFile(language + ".json")
    requires language != referenceLanguage && language in tables
    ensures exists row :: row in ReportOf(referenceLanguage, tables, listing, metadata).languages && row.code == language
  {
    var reference := tables[referenceLanguage];
    var files := TranslationFiles(listing);
    var rows := Rows(referenceLanguage, reference.keys, tables, metadata, files);
    RowsComplete(referenceLanguage, reference.keys, tables, metadata, files, language);
    var row := RowOf(reference.keys, language, tables[language], metadata);
    var sorted := ReportOf(referenceLanguage, tables, listing, metadata).languages;
    assert sorted == SortBy(rows, CoverageDescending);
    assert row in multiset(rows);
    assert row in sorted;
  }
}
