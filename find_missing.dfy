/**
 * The missing-translations finder of scripts/find-missing.js: the
 * reference entries a language does not have, their split into numeric,
 * identical and text entries, and the per-language summary it writes.
 */
module FindMissing {
  import opened Text
  import opened OrderedMaps
  import opened Listing
  import opened Sequences
  import Classify

  type Table = Classify.Table

  /** `targetTranslations && targetTranslations.hasOwnProperty(key)`: presence, whatever the value. */
  predicate Owns(target: Option<Table>, key: string)
  {
    target.Some? && key in target.value.values
  }

  /** The keys of `referenceKeys`, in order, that the target does not own. */
  function MissingKeys(referenceKeys: seq<string>, target: Option<Table>): (r: seq<string>)
    ensures forall k :: k in r <==> k in referenceKeys && !Owns(target, k)
    ensures Distinct(referenceKeys) ==> Distinct(r)
    ensures |r| <= |referenceKeys|
    ensures IsSubsequence(r, referenceKeys)
    decreases |referenceKeys|
  {
    if referenceKeys == [] then []
    else
      var k := referenceKeys[|referenceKeys| - 1];
      var init := MissingKeys(referenceKeys[..|referenceKeys| - 1], target);
      assert referenceKeys == referenceKeys[..|referenceKeys| - 1] + [k];
      SubsequenceSnoc(init, referenceKeys[..|referenceKeys| - 1], k);
      assert Distinct(referenceKeys) ==> k !in referenceKeys[..|referenceKeys| - 1];
      if Owns(target, k) then init else init + [k]
  }

  /** The filter `!owns(key)` of the script's loop over the reference keys. */
  function Unowned(target: Option<Table>): string -> bool
  {
    k => !Owns(target, k)
  }

  /** The missing keys are the reference keys filtered by `!owns`: same elements, same order. */
  lemma {:induction false} MissingKeysIsFilter(referenceKeys: seq<string>, target: Option<Table>)
    ensures MissingKeys(referenceKeys, target) == Keep(referenceKeys, Unowned(target))
    decreases |referenceKeys|
  {
    if referenceKeys != [] {
      var init, k := referenceKeys[..|referenceKeys| - 1], referenceKeys[|referenceKeys| - 1];
      MissingKeysIsFilter(init, target);
      KeepSnoc(init, k, Unowned(target));
      assert referenceKeys == init + [k];
    }
  }

  lemma MissingKeysStep(referenceKeys: seq<string>, target: Option<Table>, i: nat)
    requires i < |referenceKeys|
    ensures MissingKeys(referenceKeys[..i + 1], target)
            == if Owns(target, referenceKeys[i]) then MissingKeys(referenceKeys[..i], target)
               else MissingKeys(referenceKeys[..i], target) + [referenceKeys[i]]
  {
    assert referenceKeys[..i + 1][..i] == referenceKeys[..i];
  }

  /** With no target file every reference key is missing. */
  lemma {:induction false} AllMissingWithoutTarget(referenceKeys: seq<string>)
    ensures MissingKeys(referenceKeys, None) == referenceKeys
    decreases |referenceKeys|
  {
    if referenceKeys != [] {
      var init, k := referenceKeys[..|referenceKeys| - 1], referenceKeys[|referenceKeys| - 1];
      AllMissingWithoutTarget(init);
      assert !Owns(None, k);
      assert MissingKeys(referenceKeys, None) == MissingKeys(init, None) + [k];
      assert referenceKeys == init + [k];
    }
  }

  /** A target owning every reference key, in particular the reference itself, misses nothing. */
  lemma {:induction false} NothingMissingWhenAllOwned(referenceKeys: seq<string>, target: Table)
    requires forall k :: k in referenceKeys ==> k in target.values
    ensures MissingKeys(referenceKeys, Some(target)) == []
    decreases |referenceKeys|
  {
    if referenceKeys != [] {
      NothingMissingWhenAllOwned(referenceKeys[..|referenceKeys| - 1], target);
    }
  }

  /** The key after a prefix of distinct keys is not among the prefix's missing keys. */
  lemma NextKeyIsNew(keys: seq<string>, target: Option<Table>, i: nat, found: seq<string>)
    requires Distinct(keys) && i < |keys| && found == MissingKeys(keys[..i], target)
    ensures keys[i] !in found
  {
    assert keys[i] !in keys[..i];
  }

  /** `part`'s entries are entries of `whole`, with the same values. */
  ghost predicate EntriesOf(part: Table, whole: Table)
  {
    forall k :: k in part.values ==> k in whole.values && part.values[k] == whole.values[k]
  }

  /** `findMissing`: the reference entries whose key the target does not own, in reference order. */
  method FindMissingEntries(reference: Table, target: Option<Table>) returns (missing: Table)
    requires Valid(reference)
    ensures Valid(missing)
    ensures missing.keys == MissingKeys(reference.keys, target)
    ensures EntriesOf(missing, reference)
  {
    missing := OMap([], map[]);
    var keys := reference.keys;
    for i := 0 to |keys|
      invariant Valid(missing)
      invariant missing.keys == MissingKeys(keys[..i], target)
      invariant EntriesOf(missing, reference)
    {
      missing := CopyIfMissing(reference, target, missing, i);
    }
    assert keys[..|keys|] == keys;
  }

  /** The body of `findMissing`'s loop for the `i`-th reference entry. */
  method CopyIfMissing(reference: Table, target: Option<Table>, missing: Table, i: nat) returns (next: Table)
    requires Valid(reference) && i < |reference.keys|
    requires Valid(missing) && missing.keys == MissingKeys(reference.keys[..i], target) && EntriesOf(missing, reference)
    ensures Valid(next) && next.keys == MissingKeys(reference.keys[..i + 1], target) && EntriesOf(next, reference)
  {
    MissingKeysStep(reference.keys, target, i);
    var key := reference.keys[i];
    next := missing;
    if target.None? || key !in target.value.values {
      NextKeyIsNew(reference.keys, target, i, missing.keys);
      next := Put(missing, key, reference.values[key]);
    }
  }

  /** The result of `findMissing` as a value: the missing keys with their reference values. */
  function MissingTable(reference: Table, target: Option<Table>): (m: Table)
    requires Valid(reference)
    ensures Valid(m) && EntriesOf(m, reference)
    ensures forall k :: k in m.values <==> k in reference.values && !Owns(target, k)
  {
    var keys := MissingKeys(reference.keys, target);
    OMap(keys, map k | k in keys :: reference.values[k])
  }

  /** A table with the missing keys and the reference's values is the missing table. */
  lemma MissingTableUnique(reference: Table, target: Option<Table>, m: Table)
    requires Valid(reference) && Valid(m)
    requires m.keys == MissingKeys(reference.keys, target) && EntriesOf(m, reference)
    ensures m == MissingTable(reference, target)
  {
    var t := MissingTable(reference, target);
    forall k ensures k in m.values <==> k in t.values {
      assert k in m.values <==> k in m.keys;
    }
    assert m.values == t.values;
  }

  datatype Category = NumericValue | IdenticalValue | TextValue

  /** The category of a missing entry, its tests taken in the script's order. */
  function CategoryOf(key: string, value: string): Category
  {
    if IsDigits(Trim(value)) then NumericValue
    else if Trim(key) == Trim(value) then IdenticalValue
    else TextValue
  }

  /** The keys of `keys`, in order, whose entry in `m` falls in category `c`. */
  function KeysIn(m: Table, keys: seq<string>, c: Category): (r: seq<string>)
    ensures forall k :: k in r <==> k in keys && CategoryOf(k, Classify.ValueOr(m, k)) == c
    ensures Distinct(keys) ==> Distinct(r)
    ensures IsSubsequence(r, keys)
    decreases |keys|
  {
    if keys == [] then []
    else
      var k := keys[|keys| - 1];
      var init := KeysIn(m, keys[..|keys| - 1], c);
      assert keys == keys[..|keys| - 1] + [k];
      SubsequenceSnoc(init, keys[..|keys| - 1], k);
      assert Distinct(keys) ==> k !in keys[..|keys| - 1];
      if CategoryOf(k, Classify.ValueOr(m, k)) == c then init + [k] else init
  }

  lemma KeysInStep(m: Table, keys: seq<string>, c: Category, i: nat)
    requires i < |keys|
    ensures KeysIn(m, keys[..i + 1], c)
            == if CategoryOf(keys[i], Classify.ValueOr(m, keys[i])) == c then KeysIn(m, keys[..i], c) + [keys[i]]
               else KeysIn(m, keys[..i], c)
  {
    assert keys[..i + 1][..i] == keys[..i];
  }

  /** Every key falls in exactly one category: the three sizes add up to the number of keys. */
  lemma {:induction false} CategoriesPartition(m: Table, keys: seq<string>)
    ensures |KeysIn(m, keys, NumericValue)| + |KeysIn(m, keys, IdenticalValue)| + |KeysIn(m, keys, TextValue)| == |keys|
    decreases |keys|
  {
    if keys != [] {
      var n := |keys| - 1;
      CategoriesPartition(m, keys[..n]);
      assert keys[..n + 1] == keys;
      KeysInStep(m, keys, NumericValue, n);
      KeysInStep(m, keys, IdenticalValue, n);
      KeysInStep(m, keys, TextValue, n);
    }
  }

  /** Categories depend only on the values of the keys categorised. */
  lemma {:induction false} KeysInAgree(m1: Table, m2: Table, keys: seq<string>, c: Category)
    requires forall k :: k in keys ==> Classify.ValueOr(m1, k) == Classify.ValueOr(m2, k)
    ensures KeysIn(m1, keys, c) == KeysIn(m2, keys, c)
    decreases |keys|
  {
    if keys != [] {
      assert keys == keys[..|keys| - 1] + [keys[|keys| - 1]];
      KeysInAgree(m1, m2, keys[..|keys| - 1], c);
    }
  }

  datatype Categories = Categories(numeric: Table, identical: Table, text: Table)

  /** `categories` holds each entry of `missing`, unchanged, in the table of its category. */
  ghost predicate Categorised(categories: Categories, missing: Table, keys: seq<string>)
  {
    Valid(categories.numeric) && Valid(categories.identical) && Valid(categories.text)
    && categories.numeric.keys == KeysIn(missing, keys, NumericValue)
    && categories.identical.keys == KeysIn(missing, keys, IdenticalValue)
    && categories.text.keys == KeysIn(missing, keys, TextValue)
    && EntriesOf(categories.numeric, missing) && EntriesOf(categories.identical, missing)
    && EntriesOf(categories.text, missing)
  }

  /** `categorizeMissing`: each entry assigned, key and value unchanged, to the table of its category. */
  method CategorizeMissing(missing: Table) returns (categories: Categories)
    requires Valid(missing)
    ensures Categorised(categories, missing, missing.keys)
    ensures |categories.numeric.keys| + |categories.identical.keys| + |categories.text.keys| == |missing.keys|
  {
    categories := Categories(OMap([], map[]), OMap([], map[]), OMap([], map[]));
    var keys := missing.keys;
    for i := 0 to |keys|
      invariant Categorised(categories, missing, keys[..i])
    {
      categories := File(categories, missing, keys, i);
    }
    assert keys[..|keys|] == keys;
    CategoriesPartition(missing, keys);
  }

  /** One step of `categorizeMissing`'s loop: the `i`-th entry filed under its category. */
  method File(categories: Categories, missing: Table, keys: seq<string>, i: nat) returns (next: Categories)
    requires Valid(missing) && keys == missing.keys && i < |keys|
    requires Categorised(categories, missing, keys[..i])
    ensures Categorised(next, missing, keys[..i + 1])
  {
    var key := keys[i];
    var value := missing.values[key];
    assert key !in keys[..i];
    KeysInStep(missing, keys, NumericValue, i);
    KeysInStep(missing, keys, IdenticalValue, i);
    KeysInStep(missing, keys, TextValue, i);
    if IsDigits(Trim(value)) {
      next := categories.(numeric := Put(categories.numeric, key, value));
    } else if Trim(key) == Trim(value) {
      next := categories.(identical := Put(categories.identical, key, value));
    } else {
      next := categories.(text := Put(categories.text, key, value));
    }
  }

  /** One language's entry of `summary.languages`. */
  datatype LanguageCounts = LanguageCounts(total: nat, missing: nat, numeric: nat, identical: nat, text: nat)

  /** The summary counts of a loaded target language. */
  function CountsOf(reference: Table, target: Table): (c: LanguageCounts)
    requires Valid(reference)
    ensures c.total == |target.keys|
    ensures c.missing == |MissingTable(reference, Some(target)).keys| && c.missing <= |reference.keys|
    ensures c.numeric + c.identical + c.text == c.missing
  {
    var missing := MissingKeys(reference.keys, Some(target));
    CategoriesPartition(reference, missing);
    LanguageCounts(|target.keys|, |missing|, |KeysIn(reference, missing, NumericValue)|,
                   |KeysIn(reference, missing, IdenticalValue)|, |KeysIn(reference, missing, TextValue)|)
  }

  /** Every loaded file is a JSON object, with distinct keys. */
  ghost predicate LoadedTables(tables: map<string, Table>)
  {
    forall l :: l in tables ==> Valid(tables[l])
  }

  /** `missingByLanguage` after the loop over `languages`; the files that do not load are skipped. */
  function MissingByLanguage(reference: Table, tables: map<string, Table>, languages: seq<string>): (r: OMap<Table>)
    requires Valid(reference)
    ensures Valid(r)
    ensures forall l :: l in r.values <==> l in languages && l in tables
    ensures forall l :: l in r.values ==> r.values[l] == MissingTable(reference, Some(tables[l]))
    decreases |languages|
  {
    if languages == [] then OMap([], map[])
    else
      var l := languages[|languages| - 1];
      var init := MissingByLanguage(reference, tables, languages[..|languages| - 1]);
      assert languages == languages[..|languages| - 1] + [l];
      if l in tables then Put(init, l, MissingTable(reference, Some(tables[l]))) else init
  }

  /** `summary.languages` after the loop over `languages`. */
  function SummaryLanguages(reference: Table, tables: map<string, Table>, languages: seq<string>): (r: OMap<LanguageCounts>)
    requires Valid(reference)
    ensures Valid(r)
    ensures forall l :: l in r.values <==> l in languages && l in tables
    ensures forall l :: l in r.values ==> r.values[l] == CountsOf(reference, tables[l])
    decreases |languages|
  {
    if languages == [] then OMap([], map[])
    else
      var l := languages[|languages| - 1];
      var init := SummaryLanguages(reference, tables, languages[..|languages| - 1]);
      assert languages == languages[..|languages| - 1] + [l];
      if l in tables then Put(init, l, CountsOf(reference, tables[l])) else init
  }

  /** The missing counts of `keys` in `s`, added up. */
  function SumMissing(s: OMap<LanguageCounts>, keys: seq<string>): nat
    decreases |keys|
  {
    if keys == [] then 0
    else
      var k := keys[|keys| - 1];
      SumMissing(s, keys[..|keys| - 1]) + (if k in s.values then s.values[k].missing else 0)
  }

  /** `CONFIG.LANGUAGES`, or the languages of the directory's translation files other than the reference. */
  function TargetLanguages(languages: Option<seq<string>>, listing: seq<string>, referenceLanguage: string): (r: seq<string>)
    ensures languages.Some? ==> r == languages.value
    ensures languages.None? ==> referenceLanguage !in r
    ensures languages.None? ==> forall l :: l in r <==> l != referenceLanguage && l + ".json" in listing && IsTranslationFile(l + ".json")
  {
    if languages.Some? then languages.value
    else
      var files := TranslationFiles(listing);
      ReferenceNotDetected(files, referenceLanguage);
      forall l ensures (l in DetectLanguages(files, referenceLanguage))
                         == (l != referenceLanguage && l + ".json" in listing && IsTranslationFile(l + ".json")) {
        DetectLanguagesExact(files, referenceLanguage, l);
      }
      DetectLanguages(files, referenceLanguage)
  }

  datatype MissingOutput = MissingOutput(
    reference: string,
    totalKeys: nat,
    languages: OMap<LanguageCounts>,
    missingByLanguage: OMap<Table>,
    totalMissing: nat)

  /**
   * `findMissingTranslations`, with the translation directory given as its
   * listing and the tables that load, and `--languages` as an optional
   * list. A missing reference ends the script; that is `None` here.
   */
  method FindMissingTranslations(referenceLanguage: string, tables: map<string, Table>,
                                 languages: Option<seq<string>>, listing: seq<string>)
    returns (r: Option<MissingOutput>)
    requires LoadedTables(tables)
    ensures r.None? <==> referenceLanguage !in tables
    ensures r.Some? ==>
              var reference := tables[referenceLanguage];
              var targets := TargetLanguages(languages, listing, referenceLanguage);
              r.value.reference == referenceLanguage && r.value.totalKeys == |reference.keys|
              && r.value.languages == SummaryLanguages(reference, tables, targets)
              && r.value.missingByLanguage == MissingByLanguage(reference, tables, targets)
              && r.value.totalMissing == SumMissing(r.value.languages, r.value.languages.keys)
  {
    if referenceLanguage !in tables {
      return None;
    }
    var reference := tables[referenceLanguage];
    var targets := TargetLanguages(languages, listing, referenceLanguage);
    var missingByLanguage, summaryLanguages := SummariseLanguages(reference, tables, targets);
    var totalMissing := TotalMissing(summaryLanguages);
    r := Some(MissingOutput(referenceLanguage, |reference.keys|, summaryLanguages, missingByLanguage, totalMissing));
  }

  /** The loop of `findMissingTranslations` over the target languages. */
  method SummariseLanguages(reference: Table, tables: map<string, Table>, targets: seq<string>)
    returns (missingByLanguage: OMap<Table>, summaryLanguages: OMap<LanguageCounts>)
    requires Valid(reference) && LoadedTables(tables)
    ensures missingByLanguage == MissingByLanguage(reference, tables, targets)
    ensures summaryLanguages == SummaryLanguages(reference, tables, targets)
  {
    missingByLanguage := OMap([], map[]);
    summaryLanguages := OMap([], map[]);
    for i := 0 to |targets|
      invariant missingByLanguage == MissingByLanguage(reference, tables, targets[..i])
      invariant summaryLanguages == SummaryLanguages(reference, tables, targets[..i])
    {
      assert targets[..i + 1][..i] == targets[..i];
      var language := targets[i];
      if language !in tables {
        continue;
      }
      var target := tables[language];
      var missing := FindMissingEntries(reference, Some(target));
      var categories := CategorizeMissing(missing);
      MissingTableUnique(reference, Some(target), missing);
      CategoryCounts(reference, target, missing, categories);
      missingByLanguage := Put(missingByLanguage, language, missing);
      summaryLanguages := Put(summaryLanguages, language,
        LanguageCounts(|target.keys|, |missing.keys|, |categories.numeric.keys|,
                       |categories.identical.keys|, |categories.text.keys|));
    }
    assert targets[..|targets|] == targets;
  }

  /** The categorised missing table of a language has the category counts of its summary. */
  lemma CategoryCounts(reference: Table, target: Table, missing: Table, categories: Categories)
    requires Valid(reference) && Valid(missing)
    requires missing == MissingTable(reference, Some(target))
    requires Categorised(categories, missing, missing.keys)
    ensures CountsOf(reference, target)
            == LanguageCounts(|target.keys|, |missing.keys|, |categories.numeric.keys|,
                              |categories.identical.keys|, |categories.text.keys|)
  {
    forall k | k in missing.keys ensures Classify.ValueOr(missing, k) == Classify.ValueOr(reference, k) {
      assert k in missing.values;
    }
    KeysInAgree(missing, reference, missing.keys, NumericValue);
    KeysInAgree(missing, reference, missing.keys, IdenticalValue);
    KeysInAgree(missing, reference, missing.keys, TextValue);
  }

  /** The closing loop of `findMissingTranslations`: the missing counts of every language, added up. */
  method TotalMissing(summaryLanguages: OMap<LanguageCounts>) returns (totalMissing: nat)
    requires Valid(summaryLanguages)
    ensures totalMissing == SumMissing(summaryLanguages, summaryLanguages.keys)
  {
    totalMissing := 0;
    var keys := summaryLanguages.keys;
    for j := 0 to |keys|
      invariant totalMissing == SumMissing(summaryLanguages, keys[..j])
    {
      assert keys[..j + 1][..j] == keys[..j];
      totalMissing := totalMissing + summaryLanguages.values[keys[j]].missing;
    }
    assert keys[..|keys|] == keys;
  }

  /** Auto-detected, the summary never lists the reference language. */
  lemma ReferenceNeverSummarised(referenceLanguage: string, tables: map<string, Table>, listing: seq<string>)
    requires referenceLanguage in tables && LoadedTables(tables)
    ensures referenceLanguage
            !in SummaryLanguages(tables[referenceLanguage], tables, TargetLanguages(None, listing, referenceLanguage)).values
  {
  }
}
