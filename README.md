# Translation tooling for the Insly locize project, modelled in Dafny

The repository keeps the product's user-interface strings as one JSON
object per language: a key mapped to a string. English (`en`) is the
reference language. Four pieces of logic work on these string-to-string
tables, and this project models each of them and proves what it promises.

- **Suggestion generator** (`scripts/ai-translate.js`). It proposes a
  translation for each missing key. A value that trims to digits only is
  skipped. Otherwise the first tier that answers wins:
  - an exact dictionary hit, at confidence 0.95;
  - a per-word partial hit, at `min(0.9, 0.7 + 0.2·matches/words)`;
  - an Italian phrase rule, at 0.8;
  - a basic per-word tier, which can never answer after the dictionary
    tier has failed.

  `preserveCase` carries the case of the first letter over to the result.
  The batch loop keeps the suggestions that reach the confidence threshold
  and counts them by method and by confidence band.
- **Dashboard** (`docs/dashboard/js/app.js` and `dashboard/js/search.js`,
  `advanced.js`, `editor.js`). Every reference key has exactly one status:
  - `missing`: the target value is empty;
  - `identical`: equal to the reference value;
  - `translated`: anything else.

  Coverage is the rounded percentage of translated keys. On top of that the
  dashboard builds per-language statistics, the header average, the
  colour/class bands, the status and search filter of the browser, the
  summary cards, bulk key selection and deletion, the editor, and the two
  exports. The dashboard's globals are the fields of the class
  `Dashboard.App`.
- **Coverage analyser** (`scripts/analyze-coverage.js`). Here coverage is
  by key presence. Every entry falls into one of four types: empty,
  numeric, identical or translated. The report has a summary, rows sorted
  by descending coverage and two alert lists.
- **Missing-key finder** (`scripts/find-missing.js`). It lists, per
  language, the reference entries whose key the target does not own. Each
  is sorted into numeric, identical or text, and the counts are summarised.

A JavaScript object is an `OMap`: the sequence of its keys in insertion
order together with a map. A string is `seq<char>` and a confidence is a
`real`. `Math.round` of a non-negative ratio is `(2·num + den) / (2·den)`.
The analyser's `toFixed(2)` percentages are whole numbers of hundredths,
so 100% is 10000.

The model follows the code in these places:
- the exact-match tag is `dictionary` (`scripts/ai-translate.js:86`);
- phrase rules are tested against the original text but applied to the
  working text (`scripts/ai-translate.js:125-126`);
- on the dashboard, a value of white space only is not `missing`
  (`dashboard/js/search.js:17-20`);
- the analyser counts keys that are present, whatever their value
  (`scripts/analyze-coverage.js:39-40`).

Modules:

| module | contents |
|---|---|
| `Text` | trimming, ASCII case mapping, `split(/\s+/)`, word cleaning, case-insensitive containment |
| `Replacing` | case-insensitive replace-all (`replace(/…/gi, …)`) |
| `OrderedMaps` | JS objects |
| `Sequences` | `filter`, subsequences, `[...new Set(s)]` |
| `Sorting` | a stable sort by an integer key |
| `Classify` | status, counting, rounding, coverage and banding |
| `Languages` | the dictionary of tables, per-language statistics, the average |
| `Browser` | the browser items and their filters |
| `BulkDelete` | deletion criteria, selection, deletion, summary totals, the mock translator |
| `Exports` | the editor's two exports |
| `Suggest` | the translator |
| `Generate` | the batch loop of the translator |
| `Listing` | the translation files of a directory |
| `AnalyzeCoverage` | the coverage analyser |
| `FindMissing` | the missing-key finder |
| `Dashboard` | class `App` and the loops its handlers run |

## Model

| member | source | states |
|---|---|---|
| Suggest.LoadPatterns | scripts/ai-translate.js:60-73 | `it` has the six Italian phrase rules, all with non-empty phrases; every other language has no rules |
| Suggest.PreserveCase | scripts/ai-translate.js:201-206 | the result is as long as the translation. If the original's first character equals its upper case, the result is the translation with only its first character upper-cased; otherwise the whole translation is lower-cased |
| Suggest.LowerOriginalGivesLowerResult | scripts/ai-translate.js:201-206 | an original that starts with a lower-case letter yields a result without upper-case letters |
| Suggest.TranslateWords | scripts/ai-translate.js:95-102 | there is one result per word |
| Suggest.TranslateWordsAt | scripts/ai-translate.js:95-102 | a word whose cleaned form hits is replaced by the case-preserved dictionary value; every other word is kept unchanged |
| Suggest.CountHits | scripts/ai-translate.js:97-98 | `matches` never exceeds the word count |
| Suggest.CountHitsPositive | scripts/ai-translate.js:97-104 | `matches > 0` exactly when some word's cleaned form hits the dictionary |
| Suggest.EmptyDictionaryHitsNothing | scripts/ai-translate.js:97 | an empty dictionary matches no word |
| Suggest.RatioInUnitInterval | scripts/ai-translate.js:106 | `matches / words` lies in (0, 1] when at least one word matches |
| Suggest.PartialConfidence | scripts/ai-translate.js:106 | the partial confidence lies in (0.7, 0.9] and is `0.7 + 0.2·matches/words`, so the `min` with 0.9 never binds |
| Suggest.BasicConfidence | scripts/ai-translate.js:163 | the basic tier's confidence is `0.6 + 0.2·count/words`, which lies in (0.6, 0.8] |
| Suggest.EmptyTextMisses | scripts/ai-translate.js:79-82 | an exact hit needs non-empty text |
| Suggest.DictionaryTier | scripts/ai-translate.js:78-115 | the tier answers `dictionary` exactly when the trimmed, lower-cased text hits. It then has confidence 0.95; a partial answer has confidence in (0.7, 0.9] |
| Suggest.ExactHitResult | scripts/ai-translate.js:79-87 | an exact hit gives the case-preserved dictionary value at 0.95 |
| Suggest.PartialTierResult | scripts/ai-translate.js:90-114 | after an exact miss the tier answers iff some word hits. The answer is the per-word results joined by spaces (word count kept), with confidence in (0.7, 0.9] |
| Suggest.PatternAppliedIff | scripts/ai-translate.js:124-129 | `applied` is set exactly when some rule's phrase occurs, ignoring case, in the original text |
| Suggest.PatternUnappliedKeepsText | scripts/ai-translate.js:121-129 | when no rule applies, the working text is the original |
| Suggest.PatternTier | scripts/ai-translate.js:120-140 | a pattern answer has tag `pattern`, confidence 0.8 and a text that differs from the original |
| Suggest.OnePhraseAnswers | scripts/ai-translate.js:120-140 | when only one rule's phrase occurs and its first occurrence differs from the replacement, the tier answers that rule's rewrite at 0.8 |
| Suggest.ClaimPatternExample | scripts/ai-translate.js:60-73 | for Italian, `Claim` is answered `sinistro` at 0.8 by the pattern tier |
| Suggest.PatternTierResult | scripts/ai-translate.js:120-140 | the tier answers iff some rule tested true on the original and the rewritten text differs from it; the answer is that text at 0.8 |
| Suggest.BasicTier | scripts/ai-translate.js:145-169 | the tier answers iff the hit count is positive. The answer has tag `basic`, the per-word results joined by spaces, and confidence `0.6 + 0.2·hits/words` in (0.6, 0.8] |
| Suggest.BasicTierResult | scripts/ai-translate.js:145-169 | the basic tier answers exactly when the cleaned form of some word hits the dictionary |
| Suggest.BasicAfterDictionaryMissIsNone | scripts/ai-translate.js:181-183 | when the dictionary tier has no answer, the basic tier has none either |
| Suggest.NumericValueSkipped | scripts/ai-translate.js:176-178 | a value that trims to digits only gets no suggestion, whatever the dictionary holds |
| Suggest.Translate | scripts/ai-translate.js:174-196 | a value that trims to digits gets nothing. Every suggestion keeps its key and original, and `needsReview` holds iff confidence < 0.8. An exact dictionary hit on any other value always answers, with tier `dictionary` |
| Suggest.SuggestionShape | scripts/ai-translate.js:174-196 | every suggestion carries its key and original and is never from the basic tier. It has its tier's confidence (0.95 / (0.7, 0.9] / 0.8), and `needsReview` holds iff confidence < 0.8 |
| Suggest.ExactHitSuggestion | scripts/ai-translate.js:174-196 | an exact hit on a non-numeric value is the suggestion: case-preserved value, 0.95, tag `dictionary`, no review |
| Suggest.NothingWithoutResources | scripts/ai-translate.js:174-196 | with an empty dictionary and no rules nothing is suggested |
| Suggest.PartialHitExample | scripts/ai-translate.js:90-112 | with `{premium: premio}`, `Premium due` becomes `Premio due`, tier `dictionary-partial`, at confidence 0.8 in exact arithmetic and so not flagged for review (JavaScript's doubles give 0.7999999999999999 and flag it; see Left out) |
| Suggest.PatternTestsOriginalExample | scripts/ai-translate.js:124-126 | a phrase produced by an earlier rewrite is not tested, because rules test the original text |
| Suggest.TranslateWithDictionary | scripts/ai-translate.js:78-115 | the imperative dictionary tier computes `DictionaryTier` |
| Suggest.MapWords | scripts/ai-translate.js:93-102 | the `map` with its `matches++` computes the per-word results and the hit count |
| Suggest.TranslateWithPatterns | scripts/ai-translate.js:120-140 | the rule loop computes `PatternTier` |
| Suggest.TranslateBasic | scripts/ai-translate.js:145-169 | the push loop computes `BasicTier` |
| Suggest.TranslateValue | scripts/ai-translate.js:174-196 | `translate` computes `Translate`: the numeric guard, then the first tier that answers |
| Generate.MissingFor | scripts/ai-translate.js:45 | the language's missing table, or the empty object when it has none |
| Generate.CountTier | scripts/ai-translate.js:259 | exactly one method counter goes up by one |
| Generate.CountBand | scripts/ai-translate.js:261-267 | high goes up when confidence > 0.9, medium when 0.7 ≤ confidence ≤ 0.9, low otherwise, and exactly one of them does |
| Generate.CountKept | scripts/ai-translate.js:256 | at most one kept suggestion per entry |
| Generate.TallyAccounts | scripts/ai-translate.js:253-276 | translated + skipped is the entry count; translated is the number of kept suggestions; the method counts and the band counts each add up to translated |
| Generate.TallyOfWellShaped | scripts/ai-translate.js:253-276 | over suggestions of `translate`, the basic and low counts stay 0, high equals the exact-hit count, and medium equals partial plus pattern |
| Generate.KeptTable | scripts/ai-translate.js:256-257 | `results.translations` is a well-formed object |
| Generate.KeptTableContents | scripts/ai-translate.js:253-257 | the kept table holds exactly the keys whose suggestion is kept, each with its own suggestion; its size is the kept count |
| Generate.OutcomesOf | scripts/ai-translate.js:253-254 | there is one outcome per key |
| Generate.Outcomes | scripts/ai-translate.js:253-254 | there is one outcome per missing entry |
| Generate.OutcomeAt | scripts/ai-translate.js:254 | the i-th outcome is `translate` of the i-th key and its value |
| Generate.OutcomesAt | scripts/ai-translate.js:253-254 | each outcome is `translate` of its entry, in entry order |
| Generate.OutcomesWellShaped | scripts/ai-translate.js:254 | every outcome has the shape that `SuggestionShape` proves |
| Generate.GenerateAITranslations | scripts/ai-translate.js:212-276 | reading the language's missing table with `MissingFor` (the empty object when absent), the results hold the metadata (language, key count, threshold), the statistics of the outcomes and the table of kept suggestions |
| Generate.RecordTranslation | scripts/ai-translate.js:256-275 | one loop step: a kept suggestion is stored under its key and counted; anything else is skipped |
| Generate.RunSummary | scripts/ai-translate.js:253-276 | a run accounts for every entry. The kept table holds exactly the entries whose suggestion reaches the threshold, each with that suggestion. No basic or low-band suggestion is counted, and the high band equals the exact hits |
| Generate.KeptIsTranslate | scripts/ai-translate.js:253-257 | a key is in `results.translations` iff its `translate` result is kept, and it holds that result |
| Generate.Tally | scripts/ai-translate.js:253-276 | the statistics after a run, one `Record` step per entry in order; its totals are stated by `TallyAccounts` and `TallyOfWellShaped` |
| Classify.StatusOf | dashboard/js/search.js:17-26 | `missing` iff the target value is empty; `identical` iff it is non-empty and equal to the reference value; `translated` iff it is non-empty and different |
| Classify.KeyStatus | dashboard/js/search.js:17-26 | the status of a key is the status of its two looked-up values; `StatusOf` and `TranslatedIffStatus` state what it means |
| Classify.CountTranslated | docs/dashboard/js/app.js:154-160 | the count never exceeds the number of keys |
| Classify.CountStatus | dashboard/js/search.js:212-216 | the count never exceeds the number of keys |
| Classify.TranslatedIffStatus | docs/dashboard/js/app.js:156-157 | the coverage test is the browser's `translated` status |
| Classify.CountTranslatedIsStatusCount | docs/dashboard/js/app.js:154-160 | `translatedCount` equals the number of keys with status `translated` |
| Classify.StatusCountsPartition | dashboard/js/search.js:17-26 | the three status counts add up to the number of keys |
| Classify.SelfTranslatesNothing | docs/dashboard/js/app.js:156-157 | a table compared with itself translates no key |
| Classify.RoundRatio | docs/dashboard/js/app.js:140 | the result is the nearest integer to num/den, rounding halves up |
| Classify.RoundRatioBounded | docs/dashboard/js/app.js:140 | rounding a ratio bounded by b gives at most b |
| Classify.CoveragePercent | docs/dashboard/js/app.js:162 | the result lies in [0, 100]; it is 0 for no keys, and otherwise the nearest integer to 100·translated/total |
| Classify.Coverage | docs/dashboard/js/app.js:148-163 | coverage lies in [0, 100] and is 0 when the reference has no keys |
| Classify.SelfCoverageIsZero | docs/dashboard/js/app.js:156-157 | the reference table itself has coverage 0 |
| Classify.FullCoverage | docs/dashboard/js/app.js:162 | when every reference key is translated, coverage is 100 |
| Classify.CoverageClass | docs/dashboard/js/app.js:226-230 | `coverage-high` iff ≥ 80, `coverage-medium` iff in [50, 80), `coverage-low` iff < 50 |
| Classify.CoverageColor | docs/dashboard/js/app.js:233-237 | green iff ≥ 80, amber iff in [50, 80), red iff < 50 |
| Classify.ClassAndColorAgree | docs/dashboard/js/app.js:226-237 | `getCoverageClass` and `getCoverageColor` are written separately; their thresholds always pick the same band |
| Languages.SetEntry | docs/dashboard/js/app.js:266-270 | the entry (lang, key) reads the new value and every other entry is unchanged. A new language or key goes last; an existing one keeps its place |
| Languages.LanguageCoverage | docs/dashboard/js/app.js:148-163 | a language's coverage lies in [0, 100] |
| Languages.StatsOf | docs/dashboard/js/app.js:207-223 | translated + missing = total = the number of reference keys. Translated uses the coverage test, so coverage is the rounded percentage of the stats |
| Languages.StatsMissingCountsIdentical | docs/dashboard/js/app.js:214-220 | the stats' `missing` counts the missing and the identical keys |
| Languages.TargetLanguages | docs/dashboard/js/app.js:132-133 | the loaded languages other than the reference, and all of them |
| Languages.CoverageSumBound | docs/dashboard/js/app.js:132-138 | `totalCoverage` is at most 100 per counted language |
| Languages.AverageCoverage | docs/dashboard/js/app.js:129-140 | the average lies in [0, 100] and is 0 when there is no language besides the reference. Otherwise it is the mean coverage rounded to the nearest integer, halves up: 2n·r ≤ 2·sum + n < 2n·(r + 1) |
| Languages.CoverageSumUniform | docs/dashboard/js/app.js:132-138 | when every target language has coverage c, the total is c times their number |
| Languages.RoundRatioExact | docs/dashboard/js/app.js:140 | rounding an exact multiple gives the factor |
| Languages.AverageOfUniformCoverage | docs/dashboard/js/app.js:129-140 | when every target language has coverage c, the average is c |
| Languages.SummaryOf | dashboard/js/search.js:139-145 | a row has the code and its display name, translated + missing = total = the reference key count, and the coverage of those counts |
| Languages.Summaries | dashboard/js/search.js:136-146 | there is one row per language other than the reference, in key order |
| Languages.SummariesCoverTargets | dashboard/js/search.js:136-146 | the rows never include the reference, and every other loaded language has a row |
| Browser.ItemsFor | dashboard/js/search.js:16-29 | there is one item per key, in key order, each with its status and its `isNumeric` flag (the key is digits only) |
| Browser.ItemFor | dashboard/js/search.js:16-29 | one item: the key, both looked-up values, their status and whether the key is digits only; `ItemsFor` and `ItemKeysAreReferenceKeys` state the list's contents |
| Browser.CountItems | dashboard/js/search.js:212-216 | a status count never exceeds the number of items |
| Browser.ItemCountsPartition | dashboard/js/search.js:208-218 | translated + identical + missing = the number of items |
| Browser.ItemCountsAreStatusCounts | dashboard/js/search.js:212-216 | counting the items' statuses gives the status counts of the keys |
| Browser.ItemKeysAreReferenceKeys | dashboard/js/search.js:16-29 | the items' keys are exactly the reference keys; keys found only in the target are ignored |
| Browser.Filtered | dashboard/js/search.js:36-57 | the result is a subsequence of the items. It keeps exactly the items with the filter's status (any for `all`) that contain the lower-cased term in key, reference or translation; `all` with no term keeps everything |
| Browser.MissingFilterCount | dashboard/js/search.js:43-45 | the `missing` filter shows as many items as there are missing keys |
| Browser.KeepCountsItems | dashboard/js/search.js:43-45 | a status filter keeps as many items as the status count |
| BulkDelete.UuidIsNotNumeric | dashboard/js/advanced.js:122 | a UUID-shaped key is never a numeric key |
| BulkDelete.IsUuid | dashboard/js/advanced.js:122 | 36 characters, `-` at positions 8, 13, 18 and 23, a hexadecimal digit of either case everywhere else; `UuidIsNotNumeric` relates it to the numeric test |
| BulkDelete.MentionsTestWord | dashboard/js/advanced.js:117 | the lower-cased text contains `test`, `demo`, `example`, `sample` or `dummy` |
| BulkDelete.Meets | dashboard/js/advanced.js:135-173 | the four criteria: a digits-only key, a blank value, a test word in key or value, a UUID-shaped key; `MatchingIn` and `CandidatesExact` state the lists built from it |
| BulkDelete.MatchingIn | dashboard/js/advanced.js:136-139 | the keys, in order, whose reference entry meets the criterion, and all of them |
| BulkDelete.Matching | dashboard/js/advanced.js:135-173 | a criterion's list is the ordered subsequence of the reference keys meeting it |
| BulkDelete.CandidatesUnion | dashboard/js/advanced.js:135-173 | the concatenated list holds a key iff some checked criterion's list does |
| BulkDelete.CandidatesExact | dashboard/js/advanced.js:135-173 | a candidate is a reference key meeting some checked criterion, and every such key is a candidate |
| BulkDelete.Selection | dashboard/js/advanced.js:131-179 | `keysToDelete` has no duplicates and holds exactly the reference keys meeting a checked criterion; with nothing checked it is empty |
| BulkDelete.SelectionOrder | dashboard/js/advanced.js:176 | the selected keys are in order of first occurrence in the concatenated lists |
| BulkDelete.DeleteEverywhere | dashboard/js/advanced.js:240-244 | the key disappears from every language where its value is non-empty; every other entry, and every language, stays; each language's key order is `Without(keys, key)` there and unchanged elsewhere |
| BulkDelete.DeleteKeysOrder | dashboard/js/advanced.js:239-245 | after deleting several keys, each language's key order is its old order filtered to the surviving keys (`Keep`), so `delete` never reorders |
| BulkDelete.DeleteKeys | dashboard/js/advanced.js:239-245 | deleting keeps the set and order of languages |
| BulkDelete.DeleteKeysLookup | dashboard/js/advanced.js:239-245 | after the deletion an entry is gone iff its key was selected and its value was non-empty; all else reads as before |
| BulkDelete.TotalsCoverEveryKey | dashboard/js/advanced.js:20-23 | summed over languages, translated + missing is the number of languages times the key count |
| BulkDelete.Best | dashboard/js/advanced.js:20-28 | the `>` scan for the best language; `BestIsFirstMaximum` states its result |
| BulkDelete.BestIsFirstMaximum | dashboard/js/advanced.js:20-28 | there is no best language iff every coverage is 0. Otherwise the best language has the maximum coverage and no earlier language reaches it |
| BulkDelete.MockPrefix | dashboard/js/advanced.js:319-334 | `[NO] ` for `nb`, `[` + the upper-cased code + `] ` for the other eleven listed languages, and `[TR] ` for every other language |
| BulkDelete.MockTranslate | dashboard/js/advanced.js:316-343 | the result starts with the language prefix, and outside the insurance context it is exactly prefix + text |
| BulkDelete.InsuranceContextKeepsPlainText | dashboard/js/advanced.js:337-339 | in the insurance context, a text mentioning neither word is only prefixed |
| BulkDelete.InsuranceContextRewritesClaim | dashboard/js/advanced.js:337-339 | in the insurance context, a text without `policy` whose first `claim` (any case) is at i becomes prefix + text before i + `insurance claim` + the rest rewritten; the result differs from prefix + text |
| BulkDelete.InsuranceClaimExample | dashboard/js/advanced.js:335-339 | `Claim` in the insurance context becomes the prefix followed by `insurance claim` |
| Exports.MissingEntriesExact | dashboard/js/editor.js:87-95 | the list holds exactly the reference keys whose target value is empty or equal to the reference, in reference order. Each entry has its reference value, and `current` is `None` for an empty target |
| Exports.MissingEntries | dashboard/js/editor.js:87-95 | the `push` over the reference keys; `MissingEntriesExact` states its contents |
| Exports.NeedsTranslationCount | dashboard/js/editor.js:88 | the keys needing translation are the keys not counted as translated |
| Exports.MissingCountIsStatsMissing | dashboard/js/editor.js:97-101 | `missingCount` equals the language's stats `missing` |
| Exports.ExportFor | dashboard/js/editor.js:83-104 | a language's export has its code and display name, and `missingCount` is the list length and the stats' `missing` |
| Exports.MissingByLanguage | dashboard/js/editor.js:80-105 | every exported language was loaded |
| Exports.MissingByLanguageExact | dashboard/js/editor.js:80-105 | a language is exported iff it is listed, is not the reference and misses some key; it is exported with its own list |
| Exports.TotalMissingIsMissingSum | dashboard/js/editor.js:111 | `totalMissing` is the sum of the stats' `missing` over the target languages |
| Exports.BreakdownCounts | dashboard/js/editor.js:152-163 | each bucket holds as many keys as have its status |
| Exports.BreakdownOf | dashboard/js/editor.js:152-163 | the three buckets filled key by key; `BreakdownCounts` and `BreakdownAgreesWithStats` state their sizes |
| Exports.BreakdownAgreesWithStats | dashboard/js/editor.js:130-163 | the buckets partition the reference keys; translated equals the stats' `translated`, and missing + identical equals the stats' `missing` |
| Exports.DetailsOf | dashboard/js/editor.js:127-164 | there is a breakdown for exactly the languages other than the reference, each that language's own |
| Exports.FullReportOf | dashboard/js/editor.js:116-174 | the key count, the summary rows as a permutation sorted ascending by coverage, and a breakdown per non-reference language |
| Listing.TranslationFiles | scripts/analyze-coverage.js:103-104 | the listing's `.json` entries not starting with `_`, in listing order |
| Listing.LanguageOfFile | scripts/analyze-coverage.js:110 | the base name plus `.json` is the file name |
| Listing.LanguageOfFileOfLanguage | scripts/analyze-coverage.js:110 | the base name of a language's file is the language |
| Listing.DetectLanguagesExact | scripts/find-missing.js:94-98 | a language is detected iff its file is a listed translation file and it is not the reference |
| Listing.ReferenceNotDetected | scripts/find-missing.js:98 | the reference is never a detected target |
| AnalyzeCoverage.Present | scripts/analyze-coverage.js:39 | the elements of a that are in b, distinct when a is |
| AnalyzeCoverage.Absent | scripts/analyze-coverage.js:40 | the elements of a that are not in b |
| AnalyzeCoverage.PresentAbsentSplit | scripts/analyze-coverage.js:39-40 | every element is kept by exactly one of the two filters |
| AnalyzeCoverage.PresentSymmetric | scripts/analyze-coverage.js:39 | for distinct key lists, the target keys found in the reference are as many as the reference keys found in the target |
| AnalyzeCoverage.Hundredths | scripts/analyze-coverage.js:47 | the nearest whole number of hundredths of the percentage |
| AnalyzeCoverage.CalculateCoverage | scripts/analyze-coverage.js:37-49 | total is the reference key count; translated counts the present keys, and translated + missing = total. Coverage is the rounded percentage; a missing target translates nothing |
| AnalyzeCoverage.Percentage | scripts/analyze-coverage.js:41 | the percentage lies in [0, 100.00]; it is 0 for an empty reference and otherwise the rounded ratio |
| AnalyzeCoverage.EveryKeyPresentIsFullCoverage | scripts/analyze-coverage.js:38-41 | a target owning every reference key, whatever the values, misses nothing and has 100.00 |
| AnalyzeCoverage.Tally | scripts/analyze-coverage.js:62-72 | one entry adds one to the total |
| AnalyzeCoverage.TypeCountsPartition | scripts/analyze-coverage.js:62-72 | the four counters add up to the entry count |
| AnalyzeCoverage.TypeOf | scripts/analyze-coverage.js:62-72 | each of the four types as an if-and-only-if: empty iff the value is blank; numeric iff the trimmed key and the trimmed value are both digits; identical iff the value is non-blank, not digits, and equal to the key after trimming; translated iff non-blank, not both numeric, and different after trimming |
| AnalyzeCoverage.AnalyzeTranslationTypes | scripts/analyze-coverage.js:54-75 | the counter loop computes the type counts, which add up to the entry count |
| AnalyzeCoverage.CountEntry | scripts/analyze-coverage.js:62-72 | the callback increments the counter of the entry's type |
| AnalyzeCoverage.FindCode | scripts/analyze-coverage.js:121 | `find` gives an entry with that code, and nothing only when there is no such entry |
| AnalyzeCoverage.FindCodeFirst | scripts/analyze-coverage.js:121 | `find` returns the first entry with the code |
| AnalyzeCoverage.DisplayName | scripts/analyze-coverage.js:121 | the display name is the metadata name for the code, or the code itself when there is none |
| AnalyzeCoverage.DisplayNameFirst | scripts/analyze-coverage.js:121 | the name is that of the first entry with the code, or the code itself when that name is empty |
| AnalyzeCoverage.RowOf | scripts/analyze-coverage.js:116-124 | a row's counts agree with the reference key count, its coverage is at most 100.00 and its types add up to its entries |
| AnalyzeCoverage.Rows | scripts/analyze-coverage.js:109-133 | the rows are the loaded non-reference languages' rows, at most one per file |
| AnalyzeCoverage.RowsComplete | scripts/analyze-coverage.js:109-133 | every listed translation file of a loaded target language has its row |
| AnalyzeCoverage.SumCoverageBound | scripts/analyze-coverage.js:127 | `totalCoverage` is at most 100.00 per row |
| AnalyzeCoverage.Average | scripts/analyze-coverage.js:140 | the average lies in [0, 100.00]; it is 0 without rows, and otherwise the rounded mean coverage |
| AnalyzeCoverage.LowCoverageAlerts | scripts/analyze-coverage.js:145 | there is an alert for exactly the rows below 50.00% |
| AnalyzeCoverage.HighIdenticalAlerts | scripts/analyze-coverage.js:146-148 | there is an alert for exactly the rows with more identical entries than half their translated keys; its percentage is at least 50.00% |
| AnalyzeCoverage.HighPercentage | scripts/analyze-coverage.js:168 | more than half identical rounds to at least 50.00% |
| AnalyzeCoverage.SortedByCoverage | scripts/analyze-coverage.js:158 | the sorted rows are the same rows, highest coverage first |
| AnalyzeCoverage.ReportOf | scripts/analyze-coverage.js:136-171 | `targetLanguages` is the row count and `totalLanguages` one more. The rows are sorted descending and exclude the reference; the average is at most 100.00 and the reference types add up to the key count |
| AnalyzeCoverage.Analyze | scripts/analyze-coverage.js:80-171 | the script fails iff the reference does not load; otherwise it produces `ReportOf` |
| AnalyzeCoverage.CollectRows | scripts/analyze-coverage.js:106-133 | the loop pushes `Rows` and keeps `totalCoverage` and `languageCount` as their sum and count |
| AnalyzeCoverage.CollectFile | scripts/analyze-coverage.js:110-128 | one file extends the rows, the sum and the count |
| AnalyzeCoverage.AnalyzeLanguage | scripts/analyze-coverage.js:116-124 | one language's row |
| AnalyzeCoverage.ReportCoversListedLanguages | scripts/analyze-coverage.js:109-126 | every listed, loaded target language appears in the report |
| FindMissing.MissingKeys | scripts/find-missing.js:41-45 | exactly the reference keys the target does not own, as a subsequence of the reference keys |
| FindMissing.MissingKeysIsFilter | scripts/find-missing.js:41-45 | the missing keys are the reference keys filtered by `Owns`, in the reference order |
| FindMissing.AllMissingWithoutTarget | scripts/find-missing.js:42 | with no target every reference key is missing |
| FindMissing.NothingMissingWhenAllOwned | scripts/find-missing.js:42 | a target owning every key (the reference itself, say) misses nothing, whatever its values |
| FindMissing.FindMissingEntries | scripts/find-missing.js:38-48 | the loop yields the missing keys, in order, with their reference values |
| FindMissing.CopyIfMissing | scripts/find-missing.js:42-44 | one loop step copies the entry iff the target does not own its key |
| FindMissing.MissingTable | scripts/find-missing.js:38-48 | exactly the reference entries whose key the target does not own, values unchanged |
| FindMissing.MissingTableUnique | scripts/find-missing.js:38-48 | any table with those keys in that order and the reference values is the missing table |
| FindMissing.KeysIn | scripts/find-missing.js:60-68 | the keys of a category, as a subsequence of the entries' keys |
| FindMissing.CategoryOf | scripts/find-missing.js:61-67 | the category of one entry, its tests in the script's order; `KeysIn` and `CategoriesPartition` state the split |
| FindMissing.CategoriesPartition | scripts/find-missing.js:60-68 | the three category sizes add up to the entry count |
| FindMissing.KeysInAgree | scripts/find-missing.js:61-63 | a category depends only on the entries' keys and values |
| FindMissing.CategorizeMissing | scripts/find-missing.js:53-71 | every entry lands, unchanged, in the table of its category; the sizes add up |
| FindMissing.File | scripts/find-missing.js:61-67 | one loop step files the entry under its category |
| FindMissing.CountsOf | scripts/find-missing.js:125-133 | total is the target's key count, missing is the size of the missing table, and numeric + identical + text = missing |
| FindMissing.MissingByLanguage | scripts/find-missing.js:111-123 | there is an entry for exactly the target languages that load, each that language's missing table |
| FindMissing.SummaryLanguages | scripts/find-missing.js:111-133 | there is a summary for exactly the target languages that load, each with that language's counts |
| FindMissing.TargetLanguages | scripts/find-missing.js:91-99 | the given list; or, auto-detected, the translation files' languages other than the reference |
| FindMissing.FindMissingTranslations | scripts/find-missing.js:76-165 | the script fails iff the reference does not load. Otherwise the output holds the reference, the key count, the summaries, the missing tables and their total |
| FindMissing.SummariseLanguages | scripts/find-missing.js:111-139 | the loop computes both objects |
| FindMissing.CategoryCounts | scripts/find-missing.js:127-132 | the categorised table's sizes are the summary's category counts |
| FindMissing.TotalMissing | scripts/find-missing.js:159-161 | the closing loop adds up the missing counts |
| FindMissing.ReferenceNeverSummarised | scripts/find-missing.js:96-98 | an auto-detected run never summarises the reference |
| Dashboard.BrowserItems | dashboard/js/search.js:16-29 | there is one item per reference key, in reference order |
| Dashboard.BuildItems | dashboard/js/search.js:16-29 | the push loop builds `ItemsFor` the reference keys |
| Dashboard.CollectMatching | dashboard/js/advanced.js:136-139 | the push loop builds a criterion's list |
| Dashboard.DropKeyEverywhere | dashboard/js/advanced.js:240-244 | the inner loop computes `DeleteEverywhere` |
| Dashboard.DropKeys | dashboard/js/advanced.js:239-245 | the outer loop computes `DeleteKeys` |
| Dashboard.CollectMissing | dashboard/js/editor.js:87-95 | the push loop builds the missing list |
| Dashboard.BreakDown | dashboard/js/editor.js:152-163 | the push loop builds the three buckets |
| Dashboard.SetValue | dashboard/js/editor.js:32-35 | the in-memory update computes `SetEntry` |
| Dashboard.CountNumericKeys | dashboard/js/advanced.js:15-18 | `totalNumeric` is the number of numeric reference keys |
| Dashboard.CountIfNumeric | dashboard/js/advanced.js:17 | one step of that count |
| Dashboard.TallyRows | dashboard/js/advanced.js:20-28 | the totals are sums over the rows; the best row and its coverage are `Best` |
| Dashboard.SelectKeys | dashboard/js/advanced.js:133-176 | the concatenation and de-duplication compute `Selection` |
| Dashboard.SavedValueShows | dashboard/js/editor.js:35-41 | after a save, the browser item of the edited reference key shows the new value and its status |
| Dashboard.App.constructor | docs/dashboard/js/app.js:2-5 | the globals start with the loaded tables, reference `en`, filter `all` and everything else empty |
| Dashboard.App.CalculateCoverage | docs/dashboard/js/app.js:148-163 | the counter loop gives the language's coverage, in [0, 100], and 0 for an empty reference |
| Dashboard.App.GetLanguageStats | docs/dashboard/js/app.js:207-223 | the loop gives `StatsOf`: translated + missing = total = the reference key count |
| Dashboard.App.UpdateHeaderStats | docs/dashboard/js/app.js:124-145 | the header shows the reference key count, the language count minus one, and the average coverage (at most 100) |
| Dashboard.App.SaveModification | docs/dashboard/js/app.js:266-272 | only `modifiedTranslations` changes, by `SetEntry` |
| Dashboard.App.ApplyFilter | dashboard/js/search.js:36-57 | only `currentFilter` changes; the items shown are `Filtered` |
| Dashboard.App.LoadTranslationBrowser | dashboard/js/search.js:7-33 | only the current language and the items change, to the items of that language, and the current filter is applied |
| Dashboard.App.ViewMissingTranslations | dashboard/js/search.js:307-318 | the browser shows the language with filter `missing`, and every item shown is missing |
| Dashboard.App.CountStatuses | dashboard/js/search.js:207-218 | the three counts are the items' status counts and add up to the item count |
| Dashboard.App.GetTranslationStats | dashboard/js/search.js:130-149 | the key count and one row per non-reference language |
| Dashboard.App.UpdateSummaryCards | dashboard/js/advanced.js:6-39 | `totalNumeric` counts the numeric reference keys; the totals are sums over the rows, and the best language is `Best` |
| Dashboard.App.ShowDeleteNumericKeys | dashboard/js/advanced.js:42-63 | only `keysToDelete` changes, to the numeric reference keys, and the count shown is their number |
| Dashboard.App.UpdateDeletePreview | dashboard/js/advanced.js:131-179 | only `keysToDelete` changes, to `Selection`, and the count shown is its length |
| Dashboard.App.ConfirmDelete | dashboard/js/advanced.js:219-254 | nothing changes with no selected key. Otherwise the tables lose the selected keys where their value is non-empty, and an open browser is rebuilt |
| Dashboard.App.OpenEditModal | dashboard/js/editor.js:6-16 | the edited entry becomes the key in the current language |
| Dashboard.App.CloseEditModal | dashboard/js/editor.js:19-23 | no entry is being edited |
| Dashboard.App.SaveTranslation | dashboard/js/editor.js:26-48 | nothing changes without an edited entry. Otherwise the value is set in the tables and in the modified tables, the browser shows that language, and the editor closes |
| Dashboard.App.ExportMissingTranslations | dashboard/js/editor.js:77-113 | the export is `MissingByLanguage` with its total, the sum of the stats' `missing`; `None` where the source fails |
| Dashboard.App.ReportLanguage | dashboard/js/editor.js:130-163 | one language adds its summary row and its breakdown |
| Dashboard.App.ReportRows | dashboard/js/editor.js:127-164 | the loop gives the summary rows and the breakdowns; `None` where the source fails |
| Dashboard.App.ExportFullReport | dashboard/js/editor.js:116-174 | the report is `FullReportOf`, rows sorted ascending by coverage; `None` where the source fails |
| Text.Trim | scripts/ai-translate.js:79 | the result is the slice of the input that starts after its leading white-space run and is followed only by white space. A non-empty result neither starts nor ends with white space |
| Text.LeadingSpaces | scripts/ai-translate.js:79 | every character before the count is white space, and the character at the count, if any, is not |
| Text.ToLower | scripts/ai-translate.js:79 | the string is lower-cased character by character (ASCII) |
| Text.IsDigits | scripts/ai-translate.js:176 | `^\d+$`: non-empty and ASCII digits only; `NumericValueSkipped` states its use |
| Text.SplitWords | scripts/ai-translate.js:146 | there is always at least one piece, no piece holds white space, and a text without white space is the single piece itself |
| Text.SplitJoin | scripts/ai-translate.js:146-162 | splitting words joined by single spaces gives the words back, when no word holds white space and only the first and last may be empty |
| Text.TooLongAbsent | scripts/ai-translate.js:126 | a phrase longer than the text does not occur in it |
| Replacing.ReplaceAllIgnoringCase | scripts/ai-translate.js:126 | leftmost, non-overlapping, case-insensitive replacement; `ReplaceAtFirst`, `ReplaceChanges`, `ReplaceLength`, `ReplaceAbsentIsIdentity` and `ReplaceChangedMeansPresent` state its properties |
| Replacing.ReplaceAtFirst | scripts/ai-translate.js:126 | when the first occurrence (any case) is at i, the result is the text before i, then the replacement, then the rest after the occurrence replaced in turn |
| Replacing.ReplaceSkips | scripts/ai-translate.js:126 | text before the first occurrence is copied unchanged |
| Replacing.ReplaceChanges | scripts/ai-translate.js:126 | a first occurrence that differs from its replacement changes the text |
| Replacing.ReplaceLength | scripts/ai-translate.js:126 | a replacement no longer than the phrase never lengthens the text; one no shorter never shortens it |
| Replacing.MatchesAtContains | scripts/ai-translate.js:125-126 | an occurrence at some position means the phrase tests true on the text |
| Text.CleanWord | scripts/ai-translate.js:96 | only the letters `a`-`z` remain, and no more characters than the word has |
| Text.CleanWordLetters | scripts/ai-translate.js:96 | the cleaned word is a subsequence of the lower-cased word holding each letter `a`-`z` as often as that word does: every `a`-`z`, in order, and nothing else |
| Replacing.ReplaceAbsentIsIdentity | scripts/ai-translate.js:126 | replacing an absent phrase changes nothing |
| Replacing.ReplaceChangedMeansPresent | scripts/ai-translate.js:126 | a replacement that changes the text means the phrase occurs |
| OrderedMaps.Put | dashboard/js/editor.js:35 | the key gets the value; an existing key keeps its place and a new one goes last |
| OrderedMaps.Remove | dashboard/js/advanced.js:242 | the key leaves both the key list and the map, and every other key keeps its value. The other keys keep their order: a key at position i is spliced out, and removing an absent key changes no key |
| Sequences.Keep | dashboard/js/search.js:44 | `filter` keeps exactly the satisfying elements, in order, as a subsequence |
| Sequences.KeepMultiset | dashboard/js/search.js:44 | `filter` keeps every satisfying element as often as it occurs and drops every other |
| Sequences.Dedup | dashboard/js/advanced.js:176 | every element once, with no duplicates |
| Sequences.DedupKeepsFirstOccurrenceOrder | dashboard/js/advanced.js:176 | the elements are ordered by first occurrence |
| Sorting.SortBy | dashboard/js/editor.js:167 | the result is sorted by the key and is a permutation of the input. The sort is stable: the elements of each key come in their input order |

## Left out

- Network, file and browser I/O are not modelled:
  - the `fetch` of `loadTranslations` and `_metadata.json`;
  - `localStorage` in `saveModification` and `loadModifications`;
  - `fs` reads and writes, `downloadJSON`, `logExport`, `showNotification`;
  - console output and the progress dots.

  Loaded files are parameters. A table is a map from language to object, a
  directory is its listing, and the metadata list is an optional parameter.
- All DOM and canvas work is left out: `renderTranslationList` (and its
  500-item cap), the charts and their sorts, `renderMissingSummary`,
  modals, event listeners, the language grid and the selector.
- `startAITranslation` is left out: it is asynchronous and uses
  `setTimeout` and a random confidence.
- `exportModifiedTranslations` and `loadModifications` are left out: they
  only move `modifiedTranslations` to and from storage and downloads.
- `analyzeBulkDelete`'s per-criterion lists are left out. They are never
  read, and `updateDeletePreview` recomputes the selection it shows.
- Timestamps (`new Date()`) are left out of every result.
- The command-line `CONFIG` parsing is not modelled. The reference
  language, target list, threshold and language are parameters.
- The finder's console coverage line divides the target's key count by the
  reference key count. It is console output only and is not modelled.
- The process exit is not modelled. `process.exit(1)` for a missing
  reference file is `None`, and so is a missing input file for the
  generator.
- JSON values are assumed to be strings.
- JavaScript's ordering of integer-like object keys before the other keys
  is not modelled. Keys keep insertion order, and a new key goes last.
- Case mapping (`toLowerCase`, `toUpperCase`) is ASCII only. `\s` and
  `trim` use JavaScript's full white-space set (`Text.IsSpace`), line
  terminators and the byte-order mark included.
- Regular expressions are hand-written predicates. The Italian rules are
  case-insensitive literal phrases replaced everywhere.
- Suggest.PartialConfidence: exact real arithmetic, not IEEE-754 doubles.
  JavaScript can land just below a boundary (0.7 + 0.5·0.2), which can
  change `needsReview` or the threshold test at the boundary.
- Suggest.BasicConfidence: same exact-real caveat.
- Suggest.PartialHitExample: in doubles `0.7 + (1/2)·0.2` is
  0.7999999999999999, so JavaScript flags this suggestion for review and
  drops it when the threshold is set to 0.8. The exact-real model gives 0.8 and does
  neither.
- Classify.CoveragePercent, Classify.Coverage: `Math.round((t / n) * 100)`
  is computed in doubles. Where the quotient times 100 falls just below a
  half, JavaScript rounds down while the exact `RoundRatio` rounds up:
  29/200 gives 14 against 15, and 23/40 gives 57 against 58 (also 57/200,
  113/200, 115/200, 46/80, 69/120).
- Suggest.Hits, Classify.ValueOr, Languages.Lookup: keys inherited from
  `Object.prototype` (`constructor`, `toString`, ...) are absent in the
  model. In JavaScript `dictionary[k]` is then a truthy function: the
  generator passes it to `preserveCase`, which throws a `TypeError`
  (`scripts/ai-translate.js:82`, `:97`, `:152`), and the dashboard counts
  such a key as translated (`docs/dashboard/js/app.js:156-157`, `:215`).
  BulkDelete.MockPrefix is affected the same way: `prefixes[targetLang]`
  for such a language is a function, not `[TR] `.
- Suggest.PreserveCase: requires a non-empty original. JavaScript throws on
  `original[0].toUpperCase()` for an empty original.
- Suggest.Translate: requires a dictionary without a non-empty value under
  the empty key (`WellFormed`). With one, an empty value (or a leading
  empty word) reaches `preserveCase` with an empty original and the script
  throws. The requirement also excludes runs that do not throw but where
  that entry decides the result: a word such as `123` or `-` cleans to the
  empty key and is replaced by its value, and a blank or punctuation-only
  text is an exact hit on it.
- AnalyzeCoverage.Percentage: `toFixed(2)` of a double is modelled as
  round-half-up in exact hundredths. The double's representation can round
  a true half the other way.
- AnalyzeCoverage.Average: `parseFloat` of each formatted coverage is
  summed in exact hundredths, with the same caveat.
- AnalyzeCoverage.HighIdenticalAlerts: a row with no translated key and
  some identical ones gets `None` as its percentage, where the script
  writes the division result `Infinity`.
