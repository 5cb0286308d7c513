/**
 * The per-key classification shared by the dashboard scripts: the status
 * of one key of a target language against the reference language, the
 * translated-key count and the coverage percentage built on it, and the
 * colour banding of a coverage value.
 */
module Classify {
  import opened Text
  import opened OrderedMaps

  /** One language's key→value table, in `Object.keys` order. */
  type Table = OMap<string>

  datatype Status = Missing | Identical | Translated

  /**
   * The status of a key whose reference value is `reference` and whose
   * target value, read as `languageData[key] || ''`, is `target`.
   */
  function StatusOf(reference: string, target: string): (s: Status)
    ensures s == Missing <==> target == ""
    ensures s == Identical <==> target != "" && target == reference
    ensures s == Translated <==> target != "" && target != reference
  {
    if target == "" then Missing
    else if target == reference then Identical
    else Translated
  }

  /** The coverage test: `languageData[key] && languageData[key] !== referenceValue`. */
  predicate CountsAsTranslated(reference: string, target: string)
  {
    target != "" && target != reference
  }

  /** `table[key] || ''`: an absent key reads as the empty string. */
  function ValueOr(t: Table, key: string): string
  {
    GetOr(t, key, "")
  }

  /** The status of `key` in `target`. */
  function KeyStatus(reference: Table, target: Table, key: string): Status
  {
    StatusOf(ValueOr(reference, key), ValueOr(target, key))
  }

  /** How many of `keys` count as translated in `target`. */
  function CountTranslated(reference: Table, target: Table, keys: seq<string>): (n: nat)
    ensures n <= |keys|
    decreases |keys|
  {
    if keys == [] then 0
    else
      var last := keys[|keys| - 1];
      CountTranslated(reference, target, keys[..|keys| - 1])
        + (if CountsAsTranslated(ValueOr(reference, last), ValueOr(target, last)) then 1 else 0)
  }

  /** How many of `keys` have status `s` in `target`. */
  function CountStatus(reference: Table, target: Table, keys: seq<string>, s: Status): (n: nat)
    ensures n <= |keys|
    decreases |keys|
  {
    if keys == [] then 0
    else
      CountStatus(reference, target, keys[..|keys| - 1], s)
        + (if KeyStatus(reference, target, keys[|keys| - 1]) == s then 1 else 0)
  }

  /** The coverage test and the status agree on every key. */
  lemma TranslatedIffStatus(reference: string, target: string)
    ensures CountsAsTranslated(reference, target) <==> StatusOf(reference, target) == Translated
  {
  }

  /** The translated count is the count of keys whose status is `Translated`. */
  lemma {:induction false} CountTranslatedIsStatusCount(reference: Table, target: Table, keys: seq<string>)
    ensures CountTranslated(reference, target, keys) == CountStatus(reference, target, keys, Translated)
    decreases |keys|
  {
    if keys != [] {
      CountTranslatedIsStatusCount(reference, target, keys[..|keys| - 1]);
    }
  }

  /** The three statuses partition `keys`. */
  lemma {:induction false} StatusCountsPartition(reference: Table, target: Table, keys: seq<string>)
    ensures CountStatus(reference, target, keys, Missing) + CountStatus(reference, target, keys, Identical)
            + CountStatus(reference, target, keys, Translated) == |keys|
    decreases |keys|
  {
    if keys != [] {
      StatusCountsPartition(reference, target, keys[..|keys| - 1]);
    }
  }

  /** A target equal to the reference translates nothing. */
  lemma {:induction false} SelfTranslatesNothing(reference: Table, keys: seq<string>)
    ensures CountTranslated(reference, reference, keys) == 0
    decreases |keys|
  {
    if keys != [] {
      SelfTranslatesNothing(reference, keys[..|keys| - 1]);
    }
  }

  /**
   * `Math.round(num / den)` for a non-negative ratio: the integer nearest to
   * `num / den`, a half rounded up.
   */
  function RoundRatio(num: nat, den: nat): (r: nat)
    requires den > 0
    ensures 2 * den * r <= 2 * num + den < 2 * den * (r + 1)
  {
    (2 * num + den) / (2 * den)
  }

  /** A rounded ratio is at most the rounded bound when `num <= bound * den`. */
  lemma RoundRatioBounded(num: nat, den: nat, bound: nat)
    requires den > 0 && num <= bound * den
    ensures RoundRatio(num, den) <= bound
  {
    var r := RoundRatio(num, den);
    assert 2 * den * (bound + 1) == 2 * (bound * den) + 2 * den;
    assert 2 * den * r < 2 * den * (bound + 1);
    MulCancel(2 * den, r, bound + 1);
  }

  lemma MulCancel(a: nat, x: nat, y: nat)
    requires a * x < a * y
    ensures x < y
  {
    if x >= y {
      MulMonotone(a, y, x);
    }
  }

  /**
   * `Math.round(translated / total * 100)`, with 0 for an empty reference:
   * the percentage of translated keys to the nearest integer.
   */
  function CoveragePercent(translated: nat, total: nat): (r: nat)
    requires translated <= total
    ensures r <= 100
    ensures total == 0 ==> r == 0
    ensures total > 0 ==> 2 * total * r <= 200 * translated + total < 2 * total * (r + 1)
  {
    if total == 0 then 0
    else
      RoundRatioBounded(100 * translated, total, 100);
      RoundRatio(100 * translated, total)
  }

  /** The coverage of `target` against `reference`, as the dashboard computes it. */
  function Coverage(reference: Table, target: Table): (r: nat)
    ensures r <= 100
    ensures reference.keys == [] ==> r == 0
  {
    CoveragePercent(CountTranslated(reference, target, reference.keys), |reference.keys|)
  }

  /** A language identical to the reference has coverage 0. */
  lemma SelfCoverageIsZero(reference: Table)
    ensures Coverage(reference, reference) == 0
  {
    SelfTranslatesNothing(reference, reference.keys);
  }

  /** Every reference key translated gives coverage 100. */
  lemma FullCoverage(reference: Table, target: Table)
    requires reference.keys != []
    requires CountTranslated(reference, target, reference.keys) == |reference.keys|
    ensures Coverage(reference, target) == 100
  {
    var n, r := |reference.keys|, Coverage(reference, target);
    assert 201 * n < 2 * n * (r + 1);
    if r < 100 {
      MulMonotone(2 * n, r + 1, 100);
      assert false;
    }
  }

  lemma MulMonotone(a: nat, x: nat, y: nat)
    requires x <= y
    ensures a * x <= a * y
  {
  }

  lemma MulSucc(a: nat, k: nat)
    ensures a * (k + 1) == a * k + a
  {
  }

  /** `getCoverageClass`: the CSS class of a coverage badge. */
  function CoverageClass(coverage: int): (r: string)
    ensures (r == "coverage-high") == (coverage >= 80)
    ensures (r == "coverage-medium") == (50 <= coverage < 80)
    ensures (r == "coverage-low") == (coverage < 50)
  {
    if coverage >= 80 then "coverage-high"
    else if coverage >= 50 then "coverage-medium"
    else "coverage-low"
  }

  /** `getCoverageColor`: the colour of a coverage bar. */
  function CoverageColor(coverage: int): (r: string)
    ensures (r == "#10b981") == (coverage >= 80)
    ensures (r == "#f59e0b") == (50 <= coverage < 80)
    ensures (r == "#ef4444") == (coverage < 50)
  {
    if coverage >= 80 then "#10b981"
    else if coverage >= 50 then "#f59e0b"
    else "#ef4444"
  }

  /** The badge class and the bar colour use the same thresholds. */
  lemma ClassAndColorAgree(coverage: int)
    ensures CoverageClass(coverage) == "coverage-high" <==> CoverageColor(coverage) == "#10b981"
    ensures CoverageClass(coverage) == "coverage-medium" <==> CoverageColor(coverage) == "#f59e0b"
    ensures CoverageClass(coverage) == "coverage-low" <==> CoverageColor(coverage) == "#ef4444"
  {
  }
}
