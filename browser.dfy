/**
 * The translation browser of dashboard/js/search.js: one item per key of
 * the reference language with its status, the status and search filters
 * applied to those items, and the status counts of the analytics chart.
 */
module Browser {
  import opened Text
  import opened OrderedMaps
  import opened Sequences
  import opened Classify

  /** One row of the browser (an element of `allTranslationItems`). */
  datatype Item = Item(key: string, reference: string, translation: string, status: Status, isNumeric: bool)

  /** The name a filter button gives a status. */
  function StatusName(s: Status): string
  {
    match s
    case Missing => "missing"
    case Identical => "identical"
    case Translated => "translated"
  }

  /** The item of `key`: the target value read as `languageData[key] || ''`. */
  function ItemFor(reference: Table, target: Table, key: string): Item
  {
    Item(key, ValueOr(reference, key), ValueOr(target, key),
         StatusOf(ValueOr(reference, key), ValueOr(target, key)), IsDigits(key))
  }

  /** The items of `keys`, in order. */
  function ItemsFor(reference: Table, target: Table, keys: seq<string>): (items: seq<Item>)
    ensures |items| == |keys|
    ensures forall i :: 0 <= i < |keys| ==> items[i] == ItemFor(reference, target, keys[i])
  {
    seq(|keys|, i requires 0 <= i < |keys| => ItemFor(reference, target, keys[i]))
  }

  /** How many of `items` have status `s` (the counters of `renderStatusChart`). */
  function CountItems(items: seq<Item>, s: Status): (n: nat)
    ensures n <= |items|
    decreases |items|
  {
    if items == [] then 0
    else CountItems(items[..|items| - 1], s) + (if items[|items| - 1].status == s then 1 else 0)
  }

  /** Every item has exactly one status: the three counts add up to the number of items. */
  lemma {:induction false} ItemCountsPartition(items: seq<Item>)
    ensures CountItems(items, Translated) + CountItems(items, Identical) + CountItems(items, Missing) == |items|
    decreases |items|
  {
    if items != [] {
      ItemCountsPartition(items[..|items| - 1]);
    }
  }

  /**
   * The browser's status counts are the per-key status counts over the
   * reference keys: the items' status is the one the coverage figures use.
   */
  lemma {:induction false} ItemCountsAreStatusCounts(reference: Table, target: Table, keys: seq<string>, s: Status)
    ensures CountItems(ItemsFor(reference, target, keys), s) == CountStatus(reference, target, keys, s)
    decreases |keys|
  {
    if keys != [] {
      var init := keys[..|keys| - 1];
      ItemCountsAreStatusCounts(reference, target, init, s);
      assert ItemsFor(reference, target, keys)[..|keys| - 1] == ItemsFor(reference, target, init);
    }
  }

  /** The keys of the items are exactly the reference keys: keys only the target has are not shown. */
  lemma ItemKeysAreReferenceKeys(reference: Table, target: Table)
    requires Valid(reference)
    ensures forall it :: it in ItemsFor(reference, target, reference.keys) ==> it.key in reference.values
    ensures forall k :: k in reference.values ==> exists it :: it in ItemsFor(reference, target, reference.keys) && it.key == k
  {
    var items := ItemsFor(reference, target, reference.keys);
    forall k | k in reference.values
      ensures exists it :: it in items && it.key == k
    {
      var i :| 0 <= i < |reference.keys| && reference.keys[i] == k;
      assert items[i] in items;
    }
  }

  /** The status filter: a filter button other than `'all'` keeps the items of its status. */
  function HasStatus(filter: string): Item -> bool
  {
    (it: Item) => StatusName(it.status) == filter
  }

  /** The search test: the lower-cased term occurs in the lower-cased key, reference or translation. */
  predicate MatchesSearch(it: Item, term: string)
  {
    Contains(ToLower(it.key), term) || Contains(ToLower(it.reference), term) || Contains(ToLower(it.translation), term)
  }

  function Mentions(term: string): Item -> bool
  {
    (it: Item) => MatchesSearch(it, term)
  }

  /**
   * `applyFilter`: the status filter, then the search on the lower-cased
   * content of the search box. The result keeps the items' order, holds only
   * items that pass both tests and every item that does.
   */
  function Filtered(items: seq<Item>, filter: string, searchInput: string): (r: seq<Item>)
    ensures IsSubsequence(r, items)
    ensures filter != "all" ==> forall it :: it in r ==> StatusName(it.status) == filter
    ensures searchInput != "" ==> forall it :: it in r ==> MatchesSearch(it, ToLower(searchInput))
    ensures forall it :: (it in items && (filter == "all" || StatusName(it.status) == filter)
                          && (searchInput == "" || MatchesSearch(it, ToLower(searchInput)))) ==> it in r
    ensures filter == "all" && searchInput == "" ==> r == items
  {
    var term := ToLower(searchInput);
    var byStatus := if filter != "all" then Keep(items, HasStatus(filter)) else items;
    var r := if term != [] then Keep(byStatus, Mentions(term)) else byStatus;
    assert IsSubsequence(r, items) by {
      if filter != "all" && term != [] {
        KeepTwice(items, HasStatus(filter), Mentions(term));
      } else if filter == "all" && term == [] {
        SubsequenceReflexive(items);
      }
    }
    r
  }

  /** The items of the missing filter are the missing keys; there are as many as the missing count. */
  lemma MissingFilterCount(reference: Table, target: Table)
    ensures |Filtered(ItemsFor(reference, target, reference.keys), "missing", "")|
            == CountStatus(reference, target, reference.keys, Missing)
  {
    var items := ItemsFor(reference, target, reference.keys);
    KeepCountsItems(items, Missing);
    ItemCountsAreStatusCounts(reference, target, reference.keys, Missing);
  }

  lemma {:induction false} KeepCountsItems(items: seq<Item>, s: Status)
    ensures |Keep(items, HasStatus(StatusName(s)))| == CountItems(items, s)
    decreases |items|
  {
    if items != [] {
      var init, last := items[..|items| - 1], items[|items| - 1];
      assert items == init + [last];
      KeepCountsItems(init, s);
      KeepSnoc(init, last, HasStatus(StatusName(s)));
      assert StatusName(last.status) == StatusName(s) <==> last.status == s;
    }
  }
}
