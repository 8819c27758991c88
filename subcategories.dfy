/**
 * The two-level breakdown `get_categories_by_month_with_subcategories` of lib/stats.py:
 * category, then subcategory, then month. Each category's entry is a breakdown of that
 * category's transactions by subcategory, built with the same steps as the one-level breakdown.
 */
module SubcategorySeries {
  import opened Wrappers
  import opened Transactions
  import opened Timeline
  import opened OrderedDicts
  import opened Totals
  import opened MonthlySeries
  import opened CategorySeries

  /** The transactions of category `c` among those `s` selects. */
  function InCategoryOf(s: Selector, c: string): Selector {
    Within(s, CategoryLevel, c)
  }

  /** `s` can still be split by category and by subcategory. */
  predicate OpenTwice(s: Selector) {
    Open(s, CategoryLevel) && Open(s, SubcategoryLevel)
  }

  lemma OpenInCategory(s: Selector, c: string)
    requires OpenTwice(s)
    ensures Open(InCategoryOf(s, c), SubcategoryLevel)
  {
  }

  // ---------------------------------------------------------------------------
  // The grouping loop

  /** After reading `ts`: the categories in order of first appearance, each grouped by subcategory. */
  ghost predicate Nested(e: Dict<string, Dict<string, Dict<Month, real>>>, ts: seq<Transaction>, s: Selector) {
    && e.Valid()
    && e.keys == FirstLabels(ts, s, CategoryLevel)
    && forall c :: c in e.at ==> Grouped(e.at[c], ts, InCategoryOf(s, c), SubcategoryLevel)
  }

  /** With nothing selected there is no group: `expenses[category] = {}` for a category not seen yet. */
  lemma GroupedOfNone(ts: seq<Transaction>, s: Selector, l: Level)
    requires forall t :: t in ts ==> !Matches(t, s)
    ensures Grouped(EmptyDict(), ts, s, l)
  {
    FirstLabelsOfNone(ts, s, l);
  }


  /** A transaction that is not selected changes nothing. */
  lemma NestedSkip(e: Dict<string, Dict<string, Dict<Month, real>>>, ts: seq<Transaction>, t: Transaction, s: Selector)
    requires Nested(e, ts, s) && OpenTwice(s) && !Matches(t, s)
    ensures Nested(e, ts + [t], s)
  {
    FirstLabelsStep(ts, t, s, CategoryLevel);
    forall c | c in e.at ensures Grouped(e.at[c], ts + [t], InCategoryOf(s, c), SubcategoryLevel) {
      OpenInCategory(s, c);
      WithinMatches(t, s, CategoryLevel, c);
      SkipStep(e.at[c], ts, t, InCategoryOf(s, c), SubcategoryLevel);
    }
  }

  /** The subcategories of `t`'s category before `t` is read: empty for a category not seen yet. */
  lemma NestedEntry(e: Dict<string, Dict<string, Dict<Month, real>>>, ts: seq<Transaction>, s: Selector, c: string)
    requires Nested(e, ts, s) && OpenTwice(s) && c !in e.at
    ensures Grouped(EmptyDict(), ts, InCategoryOf(s, c), SubcategoryLevel)
  {
    UnlistedSelectsNothing(ts, s, CategoryLevel, c);
    GroupedOfNone(ts, InCategoryOf(s, c), SubcategoryLevel);
  }

  /** Once `t`'s category has taken in `t`, every category accounts for `ts + [t]`. */
  lemma NestedStep(e: Dict<string, Dict<string, Dict<Month, real>>>, ts: seq<Transaction>, t: Transaction, s: Selector,
                   inner: Dict<string, Dict<Month, real>>, updated: Dict<string, Dict<string, Dict<Month, real>>>)
    requires Nested(e, ts, s) && OpenTwice(s) && Matches(t, s)
    requires Grouped(inner, ts + [t], InCategoryOf(s, t.category), SubcategoryLevel)
    requires updated == e.Put(t.category, inner)
    ensures Nested(updated, ts + [t], s)
  {
    FirstLabelsStep(ts, t, s, CategoryLevel);
    forall c | c in e.at && c != t.category
      ensures Grouped(e.at[c], ts + [t], InCategoryOf(s, c), SubcategoryLevel)
    {
      OpenInCategory(s, c);
      WithinMatches(t, s, CategoryLevel, c);
      SkipStep(e.at[c], ts, t, InCategoryOf(s, c), SubcategoryLevel);
    }
  }

  /** One pass of the grouping loop: add `t` to its category, subcategory and month. */
  method AddToSubcategory(expenses: Dict<string, Dict<string, Dict<Month, real>>>, t: Transaction, kind: Kind,
                          ghost ts: seq<Transaction>)
    returns (updated: Dict<string, Dict<string, Dict<Month, real>>>)
    requires Nested(expenses, ts, OfKind(kind))
    ensures Nested(updated, ts + [t], OfKind(kind))
  {
    ghost var s := OfKind(kind);
    updated := expenses;
    if t.kind != kind {
      NestedSkip(updated, ts, t, s);
      return;
    }
    var category := t.category;
    var subcategories: Dict<string, Dict<Month, real>>;
    if category !in updated.at {
      NestedEntry(updated, ts, s, category);
      subcategories := EmptyDict();
    } else {
      subcategories := updated.at[category];
    }
    ghost var within := InCategoryOf(s, category);
    OpenInCategory(s, category);
    var subcategory := SubcategoryName(t.subcategory);
    if subcategory !in subcategories.at {
      OpenNew(subcategories, ts, t, within, SubcategoryLevel);
      subcategories := subcategories.Put(subcategory, EmptyDict());
    } else {
      OpenExisting(subcategories, ts, t, within, SubcategoryLevel);
    }
    subcategories := AddToGroupMonth(subcategories, t, subcategory, within, SubcategoryLevel, ts);
    updated := updated.Put(category, subcategories);
    NestedStep(expenses, ts, t, s, subcategories, updated);
  }

  /** The grouping loop: the transactions of `kind` by category, subcategory and month. */
  method GroupBySubcategory(ts: seq<Transaction>, kind: Kind) returns (expenses: Dict<string, Dict<string, Dict<Month, real>>>)
    ensures Nested(expenses, ts, OfKind(kind))
  {
    expenses := EmptyDict();
    var i := 0;
    while i < |ts|
      invariant 0 <= i <= |ts|
      invariant Nested(expenses, ts[..i], OfKind(kind))
    {
      assert ts[..i + 1] == ts[..i] + [ts[i]];
      expenses := AddToSubcategory(expenses, ts[i], kind, ts[..i]);
      i := i + 1;
    }
    assert ts[..i] == ts;
  }

  // ---------------------------------------------------------------------------
  // _fill_empty_subcategories

  /** After filling: the same categories, each a filled breakdown by subcategory. */
  ghost predicate NestedFilled(e: Dict<string, Dict<string, Dict<Month, real>>>, ts: seq<Transaction>, s: Selector) {
    && e.Valid()
    && e.keys == FirstLabels(ts, s, CategoryLevel)
    && forall c :: c in e.at ==> FilledGroups(e.at[c], ts, InCategoryOf(s, c), SubcategoryLevel)
  }

  /** `_fill_empty_subcategories`: every subcategory of every category gets an entry 0 for each month it lacks. */
  method FillSubcategories(e: Dict<string, Dict<string, Dict<Month, real>>>, months: seq<Month>, ghost ts: seq<Transaction>,
                           ghost s: Selector)
    returns (filled: Dict<string, Dict<string, Dict<Month, real>>>)
    requires Nested(e, ts, s) && ts != [] && months == Months(ts)
    ensures NestedFilled(filled, ts, s)
  {
    filled := e;
    var i := 0;
    while i < |e.keys|
      invariant 0 <= i <= |e.keys|
      invariant FilledBefore(filled, e, i, ts, s)
    {
      var category := e.keys[i];
      FilledBeforeUntouched(filled, e, i, ts, s);
      var subcategories := FillOneCategory(filled.at[category], months, ts, InCategoryOf(s, category));
      FilledStep(filled, e, i, ts, s, subcategories);
      filled := filled.Put(category, subcategories);
      i := i + 1;
    }
    assert e.keys[..i] == e.keys;
  }

  /** The outer loop's invariant: the categories before index `i` are filled, the others unchanged. */
  ghost predicate FilledBefore(filled: Dict<string, Dict<string, Dict<Month, real>>>, e: Dict<string, Dict<string, Dict<Month, real>>>,
                               i: int, ts: seq<Transaction>, s: Selector)
    requires 0 <= i <= |e.keys|
  {
    && e.Valid() && filled.Valid() && filled.keys == e.keys
    && forall c :: c in filled.at ==>
         if c in e.keys[..i] then FilledGroups(filled.at[c], ts, InCategoryOf(s, c), SubcategoryLevel)
         else filled.at[c] == e.at[c]
  }

  /** The category at index `i` has not been touched yet. */
  lemma FilledBeforeUntouched(filled: Dict<string, Dict<string, Dict<Month, real>>>, e: Dict<string, Dict<string, Dict<Month, real>>>,
                              i: int, ts: seq<Transaction>, s: Selector)
    requires Nested(e, ts, s) && 0 <= i < |e.keys| && FilledBefore(filled, e, i, ts, s)
    ensures e.keys[i] in filled.at && Grouped(filled.at[e.keys[i]], ts, InCategoryOf(s, e.keys[i]), SubcategoryLevel)
  {
    assert e.keys[i] !in e.keys[..i];
  }

  /** Filling the category at index `i` extends the invariant to index `i + 1`. */
  lemma FilledStep(filled: Dict<string, Dict<string, Dict<Month, real>>>, e: Dict<string, Dict<string, Dict<Month, real>>>,
                   i: int, ts: seq<Transaction>, s: Selector, subcategories: Dict<string, Dict<Month, real>>)
    requires 0 <= i < |e.keys| && FilledBefore(filled, e, i, ts, s)
    requires FilledGroups(subcategories, ts, InCategoryOf(s, e.keys[i]), SubcategoryLevel)
    ensures FilledBefore(filled.Put(e.keys[i], subcategories), e, i + 1, ts, s)
  {
    assert e.keys[..i + 1] == e.keys[..i] + [e.keys[i]];
  }

  /** The two inner loops of `_fill_empty_subcategories` for one category. */
  method FillOneCategory(subcategories: Dict<string, Dict<Month, real>>, months: seq<Month>, ghost ts: seq<Transaction>,
                         ghost within: Selector)
    returns (filled: Dict<string, Dict<Month, real>>)
    requires Grouped(subcategories, ts, within, SubcategoryLevel) && ts != [] && months == Months(ts)
    ensures FilledGroups(filled, ts, within, SubcategoryLevel)
  {
    filled := FillGroups(subcategories, months);
    GroupsFilled(subcategories, filled, ts, within, SubcategoryLevel);
  }

  // ---------------------------------------------------------------------------
  // _sort_categories

  /** `key=lambda x: sum(x[1].values())`: the total of every group, empty or not. */
  function SeriesTotals(e: Dict<string, Dict<Month, real>>): (r: map<string, real>)
    requires WellFormedGroups(e)
    ensures forall c :: c in r <==> c in e.at
  {
    map c | c in e.at :: Total(e.at[c])
  }

  /** Where no group is empty, these are the totals the one-level breakdown ranks by. */
  lemma SeriesTotalsOfFilled(e: Dict<string, Dict<Month, real>>)
    requires WellFormedGroups(e) && forall c :: c in e.at ==> e.at[c].keys != []
    ensures SeriesTotals(e) == GroupTotals(e)
  {
    var a, b := SeriesTotals(e), GroupTotals(e);
    assert forall c :: c in a <==> c in b;
    assert forall c :: c in a ==> a[c] == b[c];
  }

  /** Within one category: the months of every subcategory in order, the subcategories by their totals. */
  method SortOneCategory(subcategories: Dict<string, Dict<Month, real>>, months: seq<Month>, ghost ts: seq<Transaction>,
                         ghost within: Selector)
    returns (sorted: Dict<string, Dict<Month, real>>)
    requires FilledGroups(subcategories, ts, within, SubcategoryLevel) && Open(within, SubcategoryLevel)
    requires ts != [] && months == Months(ts)
    ensures IsRankedBreakdown(sorted, ts, within, SubcategoryLevel)
  {
    FilledGroupTotals(subcategories, ts, within, SubcategoryLevel);
    SeriesTotalsOfFilled(subcategories);
    var order := Rank(subcategories.keys, SeriesTotals(subcategories));
    RankPermutes(subcategories.keys, SeriesTotals(subcategories));
    sorted := SortGroupMonths(subcategories, order, months, ts, within, SubcategoryLevel);
  }

  /** A finished two-level breakdown: categories in order of first appearance, each a ranked breakdown by subcategory. */
  ghost predicate IsNestedBreakdown(r: Dict<string, Dict<string, Dict<Month, real>>>, ts: seq<Transaction>, s: Selector) {
    && r.Valid()
    && r.keys == FirstLabels(ts, s, CategoryLevel)
    && forall c :: c in r.at ==> IsRankedBreakdown(r.at[c], ts, InCategoryOf(s, c), SubcategoryLevel)
  }

  /** The outer loop of `_sort_categories` part-way: the categories in `done` are finished, the others untouched. */
  ghost predicate SortedUpTo(sorted: Dict<string, Dict<string, Dict<Month, real>>>, e: Dict<string, Dict<string, Dict<Month, real>>>,
                             done: seq<string>, ts: seq<Transaction>, s: Selector) {
    && sorted.Valid()
    && sorted.keys == e.keys
    && forall c :: c in sorted.at ==>
         if c in done then IsRankedBreakdown(sorted.at[c], ts, InCategoryOf(s, c), SubcategoryLevel)
         else c in e.at && sorted.at[c] == e.at[c]
  }

  lemma SortedUpToPending(sorted: Dict<string, Dict<string, Dict<Month, real>>>, e: Dict<string, Dict<string, Dict<Month, real>>>,
                          done: seq<string>, ts: seq<Transaction>, s: Selector, c: string)
    requires SortedUpTo(sorted, e, done, ts, s) && c in e.keys && c !in done
    ensures c in sorted.at && c in e.at && sorted.at[c] == e.at[c]
  {
  }

  lemma SortedUpToStep(sorted: Dict<string, Dict<string, Dict<Month, real>>>, e: Dict<string, Dict<string, Dict<Month, real>>>,
                       done: seq<string>, ts: seq<Transaction>, s: Selector, c: string,
                       inner: Dict<string, Dict<Month, real>>, updated: Dict<string, Dict<string, Dict<Month, real>>>)
    requires SortedUpTo(sorted, e, done, ts, s) && c in e.keys
    requires IsRankedBreakdown(inner, ts, InCategoryOf(s, c), SubcategoryLevel)
    requires updated == sorted.Put(c, inner)
    ensures SortedUpTo(updated, e, done + [c], ts, s)
  {
  }

  /** `_sort_categories`: each category is reordered in place, so the categories keep their order. */
  method SortSubcategories(e: Dict<string, Dict<string, Dict<Month, real>>>, months: seq<Month>, ghost ts: seq<Transaction>,
                           ghost s: Selector)
    returns (sorted: Dict<string, Dict<string, Dict<Month, real>>>)
    requires NestedFilled(e, ts, s) && OpenTwice(s) && ts != [] && months == Months(ts)
    ensures IsNestedBreakdown(sorted, ts, s)
  {
    sorted := e;
    var i := 0;
    while i < |e.keys|
      invariant 0 <= i <= |e.keys|
      invariant SortedUpTo(sorted, e, e.keys[..i], ts, s)
    {
      var category := e.keys[i];
      assert e.keys[..i + 1] == e.keys[..i] + [category];
      assert category !in e.keys[..i];
      SortedUpToPending(sorted, e, e.keys[..i], ts, s, category);
      OpenInCategory(s, category);
      var subcategories := SortOneCategory(sorted.at[category], months, ts, InCategoryOf(s, category));
      ghost var before := sorted;
      sorted := sorted.Put(category, subcategories);
      SortedUpToStep(before, e, e.keys[..i], ts, s, category, subcategories, sorted);
      i := i + 1;
    }
    assert e.keys[..i] == e.keys;
  }

  method GetCategoriesByMonthWithSubcategories(ts: seq<Transaction>, kind: Kind)
    returns (r: Result<Dict<string, Dict<string, Dict<Month, real>>>, StatsError>)
    ensures r.Failure? <==> ts == []
    ensures r.Failure? ==> r.error == DatesNotFound
    ensures r.Success? ==> IsNestedBreakdown(r.value, ts, OfKind(kind))
  {
    var expenses := GroupBySubcategory(ts, kind);
    var monthsResult := GetMonths(ts);
    if monthsResult.Failure? {
      return Failure(monthsResult.error);
    }
    var months := monthsResult.value;
    var filled := FillSubcategories(expenses, months, ts, OfKind(kind));
    var sorted := SortSubcategories(filled, months, ts, OfKind(kind));
    return Success(sorted);
  }

  // ---------------------------------------------------------------------------
  // What a two-level breakdown adds up to

  /** In every month the subcategories of a category add up to that category's total for the month. */
  lemma SubcategoryColumnsAddUp(r: Dict<string, Dict<string, Dict<Month, real>>>, ts: seq<Transaction>, s: Selector,
                                c: string, m: Month)
    requires IsNestedBreakdown(r, ts, s) && OpenTwice(s) && ts != []
    requires c in r.at && m in Months(ts)
    ensures AllIn(r.at[c].keys, Column(r.at[c], m))
    ensures SumOf(r.at[c].keys, Column(r.at[c], m)) == MonthSum(ts, InCategoryOf(s, c), m)
  {
    OpenInCategory(s, c);
    BreakdownColumnsAddUp(r.at[c], ts, InCategoryOf(s, c), SubcategoryLevel, m);
  }

  /** Over the whole timeline the subcategories of a category add up to everything in that category. */
  lemma SubcategoryTotalsAddUp(r: Dict<string, Dict<string, Dict<Month, real>>>, ts: seq<Transaction>, s: Selector, c: string)
    requires IsNestedBreakdown(r, ts, s) && OpenTwice(s) && ts != [] && c in r.at
    ensures WellFormedGroups(r.at[c]) && AllIn(r.at[c].keys, GroupTotals(r.at[c]))
    ensures SumOf(r.at[c].keys, GroupTotals(r.at[c])) == SumWhere(ts, InCategoryOf(s, c))
  {
    OpenInCategory(s, c);
    BreakdownTotalsAddUp(r.at[c], ts, InCategoryOf(s, c), SubcategoryLevel);
  }

  /**
   * The two-level breakdown refines the one-level breakdown: both have the same categories
   * (in first-appearance order here, ranked there), and stacking a category's subcategories in
   * any month gives that category's entry in `get_categories_by_month`.
   */
  lemma NestedRefinesFlat(r: Dict<string, Dict<string, Dict<Month, real>>>, flat: Dict<string, Dict<Month, real>>,
                          ts: seq<Transaction>, s: Selector)
    requires IsNestedBreakdown(r, ts, s) && IsRankedBreakdown(flat, ts, s, CategoryLevel)
    requires OpenTwice(s) && ts != []
    ensures forall c :: c in r.at <==> c in flat.at
    ensures forall c, m :: c in r.at && m in Months(ts) ==>
      m in flat.at[c].at && AllIn(r.at[c].keys, Column(r.at[c], m))
      && SumOf(r.at[c].keys, Column(r.at[c], m)) == flat.at[c].at[m]
  {
    BreakdownKeys(flat, ts, s, CategoryLevel);
    forall c, m | c in r.at && m in Months(ts)
      ensures m in flat.at[c].at && AllIn(r.at[c].keys, Column(r.at[c], m))
      && SumOf(r.at[c].keys, Column(r.at[c], m)) == flat.at[c].at[m]
    {
      SubcategoryColumnsAddUp(r, ts, s, c, m);
      BreakdownEntry(flat, ts, s, CategoryLevel, c, m);
      WithinThenMonth(s, CategoryLevel, c, m);
    }
  }
}
