/**
 * `get_categories_by_year_with_subcategory` of lib/stats.py: the expenses summed per year,
 * at three levels (everything, each category, each subcategory of a category), read from the
 * last transaction to the first. Every level holds a `sum` and a `year` dict; the sums agree
 * across the levels.
 */
module YearTree {
  import opened Wrappers
  import opened Transactions
  import opened OrderedDicts
  import opened Totals
  import opened CategorySeries

  /** A subcategory's entry: `{"sum": ..., "year": {year: ...}}`. */
  datatype Tally = Tally(sum: real, year: Dict<int, real>)

  /** A category's entry: its own `sum` and `year`, and its `subcategories`. */
  datatype CategoryNode = CategoryNode(sum: real, year: Dict<int, real>, subcategories: Dict<string, Tally>)

  /** The whole tree; `NoExpenses` is the empty dict returned when there is no expense at all. */
  datatype ExpenseTree =
    | NoExpenses
    | ExpenseTree(sum: real, year: Dict<int, real>, categories: Dict<string, CategoryNode>)

  /** The tree counts only the EXPENSE transactions. */
  function Spending(): Selector {
    OfKind(Expense)
  }

  // ---------------------------------------------------------------------------
  // Reading order

  /** `reversed(transactions)`. */
  function Reversed<T(!new)>(s: seq<T>): (r: seq<T>)
    ensures |r| == |s|
    ensures forall x :: x in r <==> x in s
  {
    if s == [] then [] else Reversed(s[1..]) + [s[0]]
  }

  /** Reading one more transaction, from the back, appends it to what has been read. */
  lemma ReversedStep<T(!new)>(s: seq<T>, i: nat)
    requires i < |s|
    ensures Reversed(s[i..]) == Reversed(s[i + 1..]) + [s[i]]
  {
    assert s[i..][1..] == s[i + 1..];
  }

  /** The order of reading does not change a sum. */
  lemma {:induction false} SumWhereReversed(ts: seq<Transaction>, s: Selector)
    ensures SumWhere(Reversed(ts), s) == SumWhere(ts, s)
  {
    if ts != [] {
      SumWhereReversed(ts[1..], s);
      SumStep(Reversed(ts[1..]), ts[0], s);
      SumWherePrepend(ts[0], ts[1..], s);
      assert [ts[0]] + ts[1..] == ts;
    }
  }

  // ---------------------------------------------------------------------------
  // One `{"sum", "year"}` entry

  /** The years of the transactions `s` selects. */
  ghost function SelectedYears(ps: seq<Transaction>, s: Selector): set<int> {
    if ps == [] then {}
    else SelectedYears(ps[..|ps| - 1], s) + (if Matches(ps[|ps| - 1], s) then {ps[|ps| - 1].date.year} else {})
  }

  lemma {:induction false} SelectedYearsExact(ps: seq<Transaction>, s: Selector)
    ensures forall t :: t in ps && Matches(t, s) ==> t.date.year in SelectedYears(ps, s)
    ensures forall y :: y in SelectedYears(ps, s) ==> exists t :: t in ps && Matches(t, s) && t.date.year == y
  {
    if ps != [] {
      var init, last := ps[..|ps| - 1], ps[|ps| - 1];
      SelectedYearsExact(init, s);
      assert ps == init + [last];
      forall y | y in SelectedYears(ps, s) ensures exists t :: t in ps && Matches(t, s) && t.date.year == y {
        if y in SelectedYears(init, s) {
          var t :| t in init && Matches(t, s) && t.date.year == y;
          assert t in ps;
        } else {
          assert last in ps;
        }
      }
    }
  }

  lemma SelectedYearsStep(ps: seq<Transaction>, t: Transaction, s: Selector)
    ensures SelectedYears(ps + [t], s) == SelectedYears(ps, s) + (if Matches(t, s) then {t.date.year} else {})
  {
    assert (ps + [t])[..|ps|] == ps;
  }

  lemma SumStep(ps: seq<Transaction>, t: Transaction, s: Selector)
    ensures SumWhere(ps + [t], s) == SumWhere(ps, s) + (if Matches(t, s) then Amount(t) else 0.0)
  {
    assert (ps + [t])[..|ps|] == ps;
  }

  /** The sum of what `s` selects in year `y`. */
  function YearSum(ps: seq<Transaction>, s: Selector, y: int): real {
    SumWhere(ps, s.(year := Some(y)))
  }

  lemma YearSumStep(ps: seq<Transaction>, t: Transaction, s: Selector, y: int)
    requires s.year.None?
    ensures YearSum(ps + [t], s, y) == YearSum(ps, s, y) + (if Matches(t, s) && t.date.year == y then Amount(t) else 0.0)
  {
    SumStep(ps, t, s.(year := Some(y)));
  }

  /** A `year` dict after reading `ps`: one entry per year with a selected transaction, holding that year's sum. */
  ghost predicate SummedByYear(d: Dict<int, real>, ps: seq<Transaction>, s: Selector) {
    && d.Valid()
    && (forall y :: y in d.at <==> y in SelectedYears(ps, s))
    && forall y :: y in d.at ==> d.at[y] == YearSum(ps, s, y)
  }

  /** A `sum` and a `year` dict after reading `ps`. */
  ghost predicate Tallied(sum: real, year: Dict<int, real>, ps: seq<Transaction>, s: Selector) {
    sum == SumWhere(ps, s) && SummedByYear(year, ps, s)
  }

  /** With nothing selected, the fresh entry `sum = 0, year = {}` is right. */
  lemma TallyOfNone(ps: seq<Transaction>, s: Selector)
    requires forall t :: t in ps ==> !Matches(t, s)
    ensures Tallied(0.0, EmptyDict(), ps, s)
  {
    SumWhereBounds(ps, s);
    SelectedYearsExact(ps, s);
  }

  /** A transaction that is not selected leaves an entry as it is. */
  lemma TallySkip(sum: real, year: Dict<int, real>, ps: seq<Transaction>, t: Transaction, s: Selector)
    requires Tallied(sum, year, ps, s) && s.year.None? && !Matches(t, s)
    ensures Tallied(sum, year, ps + [t], s)
  {
    SumStep(ps, t, s);
    SelectedYearsStep(ps, t, s);
    forall y ensures YearSum(ps + [t], s, y) == YearSum(ps, s, y) {
      YearSumStep(ps, t, s, y);
    }
  }

  /** `sum + value`, and `year[date] = value` for a year not seen yet. */
  lemma TallyNewYear(sum: real, year: Dict<int, real>, ps: seq<Transaction>, t: Transaction, s: Selector,
                     newSum: real, newYear: Dict<int, real>)
    requires Tallied(sum, year, ps, s) && s.year.None? && Matches(t, s) && t.date.year !in year.at
    requires newSum == sum + Amount(t) && newYear == year.Put(t.date.year, Amount(t))
    ensures Tallied(newSum, newYear, ps + [t], s)
  {
    SelectedYearsExact(ps, s);
    SumWhereBounds(ps, s.(year := Some(t.date.year)));
    SumStep(ps, t, s);
    SelectedYearsStep(ps, t, s);
    forall y ensures YearSum(ps + [t], s, y) == YearSum(ps, s, y) + if t.date.year == y then Amount(t) else 0.0 {
      YearSumStep(ps, t, s, y);
    }
  }

  /** `sum + value`, and `year[date] = value + year[date]`. */
  lemma TallySameYear(sum: real, year: Dict<int, real>, ps: seq<Transaction>, t: Transaction, s: Selector,
                      newSum: real, v: real, newYear: Dict<int, real>)
    requires Tallied(sum, year, ps, s) && s.year.None? && Matches(t, s) && t.date.year in year.at
    requires newSum == sum + Amount(t) && v == year.at[t.date.year] + Amount(t) && newYear == year.Put(t.date.year, v)
    ensures Tallied(newSum, newYear, ps + [t], s)
  {
    SumStep(ps, t, s);
    SelectedYearsStep(ps, t, s);
    forall y ensures YearSum(ps + [t], s, y) == YearSum(ps, s, y) + if t.date.year == y then Amount(t) else 0.0 {
      YearSumStep(ps, t, s, y);
    }
  }

  /** The update the three `_fill_*` helpers share: add `value` to `year[date]`, creating it if absent. */
  method AddToYear(year: Dict<int, real>, ghost sum: real, ghost newSum: real, date: int, value: real,
                   ghost ps: seq<Transaction>, ghost t: Transaction, ghost s: Selector)
    returns (updated: Dict<int, real>)
    requires Tallied(sum, year, ps, s) && s.year.None? && Matches(t, s)
    requires date == t.date.year && value == Amount(t) && newSum == sum + Amount(t)
    ensures Tallied(newSum, updated, ps + [t], s)
  {
    if date !in year.at {
      updated := year.Put(date, value);
      TallyNewYear(sum, year, ps, t, s, newSum, updated);
    } else {
      var v := value + year.at[date];
      updated := year.Put(date, v);
      TallySameYear(sum, year, ps, t, s, newSum, v, updated);
    }
  }

  // ---------------------------------------------------------------------------
  // The tree after reading `ps`

  ghost predicate SubcategoriesTallied(subs: Dict<string, Tally>, ps: seq<Transaction>, s: Selector) {
    && subs.Valid()
    && subs.keys == FirstLabels(ps, s, SubcategoryLevel)
    && forall n :: n in subs.at ==> Tallied(subs.at[n].sum, subs.at[n].year, ps, Within(s, SubcategoryLevel, n))
  }

  ghost predicate CategoryTallied(node: CategoryNode, ps: seq<Transaction>, s: Selector) {
    Tallied(node.sum, node.year, ps, s) && SubcategoriesTallied(node.subcategories, ps, s)
  }

  ghost predicate CategoriesTallied(cats: Dict<string, CategoryNode>, ps: seq<Transaction>, s: Selector) {
    && cats.Valid()
    && cats.keys == FirstLabels(ps, s, CategoryLevel)
    && forall c :: c in cats.at ==> CategoryTallied(cats.at[c], ps, Within(s, CategoryLevel, c))
  }

  /** Between `_fill_category` and `_fill_subcategory`: `t` counts in its category, not yet in a subcategory. */
  ghost predicate CategoriesHalfway(cats: Dict<string, CategoryNode>, ps: seq<Transaction>, t: Transaction, s: Selector) {
    && cats.Valid()
    && cats.keys == FirstLabels(ps + [t], s, CategoryLevel)
    && forall c :: c in cats.at ==>
         && Tallied(cats.at[c].sum, cats.at[c].year, ps + [t], Within(s, CategoryLevel, c))
         && SubcategoriesTallied(cats.at[c].subcategories, ps, Within(s, CategoryLevel, c))
  }

  /** The tree after reading `ps`: empty exactly when no expense was read, otherwise every level tallied. */
  ghost predicate IsYearTree(e: ExpenseTree, ps: seq<Transaction>) {
    && (e.NoExpenses? <==> forall t :: t in ps ==> !Matches(t, Spending()))
    && (e.ExpenseTree? ==> Tallied(e.sum, e.year, ps, Spending()) && CategoriesTallied(e.categories, ps, Spending()))
  }

  /** The selectors the tree narrows to leave the month and the year open. */
  lemma WithinKeepsYear(s: Selector, l: Level, name: string)
    ensures Within(s, l, name).year == s.year && Within(s, l, name).month == s.month
  {
    match l
    case CategoryLevel =>
    case SubcategoryLevel =>
  }

  lemma SubcategoriesOfNone(ps: seq<Transaction>, s: Selector)
    requires forall t :: t in ps ==> !Matches(t, s)
    ensures SubcategoriesTallied(EmptyDict(), ps, s)
  {
    FirstLabelsOfNone(ps, s, SubcategoryLevel);
  }

  lemma CategoriesOfNone(ps: seq<Transaction>, s: Selector)
    requires forall t :: t in ps ==> !Matches(t, s)
    ensures CategoriesTallied(EmptyDict(), ps, s)
  {
    FirstLabelsOfNone(ps, s, CategoryLevel);
  }

  /** A transaction a category does not select leaves its subcategories as they are. */
  lemma SubcategoriesSkip(subs: Dict<string, Tally>, ps: seq<Transaction>, t: Transaction, s: Selector)
    requires SubcategoriesTallied(subs, ps, s) && Open(s, SubcategoryLevel) && s.year.None? && !Matches(t, s)
    ensures SubcategoriesTallied(subs, ps + [t], s)
  {
    FirstLabelsStep(ps, t, s, SubcategoryLevel);
    forall n | n in subs.at ensures Tallied(subs.at[n].sum, subs.at[n].year, ps + [t], Within(s, SubcategoryLevel, n)) {
      WithinMatches(t, s, SubcategoryLevel, n);
      WithinKeepsYear(s, SubcategoryLevel, n);
      TallySkip(subs.at[n].sum, subs.at[n].year, ps, t, Within(s, SubcategoryLevel, n));
    }
  }

  /** Once the subcategory of `t` has counted `t`, every subcategory accounts for `ps + [t]`. */
  lemma SubcategoriesStep(subs: Dict<string, Tally>, ps: seq<Transaction>, t: Transaction, s: Selector,
                          tally: Tally, updated: Dict<string, Tally>)
    requires SubcategoriesTallied(subs, ps, s) && Open(s, SubcategoryLevel) && s.year.None? && Matches(t, s)
    requires Tallied(tally.sum, tally.year, ps + [t], Within(s, SubcategoryLevel, Label(t, SubcategoryLevel)))
    requires updated == subs.Put(Label(t, SubcategoryLevel), tally)
    ensures SubcategoriesTallied(updated, ps + [t], s)
  {
    FirstLabelsStep(ps, t, s, SubcategoryLevel);
    var name := Label(t, SubcategoryLevel);
    forall n | n in subs.at && n != name
      ensures Tallied(subs.at[n].sum, subs.at[n].year, ps + [t], Within(s, SubcategoryLevel, n))
    {
      WithinMatches(t, s, SubcategoryLevel, n);
      WithinKeepsYear(s, SubcategoryLevel, n);
      TallySkip(subs.at[n].sum, subs.at[n].year, ps, t, Within(s, SubcategoryLevel, n));
    }
  }

  /** A category that does not select `t` stays tallied. */
  lemma CategorySkip(node: CategoryNode, ps: seq<Transaction>, t: Transaction, s: Selector, c: string)
    requires CategoryTallied(node, ps, Within(s, CategoryLevel, c)) && OpenForTree(s) && s.year.None?
    requires !Matches(t, Within(s, CategoryLevel, c))
    ensures CategoryTallied(node, ps + [t], Within(s, CategoryLevel, c))
  {
    WithinKeepsYear(s, CategoryLevel, c);
    TallySkip(node.sum, node.year, ps, t, Within(s, CategoryLevel, c));
    SubcategoriesSkip(node.subcategories, ps, t, Within(s, CategoryLevel, c));
  }

  /** `s` can still be split by category, subcategory and year. */
  predicate OpenForTree(s: Selector) {
    Open(s, CategoryLevel) && Open(s, SubcategoryLevel) && s.year.None?
  }

  lemma CategoriesSkip(cats: Dict<string, CategoryNode>, ps: seq<Transaction>, t: Transaction, s: Selector)
    requires CategoriesTallied(cats, ps, s) && OpenForTree(s) && !Matches(t, s)
    ensures CategoriesTallied(cats, ps + [t], s)
  {
    FirstLabelsStep(ps, t, s, CategoryLevel);
    forall c | c in cats.at ensures CategoryTallied(cats.at[c], ps + [t], Within(s, CategoryLevel, c)) {
      WithinMatches(t, s, CategoryLevel, c);
      CategorySkip(cats.at[c], ps, t, s, c);
    }
  }

  /** `_fill_category` done: `t` counts in its category's `sum` and `year`. */
  lemma HalfwayStep(cats: Dict<string, CategoryNode>, ps: seq<Transaction>, t: Transaction, s: Selector,
                    node: CategoryNode, updated: Dict<string, CategoryNode>)
    requires CategoriesTallied(cats, ps, s) && OpenForTree(s) && Matches(t, s)
    requires Tallied(node.sum, node.year, ps + [t], Within(s, CategoryLevel, t.category))
    requires SubcategoriesTallied(node.subcategories, ps, Within(s, CategoryLevel, t.category))
    requires updated == cats.Put(t.category, node)
    ensures CategoriesHalfway(updated, ps, t, s)
  {
    FirstLabelsStep(ps, t, s, CategoryLevel);
    forall c | c in updated.at
      ensures && Tallied(updated.at[c].sum, updated.at[c].year, ps + [t], Within(s, CategoryLevel, c))
              && SubcategoriesTallied(updated.at[c].subcategories, ps, Within(s, CategoryLevel, c))
    {
      if c != t.category {
        OtherCategorySkips(cats.at[c], ps, t, s, c);
      }
    }
  }

  /** A category other than `t`'s does not select `t`, so its `sum` and `year` stay tallied. */
  lemma OtherCategorySkips(node: CategoryNode, ps: seq<Transaction>, t: Transaction, s: Selector, c: string)
    requires CategoryTallied(node, ps, Within(s, CategoryLevel, c)) && OpenForTree(s) && Matches(t, s)
    requires c != t.category
    ensures Tallied(node.sum, node.year, ps + [t], Within(s, CategoryLevel, c))
  {
    WithinMatches(t, s, CategoryLevel, c);
    WithinKeepsYear(s, CategoryLevel, c);
    TallySkip(node.sum, node.year, ps, t, Within(s, CategoryLevel, c));
  }

  /** `_fill_subcategory` done: every category accounts for `ps + [t]` at every level. */
  lemma CloseStep(cats: Dict<string, CategoryNode>, ps: seq<Transaction>, t: Transaction, s: Selector,
                  subs: Dict<string, Tally>, updated: Dict<string, CategoryNode>)
    requires CategoriesHalfway(cats, ps, t, s) && OpenForTree(s) && Matches(t, s) && t.category in cats.at
    requires SubcategoriesTallied(subs, ps + [t], Within(s, CategoryLevel, t.category))
    requires updated == cats.Put(t.category, cats.at[t.category].(subcategories := subs))
    ensures CategoriesTallied(updated, ps + [t], s)
  {
    forall c | c in cats.at && c != t.category
      ensures SubcategoriesTallied(cats.at[c].subcategories, ps + [t], Within(s, CategoryLevel, c))
    {
      WithinMatches(t, s, CategoryLevel, c);
      WithinKeepsYear(s, CategoryLevel, c);
      SubcategoriesSkip(cats.at[c].subcategories, ps, t, Within(s, CategoryLevel, c));
    }
  }

  // ---------------------------------------------------------------------------
  // The three helpers and the loop

  /** `_fill_global_expenses`: count `value` in the global `sum` and `year`. */
  method FillGlobal(expenses: ExpenseTree, date: int, value: real, ghost ps: seq<Transaction>, ghost t: Transaction)
    returns (updated: ExpenseTree)
    requires IsYearTree(expenses, ps) && Matches(t, Spending()) && date == t.date.year && value == Amount(t)
    ensures updated.ExpenseTree? && Tallied(updated.sum, updated.year, ps + [t], Spending())
    ensures CategoriesTallied(updated.categories, ps, Spending())
  {
    var sum: real, year: Dict<int, real>, categories: Dict<string, CategoryNode>;
    ghost var before: real;
    if expenses.NoExpenses? {
      // Neither "sum" nor "year" is there yet, and "categories" is created by `_fill_category`.
      TallyOfNone(ps, Spending());
      CategoriesOfNone(ps, Spending());
      before, sum, year, categories := 0.0, value, EmptyDict(), EmptyDict();
    } else {
      before, sum, year, categories := expenses.sum, expenses.sum + value, expenses.year, expenses.categories;
    }
    year := AddToYear(year, before, sum, date, value, ps, t, Spending());
    updated := ExpenseTree(sum, year, categories);
  }

  /** `_fill_category`: count `value` in the `sum` and `year` of its category, creating the category if new. */
  method FillCategory(categories: Dict<string, CategoryNode>, category: string, date: int, value: real,
                      ghost ps: seq<Transaction>, ghost t: Transaction)
    returns (updated: Dict<string, CategoryNode>)
    requires CategoriesTallied(categories, ps, Spending()) && Matches(t, Spending())
    requires category == t.category && date == t.date.year && value == Amount(t)
    ensures CategoriesHalfway(updated, ps, t, Spending())
  {
    ghost var within := Within(Spending(), CategoryLevel, category);
    WithinKeepsYear(Spending(), CategoryLevel, category);
    var node: CategoryNode;
    ghost var before: real;
    if category !in categories.at {
      UnlistedSelectsNothing(ps, Spending(), CategoryLevel, category);
      TallyOfNone(ps, within);
      SubcategoriesOfNone(ps, within);
      node := CategoryNode(value, EmptyDict(), EmptyDict());
      before := 0.0;
    } else {
      node := categories.at[category];
      before := node.sum;
      node := node.(sum := value + node.sum);
    }
    WithinMatches(t, Spending(), CategoryLevel, category);
    var year := AddToYear(node.year, before, node.sum, date, value, ps, t, within);
    node := node.(year := year);
    updated := categories.Put(category, node);
    HalfwayStep(categories, ps, t, Spending(), node, updated);
  }

  /** `_fill_subcategory`: count `value` in the `sum` and `year` of its subcategory, creating it if new. */
  method FillSubcategory(categories: Dict<string, CategoryNode>, category: string, subcategory: Option<string>,
                         date: int, value: real, ghost ps: seq<Transaction>, ghost t: Transaction)
    returns (updated: Dict<string, CategoryNode>)
    requires CategoriesHalfway(categories, ps, t, Spending()) && Matches(t, Spending())
    requires category == t.category && subcategory == t.subcategory && date == t.date.year && value == Amount(t)
    ensures CategoriesTallied(updated, ps + [t], Spending())
  {
    FirstLabelsStep(ps, t, Spending(), CategoryLevel);
    assert category in categories.at;
    ghost var within := Within(Spending(), CategoryLevel, category);
    WithinKeepsYear(Spending(), CategoryLevel, category);
    WithinMatches(t, Spending(), CategoryLevel, category);
    var name := SubcategoryName(subcategory);
    ghost var inner := Within(within, SubcategoryLevel, name);
    WithinKeepsYear(within, SubcategoryLevel, name);
    var subs := categories.at[category].subcategories;
    var tally: Tally;
    ghost var before: real;
    if name !in subs.at {
      UnlistedSelectsNothing(ps, within, SubcategoryLevel, name);
      TallyOfNone(ps, inner);
      tally := Tally(value, EmptyDict());
      before := 0.0;
    } else {
      tally := subs.at[name];
      before := tally.sum;
      tally := tally.(sum := value + tally.sum);
    }
    WithinMatches(t, within, SubcategoryLevel, name);
    var year := AddToYear(tally.year, before, tally.sum, date, value, ps, t, inner);
    tally := tally.(year := year);
    var newSubs := subs.Put(name, tally);
    SubcategoriesStep(subs, ps, t, within, tally, newSubs);
    updated := categories.Put(category, categories.at[category].(subcategories := newSubs));
    CloseStep(categories, ps, t, Spending(), newSubs, updated);
  }

  /** One pass of the loop: count `t` at every level if it is an expense. */
  method AddExpense(expenses: ExpenseTree, t: Transaction, ghost ps: seq<Transaction>) returns (updated: ExpenseTree)
    requires IsYearTree(expenses, ps)
    ensures IsYearTree(updated, ps + [t])
  {
    if t.kind != Expense {
      updated := expenses;
      if expenses.ExpenseTree? {
        TallySkip(expenses.sum, expenses.year, ps, t, Spending());
        CategoriesSkip(expenses.categories, ps, t, Spending());
      }
      return;
    }
    var date := t.date.year;
    var value := Abs(t.value);
    var global := FillGlobal(expenses, date, value, ps, t);
    var categories := FillCategory(global.categories, t.category, date, value, ps, t);
    categories := FillSubcategory(categories, t.category, t.subcategory, date, value, ps, t);
    updated := ExpenseTree(global.sum, global.year, categories);
    assert t in ps + [t];
  }

  /** `get_categories_by_year_with_subcategory`: read the transactions from the last to the first. */
  method GetCategoriesByYearWithSubcategory(ts: seq<Transaction>) returns (expenses: ExpenseTree)
    ensures IsYearTree(expenses, Reversed(ts))
  {
    expenses := NoExpenses;
    var i := |ts|;
    while i > 0
      invariant 0 <= i <= |ts|
      invariant IsYearTree(expenses, Reversed(ts[i..]))
    {
      i := i - 1;
      ReversedStep(ts, i);
      expenses := AddExpense(expenses, ts[i], Reversed(ts[i + 1..]));
    }
    assert ts[0..] == ts;
  }

  // ---------------------------------------------------------------------------
  // The levels agree

  /** The `sum` of every category. */
  function CategorySums(cats: Dict<string, CategoryNode>): (r: map<string, real>)
    ensures forall c :: c in r <==> c in cats.at
  {
    map c | c in cats.at :: cats.at[c].sum
  }

  /** The `sum` of every subcategory. */
  function SubcategorySums(subs: Dict<string, Tally>): (r: map<string, real>)
    ensures forall n :: n in r <==> n in subs.at
  {
    map n | n in subs.at :: subs.at[n].sum
  }

  /** An entry's `sum` is the sum of its `year` values. */
  lemma TallyAddsUp(sum: real, year: Dict<int, real>, ps: seq<Transaction>, s: Selector)
    requires Tallied(sum, year, ps, s) && s.year.None?
    ensures AllIn(year.keys, year.at) && SumOf(year.keys, year.at) == sum
  {
    var ks := YearKeys(year.keys);
    SelectedYearsExact(ps, s);
    YearSeriesSum(ps, s, year.keys, year.at);
    DistinctYearKeys(year.keys);
    forall t | t in ps && Matches(t, s) ensures KeyOn(t, ByYear) in ks {
      var i :| 0 <= i < |year.keys| && year.keys[i] == t.date.year;
      assert ks[i] == KeyOn(t, ByYear);
    }
    Partition(ps, s, ByYear, ks);
  }

  /** The subcategories of a category add up to the category's `sum`. */
  lemma SubcategoriesAddUp(node: CategoryNode, ps: seq<Transaction>, s: Selector)
    requires CategoryTallied(node, ps, s) && Open(s, SubcategoryLevel)
    ensures AllIn(node.subcategories.keys, SubcategorySums(node.subcategories))
    ensures SumOf(node.subcategories.keys, SubcategorySums(node.subcategories)) == node.sum
  {
    FirstLabelsExact(ps, s, SubcategoryLevel);
    LabelPartition(ps, s, SubcategoryLevel, node.subcategories.keys, SubcategorySums(node.subcategories));
  }

  /** The categories add up to the global `sum`. */
  lemma CategoriesAddUp(e: ExpenseTree, ps: seq<Transaction>)
    requires IsYearTree(e, ps) && e.ExpenseTree?
    ensures AllIn(e.categories.keys, CategorySums(e.categories))
    ensures SumOf(e.categories.keys, CategorySums(e.categories)) == e.sum
  {
    FirstLabelsExact(ps, Spending(), CategoryLevel);
    LabelPartition(ps, Spending(), CategoryLevel, e.categories.keys, CategorySums(e.categories));
  }

  /**
   * The sums agree at every level of the tree: each `sum` is the sum of its `year` values, the
   * category sums add up to the global sum, and the subcategory sums add up to their category's sum.
   */
  lemma YearTreeAddsUp(e: ExpenseTree, ps: seq<Transaction>)
    requires IsYearTree(e, ps) && e.ExpenseTree?
    ensures AllIn(e.year.keys, e.year.at) && SumOf(e.year.keys, e.year.at) == e.sum
    ensures AllIn(e.categories.keys, CategorySums(e.categories))
    ensures SumOf(e.categories.keys, CategorySums(e.categories)) == e.sum
    ensures forall c :: c in e.categories.at ==>
      var node := e.categories.at[c];
      && AllIn(node.year.keys, node.year.at) && SumOf(node.year.keys, node.year.at) == node.sum
      && AllIn(node.subcategories.keys, SubcategorySums(node.subcategories))
      && SumOf(node.subcategories.keys, SubcategorySums(node.subcategories)) == node.sum
    ensures forall c, n :: c in e.categories.at && n in e.categories.at[c].subcategories.at ==>
      var tally := e.categories.at[c].subcategories.at[n];
      AllIn(tally.year.keys, tally.year.at) && SumOf(tally.year.keys, tally.year.at) == tally.sum
  {
    TallyAddsUp(e.sum, e.year, ps, Spending());
    CategoriesAddUp(e, ps);
    forall c | c in e.categories.at
      ensures var node := e.categories.at[c];
      && AllIn(node.year.keys, node.year.at) && SumOf(node.year.keys, node.year.at) == node.sum
      && AllIn(node.subcategories.keys, SubcategorySums(node.subcategories))
      && SumOf(node.subcategories.keys, SubcategorySums(node.subcategories)) == node.sum
    {
      CategoryAddsUp(e, ps, c);
    }
    forall c, n | c in e.categories.at && n in e.categories.at[c].subcategories.at
      ensures var tally := e.categories.at[c].subcategories.at[n];
      AllIn(tally.year.keys, tally.year.at) && SumOf(tally.year.keys, tally.year.at) == tally.sum
    {
      SubcategoryAddsUp(e, ps, c, n);
    }
  }

  lemma CategoryAddsUp(e: ExpenseTree, ps: seq<Transaction>, c: string)
    requires IsYearTree(e, ps) && e.ExpenseTree? && c in e.categories.at
    ensures var node := e.categories.at[c];
      && AllIn(node.year.keys, node.year.at) && SumOf(node.year.keys, node.year.at) == node.sum
      && AllIn(node.subcategories.keys, SubcategorySums(node.subcategories))
      && SumOf(node.subcategories.keys, SubcategorySums(node.subcategories)) == node.sum
  {
    var within := Within(Spending(), CategoryLevel, c);
    WithinKeepsYear(Spending(), CategoryLevel, c);
    TallyAddsUp(e.categories.at[c].sum, e.categories.at[c].year, ps, within);
    SubcategoriesAddUp(e.categories.at[c], ps, within);
  }

  lemma SubcategoryAddsUp(e: ExpenseTree, ps: seq<Transaction>, c: string, n: string)
    requires IsYearTree(e, ps) && e.ExpenseTree? && c in e.categories.at && n in e.categories.at[c].subcategories.at
    ensures var tally := e.categories.at[c].subcategories.at[n];
      AllIn(tally.year.keys, tally.year.at) && SumOf(tally.year.keys, tally.year.at) == tally.sum
  {
    var within := Within(Spending(), CategoryLevel, c);
    WithinKeepsYear(Spending(), CategoryLevel, c);
    WithinKeepsYear(within, SubcategoryLevel, n);
    var tally := e.categories.at[c].subcategories.at[n];
    TallyAddsUp(tally.sum, tally.year, ps, Within(within, SubcategoryLevel, n));
  }

  // ---------------------------------------------------------------------------
  // What the tree holds, in terms of the input

  /** The tree is empty exactly when there is no expense; otherwise its `sum` is the sum of all expenses. */
  lemma YearTreeMeaning(e: ExpenseTree, ts: seq<Transaction>)
    requires IsYearTree(e, Reversed(ts))
    ensures e.NoExpenses? <==> forall t :: t in ts ==> t.kind != Expense
    ensures e.ExpenseTree? ==> e.sum == SumWhere(ts, Spending())
  {
    if e.ExpenseTree? {
      SumWhereReversed(ts, Spending());
    }
  }

  /** The global `year` has an entry for exactly the years with an expense, holding that year's sum. */
  lemma YearTreeYears(e: ExpenseTree, ts: seq<Transaction>)
    requires IsYearTree(e, Reversed(ts)) && e.ExpenseTree?
    ensures forall y :: y in e.year.at <==> exists t :: t in ts && t.kind == Expense && t.date.year == y
    ensures forall y :: y in e.year.at ==> e.year.at[y] == SumWhere(ts, Spending().(year := Some(y)))
  {
    SelectedYearsExact(Reversed(ts), Spending());
    forall y | y in e.year.at ensures e.year.at[y] == SumWhere(ts, Spending().(year := Some(y))) {
      SumWhereReversed(ts, Spending().(year := Some(y)));
    }
  }

  /** The categories are exactly those with an expense, and each `sum` is the sum of that category's expenses. */
  lemma YearTreeCategories(e: ExpenseTree, ts: seq<Transaction>)
    requires IsYearTree(e, Reversed(ts)) && e.ExpenseTree?
    ensures forall c :: c in e.categories.at <==> exists t :: t in ts && t.kind == Expense && t.category == c
    ensures forall c :: c in e.categories.at ==> e.categories.at[c].sum == SumWhere(ts, Within(Spending(), CategoryLevel, c))
  {
    FirstLabelsExact(Reversed(ts), Spending(), CategoryLevel);
    forall c | c in e.categories.at ensures e.categories.at[c].sum == SumWhere(ts, Within(Spending(), CategoryLevel, c)) {
      SumWhereReversed(ts, Within(Spending(), CategoryLevel, c));
    }
  }
}
