/**
 * The per-year monthly averages of lib/stats.py: `get_categories_average_in_year_with_subcategories`
 * divides each yearly sum of the year tree by the number of months with transactions in that
 * year, for every year from the first to the last; `get_categories_average_in_year` keeps the
 * category level, lists the years in ascending order and ranks the categories by the sum of
 * their averages.
 */
module YearAverages {
  import opened Wrappers
  import opened Transactions
  import opened Timeline
  import opened OrderedDicts
  import opened Totals
  import opened CategorySeries
  import opened YearTree

  /** A category's averages: `{"year": {...}, "subcategories": {name: {"year": {...}}}}`. */
  datatype CategoryAverage = CategoryAverage(year: Dict<int, real>, subcategories: Dict<string, Dict<int, real>>)

  /** One entry per year of the data, holding that year's sum divided by the source's divisor for the year. */
  ghost predicate YearAveraged(a: Dict<int, real>, ts: seq<Transaction>, s: Selector) {
    && ts != []
    && a.Valid()
    && a.keys == Years(ts)
    && forall y :: y in a.at ==> a.at[y] == Average(ts, s, y)
  }

  /**
   * `expenses_per_year / _get_number_of_months_with_transactions_in_year(transactions, year)`
   * for the transactions `s` selects in `y`, with the divisor as the source computes it.
   */
  ghost function Average(ts: seq<Transaction>, s: Selector, y: int): real
    requires ts != []
  {
    YearSum(ts, s, y) / Divisor(ts, y) as real
  }

  lemma YearsDistinct(ts: seq<Transaction>)
    requires ts != []
    ensures IncreasingYears(Years(ts)) && Distinct(Years(ts))
  {
  }

  /**
   * A `year` dict of the tree, looked up for any year: the year's sum divided by the divisor,
   * or absent when that sum is 0.
   */
  lemma AverageEntry(d: Dict<int, real>, ts: seq<Transaction>, s: Selector, y: int)
    requires SummedByYear(d, Reversed(ts), s) && s.year.None? && ts != []
    ensures y in d.at ==> d.at[y] / Divisor(ts, y) as real == Average(ts, s, y)
    ensures y !in d.at ==> Average(ts, s, y) == 0.0
  {
    SumWhereReversed(ts, s.(year := Some(y)));
    SelectedYearsExact(Reversed(ts), s);
    SumWhereBounds(ts, s.(year := Some(y)));
  }

  /** The loop over `years` of `get_categories_average_in_year_with_subcategories`, for one entry. */
  method AverageYears(sums: Dict<int, real>, years: seq<int>, ts: seq<Transaction>, ghost s: Selector)
    returns (avg: Dict<int, real>)
    requires ts != [] && years == Years(ts) && s.year.None?
    requires SummedByYear(sums, Reversed(ts), s)
    ensures YearAveraged(avg, ts, s)
  {
    YearsDistinct(ts);
    avg := EmptyDict();
    var i := 0;
    while i < |years|
      invariant 0 <= i <= |years|
      invariant avg.Valid() && avg.keys == years[..i]
      invariant forall y :: y in avg.at ==> avg.at[y] == Average(ts, s, y)
    {
      var year := years[i];
      assert years[..i + 1] == years[..i] + [year];
      assert year !in years[..i];
      var value := 0.0;
      if year in sums.at {
        var months := GetNumberOfMonthsWithTransactionsInYear(ts, year);
        value := sums.at[year] / months.value as real;
      }
      AverageEntry(sums, ts, s, year);
      avg := avg.Put(year, value);
      i := i + 1;
    }
    assert years[..i] == years;
  }

  /** A category's averages: its own years, and the years of each of its subcategories. */
  ghost predicate IsAverageEntry(a: CategoryAverage, ts: seq<Transaction>, s: Selector) {
    && YearAveraged(a.year, ts, s)
    && a.subcategories.Valid()
    && a.subcategories.keys == FirstLabels(Reversed(ts), s, SubcategoryLevel)
    && forall n :: n in a.subcategories.at ==> YearAveraged(a.subcategories.at[n], ts, Within(s, SubcategoryLevel, n))
  }

  /** The body of the category loop: average the category's years, then each subcategory's. */
  method AverageCategory(node: CategoryNode, years: seq<int>, ts: seq<Transaction>, ghost s: Selector)
    returns (a: CategoryAverage)
    requires CategoryTallied(node, Reversed(ts), s) && s.year.None? && ts != [] && years == Years(ts)
    ensures IsAverageEntry(a, ts, s)
  {
    var year := AverageYears(node.year, years, ts, s);
    var keys := node.subcategories.keys;
    var subcategories: Dict<string, Dict<int, real>> := EmptyDict();
    var j := 0;
    while j < |keys|
      invariant 0 <= j <= |keys|
      invariant subcategories.Valid() && subcategories.keys == keys[..j]
      invariant forall n :: n in subcategories.at ==> YearAveraged(subcategories.at[n], ts, Within(s, SubcategoryLevel, n))
    {
      var subcategory := keys[j];
      assert keys[..j + 1] == keys[..j] + [subcategory];
      assert subcategory !in keys[..j];
      WithinKeepsYear(s, SubcategoryLevel, subcategory);
      var subAverage := AverageYears(node.subcategories.at[subcategory].year, years, ts, Within(s, SubcategoryLevel, subcategory));
      subcategories := subcategories.Put(subcategory, subAverage);
      j := j + 1;
    }
    assert keys[..j] == keys;
    a := CategoryAverage(year, subcategories);
  }

  /** Every category with an expense, in the tree's order, with its averages. */
  ghost predicate IsAverageTree(a: Dict<string, CategoryAverage>, ts: seq<Transaction>) {
    && ts != []
    && a.Valid()
    && a.keys == FirstLabels(Reversed(ts), Spending(), CategoryLevel)
    && forall c :: c in a.at ==> IsAverageEntry(a.at[c], ts, Within(Spending(), CategoryLevel, c))
  }

  /**
   * `get_categories_average_in_year_with_subcategories`: fails with a KeyError when there is no
   * expense at all, since the tree then has no "categories".
   */
  method GetCategoriesAverageInYearWithSubcategories(ts: seq<Transaction>)
    returns (r: Result<Dict<string, CategoryAverage>, StatsError>)
    ensures r.Failure? <==> forall t :: t in ts ==> t.kind != Expense
    ensures r.Failure? ==> r.error == MissingKey
    ensures r.Success? ==> IsAverageTree(r.value, ts)
  {
    var tree := GetCategoriesByYearWithSubcategory(ts);
    YearTreeMeaning(tree, ts);
    if tree.NoExpenses? {
      return Failure(MissingKey);
    }
    var yearsResult := GetYears(ts);
    var averages := AverageCategories(tree.categories, yearsResult.value, ts);
    return Success(averages);
  }

  /** The loop of `get_categories_average_in_year_with_subcategories` over the tree's categories. */
  method AverageCategories(categories: Dict<string, CategoryNode>, years: seq<int>, ts: seq<Transaction>)
    returns (averages: Dict<string, CategoryAverage>)
    requires CategoriesTallied(categories, Reversed(ts), Spending()) && ts != [] && years == Years(ts)
    ensures averages.Valid() && averages.keys == categories.keys
    ensures forall c :: c in averages.at ==> IsAverageEntry(averages.at[c], ts, Within(Spending(), CategoryLevel, c))
  {
    averages := EmptyDict();
    var i := 0;
    while i < |categories.keys|
      invariant 0 <= i <= |categories.keys|
      invariant averages.Valid() && averages.keys == categories.keys[..i]
      invariant forall c :: c in averages.at ==> IsAverageEntry(averages.at[c], ts, Within(Spending(), CategoryLevel, c))
    {
      var category := categories.keys[i];
      assert categories.keys[..i + 1] == categories.keys[..i] + [category];
      assert category !in categories.keys[..i];
      WithinKeepsYear(Spending(), CategoryLevel, category);
      var entry := AverageCategory(categories.at[category], years, ts, Within(Spending(), CategoryLevel, category));
      averages := averages.Put(category, entry);
      i := i + 1;
    }
    assert categories.keys[..i] == categories.keys;
  }

  // ---------------------------------------------------------------------------
  // What an average means

  /**
   * Multiplying an average back by the source's divisor gives the year's sum. When the data
   * spans more than one calendar year that divisor is the number of months the timeline
   * covers in the year, so each average is the spending per covered month.
   */
  lemma AverageTimesMonths(a: Dict<int, real>, ts: seq<Transaction>, s: Selector, y: int)
    requires YearAveraged(a, ts, s) && y in a.at
    ensures a.at[y] >= 0.0
    ensures a.at[y] * Divisor(ts, y) as real == YearSum(ts, s, y)
    ensures First(ts).year != Last(ts).year ==> Divisor(ts, y) == MonthsCoveredInYear(ts, y)
  {
    AverageTimes(a.at[y], ts, s, y);
    DivisorOfCoveredYear(ts, y);
  }

  /** For a year of data spanning several calendar years, the source's divisor is the number of months covered. */
  lemma DivisorOfCoveredYear(ts: seq<Transaction>, y: int)
    requires ts != [] && y in Years(ts)
    ensures First(ts).year != Last(ts).year ==> Divisor(ts, y) == MonthsCoveredInYear(ts, y)
  {
    YearInSpan(ts, y);
    if First(ts).year != Last(ts).year {
      DivisorCountsMonths(ts, y);
    }
  }

  lemma AverageTimes(q: real, ts: seq<Transaction>, s: Selector, y: int)
    requires ts != [] && q == Average(ts, s, y)
    ensures q * Divisor(ts, y) as real == YearSum(ts, s, y)
    ensures q >= 0.0
  {
    assert YearSum(ts, s, y) >= 0.0 by {
      SumWhereBounds(ts, s.(year := Some(y)));
    }
    Quotient(q, YearSum(ts, s, y), Divisor(ts, y));
  }

  /** A year of the data lies between the first and the last year. */
  lemma YearInSpan(ts: seq<Transaction>, y: int)
    requires ts != [] && y in Years(ts)
    ensures First(ts).year <= y <= Last(ts).year
  {
    var k :| 0 <= k < |Years(ts)| && Years(ts)[k] == y;
  }

  // ---------------------------------------------------------------------------
  // The average with the corrected divisor

  /**
   * The average the documentation of `_get_number_of_months_with_transactions_in_year`
   * describes: the year's sum per month with data, using the corrected divisor.
   */
  ghost function CorrectedAverage(ts: seq<Transaction>, s: Selector, y: int): real
    requires ts != []
  {
    YearSum(ts, s, y) / MonthsWithTransactionsInYear(ts, y) as real
  }

  /** The corrected average times the number of covered months gives back the year's sum, in every year of the data. */
  lemma CorrectedAverageTimesMonths(ts: seq<Transaction>, s: Selector, y: int)
    requires ts != [] && y in Years(ts)
    ensures CorrectedAverage(ts, s, y) >= 0.0
    ensures CorrectedAverage(ts, s, y) * MonthsWithTransactionsInYear(ts, y) as real == YearSum(ts, s, y)
    ensures MonthsWithTransactionsInYear(ts, y) == MonthsCoveredInYear(ts, y)
  {
    CorrectedTimes(CorrectedAverage(ts, s, y), ts, s, y);
    CoveredYear(ts, y);
  }

  /** In a year of the data the corrected divisor is the number of months covered. */
  lemma CoveredYear(ts: seq<Transaction>, y: int)
    requires ts != [] && y in Years(ts)
    ensures MonthsWithTransactionsInYear(ts, y) == MonthsCoveredInYear(ts, y)
  {
    YearInSpan(ts, y);
    MonthsWithTransactionsAreCovered(ts, y);
  }

  lemma CorrectedTimes(q: real, ts: seq<Transaction>, s: Selector, y: int)
    requires ts != [] && q == CorrectedAverage(ts, s, y)
    ensures q * MonthsWithTransactionsInYear(ts, y) as real == YearSum(ts, s, y)
    ensures q >= 0.0
  {
    assert YearSum(ts, s, y) >= 0.0 by {
      SumWhereBounds(ts, s.(year := Some(y)));
    }
    Quotient(q, YearSum(ts, s, y), MonthsWithTransactionsInYear(ts, y));
  }

  /** When the data spans more than one calendar year, the source's average is the corrected one. */
  lemma AveragesAgreeAcrossYears(ts: seq<Transaction>, s: Selector, y: int)
    requires ts != [] && First(ts).year != Last(ts).year
    ensures Average(ts, s, y) == CorrectedAverage(ts, s, y)
  {
  }

  /**
   * Spending only from March to June 2023: the source divides the year's sum by 10 where 4
   * months have data, so any spending is averaged below its monthly rate.
   */
  lemma SingleYearAverageUnderstates(ts: seq<Transaction>, s: Selector)
    requires ts != []
    requires First(ts) == Date(2023, 3, 1) && Last(ts) == Date(2023, 6, 30)
    ensures Average(ts, s, 2023) == YearSum(ts, s, 2023) / 10.0
    ensures CorrectedAverage(ts, s, 2023) == YearSum(ts, s, 2023) / 4.0
    ensures YearSum(ts, s, 2023) > 0.0 ==> Average(ts, s, 2023) < CorrectedAverage(ts, s, 2023)
  {
    SingleYearDivisorOvercounts(ts);
  }

  /** Dividing by a count and multiplying back by it. */
  lemma Quotient(q: real, x: real, n: int)
    requires x >= 0.0 && n > 0 && q == x / n as real
    ensures q * n as real == x && q >= 0.0
  {
  }

  /** Every year from the first to the last has an entry; a year without a selected transaction gets 0. */
  lemma AverageOfEmptyYear(a: Dict<int, real>, ts: seq<Transaction>, s: Selector, y: int)
    requires YearAveraged(a, ts, s) && s.year.None? && y in Years(ts)
    requires forall t :: t in ts && t.date.year == y ==> !Matches(t, s)
    ensures y in a.at && a.at[y] == 0.0
  {
    var sy := s.(year := Some(y));
    forall t | t in ts ensures !Matches(t, sy) {
    }
    SumWhereBounds(ts, sy);
  }

  lemma {:induction false} SumOfScaled<K(!new)>(ks: seq<K>, a: map<K, real>, c: map<K, real>, d: real)
    requires AllIn(ks, a) && AllIn(ks, c) && d != 0.0
    requires forall k :: k in ks ==> c[k] == a[k] / d
    ensures SumOf(ks, c) == SumOf(ks, a) / d
  {
    if ks != [] {
      SumOfScaled(ks[..|ks| - 1], a, c, d);
    }
  }

  lemma WithinThenYear(s: Selector, l: Level, name: string, y: int)
    ensures Within(s, l, name).(year := Some(y)) == Within(s.(year := Some(y)), l, name)
  {
    match l
    case CategoryLevel =>
    case SubcategoryLevel =>
  }

  /** The entries of all subcategories in year `y`. */
  function YearColumn(subs: Dict<string, Dict<int, real>>, y: int): map<string, real> {
    map n | n in subs.at && y in subs.at[n].at :: subs.at[n].at[y]
  }

  /** In every year the subcategory averages of a category add up to the category's average. */
  lemma SubcategoryAveragesAddUp(a: CategoryAverage, ts: seq<Transaction>, s: Selector, y: int)
    requires IsAverageEntry(a, ts, s) && Open(s, SubcategoryLevel) && s.year.None? && y in Years(ts)
    ensures AllIn(a.subcategories.keys, YearColumn(a.subcategories, y))
    ensures SumOf(a.subcategories.keys, YearColumn(a.subcategories, y)) == a.year.at[y]
  {
    var subs := a.subcategories;
    var column := YearColumn(subs, y);
    var sy := s.(year := Some(y));
    var sums := map n | n in subs.at :: SumWhere(ts, Within(sy, SubcategoryLevel, n));
    forall n | n in subs.keys ensures column[n] == sums[n] / Divisor(ts, y) as real {
      WithinThenYear(s, SubcategoryLevel, n, y);
    }
    SumOfScaled(subs.keys, sums, column, Divisor(ts, y) as real);
    FirstLabelsExact(Reversed(ts), s, SubcategoryLevel);
    LabelPartition(ts, sy, SubcategoryLevel, subs.keys, sums);
  }

  // ---------------------------------------------------------------------------
  // get_categories_average_in_year

  ghost predicate IncreasingYears(ys: seq<int>) {
    forall i, j :: 0 <= i < j < |ys| ==> ys[i] < ys[j]
  }

  lemma HeadBelowTail(ys: seq<int>)
    requires IncreasingYears(ys) && ys != []
    ensures IncreasingYears(ys[1..])
    ensures forall x :: x in ys[1..] ==> ys[0] < x && x in ys
  {
    forall x | x in ys[1..] ensures ys[0] < x && x in ys {
      var k :| 0 <= k < |ys| - 1 && ys[1..][k] == x;
      assert ys[k + 1] == x;
    }
  }

  /** Insert `y` into an increasing list of years. */
  function InsertYear(y: int, ys: seq<int>): (r: seq<int>)
    requires IncreasingYears(ys) && y !in ys
    ensures IncreasingYears(r) && |r| == |ys| + 1
    ensures forall x :: x in r <==> x in ys || x == y
  {
    if ys == [] then [y]
    else if y < ys[0] then [y] + ys
    else
      var rest := InsertYear(y, ys[1..]);
      HeadBelowTail(ys);
      assert forall j :: 0 <= j < |rest| ==> rest[j] in rest;
      var r := [ys[0]] + rest;
      assert forall j :: 0 < j < |r| ==> r[j] == rest[j - 1];
      r
  }

  /** The keys of `sorted(d.items())`: the distinct years in increasing order. */
  function SortYears(ys: seq<int>): (r: seq<int>)
    requires Distinct(ys)
    ensures IncreasingYears(r) && forall x :: x in r <==> x in ys
  {
    if ys == [] then []
    else
      assert Distinct(ys[..|ys| - 1]);
      assert forall x :: x in ys <==> x in ys[..|ys| - 1] || x == ys[|ys| - 1];
      InsertYear(ys[|ys| - 1], SortYears(ys[..|ys| - 1]))
  }

  /** `OrderedDict(sorted(d.items()))`: the same entries, by increasing year. */
  function SortByYear(d: Dict<int, real>): (r: Dict<int, real>)
    requires d.Valid()
    ensures r.Valid() && r.at == d.at && IncreasingYears(r.keys)
  {
    Dict(SortYears(d.keys), d.at)
  }

  /** A year above all of an increasing list goes at its end. */
  lemma {:induction false} InsertAtEnd(y: int, ys: seq<int>)
    requires IncreasingYears(ys) && forall x :: x in ys ==> x < y
    ensures InsertYear(y, ys) == ys + [y]
  {
    if ys != [] {
      HeadBelowTail(ys);
      assert ys[0] in ys;
      InsertAtEnd(y, ys[1..]);
      assert ys == [ys[0]] + ys[1..];
    }
  }

  /** Sorting years that are already increasing changes nothing. */
  lemma {:induction false} SortIncreasingYears(ys: seq<int>)
    requires IncreasingYears(ys) && Distinct(ys)
    ensures SortYears(ys) == ys
  {
    if ys != [] {
      var init := ys[..|ys| - 1];
      SortIncreasingYears(init);
      InsertAtEnd(ys[|ys| - 1], init);
      assert init + [ys[|ys| - 1]] == ys;
    }
  }

  /** `for year in years: if year not in d: d[year] = 0`. */
  method FillYears(d: Dict<int, real>, years: seq<int>) returns (filled: Dict<int, real>)
    requires d.Valid()
    ensures filled.Valid()
    ensures forall y :: y in filled.at <==> y in d.at || y in years
    ensures forall y :: y in filled.at ==> filled.at[y] == if y in d.at then d.at[y] else 0.0
    ensures (forall y :: y in years ==> y in d.at) ==> filled == d
  {
    filled := d;
    var j := 0;
    while j < |years|
      invariant 0 <= j <= |years|
      invariant filled.Valid()
      invariant forall y :: y in filled.at <==> y in d.at || y in years[..j]
      invariant forall y :: y in filled.at ==> filled.at[y] == if y in d.at then d.at[y] else 0.0
      invariant (forall y :: y in years ==> y in d.at) ==> filled == d
    {
      assert years[..j + 1] == years[..j] + [years[j]];
      if years[j] !in filled.at {
        filled := filled.Put(years[j], 0.0);
      }
      j := j + 1;
    }
    assert years[..j] == years;
  }

  /** `sum(x[1].values())` for every category. */
  function AverageTotals(at: map<string, Dict<int, real>>): (r: map<string, real>)
    requires forall c :: c in at ==> at[c].Valid()
    ensures forall c :: c in r <==> c in at
  {
    map c | c in at :: Total(at[c])
  }

  /** The result of `get_categories_average_in_year`: each category's averages by increasing year, ranked by their sum. */
  ghost predicate IsRankedAverages(r: Dict<string, Dict<int, real>>, ts: seq<Transaction>) {
    && r.Valid()
    && (forall c :: c in r.at ==> YearAveraged(r.at[c], ts, Within(Spending(), CategoryLevel, c)))
    && (forall c :: c in r.at <==> c in FirstLabels(Reversed(ts), Spending(), CategoryLevel))
    && r.keys == Rank(FirstLabels(Reversed(ts), Spending(), CategoryLevel), AverageTotals(r.at))
  }

  /** Filling and sorting the years of a finished entry changes nothing. */
  method FillAndSortYears(d: Dict<int, real>, years: seq<int>, ghost ts: seq<Transaction>, ghost s: Selector)
    returns (sorted: Dict<int, real>)
    requires YearAveraged(d, ts, s) && years == Years(ts)
    ensures sorted == d
  {
    var filled := FillYears(d, years);
    sorted := SortByYear(filled);
    YearsDistinct(ts);
    SortIncreasingYears(d.keys);
  }

  method GetCategoriesAverageInYear(ts: seq<Transaction>) returns (r: Result<Dict<string, Dict<int, real>>, StatsError>)
    ensures r.Failure? <==> forall t :: t in ts ==> t.kind != Expense
    ensures r.Failure? ==> r.error == MissingKey
    ensures r.Success? ==> IsRankedAverages(r.value, ts)
  {
    var expensesResult := GetCategoriesAverageInYearWithSubcategories(ts);
    if expensesResult.Failure? {
      return Failure(expensesResult.error);
    }
    var expenses := expensesResult.value;
    var yearsResult := GetYears(ts);
    var years := yearsResult.value;
    var averages: Dict<string, Dict<int, real>> := EmptyDict();
    var i := 0;
    while i < |expenses.keys|
      invariant 0 <= i <= |expenses.keys|
      invariant averages.Valid() && averages.keys == expenses.keys[..i]
      invariant forall c :: c in averages.at ==> YearAveraged(averages.at[c], ts, Within(Spending(), CategoryLevel, c))
    {
      var category := expenses.keys[i];
      assert expenses.keys[..i + 1] == expenses.keys[..i] + [category];
      assert category !in expenses.keys[..i];
      var year := FillAndSortYears(expenses.at[category].year, years, ts, Within(Spending(), CategoryLevel, category));
      averages := averages.Put(category, year);
      i := i + 1;
    }
    assert expenses.keys[..i] == expenses.keys;
    var order := Rank(averages.keys, AverageTotals(averages.at));
    RankPermutes(averages.keys, AverageTotals(averages.at));
    return Success(Dict(order, averages.at));
  }

  /**
   * The order of `get_categories_average_in_year`: exactly the categories with an expense, each
   * once, from the largest sum of averages to the smallest, ties in the year tree's order.
   */
  lemma RankedAveragesOrder(r: Dict<string, Dict<int, real>>, ts: seq<Transaction>)
    requires IsRankedAverages(r, ts)
    ensures forall c :: c in r.keys <==> exists t :: t in ts && t.kind == Expense && t.category == c
    ensures Distinct(r.keys)
    ensures NonIncreasing(r.keys, AverageTotals(r.at))
    ensures forall v :: WithScore(r.keys, AverageTotals(r.at), v)
                     == WithScore(FirstLabels(Reversed(ts), Spending(), CategoryLevel), AverageTotals(r.at), v)
  {
    var cs := FirstLabels(Reversed(ts), Spending(), CategoryLevel);
    FirstLabelsExact(Reversed(ts), Spending(), CategoryLevel);
    RankFacts(cs, AverageTotals(r.at));
  }
}
