/**
 * The month-keyed series of lib/stats.py: `get_transactions_by_month`, `get_balance`,
 * `get_balance_percentage` and `get_metric_average`.
 */
module MonthlySeries {
  import opened Wrappers
  import opened Transactions
  import opened Timeline
  import opened OrderedDicts
  import opened Totals

  /** The entry of month `m` in the series of the transactions `s` selects. */
  function MonthSum(ts: seq<Transaction>, s: Selector, m: Month): real {
    SumWhere(ts, s.(month := Some(m)))
  }

  /** The total of one kind in one month: the sum of `abs(value)` of its transactions. */
  function MonthTotal(ts: seq<Transaction>, kind: Kind, m: Month): real {
    MonthSum(ts, OfKind(kind), m)
  }

  /** A finished series: one entry per month of the timeline, in order, each the month's sum. */
  ghost predicate IsSeries(d: Dict<Month, real>, ts: seq<Transaction>, s: Selector) {
    && ts != []
    && d.Valid()
    && d.keys == Months(ts)
    && forall m :: m in d.at ==> d.at[m] == MonthSum(ts, s, m)
  }

  /** A series before its months are sorted: the same entries, in insertion order. */
  ghost predicate CompleteSeries(d: Dict<Month, real>, ts: seq<Transaction>, s: Selector) {
    && ts != []
    && d.Valid()
    && (forall m :: m in d.at <==> m in Months(ts))
    && forall m :: m in d.at ==> d.at[m] == MonthSum(ts, s, m)
  }

  /**
   * `dict(sorted(d.items()))` for a dict whose keys are exactly the months of a timeline:
   * the same entries, listed in increasing month order.
   */
  function SortByMonth(d: Dict<Month, real>, timeline: seq<Month>): (r: Dict<Month, real>)
    requires d.Valid() && StrictlyIncreasing(timeline)
    requires forall m :: m in d.at <==> m in timeline
    ensures r.Valid() && r.at == d.at && StrictlyIncreasing(r.keys)
  {
    StrictlyIncreasingDistinct(timeline);
    Dict(timeline, d.at)
  }

  lemma StrictlyIncreasingDistinct(ms: seq<Month>)
    requires StrictlyIncreasing(ms)
    ensures Distinct(ms)
  {
  }

  /** The last month of an increasing listing is the latest of its months. */
  lemma LastIsLatest(ms: seq<Month>, m: Month)
    requires StrictlyIncreasing(ms) && m in ms
    ensures m == ms[|ms| - 1] || MonthBefore(m, ms[|ms| - 1])
  {
    var i :| 0 <= i < |ms| && ms[i] == m;
  }

  /** Only one increasing listing of a set of months exists, so the listing above is the sorted one. */
  lemma {:induction false} IncreasingListingUnique(a: seq<Month>, b: seq<Month>)
    requires StrictlyIncreasing(a) && StrictlyIncreasing(b)
    requires forall m :: m in a <==> m in b
    ensures a == b
  {
    if a != [] && b != [] {
      var x, y := a[|a| - 1], b[|b| - 1];
      assert x in b && y in a;
      LastIsLatest(a, y);
      LastIsLatest(b, x);
      var a', b' := a[..|a| - 1], b[..|b| - 1];
      forall m ensures m in a' <==> m in b' {
        if m in a' {
          var i :| 0 <= i < |a'| && a'[i] == m;
          assert MonthBefore(m, x);
          assert m in b && m != y;
          var j :| 0 <= j < |b| && b[j] == m;
          assert b'[j] == m;
        }
        if m in b' {
          var j :| 0 <= j < |b'| && b'[j] == m;
          assert MonthBefore(m, y);
          assert m in a && m != x;
          var i :| 0 <= i < |a| && a[i] == m;
          assert a'[i] == m;
        }
      }
      IncreasingListingUnique(a', b');
    } else {
      HeadIsMember(a);
      HeadIsMember(b);
    }
  }

  // ---------------------------------------------------------------------------
  // get_transactions_by_month

  /** The months in which some transaction of `ts` falls. */
  ghost function SeenMonths(ts: seq<Transaction>): set<Month> {
    if ts == [] then {} else SeenMonths(ts[..|ts| - 1]) + {MonthOf(ts[|ts| - 1].date)}
  }

  lemma {:induction false} SeenMonthsInTimeline(ts: seq<Transaction>, all: seq<Transaction>)
    requires all != [] && forall t :: t in ts ==> t in all
    ensures forall m :: m in SeenMonths(ts) ==> m in Months(all)
  {
    if ts != [] {
      SeenMonthsInTimeline(ts[..|ts| - 1], all);
      MonthsCoverTransactions(all, ts[|ts| - 1]);
    }
  }

  /** What an accumulation loop holds after reading `ts`: one entry per month with a selected transaction. */
  ghost predicate SummedByMonth(d: Dict<Month, real>, ts: seq<Transaction>, s: Selector) {
    && d.Valid()
    && (forall m :: m in d.at ==> d.at[m] == MonthSum(ts, s, m))
    && (forall m :: m !in d.at ==> MonthSum(ts, s, m) == 0.0)
    && (forall m :: m in d.at ==> m in SeenMonths(ts))
  }

  /** Nothing read yet, or nothing selected: the empty dict is the right accumulation. */
  lemma SummedByMonthOfNothing(ts: seq<Transaction>, s: Selector)
    requires forall t :: t in ts ==> !Matches(t, s)
    requires s.month.None?
    ensures SummedByMonth(EmptyDict(), ts, s)
  {
    forall m ensures MonthSum(ts, s, m) == 0.0 {
      SumWhereBounds(ts, s.(month := Some(m)));
    }
  }

  lemma MonthSumStep(ts: seq<Transaction>, t: Transaction, s: Selector, m: Month)
    requires s.month.None?
    ensures MonthSum(ts + [t], s, m)
      == MonthSum(ts, s, m) + if Matches(t, s) && MonthOf(t.date) == m then Amount(t) else 0.0
  {
    assert (ts + [t])[..|ts|] == ts;
  }

  lemma SeenMonthsStep(ts: seq<Transaction>, t: Transaction)
    ensures SeenMonths(ts + [t]) == SeenMonths(ts) + {MonthOf(t.date)}
  {
    assert (ts + [t])[..|ts|] == ts;
  }

  /** A transaction `s` does not select changes no month. */
  lemma SummedSkip(d: Dict<Month, real>, ts: seq<Transaction>, t: Transaction, s: Selector)
    requires SummedByMonth(d, ts, s) && s.month.None? && !Matches(t, s)
    ensures SummedByMonth(d, ts + [t], s)
  {
    SeenMonthsStep(ts, t);
    forall m ensures MonthSum(ts + [t], s, m) == MonthSum(ts, s, m) {
      MonthSumStep(ts, t, s, m);
    }
  }

  /** A selected transaction in a month not seen yet starts that month with its amount. */
  lemma SummedNewMonth(d: Dict<Month, real>, ts: seq<Transaction>, t: Transaction, s: Selector)
    requires SummedByMonth(d, ts, s) && s.month.None? && Matches(t, s) && MonthOf(t.date) !in d.at
    ensures SummedByMonth(d.Put(MonthOf(t.date), Amount(t)), ts + [t], s)
  {
    SeenMonthsStep(ts, t);
    forall m ensures MonthSum(ts + [t], s, m)
        == MonthSum(ts, s, m) + if MonthOf(t.date) == m then Amount(t) else 0.0 {
      MonthSumStep(ts, t, s, m);
    }
  }

  /** A selected transaction in a month already seen adds its amount to that month. */
  lemma SummedSameMonth(d: Dict<Month, real>, ts: seq<Transaction>, t: Transaction, s: Selector, v: real)
    requires SummedByMonth(d, ts, s) && s.month.None? && Matches(t, s) && MonthOf(t.date) in d.at
    requires v == d.at[MonthOf(t.date)] + Amount(t)
    ensures SummedByMonth(d.Put(MonthOf(t.date), v), ts + [t], s)
  {
    SeenMonthsStep(ts, t);
    forall m ensures MonthSum(ts + [t], s, m)
        == MonthSum(ts, s, m) + if MonthOf(t.date) == m then Amount(t) else 0.0 {
      MonthSumStep(ts, t, s, m);
    }
  }

  /** The first loop of `get_transactions_by_month`: one entry per month that has a transaction of `kind`. */
  method SumByMonth(ts: seq<Transaction>, kind: Kind) returns (totals: Dict<Month, real>)
    ensures SummedByMonth(totals, ts, OfKind(kind))
  {
    totals := EmptyDict();
    SummedByMonthOfNothing([], OfKind(kind));
    var i := 0;
    while i < |ts|
      invariant 0 <= i <= |ts|
      invariant SummedByMonth(totals, ts[..i], OfKind(kind))
    {
      var t := ts[i];
      if t.kind == kind {
        var date := MonthOf(t.date);
        if date in totals.at {
          SummedSameMonth(totals, ts[..i], t, OfKind(kind), totals.at[date] + Abs(t.value));
          totals := totals.Put(date, totals.at[date] + Abs(t.value));
        } else {
          SummedNewMonth(totals, ts[..i], t, OfKind(kind));
          totals := totals.Put(date, Abs(t.value));
        }
      } else {
        SummedSkip(totals, ts[..i], t, OfKind(kind));
      }
      assert ts[..i + 1] == ts[..i] + [t];
      i := i + 1;
    }
    assert ts[..i] == ts;
  }

  /** `filled` is `d` with an entry 0 added for every month of `months` that `d` lacks. */
  ghost predicate FilledFrom(filled: Dict<Month, real>, d: Dict<Month, real>, months: seq<Month>) {
    && filled.Valid()
    && (forall m :: m in filled.at <==> m in d.at || m in months)
    && (forall m :: m in filled.at ==> filled.at[m] == if m in d.at then d.at[m] else 0.0)
  }

  /** `for month in months: if month not in d: d[month] = 0`. */
  method FillMonths(d: Dict<Month, real>, months: seq<Month>) returns (filled: Dict<Month, real>)
    requires d.Valid()
    ensures FilledFrom(filled, d, months)
  {
    filled := d;
    var j := 0;
    while j < |months|
      invariant 0 <= j <= |months|
      invariant filled.Valid()
      invariant forall m :: m in filled.at <==> m in d.at || m in months[..j]
      invariant forall m :: m in filled.at ==> filled.at[m] == if m in d.at then d.at[m] else 0.0
    {
      assert months[..j + 1] == months[..j] + [months[j]];
      if months[j] !in filled.at {
        filled := filled.Put(months[j], 0.0);
      }
      j := j + 1;
    }
    assert months[..j] == months;
  }

  /** Zero-filling an accumulation over the whole timeline leaves every month with its sum. */
  lemma FilledIsComplete(d: Dict<Month, real>, filled: Dict<Month, real>, ts: seq<Transaction>, s: Selector)
    requires SummedByMonth(d, ts, s) && ts != []
    requires FilledFrom(filled, d, Months(ts))
    ensures CompleteSeries(filled, ts, s)
  {
    SeenMonthsInTimeline(ts, ts);
  }

  /** Sorting a complete series by month finishes it. */
  lemma SortedIsSeries(d: Dict<Month, real>, ts: seq<Transaction>, s: Selector)
    requires CompleteSeries(d, ts, s)
    ensures StrictlyIncreasing(Months(ts)) && IsSeries(SortByMonth(d, Months(ts)), ts, s)
  {
    MonthsIncreasing(ts);
  }

  method GetTransactionsByMonth(ts: seq<Transaction>, kind: Kind) returns (r: Result<Dict<Month, real>, StatsError>)
    ensures r.Failure? <==> ts == []
    ensures r.Success? ==> r.value.Valid() && r.value.keys == Months(ts)
    ensures r.Success? ==> forall m :: m in r.value.at ==> r.value.at[m] == MonthTotal(ts, kind, m)
  {
    var totals := SumByMonth(ts, kind);
    var monthsResult := GetMonths(ts);
    if monthsResult.Failure? {
      return Failure(monthsResult.error);
    }
    var months := monthsResult.value;
    var filled := FillMonths(totals, months);
    FilledIsComplete(totals, filled, ts, OfKind(kind));
    MonthsIncreasing(ts);
    r := Success(SortByMonth(filled, months));
  }

  /** A complete series, sorted or not, adds up to the sum of everything `s` selects. */
  lemma CompleteSeriesTotal(d: Dict<Month, real>, ts: seq<Transaction>, s: Selector)
    requires CompleteSeries(d, ts, s) && s.month.None?
    ensures Total(d) == SumWhere(ts, s)
  {
    MonthsIncreasing(ts);
    StrictlyIncreasingDistinct(Months(ts));
    SumOfPermutation(d.keys, Months(ts), d.at);
    MonthSeriesTotal(ts, s, Dict(Months(ts), d.at));
  }

  /** Filling in the missing months with 0 keeps the total: the series adds up to the sum over all transactions. */
  lemma MonthSeriesTotal(ts: seq<Transaction>, s: Selector, d: Dict<Month, real>)
    requires ts != [] && s.month.None?
    requires d.Valid() && d.keys == Months(ts)
    requires forall m :: m in d.at ==> d.at[m] == SumWhere(ts, s.(month := Some(m)))
    ensures Total(d) == SumWhere(ts, s)
  {
    var ms := Months(ts);
    MonthSeriesSum(ts, s, ms, d.at);
    MonthsIncreasing(ts);
    StrictlyIncreasingDistinct(ms);
    DistinctMonthKeys(ms);
    forall t | t in ts && Matches(t, s) ensures KeyOn(t, ByMonth) in MonthKeys(ms) {
      MonthsCoverTransactions(ts, t);
      var i :| 0 <= i < |ms| && ms[i] == MonthOf(t.date);
      assert MonthKeys(ms)[i] == AtMonth(MonthOf(t.date));
    }
    Partition(ts, s, ByMonth, MonthKeys(ms));
  }

  /** The monthly series of one kind adds up to the total of that kind; months without transactions hold 0. */
  lemma TransactionsByMonthTotal(ts: seq<Transaction>, kind: Kind, d: Dict<Month, real>)
    requires ts != []
    requires d.Valid() && d.keys == Months(ts)
    requires forall m :: m in d.at ==> d.at[m] == MonthTotal(ts, kind, m)
    ensures Total(d) == SumWhere(ts, OfKind(kind))
    ensures forall m :: m in d.at && (forall t :: t in ts && t.kind == kind ==> MonthOf(t.date) != m) ==> d.at[m] == 0.0
    ensures forall m :: m in d.at ==> d.at[m] >= 0.0
  {
    MonthSeriesTotal(ts, OfKind(kind), d);
    forall m | m in d.at
      ensures d.at[m] >= 0.0
      ensures (forall t :: t in ts && t.kind == kind ==> MonthOf(t.date) != m) ==> d.at[m] == 0.0
    {
      SumWhereBounds(ts, OfKind(kind).(month := Some(m)));
    }
  }

  // ---------------------------------------------------------------------------
  // get_balance and get_balance_percentage

  method GetBalance(ts: seq<Transaction>) returns (r: Result<Dict<Month, real>, StatsError>)
    ensures r.Failure? <==> ts == []
    ensures r.Success? ==> r.value.Valid() && r.value.keys == Months(ts)
    ensures r.Success? ==> forall m :: m in r.value.at ==>
      r.value.at[m] == MonthTotal(ts, Income, m) - MonthTotal(ts, Expense, m)
  {
    var expensesResult := GetTransactionsByMonth(ts, Expense);
    if expensesResult.Failure? {
      return Failure(expensesResult.error);
    }
    var incomeResult := GetTransactionsByMonth(ts, Income);
    var expenses, income := expensesResult.value, incomeResult.value;
    var balance: Dict<Month, real> := EmptyDict();
    var i := 0;
    while i < |expenses.keys|
      invariant 0 <= i <= |expenses.keys|
      invariant balance.Valid() && balance.keys == expenses.keys[..i]
      invariant forall m :: m in balance.at ==> balance.at[m] == MonthTotal(ts, Income, m) - MonthTotal(ts, Expense, m)
    {
      var date := expenses.keys[i];
      assert expenses.keys[..i + 1] == expenses.keys[..i] + [date];
      SumWhereBounds(ts, OfKind(Expense).(month := Some(date)));
      balance := balance.Put(date, income.at[date] - Abs(expenses.at[date]));
      i := i + 1;
    }
    assert expenses.keys[..i] == expenses.keys;
    return Success(balance);
  }

  /** Over the whole timeline the balances add up to total income minus total expense. */
  lemma BalanceTotal(ts: seq<Transaction>, d: Dict<Month, real>)
    requires ts != []
    requires d.Valid() && d.keys == Months(ts)
    requires forall m :: m in d.at ==> d.at[m] == MonthTotal(ts, Income, m) - MonthTotal(ts, Expense, m)
    ensures Total(d) == SumWhere(ts, OfKind(Income)) - SumWhere(ts, OfKind(Expense))
  {
    var ms := Months(ts);
    var income := Dict(ms, map m | m in ms :: MonthTotal(ts, Income, m));
    var expense := Dict(ms, map m | m in ms :: MonthTotal(ts, Expense, m));
    SumOfDifference(ms, income.at, expense.at, d.at);
    MonthSeriesTotal(ts, OfKind(Income), income);
    MonthSeriesTotal(ts, OfKind(Expense), expense);
  }

  /** The balance as a percentage of the income, and 0 for a month without income. */
  function BalancePercentage(income: real, expense: real): real {
    if income == 0.0 then 0.0 else (income - Abs(expense)) / income * 100.0
  }

  /**
   * The percentage is 0 exactly when there is no income or income equals expense; otherwise
   * it scales the balance by 100 / income, so it has the sign of the balance, and it never
   * exceeds 100 for a positive income.
   */
  lemma BalancePercentageMeaning(income: real, expense: real)
    requires income >= 0.0 && expense >= 0.0
    ensures income == 0.0 ==> BalancePercentage(income, expense) == 0.0
    ensures income > 0.0 ==> BalancePercentage(income, expense) * income == (income - expense) * 100.0
    ensures income > 0.0 ==> (BalancePercentage(income, expense) > 0.0 <==> income > expense)
    ensures income > 0.0 ==> (BalancePercentage(income, expense) == 100.0 <==> expense == 0.0)
    ensures BalancePercentage(income, expense) <= 100.0
  {
    if income > 0.0 {
      var q := (income - expense) / income;
      assert q * income == income - expense;
      assert BalancePercentage(income, expense) == q * 100.0;
      assert (1.0 - q) * income == expense;
    }
  }

  method GetBalancePercentage(ts: seq<Transaction>) returns (r: Result<Dict<Month, real>, StatsError>)
    ensures r.Failure? <==> ts == []
    ensures r.Success? ==> r.value.Valid() && r.value.keys == Months(ts)
    ensures r.Success? ==> forall m :: m in r.value.at ==>
      r.value.at[m] == BalancePercentage(MonthTotal(ts, Income, m), MonthTotal(ts, Expense, m))
  {
    var expensesResult := GetTransactionsByMonth(ts, Expense);
    if expensesResult.Failure? {
      return Failure(expensesResult.error);
    }
    var incomeResult := GetTransactionsByMonth(ts, Income);
    var expenses, income := expensesResult.value, incomeResult.value;
    var balance: Dict<Month, real> := EmptyDict();
    var i := 0;
    while i < |expenses.keys|
      invariant 0 <= i <= |expenses.keys|
      invariant balance.Valid() && balance.keys == expenses.keys[..i]
      invariant forall m :: m in balance.at ==>
        balance.at[m] == BalancePercentage(MonthTotal(ts, Income, m), MonthTotal(ts, Expense, m))
    {
      var date := expenses.keys[i];
      assert expenses.keys[..i + 1] == expenses.keys[..i] + [date];
      balance := balance.Put(date, BalancePercentage(income.at[date], expenses.at[date]));
      i := i + 1;
    }
    assert expenses.keys[..i] == expenses.keys;
    return Success(balance);
  }

  // ---------------------------------------------------------------------------
  // get_metric_average

  method GetMetricAverage<K(!new)>(metrics: Dict<K, real>) returns (r: Result<real, StatsError>)
    requires metrics.Valid()
    ensures r.Failure? <==> metrics.keys == []
    ensures r.Failure? ==> r.error == ZeroDivision
    ensures r.Success? ==> r.value * |metrics.keys| as real == Total(metrics)
  {
    var total := 0.0;
    var count := 0;
    while count < |metrics.keys|
      invariant 0 <= count <= |metrics.keys|
      invariant total == SumOf(metrics.keys[..count], metrics.at)
    {
      assert metrics.keys[..count + 1][..count] == metrics.keys[..count];
      total := total + metrics.at[metrics.keys[count]];
      count := count + 1;
    }
    assert metrics.keys[..count] == metrics.keys;
    if count == 0 {
      return Failure(ZeroDivision);
    }
    return Success(total / count as real);
  }

  /** The mean lies between the smallest and the largest value. */
  lemma MeanBetweenExtremes<K(!new)>(metrics: Dict<K, real>, mean: real, lo: real, hi: real)
    requires metrics.Valid() && metrics.keys != []
    requires mean * |metrics.keys| as real == Total(metrics)
    requires forall k :: k in metrics.at ==> lo <= metrics.at[k] <= hi
    ensures lo <= mean <= hi
  {
    var n := |metrics.keys| as real;
    SumOfBounds(metrics.keys, metrics.at, lo, hi);
    assert (mean - lo) * n == mean * n - n * lo;
    assert (hi - mean) * n == n * hi - mean * n;
    NonNegativeFactor(mean - lo, n);
    NonNegativeFactor(hi - mean, n);
  }

  lemma NonNegativeFactor(x: real, n: real)
    requires n > 0.0 && x * n >= 0.0
    ensures x >= 0.0
  {
  }
}
