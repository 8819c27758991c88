/**
 * The calendar timeline of lib/stats.py: the earliest and latest transaction dates
 * (`_get_min_date`, `_get_max_date`), the contiguous list of months between them
 * (`get_months`), the list of years (`get_years`) and the number of months a year
 * is averaged over (`_get_number_of_months_with_transactions_in_year`).
 */
module Timeline {
  import opened Wrappers
  import opened Transactions

  /** The ways the aggregation functions of the source fail. */
  datatype StatsError =
    | DatesNotFound      // get_months raises RuntimeError("Dates could not be found")
    | NoDate             // an attribute of the None returned for an empty list is read
    | MissingKey         // a dict lookup of a key that is absent (KeyError)
    | ZeroDivision       // a division by a count of zero

  /** A period key: the source renders it as "YY_MM". */
  datatype Month = Month(year: int, month: int)

  function MonthOf(d: Date): Month {
    Month(d.year, d.month)
  }

  /** Months counted from January of year 0: consecutive months have consecutive indices. */
  function Index(m: Month): int {
    m.year * 12 + m.month - 1
  }

  function MonthAt(k: int): (m: Month)
    ensures 1 <= m.month <= 12 && Index(m) == k
  {
    Month(k / 12, k % 12 + 1)
  }

  lemma MonthAtIndex(m: Month)
    requires 1 <= m.month <= 12
    ensures MonthAt(Index(m)) == m
  {
  }

  /** Chronological order of months. */
  predicate MonthBefore(a: Month, b: Month) {
    a.year < b.year || (a.year == b.year && a.month < b.month)
  }

  lemma MonthBeforeIsIndexOrder(a: Month, b: Month)
    requires 1 <= a.month <= 12 && 1 <= b.month <= 12
    ensures MonthBefore(a, b) <==> Index(a) < Index(b)
  {
  }

  ghost predicate StrictlyIncreasing(ms: seq<Month>) {
    forall i, j :: 0 <= i < j < |ms| ==> MonthBefore(ms[i], ms[j])
  }

  // ---------------------------------------------------------------------------
  // Earliest and latest dates

  /** The running minimum of `_get_min_date` after reading `ts` from left to right. */
  function EarliestDate(ts: seq<Transaction>): Option<CalendarDate> {
    if ts == [] then None
    else
      var t := ts[|ts| - 1];
      match EarliestDate(ts[..|ts| - 1])
      case None => Some(t.date)
      case Some(d) => if Before(t.date, d) then Some(t.date) else Some(d)
  }

  /** The running maximum of `_get_max_date` after reading `ts` from left to right. */
  function LatestDate(ts: seq<Transaction>): Option<CalendarDate> {
    if ts == [] then None
    else
      var t := ts[|ts| - 1];
      match LatestDate(ts[..|ts| - 1])
      case None => Some(t.date)
      case Some(d) => if Before(d, t.date) then Some(t.date) else Some(d)
  }

  /** `d` is the date of some transaction of `ts` and no transaction is dated earlier. */
  ghost predicate IsEarliest(ts: seq<Transaction>, d: Date) {
    (exists i :: 0 <= i < |ts| && ts[i].date == d) &&
    forall i :: 0 <= i < |ts| ==> !Before(ts[i].date, d)
  }

  /** `d` is the date of some transaction of `ts` and no transaction is dated later. */
  ghost predicate IsLatest(ts: seq<Transaction>, d: Date) {
    (exists i :: 0 <= i < |ts| && ts[i].date == d) &&
    forall i :: 0 <= i < |ts| ==> !Before(d, ts[i].date)
  }

  /** Whatever the order of the input, the scan finds the earliest date, and None only for no input. */
  lemma {:induction false} EarliestDateIsEarliest(ts: seq<Transaction>)
    ensures EarliestDate(ts).None? <==> ts == []
    ensures EarliestDate(ts).Some? ==> IsEarliest(ts, EarliestDate(ts).value)
  {
    if ts != [] {
      var init := ts[..|ts| - 1];
      EarliestDateIsEarliest(init);
      var d := EarliestDate(ts).value;
      forall i | 0 <= i < |ts| ensures !Before(ts[i].date, d) {
        if i < |ts| - 1 {
          assert init[i] == ts[i];
          BeforeIsStrictTotalOrder(ts[i].date, EarliestDate(init).value, d);
        }
      }
      if init != [] && d == EarliestDate(init).value {
        var j :| 0 <= j < |init| && init[j].date == d;
        assert ts[j].date == d;
      }
    }
  }

  /** Whatever the order of the input, the scan finds the latest date, and None only for no input. */
  lemma {:induction false} LatestDateIsLatest(ts: seq<Transaction>)
    ensures LatestDate(ts).None? <==> ts == []
    ensures LatestDate(ts).Some? ==> IsLatest(ts, LatestDate(ts).value)
  {
    if ts != [] {
      var init := ts[..|ts| - 1];
      LatestDateIsLatest(init);
      var d := LatestDate(ts).value;
      forall i | 0 <= i < |ts| ensures !Before(d, ts[i].date) {
        if i < |ts| - 1 {
          assert init[i] == ts[i];
          BeforeIsStrictTotalOrder(d, LatestDate(init).value, ts[i].date);
        }
      }
      if init != [] && d == LatestDate(init).value {
        var j :| 0 <= j < |init| && init[j].date == d;
        assert ts[j].date == d;
      }
    }
  }

  method GetMinDate(ts: seq<Transaction>) returns (minDate: Option<CalendarDate>)
    ensures minDate == EarliestDate(ts)
    ensures minDate.None? <==> ts == []
    ensures minDate.Some? ==> IsEarliest(ts, minDate.value)
  {
    minDate := None;
    var i := 0;
    while i < |ts|
      invariant 0 <= i <= |ts|
      invariant minDate == EarliestDate(ts[..i])
    {
      assert ts[..i + 1][..i] == ts[..i];
      if minDate.None? {
        minDate := Some(ts[i].date);
      } else if Before(ts[i].date, minDate.value) {
        minDate := Some(ts[i].date);
      }
      i := i + 1;
    }
    assert ts[..i] == ts;
    EarliestDateIsEarliest(ts);
  }

  method GetMaxDate(ts: seq<Transaction>) returns (maxDate: Option<CalendarDate>)
    ensures maxDate == LatestDate(ts)
    ensures maxDate.None? <==> ts == []
    ensures maxDate.Some? ==> IsLatest(ts, maxDate.value)
  {
    maxDate := None;
    var i := 0;
    while i < |ts|
      invariant 0 <= i <= |ts|
      invariant maxDate == LatestDate(ts[..i])
    {
      assert ts[..i + 1][..i] == ts[..i];
      if maxDate.None? {
        maxDate := Some(ts[i].date);
      } else if Before(maxDate.value, ts[i].date) {
        maxDate := Some(ts[i].date);
      }
      i := i + 1;
    }
    assert ts[..i] == ts;
    LatestDateIsLatest(ts);
  }

  function First(ts: seq<Transaction>): (d: CalendarDate)
    requires ts != []
  {
    EarliestDateIsEarliest(ts);
    EarliestDate(ts).value
  }

  function Last(ts: seq<Transaction>): (d: CalendarDate)
    requires ts != []
  {
    LatestDateIsLatest(ts);
    LatestDate(ts).value
  }

  lemma FirstNotAfterLast(ts: seq<Transaction>)
    requires ts != []
    ensures !Before(Last(ts), First(ts))
    ensures Index(MonthOf(First(ts))) <= Index(MonthOf(Last(ts)))
  {
    EarliestDateIsEarliest(ts);
    LatestDateIsLatest(ts);
    var i :| 0 <= i < |ts| && ts[i].date == First(ts);
    BeforeIsStrictTotalOrder(Last(ts), ts[i].date, First(ts));
  }

  // ---------------------------------------------------------------------------
  // The month timeline

  /** The months with indices a, a+1, ..., b-1. */
  function IndexRange(a: int, b: int): (ms: seq<Month>)
    ensures |ms| == if a <= b then b - a else 0
    ensures forall i :: 0 <= i < |ms| ==> ms[i] == MonthAt(a + i)
  {
    seq(if a <= b then b - a else 0, i => MonthAt(a + i))
  }

  /** Every month from `lo` to `hi`, both included. */
  function MonthRange(lo: Month, hi: Month): seq<Month> {
    IndexRange(Index(lo), Index(hi) + 1)
  }

  /** The timeline of a non-empty transaction list: every month from the earliest to the latest date. */
  function Months(ts: seq<Transaction>): seq<Month>
    requires ts != []
  {
    MonthRange(MonthOf(First(ts)), MonthOf(Last(ts)))
  }

  method GetMonths(ts: seq<Transaction>) returns (r: Result<seq<Month>, StatsError>)
    ensures r.Failure? <==> ts == []
    ensures r.Failure? ==> r.error == DatesNotFound
    ensures r.Success? ==> r.value == Months(ts)
  {
    var minDate := GetMinDate(ts);
    var maxDate := GetMaxDate(ts);
    if minDate.None? || maxDate.None? {
      return Failure(DatesNotFound);
    }
    var lo, hi := minDate.value, maxDate.value;
    FirstNotAfterLast(ts);
    var first, last := Index(MonthOf(lo)), Index(MonthOf(hi));
    var months: seq<Month> := [];
    var year := lo.year;
    while year < hi.year + 1
      invariant lo.year <= year <= hi.year + 1
      invariant months == MonthsBefore(first, last, year * 12)
    {
      months := AppendMonthsOfYear(months, MonthOf(lo), MonthOf(hi), year);
      year := year + 1;
    }
    assert months == IndexRange(first, last + 1);
    return Success(months);
  }

  /** The inner loop of `get_months`: the months of `year` that lie between `lo` and `hi`, appended in order. */
  method AppendMonthsOfYear(months: seq<Month>, lo: Month, hi: Month, year: int) returns (r: seq<Month>)
    requires 1 <= lo.month <= 12 && 1 <= hi.month <= 12 && Index(lo) <= Index(hi)
    requires lo.year <= year <= hi.year
    requires months == MonthsBefore(Index(lo), Index(hi), year * 12)
    ensures r == MonthsBefore(Index(lo), Index(hi), year * 12 + 12)
  {
    var first, last := Index(lo), Index(hi);
    r := months;
    var month := 1;
    while month < 13
      invariant 1 <= month <= 13
      invariant r == MonthsBefore(first, last, year * 12 + month - 1)
    {
      var k := year * 12 + month - 1;
      RangeStep(first, last, k);
      OutsideSpan(lo, hi, Month(year, month));
      if year == lo.year && month < lo.month {
        month := month + 1;
        continue;
      }
      if year == hi.year && month > hi.month {
        month := month + 1;
        continue;
      }
      MonthAtIndex(Month(year, month));
      r := r + [Month(year, month)];
      month := month + 1;
    }
  }

  /** The months of the span [first, last] whose index is below `k`. */
  function MonthsBefore(first: int, last: int, k: int): seq<Month> {
    IndexRange(first, Min(k, last + 1))
  }

  /** Within the span's years, the month loop's two `continue` tests are the index bounds. */
  lemma OutsideSpan(lo: Month, hi: Month, m: Month)
    requires lo.year <= m.year <= hi.year
    requires 1 <= m.month <= 12 && 1 <= lo.month <= 12 && 1 <= hi.month <= 12
    ensures (m.year == lo.year && m.month < lo.month) <==> Index(m) < Index(lo)
    ensures (m.year == hi.year && m.month > hi.month) <==> Index(m) > Index(hi)
  {
  }

  function Min(a: int, b: int): int {
    if a <= b then a else b
  }

  /** One step of the month loop: index `k` is appended exactly when it lies in [first, last]. */
  lemma RangeStep(first: int, last: int, k: int)
    requires first <= last + 1
    ensures k < first ==> MonthsBefore(first, last, k + 1) == MonthsBefore(first, last, k) == []
    ensures k > last ==> MonthsBefore(first, last, k + 1) == MonthsBefore(first, last, k)
    ensures first <= k <= last ==> MonthsBefore(first, last, k + 1) == MonthsBefore(first, last, k) + [MonthAt(k)]
  {
    if first <= k <= last {
      IndexRangeSnoc(first, k);
    }
  }

  /** A range of month indices grows by its end. */
  lemma IndexRangeSnoc(a: int, b: int)
    requires a <= b
    ensures IndexRange(a, b + 1) == IndexRange(a, b) + [MonthAt(b)]
  {
    var r, r' := IndexRange(a, b + 1), IndexRange(a, b) + [MonthAt(b)];
    assert |r| == |r'|;
    forall i | 0 <= i < |r| ensures r[i] == r'[i] {
      if i < b - a {
        assert r'[i] == IndexRange(a, b)[i];
      }
    }
  }

  /**
   * The timeline is contiguous: it starts at the earliest month, ends at the latest,
   * each month follows the previous one, and its length is the month span.
   */
  lemma MonthsContiguous(ts: seq<Transaction>)
    requires ts != []
    ensures var ms := Months(ts); var lo, hi := First(ts), Last(ts);
      && |ms| == (hi.year - lo.year) * 12 + hi.month - lo.month + 1
      && ms[0] == MonthOf(lo)
      && ms[|ms| - 1] == MonthOf(hi)
      && (forall i :: 0 <= i < |ms| - 1 ==> Index(ms[i + 1]) == Index(ms[i]) + 1)
      && (forall i :: 0 <= i < |ms| ==> 1 <= ms[i].month <= 12)
  {
    FirstNotAfterLast(ts);
    MonthAtIndex(MonthOf(First(ts)));
    MonthAtIndex(MonthOf(Last(ts)));
  }

  /** Each month of the timeline appears once, in chronological order. */
  lemma MonthsIncreasing(ts: seq<Transaction>)
    requires ts != []
    ensures StrictlyIncreasing(Months(ts))
  {
    var ms := Months(ts);
    forall i, j | 0 <= i < j < |ms| ensures MonthBefore(ms[i], ms[j]) {
      MonthBeforeIsIndexOrder(ms[i], ms[j]);
    }
  }

  /** A month is on the timeline exactly when it lies between the earliest and the latest month. */
  lemma InMonths(ts: seq<Transaction>, m: Month)
    requires ts != []
    requires 1 <= m.month <= 12
    ensures m in Months(ts) <==> Index(MonthOf(First(ts))) <= Index(m) <= Index(MonthOf(Last(ts)))
  {
    var ms := Months(ts);
    var a := Index(MonthOf(First(ts)));
    if a <= Index(m) <= Index(MonthOf(Last(ts))) {
      MonthAtIndex(m);
      assert ms[Index(m) - a] == m;
    }
  }

  /** The month of every transaction is on the timeline. */
  lemma MonthsCoverTransactions(ts: seq<Transaction>, t: Transaction)
    requires t in ts
    ensures MonthOf(t.date) in Months(ts)
  {
    EarliestDateIsEarliest(ts);
    LatestDateIsLatest(ts);
    var i :| 0 <= i < |ts| && ts[i] == t;
    InMonths(ts, MonthOf(t.date));
  }

  /** A list whose dates all fall in one month has a one-month timeline. */
  lemma SingleMonth(ts: seq<Transaction>, m: Month)
    requires ts != []
    requires forall i :: 0 <= i < |ts| ==> MonthOf(ts[i].date) == m
    ensures Months(ts) == [m]
  {
    EarliestDateIsEarliest(ts);
    LatestDateIsLatest(ts);
    var i :| 0 <= i < |ts| && ts[i].date == First(ts);
    var j :| 0 <= j < |ts| && ts[j].date == Last(ts);
    MonthAtIndex(m);
  }

  // ---------------------------------------------------------------------------
  // Years

  /** `list(range(min_date.year, max_date.year + 1))`. */
  function Years(ts: seq<Transaction>): (ys: seq<int>)
    requires ts != []
  {
    var lo, hi := First(ts).year, Last(ts).year;
    seq(if lo <= hi then hi - lo + 1 else 0, i => lo + i)
  }

  method GetYears(ts: seq<Transaction>) returns (r: Result<seq<int>, StatsError>)
    ensures r.Failure? <==> ts == []
    ensures r.Success? ==> r.value == Years(ts)
    ensures r.Success? ==> |r.value| == Last(ts).year - First(ts).year + 1
  {
    var minDate := GetMinDate(ts);
    var maxDate := GetMaxDate(ts);
    if minDate.None? || maxDate.None? {
      return Failure(NoDate);
    }
    FirstNotAfterLast(ts);
    var lo, hi := minDate.value.year, maxDate.value.year;
    return Success(seq(hi - lo + 1, i => lo + i));
  }

  /** The years are consecutive, and they are exactly the years the month timeline passes through. */
  lemma YearsMatchMonths(ts: seq<Transaction>)
    requires ts != []
    ensures forall i :: 0 <= i < |Years(ts)| - 1 ==> Years(ts)[i + 1] == Years(ts)[i] + 1
    ensures forall y :: y in Years(ts) <==> exists m :: m in Months(ts) && m.year == y
  {
    FirstNotAfterLast(ts);
    var lo, hi := First(ts), Last(ts);
    forall y ensures y in Years(ts) <==> exists m :: m in Months(ts) && m.year == y {
      if y in Years(ts) {
        var m := if y == lo.year then MonthOf(lo) else Month(y, 1);
        if y == hi.year && y != lo.year {
          assert Index(m) <= Index(MonthOf(hi));
        }
        InMonths(ts, m);
      }
      if m :| m in Months(ts) && m.year == y {
        var k :| 0 <= k < |Months(ts)| && Months(ts)[k] == m;
        assert lo.year <= y <= hi.year;
        assert Years(ts)[y - lo.year] == y;
      }
    }
  }

  // ---------------------------------------------------------------------------
  // Months per year, the divisor of the yearly averages

  /**
   * The divisor as the source computes it: 13 - first month in the first year, the last
   * month in the last year, 12 otherwise. The first test wins when both years coincide.
   */
  function Divisor(ts: seq<Transaction>, year: int): (n: int)
    requires ts != []
    ensures 1 <= n <= 12
  {
    if year == First(ts).year then 13 - First(ts).month
    else if year == Last(ts).year then Last(ts).month
    else 12
  }

  method GetNumberOfMonthsWithTransactionsInYear(ts: seq<Transaction>, year: int) returns (r: Result<int, StatsError>)
    ensures r.Failure? <==> ts == []
    ensures r.Success? ==> r.value == Divisor(ts, year) && 1 <= r.value <= 12
  {
    var minDate := GetMinDate(ts);
    var maxDate := GetMaxDate(ts);
    if minDate.None? || maxDate.None? {
      return Failure(NoDate);
    }
    if year == minDate.value.year {
      return Success(13 - minDate.value.month);
    }
    if year == maxDate.value.year {
      return Success(maxDate.value.month);
    }
    return Success(12);
  }

  /** How many months of `ms` fall in `year`. */
  function CountInYear(ms: seq<Month>, year: int): nat {
    if ms == [] then 0
    else CountInYear(ms[..|ms| - 1], year) + (if ms[|ms| - 1].year == year then 1 else 0)
  }

  function Max(a: int, b: int): int {
    if a >= b then a else b
  }

  /** A run of consecutive months meets a year in the overlap of the two index intervals. */
  lemma {:induction false} CountInIndexRange(a: int, b: int, year: int)
    requires a <= b
    ensures CountInYear(IndexRange(a, b), year) == Max(0, Min(b, year * 12 + 12) - Max(a, year * 12))
    decreases b - a
  {
    if a < b {
      CountInIndexRange(a, b - 1, year);
      IndexRangeSnoc(a, b - 1);
      var m := MonthAt(b - 1);
      assert IndexRange(a, b)[..b - a - 1] == IndexRange(a, b - 1);
      assert m.year == year <==> year * 12 <= b - 1 < year * 12 + 12;
    }
  }

  /**
   * Corrected divisor: the number of timeline months that fall in `year`, which is what the
   * source's docstring describes ("the number of months with transactions by checking the
   * last month and the first one").
   */
  function MonthsCoveredInYear(ts: seq<Transaction>, year: int): (n: nat)
    requires ts != []
    ensures n <= 12
  {
    FirstNotAfterLast(ts);
    CountInIndexRange(Index(MonthOf(First(ts))), Index(MonthOf(Last(ts))) + 1, year);
    CountInYear(Months(ts), year)
  }

  /** Months covered: from the first month to December, from January to the last month, or the span of a single year. */
  lemma MonthsCoveredInYearValue(ts: seq<Transaction>, year: int)
    requires ts != []
    requires First(ts).year <= year <= Last(ts).year
    ensures var lo, hi := First(ts), Last(ts);
      MonthsCoveredInYear(ts, year) ==
        if lo.year == hi.year then hi.month - lo.month + 1
        else if year == lo.year then 13 - lo.month
        else if year == hi.year then hi.month
        else 12
  {
    FirstNotAfterLast(ts);
    CountInIndexRange(Index(MonthOf(First(ts))), Index(MonthOf(Last(ts))) + 1, year);
  }

  /** When the data spans more than one calendar year, the source's divisor is the number of covered months. */
  lemma DivisorCountsMonths(ts: seq<Transaction>, year: int)
    requires ts != []
    requires First(ts).year <= year <= Last(ts).year
    requires First(ts).year != Last(ts).year
    ensures Divisor(ts, year) == MonthsCoveredInYear(ts, year)
  {
    MonthsCoveredInYearValue(ts, year);
  }

  /**
   * The divisor with the single-year case corrected: the months from the first to the last
   * when both fall in one year, the source's count otherwise. The source's averages divide by
   * `Divisor`; this count is the evidently intended one (Findings, row 2 of the README), and
   * only `YearAverages.CorrectedAverage` divides by it.
   */
  function MonthsWithTransactionsInYear(ts: seq<Transaction>, year: int): (n: int)
    requires ts != []
    ensures 1 <= n <= 12
  {
    FirstNotAfterLast(ts);
    if First(ts).year == Last(ts).year then Last(ts).month - First(ts).month + 1 else Divisor(ts, year)
  }

  /** In every year of the timeline the corrected divisor is the number of months covered. */
  lemma MonthsWithTransactionsAreCovered(ts: seq<Transaction>, year: int)
    requires ts != []
    requires First(ts).year <= year <= Last(ts).year
    ensures MonthsWithTransactionsInYear(ts, year) == MonthsCoveredInYear(ts, year)
  {
    MonthsCoveredInYearValue(ts, year);
  }

  /** Data from March to June of one year: the source divides by 10 where 4 months are covered. */
  lemma SingleYearDivisorOvercounts(ts: seq<Transaction>)
    requires ts != []
    requires First(ts) == Date(2023, 3, 1) && Last(ts) == Date(2023, 6, 30)
    ensures Divisor(ts, 2023) == 10
    ensures MonthsCoveredInYear(ts, 2023) == 4
    ensures MonthsWithTransactionsInYear(ts, 2023) == 4
  {
    MonthsCoveredInYearValue(ts, 2023);
    FirstNotAfterLast(ts);
  }
}
