# Expenses report: the aggregation core in Dafny

This project models the part of an interactive expenses report that turns a list of bank
transactions into the series its graphs draw. It covers these steps:

- the transaction record (`lib/transaction.py`): its fields, the `%d/%m/%Y` date parse, and
  the transaction type taken from the sign of the value;
- the removal of transactions duplicated across overlapping exports
  (`remove_duplicated_transactions` in `interactive_expenses_report.py`);
- the statistics of `lib/stats.py`:
  - the earliest and latest date, and the month timeline between them;
  - the totals per month of one kind, with every month of the timeline filled with 0 and
    listed in order;
  - the monthly balance and the balance as a percentage, and the mean of a series;
  - the breakdown per category and per category and subcategory, ranked by total spending;
  - the per-year tree of expense sums (global, per category, per subcategory);
  - the years of the data, and the average spending per month of each year, per category
    and per subcategory, ranked by total.

Each loop of the source is a `method` with a `while` loop, proved against a specification
written as functions and predicates:

- `SumWhere(ts, s)` is the sum of `abs(value)` over the transactions a selector (kind,
  month, year, category, subcategory) picks.
- `Months(ts)` is the timeline and `Years(ts)` is the range of years.
- `FirstLabels` lists groups in order of first appearance. `Rank` is Python's stable
  `sorted(..., reverse=True)`.

Python dicts become `Dict` values, an insertion-ordered list of keys together with a map,
and `d[k] = v` becomes `Put`. The dicts are copied by value. Amounts are exact `real`s.
Each month series is keyed by a `Month(year, month)` pair, and the module `MonthLabels`
states what the source's `YY_MM` text keys do to the order.

Modules: `Wrappers` (Option, Result), `Transactions`, `Dedup`, `OrderedDicts`, `Timeline`,
`Totals` (sums and how they split), `MonthlySeries`, `MonthLabels`, `CategorySeries`,
`SubcategorySeries`, `YearTree`, `YearAverages`.

Where the code and its documentation disagree:

- The documentation says duplicates share date, description, value and category. The code
  builds its key from the date, the description, the value and the description again, with
  no category. `Dedup.RemoveDuplicatedTransactions` follows the code
  (`Dedup.CategoryIgnored`).
- The documentation says the month series are sorted chronologically. The code sorts the
  `YY_MM` text keys, which agrees with the calendar only within one century.
  `MonthlySeries.SortByMonth`, and every series built on it, follows the documentation and
  lists months chronologically. `MonthLabels` models the code's text order and shows where
  it differs (Findings, row 1).
- The documentation says the divisor of a year's average is the number of months with
  transactions in it. The code tests the first year before the last one, so when all data
  falls in one year it divides by `13 - min_month`. `Timeline.Divisor` and every average
  of `YearAverages` follow the code. `Timeline.MonthsWithTransactionsInYear` and
  `YearAverages.CorrectedAverage` follow the documentation (Findings, rows 2 and 3).

## Model

| member | source | states |
|---|---|---|
| Transactions.KindOf | lib/transaction.py:27-34 | the type is EXPENSE exactly when the value is negative; a value of 0 is INCOME |
| Transactions.NewTransaction | lib/transaction.py:12-34 | a record exists exactly when the date parses; it keeps every field as given, and its type follows the sign of the value |
| Transactions.SuppliedTypeIgnored | lib/transaction.py:25-34 | whatever transaction type is supplied, the record is the same as with none |
| Transactions.OptionalFieldsDefaultToNone | lib/transaction.py:20-23 | tags, account, wallet and subcategory default to None |
| Transactions.FormatParseRoundTrip | lib/transaction.py:36-44 | every valid date written as `dd/mm/yyyy` parses back to itself |
| Transactions.ParseReadsDayFirst | lib/transaction.py:41-44 | "15/01/2022" is read day first, as 15 January 2022 |
| Transactions.BeforeIsStrictTotalOrder | lib/stats.py:20-21 | date comparison is irreflexive, transitive, total and asymmetric |
| Dedup.RemoveDuplicatedTransactions | interactive_expenses_report.py:18-34 | the result has no two transactions with the same key; it has the same set of keys as the input; it is a subsequence of the input |
| Dedup.UniqueIsFirstOccurrences | interactive_expenses_report.py:23-30 | the kept transactions are exactly the first occurrences of each key, in input order |
| Dedup.KeySeenBefore | interactive_expenses_report.py:28 | a transaction's key was seen before it exactly when it is not the first occurrence of its key |
| Dedup.UniqueNoLonger | interactive_expenses_report.py:18-34 | the result is never longer than the input |
| Dedup.UniqueOfDistinct | interactive_expenses_report.py:18-34 | a list without duplicate keys is returned unchanged |
| Dedup.UniqueIdempotent | interactive_expenses_report.py:18-34 | removing duplicates twice is the same as removing them once |
| Dedup.CategoryIgnored | interactive_expenses_report.py:26-27 | two transactions that differ only in category count as duplicates, and the first is kept |
| Timeline.GetMinDate | lib/stats.py:11-22 | None exactly for an empty list; otherwise a date of the list that no date of the list precedes |
| Timeline.GetMaxDate | lib/stats.py:25-36 | None exactly for an empty list; otherwise a date of the list that no date of the list follows |
| Timeline.EarliestDateIsEarliest | lib/stats.py:15-22 | the scan's result belongs to the list and precedes or equals every date in it |
| Timeline.LatestDateIsLatest | lib/stats.py:29-36 | the scan's result belongs to the list and follows or equals every date in it |
| Timeline.GetMonths | lib/stats.py:39-59 | fails with "Dates could not be found" exactly for an empty list; otherwise returns every month from the earliest to the latest date |
| Timeline.AppendMonthsOfYear | lib/stats.py:51-57 | the month loop of one year appends exactly that year's months of the span, in order |
| Timeline.OutsideSpan | lib/stats.py:52-55 | the two `continue` tests skip exactly the months before the first and after the last month |
| Timeline.MonthsContiguous | lib/stats.py:49-57 | the timeline starts at the earliest month, ends at the latest, has no gap, and its length is the month span |
| Timeline.MonthsIncreasing | lib/stats.py:49-57 | the timeline lists each month once, in chronological order |
| Timeline.InMonths | lib/stats.py:49-57 | a month is in the timeline exactly when it lies between the earliest and the latest month |
| Timeline.MonthsCoverTransactions | lib/stats.py:49-57 | the month of every transaction is in the timeline |
| Timeline.SingleMonth | lib/stats.py:49-57 | when all transactions fall in one month, the timeline is that one month |
| Timeline.GetYears | lib/stats.py:407-414 | every year from the earliest to the latest, one more than their difference in number; fails only for an empty list |
| Timeline.YearsMatchMonths | lib/stats.py:407-414 | the years are consecutive and are exactly the years of the timeline's months |
| Timeline.GetNumberOfMonthsWithTransactionsInYear | lib/stats.py:391-404 | as written: `13 - min_month` in the first year, `max_month` in the last, 12 otherwise, always between 1 and 12; fails on an empty list |
| Timeline.Divisor | lib/stats.py:399-404 | the divisor as written is between 1 and 12 |
| Timeline.CountInIndexRange | lib/stats.py:393 | a run of consecutive months meets a year in the overlap of the two intervals |
| Timeline.MonthsCoveredInYearValue | lib/stats.py:392-395 | the number of timeline months in a year: the first month to December, January to the last month, or the whole span when one year holds all of it |
| Timeline.DivisorCountsMonths | lib/stats.py:399-404 | when the data spans more than one year, the divisor as written counts the timeline's months in the year |
| Timeline.MonthsWithTransactionsInYear | lib/stats.py:391-404 | the corrected divisor, which the averages do not use, is between 1 and 12 |
| Timeline.MonthsWithTransactionsAreCovered | lib/stats.py:392-395 | the corrected divisor counts the timeline's months in every year of the data |
| Timeline.SingleYearDivisorOvercounts | lib/stats.py:399-400 | for data from March to June 2023 the divisor as written is 10, though the timeline has 4 months in 2023 |
| MonthlySeries.SumByMonth | lib/stats.py:69-78 | each listed month holds the sum of `abs(value)` of that month's transactions of the kind; unlisted months sum to 0; only months seen are listed |
| MonthlySeries.FillMonths | lib/stats.py:80-84 | every month of the timeline gets an entry; entries already present keep their value and new ones are 0 |
| MonthlySeries.FilledIsComplete | lib/stats.py:80-84 | after filling, the keys are exactly the timeline's months and each holds its month's sum |
| MonthlySeries.SortByMonth | lib/stats.py:86 | the same entries, listed in strictly increasing month order |
| MonthlySeries.IncreasingListingUnique | lib/stats.py:86 | only one strictly increasing listing of a set of months exists, so sorting gives the timeline order |
| MonthlySeries.GetTransactionsByMonth | lib/stats.py:62-88 | fails exactly on an empty list; otherwise one entry per timeline month, in order, each the month's total of the kind |
| MonthlySeries.TransactionsByMonthTotal | lib/stats.py:62-88 | the series adds up to the total of the kind; months without such a transaction hold 0; no entry is negative |
| MonthlySeries.MonthSeriesTotal | lib/stats.py:80-86 | a series of month sums over the whole timeline adds up to the month-free sum |
| MonthlySeries.GetBalance | lib/stats.py:91-101 | one entry per timeline month: the month's income minus its expenses |
| MonthlySeries.BalanceTotal | lib/stats.py:91-101 | the balances add up to total income minus total expenses |
| MonthlySeries.GetBalancePercentage | lib/stats.py:104-117 | one entry per timeline month: the balance as a percentage of the month's income, 0 where there is no income |
| MonthlySeries.BalancePercentageMeaning | lib/stats.py:113-116 | 0 with no income; otherwise the percentage times the income is 100 times the balance; positive exactly when income exceeds expenses; 100 exactly when nothing was spent; never above 100 |
| MonthlySeries.GetMetricAverage | lib/stats.py:120-129 | fails with a division by zero exactly on an empty series; otherwise the mean times the count is the total |
| MonthlySeries.MeanBetweenExtremes | lib/stats.py:120-129 | the mean lies between any lower and upper bound of the entries |
| MonthLabels.YearSuffix | lib/stats.py:57 | from the year 10 on, `str(year)[-2:]` is the year modulo 100 in two digits |
| MonthLabels.MonthLabel | lib/stats.py:56-57 | from the year 10 on, the key has five characters with `_` in the middle |
| MonthLabels.TextBeforeLabels | lib/stats.py:86 | string order on two keys compares the year modulo 100 first, then the month |
| MonthLabels.LabelOrderInCentury | lib/stats.py:86 | within one century the string order of the keys is the chronological order |
| MonthLabels.LabelsDistinctInCentury | lib/stats.py:74-78 | within one century two months share a key exactly when they are equal |
| MonthLabels.CenturyTurnMisorders | lib/stats.py:86 | December 1999 precedes January 2000, but its key "99_12" sorts after "00_01" |
| MonthLabels.CenturyApartCollide | lib/stats.py:74-78 | January 1950 and January 2050 share the key "50_01" |
| Totals.SubcategoryName | lib/stats.py:247-248 | a missing or empty subcategory becomes "No subcategory"; any other name is kept |
| Totals.SumWhereBounds | lib/stats.py:76-78 | a sum of `abs(value)` is never negative, and is 0 when nothing is selected |
| Totals.Partition | lib/stats.py:159-173 | splitting a sum by a key that covers every selected transaction loses and duplicates nothing |
| CategorySeries.FirstLabelsExact | lib/stats.py:167-168 | a group is listed exactly when some selected transaction carries its name |
| CategorySeries.GroupByCategory | lib/stats.py:159-173 | the categories in order of first appearance, each holding a month series of its sums with only months seen |
| CategorySeries.AddToCategory | lib/stats.py:160-173 | reading one more transaction keeps the grouping exact |
| CategorySeries.FillGroups | lib/stats.py:175-180 | every group gets an entry for every month; existing entries keep their value and new ones are 0 |
| CategorySeries.TotalsByGroup | lib/stats.py:137-145 | one total per group with at least one entry, in group order: the sum of its entries |
| CategorySeries.AddGroupTotal | lib/stats.py:139-145 | a group without entries gets no total; otherwise its total is the sum of its entries |
| CategorySeries.SortCategoriesByExpense | lib/stats.py:132-149 | the groups with entries, each once, from the largest total to the smallest, with equal totals in their original order |
| CategorySeries.SortGroupMonths | lib/stats.py:185-188 | the groups in the given order, each a finished month series |
| CategorySeries.GetCategoriesByMonth | lib/stats.py:152-190 | fails exactly on an empty list; otherwise the categories ranked by total, each a full month series of its sums |
| CategorySeries.BreakdownOrder | lib/stats.py:182-188 | the listed groups are exactly those with a selected transaction, each once, by non-increasing total, and ties keep first-appearance order |
| CategorySeries.BreakdownColumnsAddUp | lib/stats.py:159-180 | for every month, the groups' entries add up to the month's sum |
| CategorySeries.BreakdownTotalsAddUp | lib/stats.py:137-149 | the groups' totals add up to the overall sum |
| CategorySeries.LabelPartition | lib/stats.py:159-173 | group sums over a listing that covers every selected transaction add up to the overall sum |
| SubcategorySeries.GroupBySubcategory | lib/stats.py:235-258 | the categories in order of first appearance, each holding its subcategories, each a month series of its sums |
| SubcategorySeries.AddToSubcategory | lib/stats.py:236-258 | reading one more transaction keeps the nested grouping exact |
| SubcategorySeries.FillSubcategories | lib/stats.py:202-213 | every subcategory of every category gets an entry for every month, with 0 for the new ones |
| SubcategorySeries.FillOneCategory | lib/stats.py:208-212 | the inner two loops fill one category's subcategories |
| SubcategorySeries.SeriesTotalsOfFilled | lib/stats.py:229 | once filled, `sum(x[1].values())` is the group total used to rank the categories |
| SubcategorySeries.SortOneCategory | lib/stats.py:219-232 | one category's subcategories ranked by total, each a month series in order |
| SubcategorySeries.SortSubcategories | lib/stats.py:215-233 | every category keeps its place and gets its subcategories ranked |
| SubcategorySeries.GetCategoriesByMonthWithSubcategories | lib/stats.py:193-263 | fails exactly on an empty list; otherwise categories in order of first appearance, each with ranked subcategory series |
| SubcategorySeries.SubcategoryColumnsAddUp | lib/stats.py:235-258 | for every month, a category's subcategory entries add up to the category's month sum |
| SubcategorySeries.SubcategoryTotalsAddUp | lib/stats.py:215-233 | a category's subcategory totals add up to the category's total |
| SubcategorySeries.NestedRefinesFlat | lib/stats.py:152-263 | the nested breakdown has the same categories as the flat one, and its subcategory entries add up to the flat entry of every month |
| YearTree.AddToYear | lib/stats.py:299-305 | counting one expense in a year dict keeps every year's sum exact |
| YearTree.FillGlobal | lib/stats.py:288-306 | the global `sum` and `year` account for the new expense |
| YearTree.FillCategory | lib/stats.py:308-331 | the category's `sum` and `year` account for the new expense; other categories are unchanged in meaning |
| YearTree.FillSubcategory | lib/stats.py:333-372 | the subcategory entry accounts for the new expense, so every level accounts for it |
| YearTree.AddExpense | lib/stats.py:375-386 | reading one more transaction keeps the whole tree exact |
| YearTree.GetCategoriesByYearWithSubcategory | lib/stats.py:266-388 | the tree is exact for the transactions read in reverse order |
| YearTree.SumWhereReversed | lib/stats.py:375 | reading the list backwards gives the same sums |
| YearTree.YearTreeMeaning | lib/stats.py:266-388 | the tree is empty exactly when there is no expense; otherwise its `sum` is the total expense |
| YearTree.YearTreeYears | lib/stats.py:298-305 | the global `year` has an entry exactly for the years with an expense, holding that year's expenses |
| YearTree.YearTreeCategories | lib/stats.py:308-331 | the categories are exactly those with an expense, each with its total expense |
| YearTree.YearTreeAddsUp | lib/stats.py:266-388 | at every level the years add up to the `sum`, the categories add up to the global `sum`, and the subcategories add up to their category's `sum` |
| YearAverages.AverageYears | lib/stats.py:431-437 | one entry per year of the data: that year's sum divided by the divisor as written, or 0 for a year without spending |
| YearAverages.AverageCategory | lib/stats.py:426-454 | a category's year averages and those of each of its subcategories |
| YearAverages.AverageCategories | lib/stats.py:425-454 | every category of the tree, in its order, with its averages |
| YearAverages.GetCategoriesAverageInYearWithSubcategories | lib/stats.py:417-456 | fails with a missing "categories" key exactly when there is no expense; otherwise the averages, with the divisor as written, of every category and subcategory |
| YearAverages.AverageTimesMonths | lib/stats.py:433-435 | an average is never negative, and times the divisor as written it gives back the year's spending; when the data spans several calendar years, that divisor is the number of covered months |
| YearAverages.DivisorOfCoveredYear | lib/stats.py:399-404 | for data spanning several calendar years, the divisor of every year of the data is its number of covered months |
| YearAverages.CorrectedAverageTimesMonths | lib/stats.py:392-395 | the corrected average is never negative, and times the number of covered months it gives back the year's spending |
| YearAverages.AveragesAgreeAcrossYears | lib/stats.py:399-404 | for data spanning several calendar years, the source's average is the corrected one |
| YearAverages.SingleYearAverageUnderstates | lib/stats.py:433-435 | for spending from March to June 2023 only, the source averages the year's sum over 10 months, not 4, so it averages below the corrected value |
| YearAverages.AverageOfEmptyYear | lib/stats.py:436-437 | a year of the data without spending in the group averages 0 |
| YearAverages.SubcategoryAveragesAddUp | lib/stats.py:439-454 | for every year, a category's subcategory averages add up to the category's average |
| YearAverages.SortByYear | lib/stats.py:473-475 | the same entries, listed by increasing year |
| YearAverages.SortIncreasingYears | lib/stats.py:473-475 | sorting years that are already increasing changes nothing |
| YearAverages.FillYears | lib/stats.py:469-471 | every year gets an entry; existing entries keep their value and new ones are 0; nothing changes when all years are present |
| YearAverages.FillAndSortYears | lib/stats.py:468-475 | an averaged entry already has every year, in order, so filling and sorting leaves it as it is |
| YearAverages.GetCategoriesAverageInYear | lib/stats.py:459-481 | fails exactly when there is no expense; otherwise every category's year averages, ranked by their sum |
| YearAverages.RankedAveragesOrder | lib/stats.py:477-479 | the categories are exactly those with an expense, each once, by non-increasing sum of averages, and ties keep the tree's order |
| OrderedDicts.Rank | lib/stats.py:146-148 | the ranking is a permutation of its input |
| OrderedDicts.RankNonIncreasing | lib/stats.py:146-148 | the ranking lists keys by non-increasing score |
| OrderedDicts.RankStable | lib/stats.py:146-148 | for every score, the keys with that score keep their input order |
| OrderedDicts.RankPermutes | lib/stats.py:146-148 | ranking distinct keys lists each of them exactly once |

## Left out

- Reading the CSV files, the graphs, the HTML report, the settings and the console
  messages (including the one printed for a removed duplicate) are not part of this model.
- Floating point: amounts, sums, averages and percentages are exact reals, so rounding in
  the sums is not modelled.
- `datetime.strptime` with the format `%d/%m/%Y` also accepts a day written as a space
  followed by one digit (" 5/01/2022"). The model's parser reads one or two digits for the
  day and the month and four for the year, and requires the date to exist.
- `trans_type` is the two-valued `Kind`; a string other than "EXPENSE" or "INCOME", which
  would select nothing, is not modelled.
- Dedup.RemoveDuplicatedTransactions: the key is a structured tuple of date, description,
  value and description rather than the concatenated string, so two different tuples whose
  strings happen to coincide are not merged as they would be in the source.
- Each month series is keyed by `Month(year, month)`, not by the `YY_MM` string. The
  model therefore keeps apart months that are a century apart, where the source merges
  them (`MonthLabels.CenturyApartCollide`).
- MonthlySeries.SortByMonth: lists months chronologically. The source sorts the `YY_MM`
  text keys, which puts "00_01" before "99_12" (`MonthLabels.CenturyTurnMisorders`), so the
  model's order differs from the source's for data spanning a century turn.
- YearTree.GetCategoriesByYearWithSubcategory: the nested `{"sum": …, "year": …}` dicts are
  the `ExpenseTree`, `CategoryNode` and `Tally` datatypes; `"subcategories"` of a category
  is created together with the category instead of in `_fill_subcategory`, which the
  source always calls right after.
- `get_months` raises when there is no date. `get_categories_average_in_year_with_subcategories`
  raises a KeyError when there is no expense, and `get_metric_average` raises a division by
  zero on an empty dict. These exceptions are `Failure` results.

## Findings

| source | as written | input that shows it | evidently intended | confidence | as-written member | corrected member |
|---|---|---|---|---|---|---|
| lib/stats.py:86 | month keys `YY_MM` are sorted as strings | transactions in December 1999 and January 2000: "00_01" sorts before "99_12" | months listed chronologically, as the timeline lists them | not executed | MonthLabels.CenturyTurnMisorders | MonthlySeries.SortByMonth |
| lib/stats.py:399-400 | `13 - min_month` whenever the year is the first year | transactions from March to June 2023 only: the divisor is 10, though 4 months have data | the number of months from the first to the last month with data in that year (4) | not executed | Timeline.SingleYearDivisorOvercounts | Timeline.MonthsWithTransactionsAreCovered |
| lib/stats.py:433-435 | each yearly sum is divided by that divisor, for categories and (at :444-450) subcategories alike | expenses from March to June 2023 only: each average is the year's sum over 10, not over 4 | the spending per month with data | not executed | YearAverages.SingleYearAverageUnderstates | YearAverages.CorrectedAverageTimesMonths |
