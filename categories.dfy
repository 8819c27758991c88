/**
 * Grouping the transactions of one kind by category (and by subcategory within a category)
 * into monthly series, and ranking the groups by their totals: `_sort_categories_by_expense`
 * and `get_categories_by_month` of lib/stats.py.
 */
module CategorySeries {
  import opened Wrappers
  import opened Transactions
  import opened Timeline
  import opened OrderedDicts
  import opened Totals
  import opened MonthlySeries

  /** The two string-valued keys the source groups by. */
  datatype Level = CategoryLevel | SubcategoryLevel

  /** The group of `t` on level `l`: its category, or its subcategory with the "No subcategory" default. */
  function Label(t: Transaction, l: Level): string {
    match l
    case CategoryLevel => t.category
    case SubcategoryLevel => SubcategoryName(t.subcategory)
  }

  function KeyAt(l: Level, name: string): Key {
    match l
    case CategoryLevel => InCategory(name)
    case SubcategoryLevel => InSubcategory(name)
  }

  function DimAt(l: Level): Dim {
    match l
    case CategoryLevel => ByCategory
    case SubcategoryLevel => BySubcategory
  }

  /** `s` restricted to the group `name` on level `l`. */
  function Within(s: Selector, l: Level, name: string): Selector {
    Narrow(s, KeyAt(l, name))
  }

  /** `s` restricts neither the month nor level `l`, so both can still be split on. */
  predicate Open(s: Selector, l: Level) {
    s.month.None? && Free(s, DimAt(l))
  }

  lemma WithinMatches(t: Transaction, s: Selector, l: Level, name: string)
    requires Open(s, l)
    ensures Matches(t, Within(s, l, name)) <==> Matches(t, s) && Label(t, l) == name
    ensures Within(s, l, name).month.None?
  {
  }

  /** Restricting to a group and then to a month is restricting to the month and then to the group. */
  lemma WithinThenMonth(s: Selector, l: Level, name: string, m: Month)
    ensures Within(s, l, name).(month := Some(m)) == Within(s.(month := Some(m)), l, name)
  {
    match l
    case CategoryLevel =>
    case SubcategoryLevel =>
  }

  /**
   * The groups of the selected transactions in order of first appearance: the key order of
   * a dict that is filled by iterating over `ts`.
   */
  function FirstLabels(ts: seq<Transaction>, s: Selector, l: Level): (r: seq<string>)
    ensures Distinct(r)
  {
    if ts == [] then []
    else
      var prev, t := FirstLabels(ts[..|ts| - 1], s, l), ts[|ts| - 1];
      if Matches(t, s) && Label(t, l) !in prev then prev + [Label(t, l)] else prev
  }

  /** The listed groups are exactly the groups of the selected transactions. */
  lemma {:induction false} FirstLabelsExact(ts: seq<Transaction>, s: Selector, l: Level)
    ensures forall t :: t in ts && Matches(t, s) ==> Label(t, l) in FirstLabels(ts, s, l)
    ensures forall c :: c in FirstLabels(ts, s, l) ==> exists t :: t in ts && Matches(t, s) && Label(t, l) == c
  {
    if ts != [] {
      var init, last := ts[..|ts| - 1], ts[|ts| - 1];
      FirstLabelsExact(init, s, l);
      assert ts == init + [last];
      forall c | c in FirstLabels(ts, s, l) ensures exists t :: t in ts && Matches(t, s) && Label(t, l) == c {
        if c in FirstLabels(init, s, l) {
          var t :| t in init && Matches(t, s) && Label(t, l) == c;
          assert t in ts;
        } else {
          assert last in ts;
        }
      }
    }
  }

  lemma FirstLabelsStep(ts: seq<Transaction>, t: Transaction, s: Selector, l: Level)
    ensures FirstLabels(ts + [t], s, l)
      == if Matches(t, s) && Label(t, l) !in FirstLabels(ts, s, l) then FirstLabels(ts, s, l) + [Label(t, l)]
         else FirstLabels(ts, s, l)
  {
    assert (ts + [t])[..|ts|] == ts;
  }

  /** A group that is not listed selects nothing. */
  lemma UnlistedSelectsNothing(ts: seq<Transaction>, s: Selector, l: Level, c: string)
    requires Open(s, l) && c !in FirstLabels(ts, s, l)
    ensures forall t :: t in ts ==> !Matches(t, Within(s, l, c))
  {
    FirstLabelsExact(ts, s, l);
  }

  /** With nothing selected there are no groups. */
  lemma {:induction false} FirstLabelsOfNone(ts: seq<Transaction>, s: Selector, l: Level)
    requires forall t :: t in ts ==> !Matches(t, s)
    ensures FirstLabels(ts, s, l) == []
  {
    if ts != [] {
      FirstLabelsOfNone(ts[..|ts| - 1], s, l);
    }
  }

  // ---------------------------------------------------------------------------
  // The grouping loop

  /** After reading `ts`: one accumulation per group, the groups in order of first appearance. */
  ghost predicate Grouped(e: Dict<string, Dict<Month, real>>, ts: seq<Transaction>, s: Selector, l: Level) {
    && e.Valid()
    && e.keys == FirstLabels(ts, s, l)
    && forall c :: c in e.at ==> SummedByMonth(e.at[c], ts, Within(s, l, c))
  }

  /** Between `expenses[category] = {}` and the update of its month: the group of `t` is listed. */
  ghost predicate Opened(e: Dict<string, Dict<Month, real>>, ts: seq<Transaction>, t: Transaction, s: Selector, l: Level) {
    && e.Valid()
    && e.keys == FirstLabels(ts + [t], s, l)
    && forall c :: c in e.at ==> SummedByMonth(e.at[c], ts, Within(s, l, c))
  }

  lemma GroupedOfNothing(s: Selector, l: Level)
    ensures Grouped(EmptyDict(), [], s, l)
  {
  }

  /** A transaction that is not selected changes nothing. */
  lemma SkipStep(e: Dict<string, Dict<Month, real>>, ts: seq<Transaction>, t: Transaction, s: Selector, l: Level)
    requires Grouped(e, ts, s, l) && Open(s, l) && !Matches(t, s)
    ensures Grouped(e, ts + [t], s, l)
  {
    FirstLabelsStep(ts, t, s, l);
    forall c | c in e.at ensures SummedByMonth(e.at[c], ts + [t], Within(s, l, c)) {
      WithinMatches(t, s, l, c);
      SummedSkip(e.at[c], ts, t, Within(s, l, c));
    }
  }

  /** `if category not in expenses: expenses[category] = {}`, for a new group. */
  lemma OpenNew(e: Dict<string, Dict<Month, real>>, ts: seq<Transaction>, t: Transaction, s: Selector, l: Level)
    requires Grouped(e, ts, s, l) && Open(s, l) && Matches(t, s) && Label(t, l) !in e.at
    ensures Opened(e.Put(Label(t, l), EmptyDict()), ts, t, s, l)
  {
    FirstLabelsStep(ts, t, s, l);
    var c := Label(t, l);
    UnlistedSelectsNothing(ts, s, l, c);
    WithinMatches(t, s, l, c);
    SummedByMonthOfNothing(ts, Within(s, l, c));
  }

  /** The same for a group that is already there: nothing to do. */
  lemma OpenExisting(e: Dict<string, Dict<Month, real>>, ts: seq<Transaction>, t: Transaction, s: Selector, l: Level)
    requires Grouped(e, ts, s, l) && Open(s, l) && Matches(t, s) && Label(t, l) in e.at
    ensures Opened(e, ts, t, s, l)
  {
    FirstLabelsStep(ts, t, s, l);
  }

  /** Once the group of `t` has taken in `t`, every group accounts for `ts + [t]`. */
  lemma CloseStep(e: Dict<string, Dict<Month, real>>, ts: seq<Transaction>, t: Transaction, s: Selector, l: Level,
                  series: Dict<Month, real>)
    requires Opened(e, ts, t, s, l) && Open(s, l) && Matches(t, s) && Label(t, l) in e.at
    requires SummedByMonth(series, ts + [t], Within(s, l, Label(t, l)))
    ensures Grouped(e.Put(Label(t, l), series), ts + [t], s, l)
  {
    var c := Label(t, l);
    forall c' | c' in e.at && c' != c ensures SummedByMonth(e.at[c'], ts + [t], Within(s, l, c')) {
      WithinMatches(t, s, l, c');
      SummedSkip(e.at[c'], ts, t, Within(s, l, c'));
    }
  }

  /** `expenses[category][date] = abs(value)` for a month the group does not have yet. */
  lemma AddNewMonth(e: Dict<string, Dict<Month, real>>, ts: seq<Transaction>, t: Transaction, s: Selector, l: Level,
                    c: string, date: Month, updated: Dict<string, Dict<Month, real>>)
    requires Opened(e, ts, t, s, l) && Open(s, l) && Matches(t, s)
    requires c == Label(t, l) && c in e.at && date == MonthOf(t.date) && date !in e.at[c].at
    requires updated == e.Put(c, e.at[c].Put(date, Amount(t)))
    ensures Grouped(updated, ts + [t], s, l)
  {
    WithinMatches(t, s, l, c);
    SummedNewMonth(e.at[c], ts, t, Within(s, l, c));
    CloseStep(e, ts, t, s, l, e.at[c].Put(MonthOf(t.date), Amount(t)));
  }

  /** `expenses[category][date] = expenses[category][date] + abs(value)`. */
  lemma AddToMonth(e: Dict<string, Dict<Month, real>>, ts: seq<Transaction>, t: Transaction, s: Selector, l: Level,
                   c: string, date: Month, v: real, updated: Dict<string, Dict<Month, real>>)
    requires Opened(e, ts, t, s, l) && Open(s, l) && Matches(t, s)
    requires c == Label(t, l) && c in e.at && date == MonthOf(t.date) && date in e.at[c].at
    requires v == e.at[c].at[date] + Amount(t)
    requires updated == e.Put(c, e.at[c].Put(date, v))
    ensures Grouped(updated, ts + [t], s, l)
  {
    WithinMatches(t, s, l, c);
    SummedSameMonth(e.at[c], ts, t, Within(s, l, c), v);
    CloseStep(e, ts, t, s, l, e.at[c].Put(MonthOf(t.date), v));
  }

  /** One pass of the first loop of `get_categories_by_month`: add `t` to its category and month. */
  method AddToCategory(expenses: Dict<string, Dict<Month, real>>, t: Transaction, kind: Kind, ghost ts: seq<Transaction>)
    returns (updated: Dict<string, Dict<Month, real>>)
    requires Grouped(expenses, ts, OfKind(kind), CategoryLevel)
    ensures Grouped(updated, ts + [t], OfKind(kind), CategoryLevel)
  {
    updated := expenses;
    if t.kind != kind {
      SkipStep(updated, ts, t, OfKind(kind), CategoryLevel);
      return;
    }
    var category := t.category;
    if category !in updated.at {
      OpenNew(updated, ts, t, OfKind(kind), CategoryLevel);
      updated := updated.Put(category, EmptyDict());
    } else {
      OpenExisting(updated, ts, t, OfKind(kind), CategoryLevel);
    }
    updated := AddToGroupMonth(updated, t, category, OfKind(kind), CategoryLevel, ts);
  }

  /** `expenses[group][date] = expenses[group][date] + abs(value)`, or `= abs(value)` for a new month. */
  method AddToGroupMonth(expenses: Dict<string, Dict<Month, real>>, t: Transaction, group: string, ghost s: Selector,
                         ghost l: Level, ghost ts: seq<Transaction>)
    returns (updated: Dict<string, Dict<Month, real>>)
    requires Opened(expenses, ts, t, s, l) && Open(s, l) && Matches(t, s)
    requires group == Label(t, l) && group in expenses.at
    ensures Grouped(updated, ts + [t], s, l)
  {
    var date := MonthOf(t.date);
    var series := expenses.at[group];
    if date !in series.at {
      updated := expenses.Put(group, series.Put(date, Abs(t.value)));
      AddNewMonth(expenses, ts, t, s, l, group, date, updated);
    } else {
      var total := series.at[date] + Abs(t.value);
      updated := expenses.Put(group, series.Put(date, total));
      AddToMonth(expenses, ts, t, s, l, group, date, total, updated);
    }
  }

  /** The first loop of `get_categories_by_month`: group the transactions of `kind` by category and month. */
  method GroupByCategory(ts: seq<Transaction>, kind: Kind) returns (expenses: Dict<string, Dict<Month, real>>)
    ensures Grouped(expenses, ts, OfKind(kind), CategoryLevel)
  {
    expenses := EmptyDict();
    var i := 0;
    while i < |ts|
      invariant 0 <= i <= |ts|
      invariant Grouped(expenses, ts[..i], OfKind(kind), CategoryLevel)
    {
      assert ts[..i + 1] == ts[..i] + [ts[i]];
      expenses := AddToCategory(expenses, ts[i], kind, ts[..i]);
      i := i + 1;
    }
    assert ts[..i] == ts;
  }

  /** Every group is a well-formed dict. */
  ghost predicate WellFormedGroups<K(!new)>(e: Dict<K, Dict<Month, real>>) {
    e.Valid() && forall c :: c in e.at ==> e.at[c].Valid()
  }

  /** The "Fill empty categories" loop: every group gets an entry 0 for each month it lacks. */
  method FillGroups(e: Dict<string, Dict<Month, real>>, months: seq<Month>) returns (filled: Dict<string, Dict<Month, real>>)
    requires WellFormedGroups(e)
    ensures filled.Valid() && filled.keys == e.keys
    ensures forall c :: c in filled.at ==> c in e.at && FilledFrom(filled.at[c], e.at[c], months)
  {
    filled := e;
    var i := 0;
    while i < |e.keys|
      invariant 0 <= i <= |e.keys|
      invariant filled.Valid() && filled.keys == e.keys
      invariant forall c :: c in filled.at ==>
        if c in e.keys[..i] then FilledFrom(filled.at[c], e.at[c], months) else filled.at[c] == e.at[c]
    {
      var category := e.keys[i];
      assert e.keys[..i + 1] == e.keys[..i] + [category];
      var series := FillMonths(filled.at[category], months);
      filled := filled.Put(category, series);
      i := i + 1;
    }
    assert e.keys[..i] == e.keys;
  }

  /** After filling, every group is a complete series over the timeline. */
  ghost predicate FilledGroups(e: Dict<string, Dict<Month, real>>, ts: seq<Transaction>, s: Selector, l: Level) {
    && e.Valid()
    && e.keys == FirstLabels(ts, s, l)
    && forall c :: c in e.at ==> CompleteSeries(e.at[c], ts, Within(s, l, c))
  }

  lemma GroupsFilled(e: Dict<string, Dict<Month, real>>, filled: Dict<string, Dict<Month, real>>, ts: seq<Transaction>, s: Selector, l: Level)
    requires Grouped(e, ts, s, l) && ts != []
    requires filled.Valid() && filled.keys == e.keys
    requires forall c :: c in filled.at ==> c in e.at && FilledFrom(filled.at[c], e.at[c], Months(ts))
    ensures FilledGroups(filled, ts, s, l)
  {
    forall c | c in filled.at ensures CompleteSeries(filled.at[c], ts, Within(s, l, c)) {
      FilledIsComplete(e.at[c], filled.at[c], ts, Within(s, l, c));
    }
  }

  // ---------------------------------------------------------------------------
  // _sort_categories_by_expense

  /** The groups that have at least one entry, in their order. */
  function NonEmptyKeys(ks: seq<string>, at: map<string, Dict<Month, real>>): (r: seq<string>)
    requires forall c :: c in ks ==> c in at
    ensures forall c :: c in r <==> c in ks && at[c].keys != []
  {
    if ks == [] then []
    else
      var prev, c := NonEmptyKeys(ks[..|ks| - 1], at), ks[|ks| - 1];
      assert forall k :: k in ks <==> k in ks[..|ks| - 1] || k == c;
      if at[c].keys != [] then prev + [c] else prev
  }

  lemma {:induction false} NonEmptyKeysDistinct(ks: seq<string>, at: map<string, Dict<Month, real>>)
    requires forall c :: c in ks ==> c in at
    requires Distinct(ks)
    ensures Distinct(NonEmptyKeys(ks, at))
  {
    if ks != [] {
      NonEmptyKeysDistinct(ks[..|ks| - 1], at);
    }
  }

  lemma {:induction false} NonEmptyKeysAll(ks: seq<string>, at: map<string, Dict<Month, real>>)
    requires forall c :: c in ks ==> c in at && at[c].keys != []
    ensures NonEmptyKeys(ks, at) == ks
  {
    if ks != [] {
      NonEmptyKeysAll(ks[..|ks| - 1], at);
    }
  }

  /** The total of each group that has an entry: `sum(expenses[category].values())`. */
  ghost function GroupTotals(e: Dict<string, Dict<Month, real>>): (r: map<string, real>)
    requires WellFormedGroups(e)
    ensures forall c :: c in r <==> c in e.at && e.at[c].keys != []
  {
    map c | c in e.at && e.at[c].keys != [] :: Total(e.at[c])
  }

  /**
   * The groups that have entries, from the largest total to the smallest; groups with equal
   * totals keep their order in `expenses`, since Python's sort is stable.
   */
  method SortCategoriesByExpense(expenses: Dict<string, Dict<Month, real>>) returns (sorted: seq<string>)
    requires WellFormedGroups(expenses)
    ensures forall c :: c in sorted <==> c in expenses.at && expenses.at[c].keys != []
    ensures Distinct(sorted)
    ensures NonIncreasing(sorted, GroupTotals(expenses))
    ensures forall v :: WithScore(sorted, GroupTotals(expenses), v)
                     == WithScore(NonEmptyKeys(expenses.keys, expenses.at), GroupTotals(expenses), v)
    ensures sorted == Rank(NonEmptyKeys(expenses.keys, expenses.at), GroupTotals(expenses))
  {
    var totals := TotalsByGroup(expenses);
    sorted := Rank(totals.keys, totals.at);
    NonEmptyKeysDistinct(expenses.keys, expenses.at);
    RankFacts(totals.keys, totals.at);
  }

  /** The outer loop of `_sort_categories_by_expense`: one total per group that has entries. */
  method TotalsByGroup(expenses: Dict<string, Dict<Month, real>>) returns (totals: Dict<string, real>)
    requires WellFormedGroups(expenses)
    ensures totals.Valid()
    ensures totals.keys == NonEmptyKeys(expenses.keys, expenses.at)
    ensures totals.at == GroupTotals(expenses)
  {
    totals := EmptyDict();
    var i := 0;
    while i < |expenses.keys|
      invariant 0 <= i <= |expenses.keys|
      invariant totals.Valid() && totals.keys == NonEmptyKeys(expenses.keys[..i], expenses.at)
      invariant forall c :: c in totals.at ==> c in expenses.at && totals.at[c] == Total(expenses.at[c])
    {
      var category := expenses.keys[i];
      assert expenses.keys[..i + 1] == expenses.keys[..i] + [category];
      NonEmptyKeysSnoc(expenses.keys[..i], category, expenses.at);
      assert category !in totals.at by {
        assert category !in expenses.keys[..i];
      }
      ghost var before := totals.at;
      totals := AddGroupTotal(totals, category, expenses.at[category]);
      if expenses.at[category].keys != [] {
        assert totals.at == before[category := Total(expenses.at[category])];
      }
      i := i + 1;
    }
    assert expenses.keys[..i] == expenses.keys;
    assert forall c :: c in totals.at <==> c in GroupTotals(expenses);
  }

  /** Listing one more group adds it to the groups with entries exactly when it has entries. */
  lemma NonEmptyKeysSnoc(ks: seq<string>, c: string, at: map<string, Dict<Month, real>>)
    requires forall k :: k in ks ==> k in at
    requires c in at
    ensures NonEmptyKeys(ks + [c], at)
         == if at[c].keys != [] then NonEmptyKeys(ks, at) + [c] else NonEmptyKeys(ks, at)
  {
    assert (ks + [c])[..|ks|] == ks;
  }

  /** The inner loop of `_sort_categories_by_expense`: add up one group's entries under its name. */
  method AddGroupTotal(totals: Dict<string, real>, category: string, inner: Dict<Month, real>) returns (updated: Dict<string, real>)
    requires totals.Valid() && inner.Valid() && category !in totals.at
    ensures updated.Valid()
    ensures updated.keys == if inner.keys == [] then totals.keys else totals.keys + [category]
    ensures updated.at == if inner.keys == [] then totals.at else totals.at[category := Total(inner)]
  {
    updated := totals;
    var j := 0;
    while j < |inner.keys|
      invariant 0 <= j <= |inner.keys|
      invariant j == 0 ==> updated == totals
      invariant j > 0 ==> updated.Valid() && updated.keys == totals.keys + [category]
      invariant j > 0 ==> updated.at == totals.at[category := SumOf(inner.keys[..j], inner.at)]
    {
      var date := inner.keys[j];
      assert inner.keys[..j + 1][..j] == inner.keys[..j];
      if category in updated.at {
        updated := updated.Put(category, updated.at[category] + inner.at[date]);
      } else {
        updated := updated.Put(category, inner.at[date]);
      }
      j := j + 1;
    }
    assert inner.keys[..j] == inner.keys;
  }

  /** What `sorted(..., reverse=True)` promises, gathered for a distinct listing. */
  lemma RankFacts<K(!new)>(ks: seq<K>, score: map<K, real>)
    requires AllIn(ks, score) && Distinct(ks)
    ensures Distinct(Rank(ks, score))
    ensures NonIncreasing(Rank(ks, score), score)
    ensures forall v :: WithScore(Rank(ks, score), score, v) == WithScore(ks, score, v)
  {
    RankPermutes(ks, score);
    RankNonIncreasing(ks, score);
    forall v ensures WithScore(Rank(ks, score), score, v) == WithScore(ks, score, v) {
      RankStable(ks, score, v);
    }
  }

  // ---------------------------------------------------------------------------
  // get_categories_by_month

  /** The total of each listed group over all months: the score the groups are ranked by. */
  ghost function LabelTotals(ts: seq<Transaction>, s: Selector, l: Level): (r: map<string, real>)
    ensures forall c :: c in r <==> c in FirstLabels(ts, s, l)
  {
    map c | c in FirstLabels(ts, s, l) :: SumWhere(ts, Within(s, l, c))
  }

  /** A finished breakdown: the groups ranked by their totals, each a finished monthly series. */
  ghost predicate IsRankedBreakdown(r: Dict<string, Dict<Month, real>>, ts: seq<Transaction>, s: Selector, l: Level) {
    && r.Valid()
    && r.keys == Rank(FirstLabels(ts, s, l), LabelTotals(ts, s, l))
    && forall c :: c in r.at ==> IsSeries(r.at[c], ts, Within(s, l, c))
  }

  lemma FilledGroupEntry(e: Dict<string, Dict<Month, real>>, ts: seq<Transaction>, s: Selector, l: Level, c: string)
    requires FilledGroups(e, ts, s, l) && Open(s, l) && ts != [] && c in e.at
    ensures e.at[c].Valid() && e.at[c].keys != [] && Total(e.at[c]) == SumWhere(ts, Within(s, l, c))
  {
    MonthsCoverTransactions(ts, ts[0]);
    assert MonthOf(ts[0].date) in e.at[c].at;
    WithinMatches(ts[0], s, l, c);
    CompleteSeriesTotal(e.at[c], ts, Within(s, l, c));
  }

  lemma FilledGroupKeys(e: Dict<string, Dict<Month, real>>, ts: seq<Transaction>, s: Selector, l: Level)
    requires e.keys == FirstLabels(ts, s, l) && forall c :: c in e.keys ==> c in e.at && e.at[c].keys != []
    ensures NonEmptyKeys(e.keys, e.at) == FirstLabels(ts, s, l)
  {
    NonEmptyKeysAll(e.keys, e.at);
  }

  /** After filling, every group has an entry, and its total is the sum of everything it selects. */
  lemma FilledGroupTotals(e: Dict<string, Dict<Month, real>>, ts: seq<Transaction>, s: Selector, l: Level)
    requires FilledGroups(e, ts, s, l) && Open(s, l) && ts != []
    ensures WellFormedGroups(e)
    ensures NonEmptyKeys(e.keys, e.at) == FirstLabels(ts, s, l)
    ensures GroupTotals(e) == LabelTotals(ts, s, l)
  {
    forall c | c in e.at ensures e.at[c].Valid() && e.at[c].keys != [] && Total(e.at[c]) == SumWhere(ts, Within(s, l, c)) {
      FilledGroupEntry(e, ts, s, l, c);
    }
    FilledGroupKeys(e, ts, s, l);
    GroupTotalsMatch(e, ts, s, l);
  }

  lemma GroupTotalsMatch(e: Dict<string, Dict<Month, real>>, ts: seq<Transaction>, s: Selector, l: Level)
    requires WellFormedGroups(e) && e.keys == FirstLabels(ts, s, l)
    requires forall c :: c in e.at ==> e.at[c].keys != [] && Total(e.at[c]) == SumWhere(ts, Within(s, l, c))
    ensures GroupTotals(e) == LabelTotals(ts, s, l)
  {
    var g, t := GroupTotals(e), LabelTotals(ts, s, l);
    assert forall c :: c in g <==> c in t;
    assert forall c :: c in g ==> g[c] == t[c];
  }

  /** The "Sort dates" loop: list the groups in `order`, each with its months in order. */
  method SortGroupMonths(expenses: Dict<string, Dict<Month, real>>, order: seq<string>, months: seq<Month>,
                         ghost ts: seq<Transaction>, ghost s: Selector, ghost l: Level)
    returns (result: Dict<string, Dict<Month, real>>)
    requires FilledGroups(expenses, ts, s, l) && ts != [] && months == Months(ts)
    requires Distinct(order) && forall c :: c in order ==> c in expenses.at
    ensures result.Valid() && result.keys == order
    ensures forall c :: c in result.at ==> IsSeries(result.at[c], ts, Within(s, l, c))
  {
    result := EmptyDict();
    var i := 0;
    while i < |order|
      invariant 0 <= i <= |order|
      invariant result.Valid() && result.keys == order[..i]
      invariant forall c :: c in result.at ==> IsSeries(result.at[c], ts, Within(s, l, c))
    {
      var category := order[i];
      assert order[..i + 1] == order[..i] + [category];
      SortedIsSeries(expenses.at[category], ts, Within(s, l, category));
      result := result.Put(category, SortByMonth(expenses.at[category], months));
      i := i + 1;
    }
    assert order[..i] == order;
  }

  method GetCategoriesByMonth(ts: seq<Transaction>, kind: Kind) returns (r: Result<Dict<string, Dict<Month, real>>, StatsError>)
    ensures r.Failure? <==> ts == []
    ensures r.Failure? ==> r.error == DatesNotFound
    ensures r.Success? ==> IsRankedBreakdown(r.value, ts, OfKind(kind), CategoryLevel)
  {
    var expenses := GroupByCategory(ts, kind);
    var monthsResult := GetMonths(ts);
    if monthsResult.Failure? {
      return Failure(monthsResult.error);
    }
    var months := monthsResult.value;
    var filled := FillGroups(expenses, months);
    GroupsFilled(expenses, filled, ts, OfKind(kind), CategoryLevel);
    FilledGroupTotals(filled, ts, OfKind(kind), CategoryLevel);
    var sortedCategories := SortCategoriesByExpense(filled);
    var categoryExpenses := SortGroupMonths(filled, sortedCategories, months, ts, OfKind(kind), CategoryLevel);
    return Success(categoryExpenses);
  }

  // ---------------------------------------------------------------------------
  // What a breakdown adds up to

  function LabelKeys(cs: seq<string>, l: Level): (ks: seq<Key>)
    ensures |ks| == |cs| && forall i :: 0 <= i < |cs| ==> ks[i] == KeyAt(l, cs[i])
  {
    seq(|cs|, i requires 0 <= i < |cs| => KeyAt(l, cs[i]))
  }

  lemma {:induction false} LabelSeriesSum(ts: seq<Transaction>, s: Selector, l: Level, cs: seq<string>, at: map<string, real>)
    requires AllIn(cs, at)
    requires forall c :: c in cs ==> at[c] == SumWhere(ts, Within(s, l, c))
    ensures SumOf(cs, at) == SumOverKeys(ts, s, LabelKeys(cs, l))
  {
    if cs != [] {
      var init := cs[..|cs| - 1];
      assert LabelKeys(cs, l)[..|cs| - 1] == LabelKeys(init, l);
      LabelSeriesSum(ts, s, l, init, at);
    }
  }

  /**
   * Groups partition the sum: if the listed groups are distinct and include the group of
   * every selected transaction, their sums add up to the whole sum.
   */
  lemma LabelPartition(ts: seq<Transaction>, s: Selector, l: Level, cs: seq<string>, at: map<string, real>)
    requires Free(s, DimAt(l)) && Distinct(cs)
    requires forall t :: t in ts && Matches(t, s) ==> Label(t, l) in cs
    requires AllIn(cs, at)
    requires forall c :: c in cs ==> at[c] == SumWhere(ts, Within(s, l, c))
    ensures SumOf(cs, at) == SumWhere(ts, s)
  {
    var ks := LabelKeys(cs, l);
    LabelSeriesSum(ts, s, l, cs, at);
    forall t | t in ts && Matches(t, s) ensures KeyOn(t, DimAt(l)) in ks {
      var i :| 0 <= i < |cs| && cs[i] == Label(t, l);
      assert ks[i] == KeyOn(t, DimAt(l));
    }
    Partition(ts, s, DimAt(l), ks);
  }

  /** The entries of all groups in month `m`. */
  function Column(r: Dict<string, Dict<Month, real>>, m: Month): map<string, real> {
    map c | c in r.at && m in r.at[c].at :: r.at[c].at[m]
  }

  lemma BreakdownEntry(r: Dict<string, Dict<Month, real>>, ts: seq<Transaction>, s: Selector, l: Level, c: string, m: Month)
    requires IsRankedBreakdown(r, ts, s, l) && Open(s, l) && ts != [] && c in r.at
    requires m in Months(ts)
    ensures m in r.at[c].at && r.at[c].at[m] == SumWhere(ts, Within(s.(month := Some(m)), l, c))
    ensures r.at[c].keys != [] && Total(r.at[c]) == SumWhere(ts, Within(s, l, c))
  {
    WithinThenMonth(s, l, c, m);
    WithinMatches(ts[0], s, l, c);
    MonthSeriesTotal(ts, Within(s, l, c), r.at[c]);
  }

  /** The groups of a breakdown are exactly the listed groups, in another order. */
  lemma BreakdownKeys(r: Dict<string, Dict<Month, real>>, ts: seq<Transaction>, s: Selector, l: Level)
    requires IsRankedBreakdown(r, ts, s, l)
    ensures Distinct(r.keys) && forall c :: c in r.keys <==> c in FirstLabels(ts, s, l)
  {
    RankPermutes(FirstLabels(ts, s, l), LabelTotals(ts, s, l));
  }

  /** Stacking the groups of a breakdown gives back the monthly series: in every month they add up to its total. */
  lemma BreakdownColumnsAddUp(r: Dict<string, Dict<Month, real>>, ts: seq<Transaction>, s: Selector, l: Level, m: Month)
    requires IsRankedBreakdown(r, ts, s, l) && Open(s, l) && ts != []
    requires m in Months(ts)
    ensures AllIn(r.keys, Column(r, m)) && SumOf(r.keys, Column(r, m)) == MonthSum(ts, s, m)
  {
    var cs := FirstLabels(ts, s, l);
    BreakdownKeys(r, ts, s, l);
    FirstLabelsExact(ts, s, l);
    var column := Column(r, m);
    forall c | c in cs ensures c in column && column[c] == SumWhere(ts, Within(s.(month := Some(m)), l, c)) {
      BreakdownEntry(r, ts, s, l, c, m);
    }
    SumOfPermutation(r.keys, cs, column);
    LabelPartition(ts, s.(month := Some(m)), l, cs, column);
  }

  /** Over the whole timeline the groups of a breakdown add up to the total of everything selected. */
  lemma BreakdownTotalsAddUp(r: Dict<string, Dict<Month, real>>, ts: seq<Transaction>, s: Selector, l: Level)
    requires IsRankedBreakdown(r, ts, s, l) && Open(s, l) && ts != []
    ensures WellFormedGroups(r) && AllIn(r.keys, GroupTotals(r)) && SumOf(r.keys, GroupTotals(r)) == SumWhere(ts, s)
  {
    var cs := FirstLabels(ts, s, l);
    BreakdownKeys(r, ts, s, l);
    FirstLabelsExact(ts, s, l);
    MonthsCoverTransactions(ts, ts[0]);
    forall c | c in cs ensures r.at[c].keys != [] && Total(r.at[c]) == SumWhere(ts, Within(s, l, c)) {
      BreakdownEntry(r, ts, s, l, c, MonthOf(ts[0].date));
    }
    SumOfPermutation(r.keys, cs, GroupTotals(r));
    LabelPartition(ts, s, l, cs, GroupTotals(r));
  }

  /**
   * The order of a breakdown: exactly the groups that have a selected transaction, each once,
   * from the largest total to the smallest, groups with equal totals in order of first appearance.
   */
  lemma BreakdownOrder(r: Dict<string, Dict<Month, real>>, ts: seq<Transaction>, s: Selector, l: Level)
    requires IsRankedBreakdown(r, ts, s, l)
    ensures forall c :: c in r.keys <==> exists t :: t in ts && Matches(t, s) && Label(t, l) == c
    ensures Distinct(r.keys)
    ensures NonIncreasing(r.keys, LabelTotals(ts, s, l))
    ensures forall v :: WithScore(r.keys, LabelTotals(ts, s, l), v) == WithScore(FirstLabels(ts, s, l), LabelTotals(ts, s, l), v)
  {
    FirstLabelsExact(ts, s, l);
    RankFacts(FirstLabels(ts, s, l), LabelTotals(ts, s, l));
  }
}
