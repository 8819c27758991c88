/**
 * The quantity every aggregation of lib/stats.py accumulates: the sum of `abs(value)`
 * over the transactions of one kind that fall in a given month, year, category and
 * subcategory. The lemmas here say how these sums split along each of those keys.
 */
module Totals {
  import opened Wrappers
  import opened Transactions
  import opened Timeline
  import opened OrderedDicts

  /** The name the source gives to a missing or empty subcategory. */
  const NoSubcategory: string := "No subcategory"

  /** `if not subcategory: subcategory = "No subcategory"`: None and "" both become the sentinel. */
  function SubcategoryName(s: Option<string>): (n: string)
    ensures s.None? || s == Some("") ==> n == NoSubcategory
    ensures s.Some? && s.value != "" ==> n == s.value
  {
    if s.None? || s.value == "" then NoSubcategory else s.value
  }

  /** Which transactions a sum ranges over: one kind, and optionally one month, year, category, subcategory. */
  datatype Selector = Selector(
    kind: Kind,
    month: Option<Month>,
    year: Option<int>,
    category: Option<string>,
    subcategory: Option<string>)

  function OfKind(kind: Kind): Selector {
    Selector(kind, None, None, None, None)
  }

  predicate Matches(t: Transaction, s: Selector) {
    && t.kind == s.kind
    && (s.month.Some? ==> MonthOf(t.date) == s.month.value)
    && (s.year.Some? ==> t.date.year == s.year.value)
    && (s.category.Some? ==> t.category == s.category.value)
    && (s.subcategory.Some? ==> SubcategoryName(t.subcategory) == s.subcategory.value)
  }

  function Amount(t: Transaction): real {
    Abs(t.value)
  }

  /** The sum of `abs(value)` over the transactions of `ts` that `s` selects. */
  function SumWhere(ts: seq<Transaction>, s: Selector): real {
    if ts == [] then 0.0
    else SumWhere(ts[..|ts| - 1], s) + (if Matches(ts[|ts| - 1], s) then Amount(ts[|ts| - 1]) else 0.0)
  }

  /** Sums are never negative, and they are 0 when nothing is selected. */
  lemma {:induction false} SumWhereBounds(ts: seq<Transaction>, s: Selector)
    ensures SumWhere(ts, s) >= 0.0
    ensures (forall t :: t in ts ==> !Matches(t, s)) ==> SumWhere(ts, s) == 0.0
  {
    if ts != [] {
      SumWhereBounds(ts[..|ts| - 1], s);
    }
  }

  lemma {:induction false} SumWhereAppend(a: seq<Transaction>, b: seq<Transaction>, s: Selector)
    ensures SumWhere(a + b, s) == SumWhere(a, s) + SumWhere(b, s)
    decreases |b|
  {
    if b == [] {
      assert a + b == a;
    } else {
      assert (a + b)[..|a + b| - 1] == a + b[..|b| - 1];
      SumWhereAppend(a, b[..|b| - 1], s);
    }
  }

  /** The sum over a list extended at the front, the order in which the year tree reads it. */
  lemma SumWherePrepend(t: Transaction, ts: seq<Transaction>, s: Selector)
    ensures SumWhere([t] + ts, s) == (if Matches(t, s) then Amount(t) else 0.0) + SumWhere(ts, s)
  {
    SumWhereAppend([t], ts, s);
    assert [t][..0] == [];
  }

  // ---------------------------------------------------------------------------
  // Splitting a sum along one key

  /** A value of one of the four keys the source groups by. */
  datatype Key = AtMonth(m: Month) | InYear(y: int) | InCategory(c: string) | InSubcategory(n: string)

  datatype Dim = ByMonth | ByYear | ByCategory | BySubcategory

  function DimOf(k: Key): Dim {
    match k
    case AtMonth(_) => ByMonth
    case InYear(_) => ByYear
    case InCategory(_) => ByCategory
    case InSubcategory(_) => BySubcategory
  }

  /** The key of transaction `t` along dimension `d`. */
  function KeyOn(t: Transaction, d: Dim): Key {
    match d
    case ByMonth => AtMonth(MonthOf(t.date))
    case ByYear => InYear(t.date.year)
    case ByCategory => InCategory(t.category)
    case BySubcategory => InSubcategory(SubcategoryName(t.subcategory))
  }

  /** `s` does not yet restrict dimension `d`. */
  predicate Free(s: Selector, d: Dim) {
    match d
    case ByMonth => s.month.None?
    case ByYear => s.year.None?
    case ByCategory => s.category.None?
    case BySubcategory => s.subcategory.None?
  }

  /** `s` further restricted to key `k`. */
  function Narrow(s: Selector, k: Key): Selector {
    match k
    case AtMonth(m) => s.(month := Some(m))
    case InYear(y) => s.(year := Some(y))
    case InCategory(c) => s.(category := Some(c))
    case InSubcategory(n) => s.(subcategory := Some(n))
  }

  lemma NarrowMatches(t: Transaction, s: Selector, k: Key)
    requires Free(s, DimOf(k))
    ensures Matches(t, Narrow(s, k)) <==> Matches(t, s) && KeyOn(t, DimOf(k)) == k
  {
  }

  /** The sum of the narrowed sums, one per key of `ks`. */
  function SumOverKeys(ts: seq<Transaction>, s: Selector, ks: seq<Key>): real {
    if ks == [] then 0.0
    else SumOverKeys(ts, s, ks[..|ks| - 1]) + SumWhere(ts, Narrow(s, ks[|ks| - 1]))
  }

  lemma {:induction false} SumOverKeysAppend(a: seq<Transaction>, b: seq<Transaction>, s: Selector, ks: seq<Key>)
    ensures SumOverKeys(a + b, s, ks) == SumOverKeys(a, s, ks) + SumOverKeys(b, s, ks)
  {
    if ks != [] {
      SumOverKeysAppend(a, b, s, ks[..|ks| - 1]);
      SumWhereAppend(a, b, Narrow(s, ks[|ks| - 1]));
    }
  }

  /** For one transaction, the narrowed sums add up to its amount once if some key of `ks` is its own. */
  lemma {:induction false} SumOverKeysSingle(t: Transaction, s: Selector, d: Dim, ks: seq<Key>)
    requires Free(s, d)
    requires forall i :: 0 <= i < |ks| ==> DimOf(ks[i]) == d
    requires Distinct(ks)
    ensures SumOverKeys([t], s, ks) == if Matches(t, s) && KeyOn(t, d) in ks then Amount(t) else 0.0
  {
    assert [t][..0] == [];
    if ks != [] {
      var init, k := ks[..|ks| - 1], ks[|ks| - 1];
      assert Distinct(init);
      SumOverKeysSingle(t, s, d, init);
      NarrowMatches(t, s, k);
      assert SumWhere([t], Narrow(s, k)) == if Matches(t, Narrow(s, k)) then Amount(t) else 0.0;
      assert KeyOn(t, d) in ks <==> KeyOn(t, d) in init || KeyOn(t, d) == k;
      assert KeyOn(t, d) == k ==> KeyOn(t, d) !in init;
    }
  }

  lemma {:induction false} SumOverKeysOfNothing(s: Selector, ks: seq<Key>)
    ensures SumOverKeys([], s, ks) == 0.0
  {
    if ks != [] {
      SumOverKeysOfNothing(s, ks[..|ks| - 1]);
    }
  }

  /**
   * Splitting along one dimension loses nothing and counts nothing twice: if the keys are
   * distinct and include the key of every selected transaction, the narrowed sums add up
   * to the whole sum.
   */
  lemma {:induction false} Partition(ts: seq<Transaction>, s: Selector, d: Dim, ks: seq<Key>)
    requires Free(s, d)
    requires forall i :: 0 <= i < |ks| ==> DimOf(ks[i]) == d
    requires Distinct(ks)
    requires forall t :: t in ts && Matches(t, s) ==> KeyOn(t, d) in ks
    ensures SumOverKeys(ts, s, ks) == SumWhere(ts, s)
  {
    if ts == [] {
      SumOverKeysOfNothing(s, ks);
    } else {
      var init, t := ts[..|ts| - 1], ts[|ts| - 1];
      assert ts == init + [t];
      Partition(init, s, d, ks);
      SumOverKeysAppend(init, [t], s, ks);
      SumOverKeysSingle(t, s, d, ks);
      assert [t][..0] == [];
    }
  }

  // ---------------------------------------------------------------------------
  // The same splits written over the source's own key lists

  function MonthKeys(ms: seq<Month>): (ks: seq<Key>)
    ensures |ks| == |ms| && forall i :: 0 <= i < |ms| ==> ks[i] == AtMonth(ms[i])
  {
    seq(|ms|, i requires 0 <= i < |ms| => AtMonth(ms[i]))
  }

  function YearKeys(ys: seq<int>): (ks: seq<Key>)
    ensures |ks| == |ys| && forall i :: 0 <= i < |ys| ==> ks[i] == InYear(ys[i])
  {
    seq(|ys|, i requires 0 <= i < |ys| => InYear(ys[i]))
  }

  function CategoryKeys(cs: seq<string>): (ks: seq<Key>)
    ensures |ks| == |cs| && forall i :: 0 <= i < |cs| ==> ks[i] == InCategory(cs[i])
  {
    seq(|cs|, i requires 0 <= i < |cs| => InCategory(cs[i]))
  }

  function SubcategoryKeys(ns: seq<string>): (ks: seq<Key>)
    ensures |ks| == |ns| && forall i :: 0 <= i < |ns| ==> ks[i] == InSubcategory(ns[i])
  {
    seq(|ns|, i requires 0 <= i < |ns| => InSubcategory(ns[i]))
  }

  /** A series over months whose entries are the month sums adds up to the month-free sum. */
  lemma {:induction false} MonthSeriesSum(ts: seq<Transaction>, s: Selector, ms: seq<Month>, at: map<Month, real>)
    requires AllIn(ms, at)
    requires forall i :: 0 <= i < |ms| ==> at[ms[i]] == SumWhere(ts, s.(month := Some(ms[i])))
    ensures SumOf(ms, at) == SumOverKeys(ts, s, MonthKeys(ms))
  {
    if ms != [] {
      var init := ms[..|ms| - 1];
      assert MonthKeys(ms)[..|ms| - 1] == MonthKeys(init);
      MonthSeriesSum(ts, s, init, at);
    }
  }

  lemma {:induction false} YearSeriesSum(ts: seq<Transaction>, s: Selector, ys: seq<int>, at: map<int, real>)
    requires AllIn(ys, at)
    requires forall i :: 0 <= i < |ys| ==> at[ys[i]] == SumWhere(ts, s.(year := Some(ys[i])))
    ensures SumOf(ys, at) == SumOverKeys(ts, s, YearKeys(ys))
  {
    if ys != [] {
      var init := ys[..|ys| - 1];
      assert YearKeys(ys)[..|ys| - 1] == YearKeys(init);
      YearSeriesSum(ts, s, init, at);
    }
  }

  lemma {:induction false} CategorySeriesSum(ts: seq<Transaction>, s: Selector, cs: seq<string>, at: map<string, real>)
    requires AllIn(cs, at)
    requires forall i :: 0 <= i < |cs| ==> at[cs[i]] == SumWhere(ts, s.(category := Some(cs[i])))
    ensures SumOf(cs, at) == SumOverKeys(ts, s, CategoryKeys(cs))
  {
    if cs != [] {
      var init := cs[..|cs| - 1];
      assert CategoryKeys(cs)[..|cs| - 1] == CategoryKeys(init);
      CategorySeriesSum(ts, s, init, at);
    }
  }

  lemma {:induction false} SubcategorySeriesSum(ts: seq<Transaction>, s: Selector, ns: seq<string>, at: map<string, real>)
    requires AllIn(ns, at)
    requires forall i :: 0 <= i < |ns| ==> at[ns[i]] == SumWhere(ts, s.(subcategory := Some(ns[i])))
    ensures SumOf(ns, at) == SumOverKeys(ts, s, SubcategoryKeys(ns))
  {
    if ns != [] {
      var init := ns[..|ns| - 1];
      assert SubcategoryKeys(ns)[..|ns| - 1] == SubcategoryKeys(init);
      SubcategorySeriesSum(ts, s, init, at);
    }
  }

  lemma DistinctMonthKeys(ms: seq<Month>)
    requires Distinct(ms)
    ensures Distinct(MonthKeys(ms))
  {
  }

  lemma DistinctYearKeys(ys: seq<int>)
    requires Distinct(ys)
    ensures Distinct(YearKeys(ys))
  {
  }

  lemma DistinctCategoryKeys(cs: seq<string>)
    requires Distinct(cs)
    ensures Distinct(CategoryKeys(cs))
  {
  }

  lemma DistinctSubcategoryKeys(ns: seq<string>)
    requires Distinct(ns)
    ensures Distinct(SubcategoryKeys(ns))
  {
  }
}
