/**
 * The text keys of the month series of lib/stats.py: `f"{str(year)[-2:]}_{month:02}"`, and the
 * order `sorted` puts them in, which is Python's code-point order on strings. The rest of the
 * model keys its series by `Month(year, month)` and sorts chronologically; this module states
 * when the two agree (both months in the same century) and exhibits the input where they do not.
 */
module MonthLabels {
  import opened Transactions
  import opened Timeline

  /** `str(year)[-2:]` for the years a date can carry: the last two digits, or the only one below 10. */
  function YearSuffix(year: int): (s: string)
    requires 1 <= year <= 9999
    ensures 10 <= year ==> s == TwoDigits(year % 100)
  {
    if year < 10 then [Digit(year)] else TwoDigits(year % 100)
  }

  /** The key of month `m` in the series: `YY_MM`. */
  function MonthLabel(m: Month): (s: string)
    requires 1 <= m.year <= 9999 && 1 <= m.month <= 12
    ensures 10 <= m.year ==> |s| == 5 && s[2] == '_'
  {
    YearSuffix(m.year) + "_" + TwoDigits(m.month)
  }

  /** Python's `<` on strings: the first differing character decides, and a proper prefix comes first. */
  predicate TextBefore(a: string, b: string) {
    if a == [] then b != []
    else if b == [] then false
    else if a[0] != b[0] then a[0] < b[0]
    else TextBefore(a[1..], b[1..])
  }

  /** Months from the year 10 on, whose labels have the full `YY_MM` shape. */
  predicate Labelled(m: Month) {
    10 <= m.year <= 9999 && 1 <= m.month <= 12
  }

  /** Two labels of the same shape compare by the two-digit year, then by the two-digit month. */
  lemma TextBeforeLabels(a: Month, b: Month)
    requires Labelled(a) && Labelled(b)
    ensures TextBefore(MonthLabel(a), MonthLabel(b))
            <==> a.year % 100 < b.year % 100 || (a.year % 100 == b.year % 100 && a.month < b.month)
  {
    var p, q := a.year % 100, b.year % 100;
    var x, y := MonthLabel(a), MonthLabel(b);
    assert x == [Digit(p / 10), Digit(p % 10), '_', Digit(a.month / 10), Digit(a.month % 10)];
    assert y == [Digit(q / 10), Digit(q % 10), '_', Digit(b.month / 10), Digit(b.month % 10)];
    TextBeforeStep(x, y);
    TextBeforeStep(x[1..], y[1..]);
    TextBeforeStep(x[2..], y[2..]);
    TextBeforeStep(x[3..], y[3..]);
    TextBeforeStep(x[4..], y[4..]);
    assert x[5..] == [] == y[5..];
  }

  /** One step of the comparison, for strings of the same length. */
  lemma TextBeforeStep(u: string, v: string)
    requires |u| == |v| > 0
    ensures TextBefore(u, v) == if u[0] != v[0] then u[0] < v[0] else TextBefore(u[1..], v[1..])
  {
  }

  /**
   * Within one century the label order is the calendar order, so `dict(sorted(...))` lists
   * the months chronologically there.
   */
  lemma LabelOrderInCentury(a: Month, b: Month)
    requires Labelled(a) && Labelled(b) && a.year / 100 == b.year / 100
    ensures TextBefore(MonthLabel(a), MonthLabel(b)) <==> MonthBefore(a, b)
  {
    TextBeforeLabels(a, b);
  }

  /** Within one century distinct months get distinct labels, so no two months share an entry. */
  lemma LabelsDistinctInCentury(a: Month, b: Month)
    requires Labelled(a) && Labelled(b) && a.year / 100 == b.year / 100
    ensures MonthLabel(a) == MonthLabel(b) <==> a == b
  {
    if MonthLabel(a) == MonthLabel(b) {
      var x, y := MonthLabel(a), MonthLabel(b);
      assert x[0] == y[0] && x[1] == y[1] && x[3] == y[3] && x[4] == y[4];
    }
  }

  /**
   * Across a turn of the century the label order is not the calendar order: December 1999
   * ("99_12") sorts after January 2000 ("00_01").
   */
  lemma CenturyTurnMisorders()
    ensures MonthBefore(Month(1999, 12), Month(2000, 1))
    ensures MonthLabel(Month(1999, 12)) == "99_12" && MonthLabel(Month(2000, 1)) == "00_01"
    ensures TextBefore(MonthLabel(Month(2000, 1)), MonthLabel(Month(1999, 12)))
  {
    TextBeforeLabels(Month(2000, 1), Month(1999, 12));
  }

  /** Months a century apart share a label, so the source adds their sums into one entry. */
  lemma CenturyApartCollide()
    ensures Month(1950, 1) != Month(2050, 1)
    ensures MonthLabel(Month(1950, 1)) == MonthLabel(Month(2050, 1)) == "50_01"
  {
  }
}
