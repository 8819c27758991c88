/**
 * The transaction record of lib/transaction.py: the fields read from one CSV row,
 * the date parsed in day/month/year order, and the transaction type derived from
 * the sign of the value.
 */
module Transactions {
  import opened Wrappers

  /** A calendar date; the source's datetime values always carry midnight, so the day is the finest unit. */
  datatype Date = Date(year: int, month: int, day: int)

  predicate IsLeapYear(year: int) {
    year % 4 == 0 && (year % 100 != 0 || year % 400 == 0)
  }

  function DaysInMonth(year: int, month: int): int {
    if month == 2 then (if IsLeapYear(year) then 29 else 28)
    else if month == 4 || month == 6 || month == 9 || month == 11 then 30
    else 31
  }

  /** The dates Python's datetime accepts: years 1..9999 and a day that exists in its month. */
  predicate ValidDate(d: Date) {
    1 <= d.year <= 9999 && 1 <= d.month <= 12 && 1 <= d.day <= DaysInMonth(d.year, d.month)
  }

  /** The dates a parsed transaction can carry. */
  type CalendarDate = d: Date | ValidDate(d) witness Date(2000, 1, 1)

  /** Chronological order of dates: year, then month, then day. */
  predicate Before(a: Date, b: Date) {
    a.year < b.year ||
    (a.year == b.year && (a.month < b.month || (a.month == b.month && a.day < b.day)))
  }

  lemma BeforeIsStrictTotalOrder(a: Date, b: Date, c: Date)
    ensures !Before(a, a)
    ensures Before(a, b) && Before(b, c) ==> Before(a, c)
    ensures a == b || Before(a, b) || Before(b, a)
    ensures !(Before(a, b) && Before(b, a))
  {
  }

  /** The two values of the `transaction_type` field. */
  datatype Kind = Expense | Income {
    function Name(): string {
      match this
      case Expense => "EXPENSE"
      case Income => "INCOME"
    }
  }

  /** The transaction type follows the sign of the value alone; a value of 0 is an income. */
  function KindOf(value: real): (k: Kind)
    ensures k == Expense <==> value < 0.0
    ensures k.Name() == (if value < 0.0 then "EXPENSE" else "INCOME")
  {
    if value < 0.0 then Expense else Income
  }

  datatype Transaction = Transaction(
    date: CalendarDate,
    description: string,
    value: real,
    category: string,
    tags: Option<string>,
    account: Option<string>,
    wallet: Option<string>,
    subcategory: Option<string>,
    kind: Kind)

  /** Absolute value, the amount every aggregation adds up. */
  function Abs(x: real): (r: real)
    ensures r >= 0.0 && (r == x || r == -x)
  {
    if x < 0.0 then -x else x
  }

  // ---------------------------------------------------------------------------
  // Date parsing with the format "%d/%m/%Y"

  predicate IsDigit(c: char) {
    '0' <= c <= '9'
  }

  predicate AllDigits(s: string) {
    forall i :: 0 <= i < |s| ==> IsDigit(s[i])
  }

  /** The number written by a string of decimal digits. */
  function DigitsValue(s: string): (n: nat)
    requires AllDigits(s)
  {
    if s == [] then 0 else DigitsValue(s[..|s| - 1]) * 10 + (s[|s| - 1] as int - '0' as int)
  }

  /** Position of the first '/', or |s| when there is none. */
  function SlashIndex(s: string): (i: nat)
    ensures i <= |s|
    ensures i < |s| ==> s[i] == '/'
    ensures forall j :: 0 <= j < i ==> s[j] != '/'
  {
    if s == [] then 0 else if s[0] == '/' then 0 else 1 + SlashIndex(s[1..])
  }

  /** A day or month field: one or two digits. */
  predicate ShortField(s: string) {
    1 <= |s| <= 2 && AllDigits(s)
  }

  /**
   * `datetime.strptime(s, "%d/%m/%Y")`: the day comes first, then the month, then a
   * four-digit year; the result must be a date that exists.
   */
  function ParseDate(s: string): (r: Option<CalendarDate>)
  {
    var i := SlashIndex(s);
    if i == |s| then None
    else
      var dayText, rest := s[..i], s[i + 1..];
      var j := SlashIndex(rest);
      if j == |rest| then None
      else
        var monthText, yearText := rest[..j], rest[j + 1..];
        if !(ShortField(dayText) && ShortField(monthText) && |yearText| == 4 && AllDigits(yearText)) then None
        else
          var d := Date(DigitsValue(yearText), DigitsValue(monthText), DigitsValue(dayText));
          if ValidDate(d) then var c: CalendarDate := d; Some(c) else None
  }

  function Digit(n: nat): char
    requires n < 10
  {
    ('0' as int + n) as char
  }

  /** `n` written with two digits, zero-padded on the left (strftime's %d and %m). */
  function TwoDigits(n: nat): (s: string)
    requires n < 100
    ensures |s| == 2 && AllDigits(s)
  {
    [Digit(n / 10), Digit(n % 10)]
  }

  /** `n` written with four digits (strftime's %Y for the years datetime allows). */
  function FourDigits(n: nat): (s: string)
    requires n < 10000
    ensures |s| == 4 && AllDigits(s)
  {
    TwoDigits(n / 100) + TwoDigits(n % 100)
  }

  lemma TwoDigitsValue(n: nat)
    requires n < 100
    ensures DigitsValue(TwoDigits(n)) == n
  {
    var s := TwoDigits(n);
    assert s[..1][..0] == [];
    assert DigitsValue(s[..1]) == n / 10;
  }

  lemma FourDigitsValue(n: nat)
    requires n < 10000
    ensures DigitsValue(FourDigits(n)) == n
  {
    var hi, lo := TwoDigits(n / 100), TwoDigits(n % 100);
    var s := hi + lo;
    assert s[..3] == hi + lo[..1];
    assert s[..3][..2] == hi;
    assert lo[..1][..0] == [];
    TwoDigitsValue(n / 100);
    TwoDigitsValue(n % 100);
    assert DigitsValue(lo[..1]) == (n % 100) / 10;
    assert DigitsValue(s[..3]) == DigitsValue(hi) * 10 + (n % 100) / 10;
  }

  /** A date written as "%d/%m/%Y" with two-digit day and month. */
  function FormatDate(d: Date): string
    requires ValidDate(d)
  {
    TwoDigits(d.day) + "/" + TwoDigits(d.month) + "/" + FourDigits(d.year)
  }

  lemma {:induction false} SlashIndexAfterDigits(a: string, b: string)
    requires AllDigits(a)
    ensures SlashIndex(a + "/" + b) == |a|
  {
    if a != [] {
      assert (a + "/" + b)[1..] == a[1..] + "/" + b;
      SlashIndexAfterDigits(a[1..], b);
    } else {
      assert (a + "/" + b)[0] == '/';
    }
  }

  /** Formatting a valid date and parsing it back gives the same date. */
  lemma FormatParseRoundTrip(d: Date)
    requires ValidDate(d)
    ensures ParseDate(FormatDate(d)) == Some(d)
  {
    var dayText, monthText, yearText := TwoDigits(d.day), TwoDigits(d.month), FourDigits(d.year);
    var s := FormatDate(d);
    var rest := monthText + "/" + yearText;
    assert s == dayText + "/" + rest;
    SlashIndexAfterDigits(dayText, rest);
    assert s[..2] == dayText && s[3..] == rest;
    SlashIndexAfterDigits(monthText, yearText);
    assert rest[..2] == monthText && rest[3..] == yearText;
    TwoDigitsValue(d.day);
    TwoDigitsValue(d.month);
    FourDigitsValue(d.year);
  }

  /** "15/01/2022" is the fifteenth of January: the first field is the day. */
  lemma ParseReadsDayFirst()
    ensures ParseDate("15/01/2022") == Some(Date(2022, 1, 15))
  {
    assert FormatDate(Date(2022, 1, 15)) == "15/01/2022";
    FormatParseRoundTrip(Date(2022, 1, 15));
  }

  // ---------------------------------------------------------------------------
  // Building a transaction

  /**
   * The pydantic model: `date` is parsed, the optional fields default to None, and
   * `transaction_type` is recomputed from the sign of `value` whatever was supplied.
   */
  function NewTransaction(
    rawDate: string, description: string, value: real, category: string,
    tags: Option<string> := None, account: Option<string> := None,
    wallet: Option<string> := None, subcategory: Option<string> := None,
    suppliedType: Option<string> := None): (r: Option<Transaction>)
    ensures r.Some? <==> ParseDate(rawDate).Some?
    ensures r.Some? ==> r.value.date == ParseDate(rawDate).value
    ensures r.Some? ==> (r.value.kind == Expense <==> value < 0.0)
    ensures r.Some? ==> r.value.kind.Name() == (if value < 0.0 then "EXPENSE" else "INCOME")
    ensures r.Some? ==> r.value.value == value && r.value.category == category
    ensures r.Some? ==> r.value.description == description && r.value.subcategory == subcategory
    ensures r.Some? ==> r.value.tags == tags && r.value.account == account && r.value.wallet == wallet
  {
    match ParseDate(rawDate)
    case None => None
    case Some(d) => Some(Transaction(d, description, value, category, tags, account, wallet, subcategory, KindOf(value)))
  }

  /** The supplied transaction type never reaches the record. */
  lemma SuppliedTypeIgnored(
    rawDate: string, description: string, value: real, category: string,
    tags: Option<string>, account: Option<string>, wallet: Option<string>,
    subcategory: Option<string>, supplied: Option<string>)
    ensures NewTransaction(rawDate, description, value, category, tags, account, wallet, subcategory, supplied)
         == NewTransaction(rawDate, description, value, category, tags, account, wallet, subcategory, None)
  {
  }

  /** A record given only the four required fields has no tags, account, wallet or subcategory. */
  lemma OptionalFieldsDefaultToNone(rawDate: string, description: string, value: real, category: string)
    requires ParseDate(rawDate).Some?
    ensures var t := NewTransaction(rawDate, description, value, category).value;
            t.tags == None && t.account == None && t.wallet == None && t.subcategory == None
  {
  }
}
