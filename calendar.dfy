/**
 * Calendar dates as Python's `datetime.date` handles them: the proleptic
 * Gregorian calendar over years 1 to 9999, the day numbering of
 * `toordinal()` (1 January of year 1 is day 1), `weekday()` (Monday is 0),
 * subtraction of a number of days, and the text form `YYYY-MM-DD` that
 * `strftime('%Y-%m-%d')` writes and the store keeps (the `full-date` of
 * section 5.6 of RFC 3339).
 */
module Calendar {
  import opened Wrappers
  import opened Text

  datatype Date = Date(year: int, month: int, day: int)

  const MinYear := 1
  const MaxYear := 9999

  predicate IsLeapYear(y: int) {
    y % 4 == 0 && (y % 100 != 0 || y % 400 == 0)
  }

  function DaysInMonth(y: int, m: int): (n: int)
    requires 1 <= m <= 12
    ensures 28 <= n <= 31
  {
    if m == 2 then (if IsLeapYear(y) then 29 else 28)
    else if m == 4 || m == 6 || m == 9 || m == 11 then 30
    else 31
  }

  function DaysInYear(y: int): int {
    if IsLeapYear(y) then 366 else 365
  }

  /** A date that exists in the Gregorian calendar and in Python's year range. */
  predicate ValidDate(d: Date) {
    MinYear <= d.year <= MaxYear && 1 <= d.month <= 12 && 1 <= d.day <= DaysInMonth(d.year, d.month)
  }

  /** Days in the years before `y`: the lengths of years 1 to `y - 1`, added up. */
  function DaysBeforeYear(y: int): (n: int)
    requires y >= 1
    ensures n >= 365 * (y - 1)
  {
    if y == 1 then 0 else DaysBeforeYear(y - 1) + DaysInYear(y - 1)
  }

  /** Python's `_days_before_year`: the same count in closed form. */
  function DaysBeforeYearClosed(y: int): int
    requires y >= 1
  {
    var p := y - 1;
    365 * p + p / 4 - p / 100 + p / 400
  }

  /** Days in the months of year `y` before month `m` (Python's `_days_before_month`). */
  function DaysBeforeMonth(y: int, m: int): int
    requires 1 <= m <= 12
  {
    var table := [0, 31, 59, 90, 120, 151, 181, 212, 243, 273, 304, 334];
    table[m - 1] + (if m > 2 && IsLeapYear(y) then 1 else 0)
  }

  /** The day number of `toordinal()`: 1 January of year 1 is day 1. */
  function Ordinal(d: Date): int
    requires ValidDate(d)
  {
    DaysBeforeYear(d.year) + DaysBeforeMonth(d.year, d.month) + d.day
  }

  /** `weekday()`: 0 for Monday up to 6 for Sunday. */
  function Weekday(d: Date): (w: int)
    requires ValidDate(d)
    ensures 0 <= w <= 6
  {
    (Ordinal(d) + 6) % 7
  }

  /** Chronological order: by year, then month, then day. */
  predicate DateLe(a: Date, b: Date) {
    a.year < b.year ||
    (a.year == b.year && (a.month < b.month || (a.month == b.month && a.day <= b.day)))
  }

  /** The closed form Python uses counts exactly the days of the years before `y`. */
  lemma {:induction false} ClosedFormYears(y: int)
    requires y >= 1
    ensures DaysBeforeYear(y) == DaysBeforeYearClosed(y)
  {
    if y > 1 {
      ClosedFormYears(y - 1);
      ClosedFormStep(y - 1);
    }
  }

  /** One more year adds that year's length to the closed form: 366 exactly in leap years. */
  lemma ClosedFormStep(y: int)
    requires y >= 1
    ensures DaysBeforeYearClosed(y + 1) == DaysBeforeYearClosed(y) + DaysInYear(y)
  {
    var p := y - 1;
    var a := if y % 4 == 0 then 1 else 0;
    var b := if y % 100 == 0 then 1 else 0;
    var c := if y % 400 == 0 then 1 else 0;
    if y % 400 == 0 { MultipleOf400(y); }
    if y % 100 == 0 { MultipleOf100(y); }
    assert y / 4 == p / 4 + a;
    assert y / 100 == p / 100 + b;
    assert y / 400 == p / 400 + c;
    assert DaysInYear(y) == 365 + a - b + c;
  }

  lemma MultipleOf400(y: int)
    requires y % 400 == 0
    ensures y % 100 == 0
  {
    var t := y / 400;
    assert y == 100 * (4 * t) + 0;
  }

  lemma MultipleOf100(y: int)
    requires y % 100 == 0
    ensures y % 4 == 0
  {
    var t := y / 100;
    assert y == 4 * (25 * t) + 0;
  }

  lemma MonthStep(y: int, m: int)
    requires 1 <= m < 12
    ensures DaysBeforeMonth(y, m + 1) == DaysBeforeMonth(y, m) + DaysInMonth(y, m)
  {
  }

  /** Day numbers start at 1, and only 1 January of year 1 has number 1. */
  lemma OrdinalPositive(d: Date)
    requires ValidDate(d)
    ensures Ordinal(d) >= 1
    ensures Ordinal(d) == 1 <==> d == Date(1, 1, 1)
  {
  }

  /** The day before `d` (Python's `d - timedelta(days=1)`). */
  function PrevDay(d: Date): (r: Date)
    requires ValidDate(d) && d != Date(1, 1, 1)
    ensures ValidDate(r)
    ensures DateLe(r, d) && r != d
    ensures Ordinal(r) == Ordinal(d) - 1
  {
    if d.day > 1 then Date(d.year, d.month, d.day - 1)
    else if d.month > 1 then
      LastOfPreviousMonth(d);
      Date(d.year, d.month - 1, DaysInMonth(d.year, d.month - 1))
    else
      LastOfPreviousYear(d);
      Date(d.year - 1, 12, 31)
  }

  lemma LastOfPreviousMonth(d: Date)
    requires ValidDate(d) && d.day == 1 && d.month > 1
    ensures var r := Date(d.year, d.month - 1, DaysInMonth(d.year, d.month - 1));
            ValidDate(r) && Ordinal(r) == Ordinal(d) - 1
  {
    MonthStep(d.year, d.month - 1);
  }

  lemma LastOfPreviousYear(d: Date)
    requires ValidDate(d) && d.day == 1 && d.month == 1 && d.year > 1
    ensures ValidDate(Date(d.year - 1, 12, 31)) && Ordinal(Date(d.year - 1, 12, 31)) == Ordinal(d) - 1
  {
    assert DaysBeforeYear(d.year) == DaysBeforeYear(d.year - 1) + DaysInYear(d.year - 1);
  }

  /** The date `k` days before `d` (Python's `d - timedelta(days=k)`), defined when it is still in year 1 or later. */
  function SubDays(d: Date, k: nat): (r: Date)
    requires ValidDate(d) && k < Ordinal(d)
    ensures ValidDate(r)
    ensures Ordinal(r) == Ordinal(d) - k
    ensures DateLe(r, d)
    decreases k
  {
    if k == 0 then d
    else
      OrdinalPositive(d);
      var p := PrevDay(d);
      var r := SubDays(p, k - 1);
      DateLeTransitive(r, p, d);
      r
  }

  lemma DateLeTransitive(a: Date, b: Date, c: Date)
    requires DateLe(a, b) && DateLe(b, c)
    ensures DateLe(a, c)
  {
  }

  /** The Monday on or before `d`: `d - timedelta(days=d.weekday())` always stays in range. */
  function MondayOnOrBefore(d: Date): (r: Date)
    requires ValidDate(d)
    ensures ValidDate(r) && DateLe(r, d)
    ensures Weekday(r) == 0
    ensures 0 <= Ordinal(d) - Ordinal(r) <= 6
  {
    OrdinalPositive(d);
    var n := Ordinal(d);
    WeekdayBelow(n);
    var r := SubDays(d, (n + 6) % 7);
    var m := Ordinal(r);
    MondayAlign(n, m);
    assert Weekday(r) == (m + 6) % 7;
    r
  }

  /** `weekday()` of day number `n` is smaller than `n`: stepping back that far stays at day 1 or later. */
  lemma WeekdayBelow(n: int)
    requires n >= 1
    ensures 0 <= (n + 6) % 7 < n
  {
    var q := (n + 6) / 7;
    assert n + 6 == 7 * q + (n + 6) % 7;
  }

  /** Stepping back `weekday()` days from day number `n` lands on a day number `m` whose weekday is 0. */
  lemma MondayAlign(n: int, m: int)
    requires m == n - (n + 6) % 7
    ensures (m + 6) % 7 == 0
  {
    var q := (n + 6) / 7;
    assert n + 6 == 7 * q + (n + 6) % 7;
    assert m + 6 == 7 * q;
  }

  /** `strftime('%Y-%m-%d')`: four-digit year, two-digit month and day, hyphen-separated. */
  function Format(d: Date): (s: string)
    requires ValidDate(d)
    ensures |s| == 10 && s[4] == '-' && s[7] == '-'
  {
    Digits(d.year, 4) + "-" + Digits(d.month, 2) + "-" + Digits(d.day, 2)
  }

  /** Reads a `YYYY-MM-DD` string; None unless it has exactly that shape and names a real date. */
  function Parse(s: string): (r: Option<Date>)
    ensures r.Some? ==> ValidDate(r.value)
  {
    if |s| == 10 && s[4] == '-' && s[7] == '-' && AllDigits(s[..4]) && AllDigits(s[5..7]) && AllDigits(s[8..]) then
      var d := Date(DigitsValue(s[..4]), DigitsValue(s[5..7]), DigitsValue(s[8..]));
      if ValidDate(d) then Some(d) else None
    else None
  }

  /** A string the store can hold as a date and that every date operation reads back unchanged. */
  predicate IsCanonical(s: string) {
    Parse(s).Some?
  }

  lemma FormatParts(d: Date)
    requires ValidDate(d)
    ensures Format(d)[..4] == Digits(d.year, 4)
    ensures Format(d)[5..7] == Digits(d.month, 2)
    ensures Format(d)[8..] == Digits(d.day, 2)
    ensures Format(d) == Digits(d.year, 4) + ("-" + (Digits(d.month, 2) + ("-" + Digits(d.day, 2))))
  {
  }

  /** Formatting then parsing gives back the date. */
  lemma ParseFormat(d: Date)
    requires ValidDate(d)
    ensures Parse(Format(d)) == Some(d)
  {
    FormatParts(d);
    assert d.year < Pow10(4) && d.month < Pow10(2) && d.day < Pow10(2);
    DigitsRoundTrip(d.year, 4);
    DigitsRoundTrip(d.month, 2);
    DigitsRoundTrip(d.day, 2);
  }

  /** Parsing then formatting gives back the string: a date string that parses is the canonical one. */
  lemma FormatParse(s: string)
    requires Parse(s).Some?
    ensures Format(Parse(s).value) == s
  {
    var ys, ms, ds := s[..4], s[5..7], s[8..];
    var d := Date(DigitsValue(ys), DigitsValue(ms), DigitsValue(ds));
    assert Parse(s) == Some(d);
    DigitsOfValue(ys);
    DigitsOfValue(ms);
    DigitsOfValue(ds);
    FormatParts(d);
    Reassemble(s);
  }

  /** A 10-character string with hyphens at 4 and 7 is its three numerals joined by hyphens. */
  lemma Reassemble(s: string)
    requires |s| == 10 && s[4] == '-' && s[7] == '-'
    ensures s == s[..4] + ("-" + (s[5..7] + ("-" + s[8..])))
  {
    assert s[4..] == [s[4]] + s[5..];
    assert s[5..] == s[5..7] + s[7..];
    assert s[7..] == [s[7]] + s[8..];
    assert s == s[..4] + s[4..];
  }

  /**
   * Section 5.1 of RFC 3339: for these fixed-width strings, comparing the
   * text gives the chronological order of the dates.
   */
  lemma FormatOrder(a: Date, b: Date)
    requires ValidDate(a) && ValidDate(b)
    ensures Compare(Format(a), Format(b)) <= 0 <==> DateLe(a, b)
    ensures Format(a) == Format(b) <==> a == b
  {
    FormatParts(a);
    FormatParts(b);
    var ya, ma, da := Digits(a.year, 4), Digits(a.month, 2), Digits(a.day, 2);
    var yb, mb, db := Digits(b.year, 4), Digits(b.month, 2), Digits(b.day, 2);
    CompareDigits(a.year, b.year, 4);
    CompareDigits(a.month, b.month, 2);
    CompareDigits(a.day, b.day, 2);
    CompareAppend(ya, "-" + (ma + ("-" + da)), yb, "-" + (mb + ("-" + db)));
    CompareAppend("-", ma + ("-" + da), "-", mb + ("-" + db));
    CompareAppend(ma, "-" + da, mb, "-" + db);
    CompareAppend("-", da, "-", db);
    ParseFormat(a);
    ParseFormat(b);
  }

  /** The first seven characters of a formatted date are `strftime('%Y-%m')`, and they order by year then month. */
  lemma MonthPrefixOrder(a: Date, b: Date)
    requires ValidDate(a) && ValidDate(b)
    ensures Format(a)[..7] == Digits(a.year, 4) + "-" + Digits(a.month, 2)
    ensures Compare(Format(a)[..7], Format(b)[..7]) <= 0 <==>
              a.year < b.year || (a.year == b.year && a.month <= b.month)
  {
    FormatParts(a);
    FormatParts(b);
    var ya, ma := Digits(a.year, 4), Digits(a.month, 2);
    var yb, mb := Digits(b.year, 4), Digits(b.month, 2);
    assert Format(a)[..7] == ya + ("-" + ma);
    assert Format(b)[..7] == yb + ("-" + mb);
    CompareDigits(a.year, b.year, 4);
    CompareDigits(a.month, b.month, 2);
    CompareAppend(ya, "-" + ma, yb, "-" + mb);
    CompareAppend("-", ma, "-", mb);
    assert ya == yb ==> a.year == b.year by {
      if ya == yb { DigitsRoundTrip(a.year, 4); DigitsRoundTrip(b.year, 4); }
    }
    assert ma == mb ==> a.month == b.month by {
      if ma == mb { DigitsRoundTrip(a.month, 2); DigitsRoundTrip(b.month, 2); }
    }
  }

  /** Two dates fixed by hand: 1 January 2024 was a Monday, 15 October 2026 a Thursday. */
  lemma WeekdayExamples()
    ensures Weekday(Date(2024, 1, 1)) == 0
    ensures Weekday(Date(2026, 10, 15)) == 3
  {
    ClosedFormYears(2024);
    ClosedFormYears(2026);
  }
}
