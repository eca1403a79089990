/** The Gregorian date arithmetic of month_cheapest.py: `first_day_of_month`,
    `last_day_of_month` (through `calendar.monthrange`), `add_months`, and the
    `YYYY-MM-DD` text of `date.isoformat` / `date.fromisoformat`. */
module Calendar {
  import opened Wrappers

  /** A Python `date`; `ValidDate` is what its constructor accepts. */
  datatype Date = Date(year: int, month: int, day: int)

  /** `datetime.MINYEAR` and `datetime.MAXYEAR`. */
  const MinYear: int := 1
  const MaxYear: int := 9999

  /** The Gregorian rule of `calendar.isleap`. */
  predicate IsLeapYear(y: int)
  {
    y % 4 == 0 && (y % 100 != 0 || y % 400 == 0)
  }

  /** The second component of `calendar.monthrange(y, m)`. */
  function DaysInMonth(y: int, m: int): (n: int)
    requires 1 <= m <= 12
    ensures 28 <= n <= 31
    ensures m == 2 ==> (n == 29 <==> IsLeapYear(y))
    ensures m != 2 ==> n >= 30
  {
    if m == 2 then (if IsLeapYear(y) then 29 else 28)
    else if m == 4 || m == 6 || m == 9 || m == 11 then 30
    else 31
  }

  /** The leap-year rule repeats every 400 years; a year not divisible by 4
      is never leap, and of the century years only every fourth is. */
  lemma LeapYearCycle(y: int)
    ensures IsLeapYear(y) <==> IsLeapYear(y + 400)
    ensures y % 4 != 0 ==> !IsLeapYear(y)
    ensures y % 100 == 0 ==> (IsLeapYear(y) <==> y % 400 == 0)
    ensures IsLeapYear(2000) && !IsLeapYear(1900) && IsLeapYear(2024) && !IsLeapYear(2025)
  {
  }

  predicate ValidDate(d: Date)
  {
    MinYear <= d.year <= MaxYear && 1 <= d.month <= 12 && 1 <= d.day <= DaysInMonth(d.year, d.month)
  }

  /** Python's `a <= b` on dates: year, then month, then day. */
  predicate NotAfter(a: Date, b: Date)
  {
    a.year < b.year || (a.year == b.year && (a.month < b.month || (a.month == b.month && a.day <= b.day)))
  }

  /** Months counted from January of year 0: `year*12 + (month-1)`. */
  function MonthIndex(d: Date): int
  {
    d.year * 12 + (d.month - 1)
  }

  /** `first_day_of_month(d)`. */
  function FirstDayOfMonth(d: Date): (r: Date)
    ensures r.day == 1 && MonthIndex(r) == MonthIndex(d)
    ensures ValidDate(d) ==> ValidDate(r) && NotAfter(r, d)
  {
    Date(d.year, d.month, 1)
  }

  /** `last_day_of_month(d)`. */
  function LastDayOfMonth(d: Date): (r: Date)
    requires 1 <= d.month <= 12
    ensures MonthIndex(r) == MonthIndex(d)
    ensures MinYear <= d.year <= MaxYear ==> ValidDate(r) && !ValidDate(Date(r.year, r.month, r.day + 1))
  {
    Date(d.year, d.month, DaysInMonth(d.year, d.month))
  }

  /** `add_months(d, n)`: the first day of the month `n` months after (or,
      for negative `n`, before) `d`'s month; `None` where `date(y, m, 1)`
      raises `ValueError` because the year leaves 1..9999. Python's `//` and
      `%` by 12 floor, as Dafny's do for a positive divisor. */
  function AddMonths(d: Date, n: int): (r: Option<Date>)
    requires 1 <= d.month <= 12
    ensures r.Some? <==> MinYear * 12 <= MonthIndex(d) + n < (MaxYear + 1) * 12
    ensures r.Some? ==> ValidDate(r.value) && r.value.day == 1
    ensures r.Some? ==> MonthIndex(r.value) == MonthIndex(d) + n
  {
    var y := d.year + (d.month - 1 + n) / 12;
    var m := (d.month - 1 + n) % 12 + 1;
    if MinYear <= y <= MaxYear then Some(Date(y, m, 1)) else None
  }

  /** A month index names one year and month. */
  lemma MonthIndexInjective(a: Date, b: Date)
    requires 1 <= a.month <= 12 && 1 <= b.month <= 12
    requires MonthIndex(a) == MonthIndex(b)
    ensures a.year == b.year && a.month == b.month
  {
  }

  /** Adding months twice is adding their sum, so the months of a scan are
      consecutive: month `i + 1` is one month after month `i`. */
  lemma AddMonthsCompose(d: Date, a: int, b: int)
    requires ValidDate(d)
    requires AddMonths(d, a).Some?
    ensures AddMonths(AddMonths(d, a).value, b) == AddMonths(d, a + b)
  {
    var x := AddMonths(AddMonths(d, a).value, b);
    var y := AddMonths(d, a + b);
    if x.Some? {
      MonthIndexInjective(x.value, y.value);
    }
  }

  /** The month of a date runs from `first_day_of_month` to
      `last_day_of_month`: both are valid dates of that month, they bracket
      the date, the last day is the Gregorian month length (28 to 31, and 29
      in February exactly in leap years), and the dates between them are
      exactly the dates of that month. */
  lemma MonthBounds(d: Date)
    requires ValidDate(d)
    ensures ValidDate(FirstDayOfMonth(d)) && ValidDate(LastDayOfMonth(d))
    ensures NotAfter(FirstDayOfMonth(d), d) && NotAfter(d, LastDayOfMonth(d))
    ensures 28 <= LastDayOfMonth(d).day <= 31
    ensures d.month == 2 ==> (LastDayOfMonth(d).day == 29 <==> IsLeapYear(d.year))
    ensures forall x :: ValidDate(x) ==>
      (NotAfter(FirstDayOfMonth(d), x) && NotAfter(x, LastDayOfMonth(d)) <==> x.year == d.year && x.month == d.month)
  {
  }

  // ---------------------------------------------------------------- ISO text

  predicate IsDigit(c: char) { '0' <= c <= '9' }

  predicate AllDigits(s: string)
  {
    forall i :: 0 <= i < |s| ==> IsDigit(s[i])
  }

  function Pow10(k: nat): nat
  {
    if k == 0 then 1 else 10 * Pow10(k - 1)
  }

  /** The last `width` decimal digits of `n`, zero-padded. */
  function Decimal(n: nat, width: nat): (s: string)
    ensures |s| == width && AllDigits(s)
  {
    if width == 0 then []
    else Decimal(n / 10, width - 1) + [('0' as int + n % 10) as char]
  }

  /** The number a string of decimal digits spells. */
  function DecimalValue(s: string): (n: nat)
    requires AllDigits(s)
    ensures n < Pow10(|s|)
  {
    if s == [] then 0
    else DecimalValue(s[..|s| - 1]) * 10 + (s[|s| - 1] as int - '0' as int)
  }

  lemma {:induction false} DecimalRoundTrip(n: nat, width: nat)
    requires n < Pow10(width)
    ensures DecimalValue(Decimal(n, width)) == n
  {
    if width > 0 {
      var s := Decimal(n, width);
      assert s[..|s| - 1] == Decimal(n / 10, width - 1);
      DecimalRoundTrip(n / 10, width - 1);
    }
  }

  lemma {:induction false} DecimalOfValue(s: string)
    requires AllDigits(s)
    ensures Decimal(DecimalValue(s), |s|) == s
  {
    if s != [] {
      var p := s[..|s| - 1];
      var n := DecimalValue(s);
      DecimalOfValue(p);
      assert n / 10 == DecimalValue(p);
      assert s == p + [s[|s| - 1]];
    }
  }

  /** `d.isoformat()`: `YYYY-MM-DD`. */
  function IsoFormat(d: Date): (s: string)
    requires ValidDate(d)
    ensures |s| == 10 && s[4] == '-' && s[7] == '-'
  {
    Decimal(d.year, 4) + "-" + Decimal(d.month, 2) + "-" + Decimal(d.day, 2)
  }

  /** `date.fromisoformat(s)` on the `YYYY-MM-DD` form; `None` where it
      raises `ValueError`. */
  function ParseIsoDate(s: string): (r: Option<Date>)
    ensures r.Some? ==> ValidDate(r.value)
    ensures r.Some? ==> |s| == 10 && s[4] == '-' && s[7] == '-'
  {
    if |s| == 10 && s[4] == '-' && s[7] == '-'
       && AllDigits(s[..4]) && AllDigits(s[5..7]) && AllDigits(s[8..])
    then
      var d := Date(DecimalValue(s[..4]), DecimalValue(s[5..7]), DecimalValue(s[8..]));
      if ValidDate(d) then Some(d) else None
    else None
  }

  /** Reading back the ISO text of a date gives the date. */
  lemma IsoRoundTrip(d: Date)
    requires ValidDate(d)
    ensures ParseIsoDate(IsoFormat(d)) == Some(d)
  {
    var s := IsoFormat(d);
    assert s[..4] == Decimal(d.year, 4);
    assert s[5..7] == Decimal(d.month, 2);
    assert s[8..] == Decimal(d.day, 2);
    DecimalRoundTrip(d.year, 4);
    DecimalRoundTrip(d.month, 2);
    DecimalRoundTrip(d.day, 2);
  }

  /** The text `date.fromisoformat` accepts is exactly the ISO text of the
      date it returns. */
  lemma IsoParsed(s: string)
    requires ParseIsoDate(s).Some?
    ensures ValidDate(ParseIsoDate(s).value) && IsoFormat(ParseIsoDate(s).value) == s
  {
    DecimalOfValue(s[..4]);
    DecimalOfValue(s[5..7]);
    DecimalOfValue(s[8..]);
    assert s == s[..4] + "-" + s[5..7] + "-" + s[8..];
  }
}
