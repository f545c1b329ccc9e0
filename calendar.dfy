/** The proleptic Gregorian calendar of Python's `datetime.date`, years 1 to 9999.
    Day ordinals count from 0 for 0001-01-01 (Python's `toordinal()` minus one),
    which was a Monday. The front end's date-fns `yyyy-MM-dd` formatting of a
    date picked in the browser is here too; it is not limited to those years. */
module Calendar {
  import opened Text

  datatype Date = Date(year: int, month: int, day: int)

  const MinYear := 1
  const MaxYear := 9999
  const MaxDate := Date(9999, 12, 31)

  predicate IsLeap(y: int)
  {
    y % 4 == 0 && (y % 100 != 0 || y % 400 == 0)
  }

  function DaysInMonth(y: int, m: int): (n: int)
    requires 1 <= m <= 12
    ensures 28 <= n <= 31
  {
    if m == 2 then (if IsLeap(y) then 29 else 28)
    else if m == 4 || m == 6 || m == 9 || m == 11 then 30
    else 31
  }

  function DaysInYear(y: int): int
  {
    if IsLeap(y) then 366 else 365
  }

  predicate ValidDate(d: Date)
  {
    MinYear <= d.year <= MaxYear && 1 <= d.month <= 12 && 1 <= d.day <= DaysInMonth(d.year, d.month)
  }

  /** Days in the years from 1 up to, not including, `y`. */
  function DaysBeforeYear(y: int): int
    decreases y
  {
    if y <= 1 then 0 else DaysBeforeYear(y - 1) + DaysInYear(y - 1)
  }

  /** The recursive count agrees with Python's closed form `_days_before_year`. */
  lemma {:induction false} DaysBeforeYearClosedForm(y: int)
    requires y >= 1
    ensures var p := y - 1; DaysBeforeYear(y) == p * 365 + p / 4 - p / 100 + p / 400
    decreases y
  {
    if y > 1 {
      var p := y - 1;
      assert DaysBeforeYear(y) == DaysBeforeYear(p) + DaysInYear(p);
      DaysBeforeYearClosedForm(p);
      QuotientSteps(p);
      LeapCount(p);
    }
  }

  /** A leap year is a multiple of 4, less the multiples of 100, plus the multiples of 400. */
  lemma LeapCount(p: int)
    ensures DaysInYear(p) - 365 ==
      (if p % 4 == 0 then 1 else 0) - (if p % 100 == 0 then 1 else 0) + (if p % 400 == 0 then 1 else 0)
  {
    if p % 400 == 0 {
      var k := p / 400;
      assert p == 100 * (4 * k);
      assert p == 4 * (100 * k);
    } else if p % 100 == 0 {
      var k := p / 100;
      assert p == 4 * (25 * k);
    }
  }

  /** How the leap-year counts grow from `p - 1` to `p`. */
  lemma QuotientSteps(p: int)
    ensures p / 4 == (p - 1) / 4 + (if p % 4 == 0 then 1 else 0)
    ensures p / 100 == (p - 1) / 100 + (if p % 100 == 0 then 1 else 0)
    ensures p / 400 == (p - 1) / 400 + (if p % 400 == 0 then 1 else 0)
  {
  }

  /** Days in the months of year `y` before month `m` (Python's `_days_before_month`). */
  function DaysBeforeMonth(y: int, m: int): (n: int)
    requires 1 <= m <= 12
    ensures 0 <= n <= 335
  {
    var table := [0, 31, 59, 90, 120, 151, 181, 212, 243, 273, 304, 334];
    table[m - 1] + (if m > 2 && IsLeap(y) then 1 else 0)
  }

  function DayOrdinal(d: Date): int
    requires ValidDate(d)
  {
    DaysBeforeYear(d.year) + DaysBeforeMonth(d.year, d.month) + d.day - 1
  }

  /** The calendar day after `d` (Python's `d + timedelta(days=1)` when no overflow). */
  function NextDate(d: Date): Date
    requires ValidDate(d)
  {
    if d.day < DaysInMonth(d.year, d.month) then Date(d.year, d.month, d.day + 1)
    else if d.month < 12 then Date(d.year, d.month + 1, 1)
    else Date(d.year + 1, 1, 1)
  }

  /** Python's date comparison: lexicographic on (year, month, day). */
  predicate DateLessEq(a: Date, b: Date)
  {
    a.year < b.year || (a.year == b.year && (a.month < b.month || (a.month == b.month && a.day <= b.day)))
  }

  lemma YearStep(y: int)
    requires y >= 1
    ensures DaysBeforeYear(y + 1) == DaysBeforeYear(y) + DaysInYear(y)
  {
  }

  lemma MonthStep(y: int, m: int)
    requires 1 <= m < 12
    ensures DaysBeforeMonth(y, m + 1) == DaysBeforeMonth(y, m) + DaysInMonth(y, m)
  {
  }

  lemma LastMonth(y: int)
    ensures DaysBeforeMonth(y, 12) + DaysInMonth(y, 12) == DaysInYear(y)
  {
  }

  /** `NextDate` stays in the calendar and moves the ordinal by exactly one. */
  lemma NextDateStep(d: Date)
    requires ValidDate(d) && d != MaxDate
    ensures ValidDate(NextDate(d))
    ensures DayOrdinal(NextDate(d)) == DayOrdinal(d) + 1
  {
    if d.day < DaysInMonth(d.year, d.month) {
    } else if d.month < 12 {
      MonthStep(d.year, d.month);
    } else {
      YearStep(d.year);
      LastMonth(d.year);
    }
  }

  /** A date's ordinal lies within its year's block of ordinals. */
  lemma OrdinalInYear(d: Date)
    requires ValidDate(d)
    ensures DaysBeforeYear(d.year) <= DayOrdinal(d) < DaysBeforeYear(d.year + 1)
  {
    YearStep(d.year);
    MonthsBefore(d.year, d.month, 12);
    LastMonth(d.year);
  }

  lemma {:induction false} MonthsBefore(y: int, m: int, n: int)
    requires 1 <= m <= n <= 12
    ensures DaysBeforeMonth(y, m) + DaysInMonth(y, m) <= DaysBeforeMonth(y, n) + DaysInMonth(y, n)
    decreases n - m
  {
    if m < n {
      MonthStep(y, m);
      MonthsBefore(y, m + 1, n);
    }
  }

  lemma {:induction false} YearsBefore(a: int, b: int)
    requires a <= b
    requires a >= 1
    ensures DaysBeforeYear(a) <= DaysBeforeYear(b)
    decreases b - a
  {
    if a < b {
      YearStep(a);
      YearsBefore(a + 1, b);
    }
  }

  /** Comparing dates the way Python does agrees with comparing their ordinals. */
  lemma DateOrder(a: Date, b: Date)
    requires ValidDate(a) && ValidDate(b)
    ensures DateLessEq(a, b) <==> DayOrdinal(a) <= DayOrdinal(b)
    ensures a == b <==> DayOrdinal(a) == DayOrdinal(b)
  {
    if a.year != b.year {
      var (x, y) := if a.year < b.year then (a, b) else (b, a);
      OrdinalInYear(x);
      OrdinalInYear(y);
      YearsBefore(x.year + 1, y.year);
    } else if a.month != b.month {
      if a.month < b.month {
        MonthsBefore(a.year, a.month, b.month - 1);
        MonthStep(a.year, b.month - 1);
      } else {
        MonthsBefore(a.year, b.month, a.month - 1);
        MonthStep(a.year, a.month - 1);
      }
    }
  }

  /** `strftime('%A').lower()` in the C locale, indexed by Python's `weekday()`. */
  const WeekdayNames: seq<string> :=
    ["monday", "tuesday", "wednesday", "thursday", "friday", "saturday", "sunday"]

  function Weekday(d: Date): (w: int)
    requires ValidDate(d)
    ensures 0 <= w < 7
  {
    DayOrdinal(d) % 7
  }

  function DayName(d: Date): (name: string)
    requires ValidDate(d)
    ensures name in WeekdayNames
  {
    WeekdayNames[Weekday(d)]
  }

  /** Consecutive days have consecutive weekdays. */
  lemma NextDayName(d: Date)
    requires ValidDate(d) && d != MaxDate
    ensures ValidDate(NextDate(d))
    ensures Weekday(NextDate(d)) == (Weekday(d) + 1) % 7
  {
    NextDateStep(d);
    SuccMod7(DayOrdinal(d));
  }

  lemma SuccMod7(o: int)
    ensures (o + 1) % 7 == (o % 7 + 1) % 7
  {
    var q := o / 7;
    assert o == 7 * q + o % 7;
    if o % 7 == 6 {
      assert o + 1 == 7 * (q + 1);
    } else {
      assert o + 1 == 7 * q + (o % 7 + 1);
    }
  }

  /** An anchor of the numbering: 2024-01-01 was a Monday (as was 0001-01-01,
      whose ordinal is 0). */
  lemma NewYear2024IsMonday()
    ensures DayName(Date(2024, 1, 1)) == "monday"
  {
    DaysBeforeYearClosedForm(2024);
    assert DaysBeforeYear(2024) == 738885;
    assert DayOrdinal(Date(2024, 1, 1)) == 7 * 105555;
  }

  /** No valid date comes after 9999-12-31. */
  lemma MaxDateIsLast(d: Date)
    requires ValidDate(d)
    ensures DateLessEq(d, MaxDate)
  {
  }

  /** date-fns `format(d, 'yyyy')`: the year zero-padded to at least four digits. */
  function FormatYear(y: nat): (s: string)
    ensures |s| >= 4 && AllDigits(s) && DigitsValue(s) == y
    ensures y < 10000 ==> |s| == 4
  {
    if y < 10000 then (PadDigitsValue(y, 4); PadDigits(y, 4))
    else (NatToDigitsValue(y); NatToDigits(y))
  }

  function Pad2(n: nat): (s: string)
    requires n < 100
    ensures |s| == 2 && AllDigits(s) && DigitsValue(s) == n
  {
    PadDigitsValue(n, 2);
    PadDigits(n, 2)
  }

  /** The year date-fns prints for `yyyy`: the year of the era, so that the
      astronomical year 0 is 1 BC and prints as 1, -1 as 2, and so on. */
  function EraYear(y: int): (e: nat)
    ensures e >= 1
    ensures y > 0 ==> e == y
    ensures y <= 0 ==> e + y == 1
  {
    if y > 0 then y else 1 - y
  }

  /** date-fns `format(d, 'yyyy-MM-dd')`. */
  function FormatIsoDate(d: Date): (s: string)
    requires 1 <= d.month <= 12 && 1 <= d.day <= 31
  {
    FormatYear(EraYear(d.year)) + "-" + Pad2(d.month) + "-" + Pad2(d.day)
  }

  /** The formatted date is never empty: year, month and day fields are all
      present, separated by dashes, and each field's digits denote that field,
      the year as the year of the era. */
  lemma IsoDateFields(d: Date)
    requires 1 <= d.month <= 12 && 1 <= d.day <= 31
    ensures var s := FormatIsoDate(d); var n := |s|;
      n >= 10 && s[n - 6] == '-' && s[n - 3] == '-' &&
      AllDigits(s[..n - 6]) && DigitsValue(s[..n - 6]) == EraYear(d.year) &&
      AllDigits(s[n - 5..n - 3]) && DigitsValue(s[n - 5..n - 3]) == d.month &&
      AllDigits(s[n - 2..]) && DigitsValue(s[n - 2..]) == d.day &&
      (EraYear(d.year) < 10000 ==> n == 10)
  {
    var y, m, dd := FormatYear(EraYear(d.year)), Pad2(d.month), Pad2(d.day);
    var s := FormatIsoDate(d);
    var n := |s|;
    assert s == y + "-" + m + "-" + dd;
    assert s[..n - 6] == y;
    assert s[n - 5..n - 3] == m;
    assert s[n - 2..] == dd;
  }

  /** The astronomical year 0 is printed as year 1 (1 BC). */
  lemma YearZeroPrintsAsOne()
    ensures FormatIsoDate(Date(0, 1, 1)) == "0001-01-01"
  {
    assert EraYear(0) == 1;
    assert DigitChar(0) == '0' && DigitChar(1) == '1';
    assert PadDigits(0, 1) == "0";
    assert PadDigits(0, 2) == "00";
    assert PadDigits(0, 3) == "000";
    assert PadDigits(1, 1) == "1";
    assert PadDigits(1, 2) == "01";
    assert PadDigits(1, 3) == "001";
    assert PadDigits(1, 4) == "0001";
    assert FormatYear(1) == "0001";
    assert Pad2(1) == "01";
    assert FormatIsoDate(Date(0, 1, 1)) == "0001" + "-" + "01" + "-" + "01";
  }
}
