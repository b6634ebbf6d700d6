/** Dates of the proleptic Gregorian calendar as Python's `datetime` module
    counts them: day 1 is 0001-01-01, and the difference of two dates in days
    is the difference of their day numbers. */
module Calendar {

  datatype Date = Date(year: int, month: int, day: int)

  /** `datetime.MAXYEAR`. */
  const MaxYear: int := 9999

  /** Leap years: divisible by 4, except centuries not divisible by 400. */
  predicate IsLeap(year: int)
  {
    year % 4 == 0 && (year % 100 != 0 || year % 400 == 0)
  }

  function DaysInYear(year: int): int
  {
    if IsLeap(year) then 366 else 365
  }

  /** Python's `_days_in_month`. */
  function DaysInMonth(year: int, month: int): int
    requires 1 <= month <= 12
  {
    if month == 2 && IsLeap(year) then 29
    else [31, 28, 31, 30, 31, 30, 31, 31, 30, 31, 30, 31][month - 1]
  }

  /** Python's `_days_before_month`: days of the year before the first of
      `month`. */
  function DaysBeforeMonth(year: int, month: int): int
    requires 1 <= month <= 12
  {
    [0, 31, 59, 90, 120, 151, 181, 212, 243, 273, 304, 334][month - 1]
      + (if month > 2 && IsLeap(year) then 1 else 0)
  }

  /** Python's `_days_before_year`: days before January 1 of `year`, in
      closed form. */
  function DaysBeforeYear(year: int): int
    requires year >= 1
  {
    var y := year - 1;
    y * 365 + y / 4 - y / 100 + y / 400
  }

  /** A date `datetime.date` accepts. */
  predicate Valid(d: Date)
  {
    1 <= d.year <= MaxYear && 1 <= d.month <= 12 && 1 <= d.day <= DaysInMonth(d.year, d.month)
  }

  /** `date.toordinal()`. */
  function Ordinal(d: Date): int
    requires Valid(d)
  {
    DaysBeforeYear(d.year) + DaysBeforeMonth(d.year, d.month) + d.day
  }

  /** `(b - a).days` for two dates at midnight. */
  function DaysBetween(a: Date, b: Date): int
    requires Valid(a) && Valid(b)
  {
    Ordinal(b) - Ordinal(a)
  }

  /** The calendar day after `d`. */
  function NextDay(d: Date): (r: Date)
    requires Valid(d) && d != Date(MaxYear, 12, 31)
    ensures Valid(r)
  {
    if d.day < DaysInMonth(d.year, d.month) then Date(d.year, d.month, d.day + 1)
    else if d.month < 12 then Date(d.year, d.month + 1, 1)
    else Date(d.year + 1, 1, 1)
  }

  /** `a` comes strictly before `b` in the calendar. */
  predicate Before(a: Date, b: Date)
  {
    a.year < b.year
    || (a.year == b.year && a.month < b.month)
    || (a.year == b.year && a.month == b.month && a.day < b.day)
  }

  /** Centuries are years divisible by 4, and 400-year marks are centuries. */
  lemma Divisors(year: int)
    ensures year % 400 == 0 ==> year % 100 == 0
    ensures year % 100 == 0 ==> year % 4 == 0
  {
    if year % 400 == 0 {
      var k := 4 * (year / 400);
      assert year == 100 * k;
      HundredTimes(k);
    }
    if year % 100 == 0 {
      var k := 25 * (year / 100);
      assert year == 4 * k;
      FourTimes(k);
    }
  }

  lemma HundredTimes(k: int)
    ensures (100 * k) % 100 == 0
  {
  }

  lemma FourTimes(k: int)
    ensures (4 * k) % 4 == 0
  {
  }

  /** The closed form grows by the length of each year. */
  lemma {:induction false} YearStep(year: int)
    requires year >= 1
    ensures DaysBeforeYear(year + 1) == DaysBeforeYear(year) + DaysInYear(year)
  {
    var y := year - 1;
    assert year / 4 == y / 4 + (if year % 4 == 0 then 1 else 0);
    assert year / 100 == y / 100 + (if year % 100 == 0 then 1 else 0);
    assert year / 400 == y / 400 + (if year % 400 == 0 then 1 else 0);
    Divisors(year);
  }

  /** The month table grows by the length of each month, and the last
      month ends the year. */
  lemma MonthStep(year: int, month: int)
    requires 1 <= month <= 12
    ensures month < 12 ==> DaysBeforeMonth(year, month + 1) == DaysBeforeMonth(year, month) + DaysInMonth(year, month)
    ensures month == 12 ==> DaysBeforeMonth(year, month) + DaysInMonth(year, month) == DaysInYear(year)
  {
  }

  /** Day numbers count days: the day after `d` has the next number. */
  lemma NextDayOrdinal(d: Date)
    requires Valid(d) && d != Date(MaxYear, 12, 31)
    ensures Ordinal(NextDay(d)) == Ordinal(d) + 1
    ensures DaysBetween(d, NextDay(d)) == 1
  {
    MonthStep(d.year, d.month);
    if d.day == DaysInMonth(d.year, d.month) && d.month == 12 {
      YearStep(d.year);
    }
  }

  /** The days of a month come before the first of every later month. */
  lemma {:induction false} MonthsWithinYear(year: int, m1: int, m2: int)
    requires 1 <= m1 < m2 <= 12
    ensures DaysBeforeMonth(year, m1) + DaysInMonth(year, m1) <= DaysBeforeMonth(year, m2)
    decreases m2 - m1
  {
    if m1 + 1 < m2 {
      MonthStep(year, m1);
      MonthsWithinYear(year, m1 + 1, m2);
      MonthStep(year, m1 + 1);
    } else {
      MonthStep(year, m1);
    }
  }

  /** The days of a year come before January 1 of every later year. */
  lemma {:induction false} YearsInOrder(y1: int, y2: int)
    requires 1 <= y1 < y2
    ensures DaysBeforeYear(y1) + DaysInYear(y1) <= DaysBeforeYear(y2)
    decreases y2 - y1
  {
    YearStep(y1);
    if y1 + 1 < y2 {
      YearsInOrder(y1 + 1, y2);
    }
  }

  /** A date's number lies within the days of its year. */
  lemma OrdinalInYear(d: Date)
    requires Valid(d)
    ensures DaysBeforeYear(d.year) < Ordinal(d) <= DaysBeforeYear(d.year) + DaysInYear(d.year)
  {
    if d.month < 12 {
      MonthsWithinYear(d.year, d.month, 12);
    }
    MonthStep(d.year, 12);
  }

  /** Day numbers follow calendar order. */
  lemma OrdinalMonotone(a: Date, b: Date)
    requires Valid(a) && Valid(b) && Before(a, b)
    ensures Ordinal(a) < Ordinal(b)
  {
    if a.year < b.year {
      OrdinalInYear(a);
      OrdinalInYear(b);
      YearsInOrder(a.year, b.year);
    } else if a.month < b.month {
      MonthsWithinYear(a.year, a.month, b.month);
    }
  }

  /** The day difference is positive exactly when the second date is later,
      zero exactly for the same date, and negative exactly when the second
      date is earlier. */
  lemma DaysBetweenSign(a: Date, b: Date)
    requires Valid(a) && Valid(b)
    ensures DaysBetween(a, b) > 0 <==> Before(a, b)
    ensures DaysBetween(a, b) == 0 <==> a == b
    ensures DaysBetween(a, b) < 0 <==> Before(b, a)
  {
    if Before(a, b) {
      OrdinalMonotone(a, b);
    } else if Before(b, a) {
      OrdinalMonotone(b, a);
    }
  }

  /** The day difference is zero from a date to itself, changes sign when
      the dates swap, and adds up across a middle date; day 1 is 0001-01-01. */
  lemma DaysBetweenArithmetic(a: Date, b: Date, c: Date)
    requires Valid(a) && Valid(b) && Valid(c)
    ensures DaysBetween(a, a) == 0
    ensures DaysBetween(b, a) == -DaysBetween(a, b)
    ensures DaysBetween(a, b) + DaysBetween(b, c) == DaysBetween(a, c)
    ensures Ordinal(Date(1, 1, 1)) == 1
  {
  }
}
