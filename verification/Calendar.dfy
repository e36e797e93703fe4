/** Dates of the proleptic Gregorian calendar and their day numbers. */
module Calendar {
  datatype Date = Date(year: int, month: int, day: int)

  predicate Leap(year: int) {
    year % 4 == 0 && (year % 100 != 0 || year % 400 == 0)
  }

  function DaysInMonth(year: int, month: int): int {
    if month == 2 then (if Leap(year) then 29 else 28)
    else if month == 4 || month == 6 || month == 9 || month == 11 then 30
    else 31
  }

  predicate Valid(date: Date) {
    1 <= date.year <= 9999 && 1 <= date.month <= 12 && 1 <= date.day <= DaysInMonth(date.year, date.month)
  }

  /** Dates compare by year, then month, then day. */
  predicate Before(a: Date, b: Date) {
    a.year < b.year || (a.year == b.year && (a.month < b.month || (a.month == b.month && a.day < b.day)))
  }

  function DaysBeforeYear(year: int): int {
    (year - 1) * 365 + (year - 1) / 4 - (year - 1) / 100 + (year - 1) / 400
  }

  function DaysBeforeMonth(year: int, month: int): int
    requires 1 <= month <= 12
  {
    if month == 1 then 0 else DaysBeforeMonth(year, month - 1) + DaysInMonth(year, month - 1)
  }

  /** Day 1 is 1 January of year 1. */
  function Ordinal(date: Date): int
    requires 1 <= date.month <= 12
  {
    DaysBeforeYear(date.year) + DaysBeforeMonth(date.year, date.month) + date.day
  }

  const UNIX_EPOCH := Date(1970, 1, 1)

  function EpochDay(date: Date): int
    requires 1 <= date.month <= 12
  {
    Ordinal(date) - Ordinal(UNIX_EPOCH)
  }

  function DaysInYear(year: int): int {
    if Leap(year) then 366 else 365
  }

  lemma YearStep(year: int)
    ensures DaysBeforeYear(year + 1) == DaysBeforeYear(year) + DaysInYear(year)
  {
    assert year / 4 == (year - 1) / 4 + if year % 4 == 0 then 1 else 0;
    assert year / 100 == (year - 1) / 100 + if year % 100 == 0 then 1 else 0;
    assert year / 400 == (year - 1) / 400 + if year % 400 == 0 then 1 else 0;
    assert year % 400 == 0 ==> year % 100 == 0 by { if year % 400 == 0 { CenturiesAreMultiples(year); } }
    assert year % 100 == 0 ==> year % 4 == 0 by { if year % 100 == 0 { HundredsAreMultiples(year); } }
  }

  lemma CenturiesAreMultiples(year: int)
    requires year % 400 == 0
    ensures year % 100 == 0
  {
    var q := year / 400;
    assert year == 100 * (4 * q);
  }

  lemma HundredsAreMultiples(year: int)
    requires year % 100 == 0
    ensures year % 4 == 0
  {
    var q := year / 100;
    assert year == 4 * (25 * q);
  }

  lemma {:induction false} YearsGrow(a: int, b: int)
    requires a < b
    ensures DaysBeforeYear(a) + DaysInYear(a) <= DaysBeforeYear(b)
    decreases b - a
  {
    YearStep(b - 1);
    if a < b - 1 { YearsGrow(a, b - 1); }
  }

  lemma {:induction false} MonthsGrow(year: int, a: int, b: int)
    requires 1 <= a < b <= 12
    ensures DaysBeforeMonth(year, a) + DaysInMonth(year, a) <= DaysBeforeMonth(year, b)
    decreases b - a
  {
    if a < b - 1 { MonthsGrow(year, a, b - 1); }
  }

  lemma MonthsFitYear(year: int)
    ensures DaysBeforeMonth(year, 12) + DaysInMonth(year, 12) == DaysInYear(year)
  {
    assert DaysBeforeMonth(year, 2) == 31;
    assert DaysBeforeMonth(year, 3) == 31 + DaysInMonth(year, 2);
    assert DaysBeforeMonth(year, 5) == DaysBeforeMonth(year, 4) + 30 == DaysBeforeMonth(year, 3) + 61;
    assert DaysBeforeMonth(year, 7) == DaysBeforeMonth(year, 6) + 30 == DaysBeforeMonth(year, 5) + 61;
    assert DaysBeforeMonth(year, 9) == DaysBeforeMonth(year, 8) + 31 == DaysBeforeMonth(year, 7) + 62;
    assert DaysBeforeMonth(year, 11) == DaysBeforeMonth(year, 10) + 31 == DaysBeforeMonth(year, 9) + 61;
  }

  lemma WithinYear(date: Date)
    requires Valid(date)
    ensures DaysBeforeYear(date.year) < Ordinal(date) <= DaysBeforeYear(date.year) + DaysInYear(date.year)
  {
    hide DaysBeforeYear, DaysInMonth, DaysInYear;
    MonthsFitYear(date.year);
    assert DaysBeforeMonth(date.year, 1) == 0;
    MonthIsPositive(date.year, 1);
    if date.month > 1 { MonthsGrow(date.year, 1, date.month); }
    if date.month < 12 { MonthsGrow(date.year, date.month, 12); MonthIsPositive(date.year, 12); }
  }

  lemma MonthIsPositive(year: int, month: int)
    ensures DaysInMonth(year, month) > 0
  {
  }

  /** Comparing day numbers is comparing dates. */
  lemma OrdinalOrder(a: Date, b: Date)
    requires Valid(a) && Valid(b)
    ensures Before(a, b) <==> EpochDay(a) < EpochDay(b)
  {
    if Before(a, b) {
      BeforeMeansSmaller(a, b);
    } else if Before(b, a) {
      BeforeMeansSmaller(b, a);
    }
  }

  lemma BeforeMeansSmaller(a: Date, b: Date)
    requires Valid(a) && Valid(b) && Before(a, b)
    ensures Ordinal(a) < Ordinal(b)
  {
    hide DaysBeforeYear, DaysBeforeMonth, DaysInMonth, DaysInYear;
    if a.year < b.year {
      YearsGrow(a.year, b.year);
      WithinYear(a);
      WithinYear(b);
    } else if a.month < b.month {
      MonthsGrow(a.year, a.month, b.month);
    }
  }

  /** The day after this one, in the same month, the next month or the next year. */
  function NextDay(date: Date): Date {
    if date.day < DaysInMonth(date.year, date.month) then date.(day := date.day + 1)
    else if date.month < 12 then Date(date.year, date.month + 1, 1)
    else Date(date.year + 1, 1, 1)
  }

  /** Day numbers count the days from 1 January 1970. */
  lemma EpochDayCounts(date: Date)
    requires Valid(date)
    ensures EpochDay(Date(1970, 1, 1)) == 0
    ensures var next := NextDay(date);
            1 <= next.month <= 12 && EpochDay(next) == EpochDay(date) + 1
  {
    if date.month == 12 {
      YearStep(date.year);
      MonthsFitYear(date.year);
      hide DaysBeforeYear;
    }
  }
}
