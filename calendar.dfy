/** Proleptic Gregorian calendar arithmetic: leap years, month lengths, the
    day number of a date (day 1 is 1 January of year 1, a Monday), the
    weekday of a date with Monday = 0, and days counted from the end of a
    month. */
module Calendar {
  import opened Text

  predicate IsLeapYear(y: int) {
    y % 4 == 0 && (y % 100 != 0 || y % 400 == 0)
  }

  function DaysInYear(y: int): int {
    if IsLeapYear(y) then 366 else 365
  }

  /** The length of month `m` of year `y`; only February depends on the
      year. */
  function DaysInMonth(y: int, m: int): (n: int)
    requires 1 <= m <= 12
    ensures 28 <= n <= 31
  {
    if m == 2 then (if IsLeapYear(y) then 29 else 28)
    else if m == 4 || m == 6 || m == 9 || m == 11 then 30
    else 31
  }

  predicate ValidDate(y: int, m: int, d: int) {
    1 <= m <= 12 && 1 <= d <= DaysInMonth(y, m)
  }

  /** The days of the months before `m`, as a table with a leap-day
      correction. */
  function DaysBeforeMonth(y: int, m: int): int
    requires 1 <= m <= 12
  {
    var table := [0, 31, 59, 90, 120, 151, 181, 212, 243, 273, 304, 334];
    table[m - 1] + (if m > 2 && IsLeapYear(y) then 1 else 0)
  }

  /** The same quantity as a sum of month lengths. */
  function SumOfMonths(y: int, m: int): int
    requires 1 <= m <= 13
  {
    if m == 1 then 0 else SumOfMonths(y, m - 1) + DaysInMonth(y, m - 1)
  }

  /** The table agrees with adding up the month lengths, and the twelve
      months of a year add up to the length of the year. */
  lemma {:induction false} DaysBeforeMonthIsSum(y: int, m: int)
    requires 1 <= m <= 13
    ensures m <= 12 ==> DaysBeforeMonth(y, m) == SumOfMonths(y, m)
    ensures m == 13 ==> SumOfMonths(y, m) == DaysInYear(y)
  {
    if m > 1 {
      DaysBeforeMonthIsSum(y, m - 1);
    }
  }

  /** The days of the years before `y`, counted from year 1. */
  function DaysBeforeYear(y: int): int {
    var p := y - 1;
    365 * p + p / 4 - p / 100 + p / 400
  }

  /** The day number of a date: 1 January of year 1 is day 1. */
  function DayNumber(y: int, m: int, d: int): int
    requires 1 <= m <= 12
  {
    DaysBeforeYear(y) + DaysBeforeMonth(y, m) + d
  }

  /** The weekday of a date, Monday = 0 and Sunday = 6. */
  function Weekday(y: int, m: int, d: int): (w: int)
    requires 1 <= m <= 12
    ensures 0 <= w <= 6
  {
    (DayNumber(y, m, d) + 6) % 7
  }

  /** The date after a valid date. */
  function NextDay(y: int, m: int, d: int): (r: (int, int, int))
    requires ValidDate(y, m, d)
    ensures ValidDate(r.0, r.1, r.2)
  {
    if d < DaysInMonth(y, m) then (y, m, d + 1)
    else if m < 12 then (y, m + 1, 1)
    else (y + 1, 1, 1)
  }

  lemma QuotientStep(p: int, n: int)
    requires n > 0
    ensures (p + 1) / n == p / n + (if (p + 1) % n == 0 then 1 else 0)
  {
    var q, r := p / n, p % n;
    assert p == q * n + r;
    if r == n - 1 {
      assert p + 1 == (q + 1) * n + 0;
      DivUnique(p + 1, n, q + 1, 0);
    } else {
      assert p + 1 == q * n + (r + 1);
      DivUnique(p + 1, n, q, r + 1);
    }
  }

  /** A year adds its own length to the count of days before it. */
  lemma DaysBeforeNextYear(y: int)
    ensures DaysBeforeYear(y + 1) == DaysBeforeYear(y) + DaysInYear(y)
  {
    var p := y - 1;
    QuotientStep(p, 4);
    QuotientStep(p, 100);
    QuotientStep(p, 400);
    assert p + 1 == y;
  }

  /** Day numbers count days: the next day has the next number. */
  lemma DayNumberOfNextDay(y: int, m: int, d: int)
    requires ValidDate(y, m, d)
    ensures DayNumber(NextDay(y, m, d).0, NextDay(y, m, d).1, NextDay(y, m, d).2) == DayNumber(y, m, d) + 1
  {
    if d == DaysInMonth(y, m) && m == 12 {
      DaysBeforeNextYear(y);
    }
  }

  /** Weekdays follow each other: the day after a Monday is a Tuesday, the
      day after a Sunday a Monday. */
  lemma WeekdayOfNextDay(y: int, m: int, d: int)
    requires ValidDate(y, m, d)
    ensures Weekday(NextDay(y, m, d).0, NextDay(y, m, d).1, NextDay(y, m, d).2) == (Weekday(y, m, d) + 1) % 7
  {
    DayNumberOfNextDay(y, m, d);
    var a := DayNumber(y, m, d) + 6;
    var q, w := a / 7, a % 7;
    assert a == q * 7 + w;
    if w == 6 {
      DivUnique(a + 1, 7, q + 1, 0);
    } else {
      DivUnique(a + 1, 7, q, w + 1);
    }
  }

  /** The concrete day of month `m` of year `y` that a stored day value
      stands for: positive values are themselves, a negative value -n is the
      n-th day counted back from the end of the month. */
  function ResolveDay(day: int, y: int, m: int): int
    requires 1 <= m <= 12
  {
    if day < 0 then DaysInMonth(y, m) + day + 1 else day
  }

  /** A day counted from the end (magnitude 1 to 28) always falls inside the
      month; -1 is the last day and a larger magnitude is an earlier day. */
  lemma ResolveFromEnd(day: int, y: int, m: int)
    requires 1 <= m <= 12 && -28 <= day <= -1
    ensures ValidDate(y, m, ResolveDay(day, y, m))
    ensures day == -1 ==> ResolveDay(day, y, m) == DaysInMonth(y, m)
    ensures day < -1 ==> ResolveDay(day, y, m) == ResolveDay(day + 1, y, m) - 1
  {
  }
}
