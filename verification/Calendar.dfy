/** The proleptic Gregorian calendar: day numbers, dates and their inverse, months and weekdays.
    Day 0 is Monday, 1 January of year 1. */
module Calendar {

  datatype Date = Date(year: int, month: int, day: int)

  /** The rule of Appendix C of RFC 3339. */
  predicate Leap(y: int) {
    y % 4 == 0 && (y % 100 != 0 || y % 400 == 0)
  }

  function DaysIn(y: int, m: int): int {
    if m == 2 then (if Leap(y) then 29 else 28)
    else if m == 4 || m == 6 || m == 9 || m == 11 then 30
    else 31
  }

  predicate ValidDate(c: Date) {
    1 <= c.month <= 12 && 1 <= c.day <= DaysIn(c.year, c.month)
  }

  function YearDays(y: int): int {
    if Leap(y) then 366 else 365
  }

  /** Days from day 0 to 1 January of a year. */
  function DaysBeforeYear(y: int): int
    decreases if y < 1 then 1 - y else y - 1
  {
    if y == 1 then 0
    else if y > 1 then DaysBeforeYear(y - 1) + YearDays(y - 1)
    else DaysBeforeYear(y + 1) - YearDays(y)
  }

  function DaysBeforeMonth(y: int, m: int): int
    requires 1 <= m <= 13
    decreases m
  {
    if m == 1 then 0 else DaysBeforeMonth(y, m - 1) + DaysIn(y, m - 1)
  }

  /** The day that time.Date names; a day outside the month counts on into the neighbouring months. */
  function DayNumber(y: int, m: int, d: int): int
    requires 1 <= m <= 12
  {
    DaysBeforeYear(y) + DaysBeforeMonth(y, m) + d - 1
  }

  lemma YearLength(y: int)
    ensures DaysBeforeYear(y + 1) == DaysBeforeYear(y) + YearDays(y)
  {
  }

  function ClosedForm(y: int): int {
    365 * (y - 1) + (y - 1) / 4 - (y - 1) / 100 + (y - 1) / 400
  }

  lemma ClosedStep(y: int)
    ensures ClosedForm(y + 1) == ClosedForm(y) + YearDays(y)
  {
    var a := y - 1;
    assert (a + 1) / 4 == a / 4 + (if y % 4 == 0 then 1 else 0);
    assert (a + 1) / 100 == a / 100 + (if y % 100 == 0 then 1 else 0);
    assert (a + 1) / 400 == a / 400 + (if y % 400 == 0 then 1 else 0);
    assert y % 100 == 0 ==> y % 4 == 0;
    assert y % 400 == 0 ==> y % 100 == 0;
  }

  lemma {:induction false} DaysClosed(y: int)
    ensures DaysBeforeYear(y) == ClosedForm(y)
    decreases if y < 1 then 1 - y else y - 1
  {
    if y > 1 {
      DaysClosed(y - 1);
      ClosedStep(y - 1);
    } else if y < 1 {
      DaysClosed(y + 1);
      ClosedStep(y);
    }
  }

  /** The year that holds a day, searched for upwards. */
  function YearFrom(n: int, y: int): (z: int)
    requires DaysBeforeYear(y) <= n
    ensures DaysBeforeYear(z) <= n < DaysBeforeYear(z + 1)
    decreases n - DaysBeforeYear(y)
  {
    YearLength(y);
    if n < DaysBeforeYear(y + 1) then y else YearFrom(n, y + 1)
  }

  /** A year that begins no later than the day. */
  function EarlyYear(n: int): (y: int)
    ensures DaysBeforeYear(y) <= n
  {
    var y := if n < 0 then n / 365 else n / 366 + 1;
    DaysClosed(y);
    y
  }

  function YearOf(n: int): (y: int)
    ensures DaysBeforeYear(y) <= n < DaysBeforeYear(y + 1)
  {
    YearFrom(n, EarlyYear(n))
  }

  function MonthFrom(y: int, dayOfYear: int, m: int): int
    requires 1 <= m <= 12
    decreases 12 - m
  {
    if m == 12 || dayOfYear < DaysBeforeMonth(y, m + 1) then m else MonthFrom(y, dayOfYear, m + 1)
  }

  function Civil(n: int): Date {
    var y := YearOf(n);
    var r := n - DaysBeforeYear(y);
    var m := MonthFrom(y, r, 1);
    Date(y, m, if 1 <= m <= 12 then r - DaysBeforeMonth(y, m) + 1 else 0)
  }

  function Weekday(n: int): int {
    (n + 1) % 7
  }

  /** Time.AddDate at midnight: years, months and days are added to the fields, then normalized by time.Date. */
  function AddDate(n: int, years: int, months: int, days: int): int {
    var c := Civil(n);
    var m := c.month - 1 + months;
    DayNumber(c.year + years + m / 12, m % 12 + 1, c.day + days)
  }

  // Years.

  lemma {:induction false} YearsGrow(y: int, z: int)
    requires y <= z
    ensures DaysBeforeYear(y) + 365 * (z - y) <= DaysBeforeYear(z)
    decreases z - y
  {
    if y < z {
      YearsGrow(y, z - 1);
      YearLength(z - 1);
    }
  }

  lemma YearUnique(n: int, y: int)
    requires DaysBeforeYear(y) <= n < DaysBeforeYear(y + 1)
    ensures YearOf(n) == y
  {
    var z := YearOf(n);
    if y < z {
      YearsGrow(y + 1, z);
    } else if z < y {
      YearsGrow(z + 1, y);
    }
  }

  // Months.

  lemma {:induction false} MonthsGrow(y: int, m: int, k: int)
    requires 1 <= m <= k <= 13
    ensures DaysBeforeMonth(y, m) + 28 * (k - m) <= DaysBeforeMonth(y, k)
    decreases k
  {
    if m < k {
      MonthsGrow(y, m, k - 1);
    }
  }

  lemma YearOfMonths(y: int)
    ensures DaysBeforeMonth(y, 13) == (if Leap(y) then 366 else 365)
  {
    assert DaysBeforeMonth(y, 4) == 59 + (if Leap(y) then 1 else 0) + 31;
    assert DaysBeforeMonth(y, 7) == DaysBeforeMonth(y, 4) + 91;
    assert DaysBeforeMonth(y, 10) == DaysBeforeMonth(y, 7) + 92;
  }

  lemma {:induction false} MonthFound(y: int, r: int, from: int, m: int)
    requires 1 <= from <= m <= 12
    requires DaysBeforeMonth(y, m) <= r < DaysBeforeMonth(y, m + 1)
    ensures MonthFrom(y, r, from) == m
    decreases 12 - from
  {
    if from < m {
      MonthsGrow(y, from + 1, m);
      MonthFound(y, r, from + 1, m);
    }
  }

  lemma {:induction false} MonthBounds(y: int, r: int, from: int)
    requires 1 <= from <= 12 && DaysBeforeMonth(y, from) <= r < DaysBeforeMonth(y, 13)
    ensures var m := MonthFrom(y, r, from);
      from <= m <= 12 && DaysBeforeMonth(y, m) <= r < DaysBeforeMonth(y, m + 1)
    decreases 12 - from
  {
    if from < 12 && r >= DaysBeforeMonth(y, from + 1) {
      MonthBounds(y, r, from + 1);
    }
  }

  // Dates and day numbers are inverse to each other.

  /** Every day has a date, and the date names the day. */
  lemma CivilRoundTrip(n: int)
    ensures var c := Civil(n); ValidDate(c) && DayNumber(c.year, c.month, c.day) == n
  {
    var y := YearOf(n);
    YearLength(y);
    YearOfMonths(y);
    MonthBounds(y, n - DaysBeforeYear(y), 1);
  }

  /** Every valid date is the date of the day it names. */
  lemma DateRoundTrip(c: Date)
    requires ValidDate(c)
    ensures Civil(DayNumber(c.year, c.month, c.day)) == c
  {
    hide DaysBeforeYear, YearFrom;
    var n := DayNumber(c.year, c.month, c.day);
    YearLength(c.year);
    YearOfMonths(c.year);
    MonthsGrow(c.year, 1, c.month);
    MonthsGrow(c.year, c.month + 1, 13);
    YearUnique(n, c.year);
    MonthFound(c.year, n - DaysBeforeYear(c.year), 1, c.month);
  }

  /** Later dates have later day numbers. */
  lemma YearsApart(c: Date, e: Date)
    requires ValidDate(c) && ValidDate(e) && c.year < e.year
    ensures DayNumber(c.year, c.month, c.day) < DayNumber(e.year, e.month, e.day)
  {
    YearLength(c.year);
    YearOfMonths(c.year);
    MonthsGrow(c.year, c.month + 1, 13);
    YearsGrow(c.year + 1, e.year);
    MonthsGrow(e.year, 1, e.month);
  }

  /** AddDate on a known date. */
  function Added(c: Date, years: int, months: int, days: int): int {
    DayNumber(c.year + years + (c.month - 1 + months) / 12, (c.month - 1 + months) % 12 + 1, c.day + days)
  }

  lemma AddDateIs(n: int, c: Date, years: int, months: int, days: int)
    requires Civil(n) == c
    ensures AddDate(n, years, months, days) == Added(c, years, months, days)
  {
  }

  /** Adding a day is adding one to the day number. */
  lemma NextDay(n: int)
    ensures AddDate(n, 0, 0, 1) == n + 1
  {
    var c := Civil(n);
    CivilRoundTrip(n);
    AddDateIs(n, c, 0, 0, 1);
    DayAfter(c);
  }

  lemma DayAfter(c: Date)
    requires ValidDate(c)
    ensures Added(c, 0, 0, 1) == DayNumber(c.year, c.month, c.day) + 1
  {
  }

  /** From the first of a month, adding a month reaches the first day after it. */
  lemma NextMonth(y: int, m: int)
    requires 1 <= m <= 12
    ensures AddDate(DayNumber(y, m, 1), 0, 1, 0) == DayNumber(y, m, 1) + DaysIn(y, m)
  {
    DateRoundTrip(Date(y, m, 1));
    AddDateIs(DayNumber(y, m, 1), Date(y, m, 1), 0, 1, 0);
    MonthAfter(y, m);
  }

  lemma MonthAfter(y: int, m: int)
    requires 1 <= m <= 12
    ensures Added(Date(y, m, 1), 0, 1, 0) == DayNumber(y, m, 1) + DaysIn(y, m)
  {
    if m == 12 {
      YearLength(y);
      YearOfMonths(y);
    }
  }

  /** The days between are exactly that month's. */
  lemma MonthDays(y: int, m: int, n: int)
    requires 1 <= m <= 12 && DayNumber(y, m, 1) <= n < DayNumber(y, m, 1) + DaysIn(y, m)
    ensures Civil(n) == Date(y, m, n - DayNumber(y, m, 1) + 1)
  {
    var d := n - DayNumber(y, m, 1) + 1;
    DayOffset(y, m, d);
    DateRoundTrip(Date(y, m, d));
  }

  lemma DayOffset(y: int, m: int, d: int)
    requires 1 <= m <= 12
    ensures DayNumber(y, m, d) == DayNumber(y, m, 1) + d - 1
  {
  }

  // Weekdays.

  /** Appendix B of RFC 3339: the weekday from the date, with February last and the century split off. */
  function Rfc3339Weekday(c: Date): int {
    var m := if c.month < 3 then c.month + 10 else c.month - 2;
    var y := if c.month < 3 then c.year - 1 else c.year;
    var cent, yy := y / 100, y % 100;
    ((26 * m - 2) / 10 + c.day + yy + yy / 4 + cent / 4 + 5 * cent) % 7
  }

  /** Appendix B's month term counts the days before the month, up to whole weeks. */
  lemma MonthTable(y: int, m: int)
    requires 1 <= m <= 12
    ensures m < 3 ==> DaysBeforeMonth(y, m) == 31 * (m - 1)
    ensures m >= 3 ==> DaysBeforeMonth(y, m) == 57 + (if Leap(y) then 1 else 0) + (26 * (m - 2) - 2) / 10 + 28 * (m - 3)
  {
    if m >= 4 {
      MonthTable(y, m - 1);
    }
  }

  lemma CenturySplit(y: int)
    ensures y == 100 * (y / 100) + y % 100
    ensures y / 4 == 25 * (y / 100) + (y % 100) / 4
    ensures y / 400 == (y / 100) / 4
  {
  }

  lemma LeapShift(y: int)
    ensures DaysBeforeYear(y) + (if Leap(y) then 1 else 0) == 365 * (y - 1) + y / 4 - y / 100 + y / 400
    ensures DaysBeforeYear(y) == ClosedForm(y)
  {
    DaysClosed(y);
    ClosedStep(y);
  }

  lemma WeekdayAgrees(c: Date)
    requires ValidDate(c)
    ensures Weekday(DayNumber(c.year, c.month, c.day)) == Rfc3339Weekday(c)
  {
    var n := DayNumber(c.year, c.month, c.day);
    var y := if c.month < 3 then c.year - 1 else c.year;
    var m := if c.month < 3 then c.month + 10 else c.month - 2;
    var cent, yy := y / 100, y % 100;
    MonthTable(c.year, c.month);
    CenturySplit(y);
    LeapShift(c.year);
    var sum := (26 * m - 2) / 10 + c.day + yy + yy / 4 + cent / 4 + 5 * cent;
    var weeks := 5217 * cent + 52 * yy + if c.month < 3 then 4 * c.month - 8 else 4 * c.month - 56;
    assert n + 1 == sum + 7 * weeks;
    WholeWeeks(sum, weeks);
  }

  lemma WholeWeeks(sum: int, weeks: int)
    ensures (sum + 7 * weeks) % 7 == sum % 7
  {
  }
}
