/** When Next answers that a schedule never fires again, and when that is true. */
module CronComplete {
  import opened Common
  import opened Masks
  import opened Calendar
  import opened CronNext

  /** What Expr hands over: every field allows something in its range; day-of-week has a bit below 7. */
  ghost predicate Parsed(s: Schedule) {
    && (exists v :: v in s.min && v < 60)
    && (exists v :: v in s.hour && v < 24)
    && (exists v :: v in s.dom && 1 <= v <= 31)
    && (exists v :: v in s.month && 1 <= v <= 12)
    && (exists v :: v in s.dow && v < 7)
  }

  /** Some weekday alone makes a day match. */
  predicate UsesWeekday(s: Schedule) {
    s.domStar || !s.dowStar
  }

  /** Year 1 is an ordinary year. */
  predicate EveryYear(s: Schedule) {
    UsesWeekday(s) || exists m, d :: m in s.month && 1 <= m <= 12 && d in s.dom && 1 <= d <= DaysIn(1, m)
  }

  /** 29 February is the only date left. */
  predicate LeapDayOnly(s: Schedule) {
    !EveryYear(s) && 2 in s.month && 29 in s.dom
  }

  ghost predicate FiresAgain(s: Schedule, after: Instant) {
    exists t :: Later(t, after) && Matches(s, t)
  }

  function LeapDay(y: int): int {
    DayNumber(y, 2, 29)
  }

  predicate SlotAfter(s: Schedule, timeOfDay: int) {
    exists v: nat :: v < 1440 && timeOfDay < v && v / 60 in s.hour && v % 60 in s.min
  }

  /** The leap day of this year still offers a run before the limit. */
  predicate Usable(s: Schedule, after: Instant, y: int) {
    && Leap(y)
    && LeapDay(y) < DayOf(Limit(after).minute)
    && (DayOf(after.minute) < LeapDay(y) || (DayOf(after.minute) == LeapDay(y) && SlotAfter(s, TimeOfDay(after.minute))))
  }

  predicate LeapDayInWindow(s: Schedule, after: Instant) {
    var year := DateOf(DayOf(after.minute)).year;
    exists y :: year <= y <= year + 5 && Usable(s, after, y)
  }

  // Building a matching minute from a date and a time of day.

  lemma MinuteFields(day: int, v: int)
    requires 0 <= v < 1440
    ensures var t := day * 1440 + v; DayOf(t) == day && TimeOfDay(t) == v && HourOf(t) == v / 60 && MinuteOf(t) == v % 60
  {
  }

  lemma SlotOf(s: Schedule) returns (v: int)
    requires Parsed(s)
    ensures 0 <= v < 1440 && v / 60 in s.hour && v % 60 in s.min
  {
    var h :| h in s.hour && h < 24;
    var m :| m in s.min && m < 60;
    v := 60 * h + m;
    assert v / 60 == h && v % 60 == m;
  }

  lemma MatchAt(s: Schedule, c: Date, v: int)
    requires ValidDate(c) && c.month in s.month && 0 <= v < 1440 && v / 60 in s.hour && v % 60 in s.min
    requires DayAllowed(s.domStar, s.dowStar, c.day in s.dom, Weekday(DayNumber(c.year, c.month, c.day)) in s.dow)
    ensures Matches(s, DayNumber(c.year, c.month, c.day) * 1440 + v)
  {
    hide DayNumber, Civil, Weekday;
    var day := DayNumber(c.year, c.month, c.day);
    DateRoundTrip(c);
    MinuteFields(day, v);
  }

  /** Every month contains every weekday, within its first seven days. */
  lemma WeekdayInMonth(y: int, m: int, wd: int) returns (d: int)
    requires 1 <= m <= 12 && 0 <= wd < 7
    ensures 1 <= d <= 7 && Weekday(DayNumber(y, m, d)) == wd
  {
    d := DaysToWeekday(DayNumber(y, m, 1), wd);
    DayOffset(y, m, d);
  }

  lemma DaysToWeekday(first: int, wd: int) returns (d: int)
    requires 0 <= wd < 7
    ensures 1 <= d <= 7 && Weekday(first + d - 1) == wd
  {
    var gap := wd - Weekday(first);
    d := if gap < 0 then gap + 8 else gap + 1;
  }

  lemma YearlyDate(s: Schedule, y: int) returns (c: Date)
    requires Parsed(s) && EveryYear(s)
    ensures ValidDate(c) && c.year == y && c.month in s.month
    ensures DayAllowed(s.domStar, s.dowStar, c.day in s.dom, Weekday(DayNumber(c.year, c.month, c.day)) in s.dow)
  {
    if UsesWeekday(s) {
      var m :| m in s.month && 1 <= m <= 12;
      var wd :| wd in s.dow && wd < 7;
      var d := WeekdayInMonth(y, m, wd);
      c := Date(y, m, d);
    } else {
      var m, d :| m in s.month && 1 <= m <= 12 && d in s.dom && 1 <= d <= DaysIn(1, m);
      c := Date(y, m, d);
    }
  }

  // The window.

  lemma LimitDay(after: Instant)
    ensures var c := DateOf(DayOf(after.minute));
      DayOf(Limit(after).minute) == DayNumber(c.year + 5, c.month, c.day) && TimeOfDay(Limit(after).minute) == TimeOfDay(after.minute)
  {
    var c := DateOf(DayOf(after.minute));
    AddDateIs(DayOf(after.minute), c, 5, 0, 0);
    MinuteFields(Added(c, 5, 0, 0), TimeOfDay(after.minute));
  }

  /** The four years after the current one lie wholly inside the window. */
  lemma InsideWindow(after: Instant, c: Date, v: int)
    requires ValidDate(c) && 0 <= v < 1440
    requires var year := DateOf(DayOf(after.minute)).year; year < c.year < year + 5
    ensures var t := DayNumber(c.year, c.month, c.day) * 1440 + v; Later(t, after) && Before(t, Limit(after))
    ensures DayOf(after.minute) < DayNumber(c.year, c.month, c.day) < DayOf(Limit(after).minute)
  {
    var a := DateOf(DayOf(after.minute));
    LimitDay(after);
    YearsBetween(a, c);
    MinutesBetween(after.minute, DayNumber(c.year, c.month, c.day), v, Limit(after).minute);
  }

  lemma YearsBetween(a: Date, c: Date)
    requires ValidDate(a) && ValidDate(c) && a.year < c.year < a.year + 5
    ensures DayNumber(a.year, a.month, a.day) < DayNumber(c.year, c.month, c.day) < DayNumber(a.year + 5, a.month, a.day)
  {
    YearsApart(a, c);
    YearsApart(c, Date(a.year + 5, a.month, 1));
    DayOffset(a.year + 5, a.month, a.day);
  }

  lemma MinutesBetween(t: int, day: int, v: int, u: int)
    requires DayOf(t) < day < DayOf(u) && 0 <= v < 1440
    ensures t < day * 1440 + v < u
  {
  }

  /** A schedule with a date in every year always finds one. */
  lemma YearlyIsFound(s: Schedule, after: Instant, r: Option<int>)
    requires Parsed(s) && EveryYear(s) && IsNext(s, after, r)
    ensures r.Some?
  {
    var c := YearlyDate(s, DateOf(DayOf(after.minute)).year + 1);
    var v := SlotOf(s);
    MatchAt(s, c, v);
    InsideWindow(after, c, v);
  }

  /** Without a date in every year, only leap days match. */
  lemma OnlyLeapDays(s: Schedule, t: int)
    requires !EveryYear(s) && Matches(s, t)
    ensures LeapDayOnly(s)
    ensures var c := DateOf(DayOf(t)); Leap(c.year) && c == Date(c.year, 2, 29)
  {
    var c := DateOf(DayOf(t));
    assert c.month in s.month && c.day in s.dom;
    assert c.day > DaysIn(1, c.month);
  }

  /** Five years after a date is never a leap day, so the window never ends within one. */
  lemma LimitNotLeapDay(after: Instant, y: int)
    requires Leap(y)
    ensures DayOf(Limit(after).minute) != LeapDay(y)
  {
    LimitDay(after);
    FiveYearsOn(DateOf(DayOf(after.minute)), y);
  }

  lemma FiveYearsOn(c: Date, y: int)
    requires ValidDate(c) && Leap(y)
    ensures DayNumber(c.year + 5, c.month, c.day) != LeapDay(y)
  {
    var later := Date(c.year + 5, c.month, c.day);
    DateRoundTrip(Date(y, 2, 29));
    if ValidDate(later) {
      DateRoundTrip(later);
    } else {
      DateRoundTrip(Date(later.year, 3, 1));
      MonthStep(later.year, c.month, c.day);
    }
  }

  /** 29 February of an ordinary year counts on to 1 March. */
  lemma MonthStep(y: int, m: int, d: int)
    requires 1 <= m <= 12 && 1 <= d && !ValidDate(Date(y, m, d)) && d <= (if m == 2 then 29 else DaysIn(y, m))
    ensures DayNumber(y, m, d) == DayNumber(y, 3, 1)
  {
    assert m == 2 && d == 29 && !Leap(y);
    assert DaysBeforeMonth(y, 3) == DaysBeforeMonth(y, 2) + 28;
  }

  // What Next misses.

  lemma LeapDayMatch(s: Schedule, after: Instant, y: int)
    requires Parsed(s) && LeapDayOnly(s) && Usable(s, after, y)
    ensures exists t :: Later(t, after) && Before(t, Limit(after)) && Matches(s, t)
  {
    hide Matches, DayNumber, Civil, Limit, Weekday;
    var v: int;
    if DayOf(after.minute) == LeapDay(y) {
      var w: nat :| w < 1440 && TimeOfDay(after.minute) < w && w / 60 in s.hour && w % 60 in s.min;
      v := w;
    } else {
      v := SlotOf(s);
    }
    MatchAt(s, Date(y, 2, 29), v);
    MinuteFields(LeapDay(y), v);
    assert Matches(s, LeapDay(y) * 1440 + v);
  }

  lemma MatchIsUsable(s: Schedule, after: Instant, t: int)
    requires !EveryYear(s) && Matches(s, t) && Later(t, after) && Before(t, Limit(after))
    ensures LeapDayInWindow(s, after)
  {
    hide Matches, DayNumber, Civil, Limit;
    var c := DateOf(DayOf(t));
    OnlyLeapDays(s, t);
    LimitNotLeapDay(after, c.year);
    BetweenDays(after, t, Limit(after));
    YearInWindow(after, c);
    if DayOf(after.minute) == LeapDay(c.year) {
      SlotOfMatch(s, t);
      var v: nat := TimeOfDay(t);
      assert SlotAfter(s, TimeOfDay(after.minute));
    }
    assert Usable(s, after, c.year);
  }

  lemma SlotOfMatch(s: Schedule, t: int)
    requires Matches(s, t)
    ensures 0 <= TimeOfDay(t) < 1440 && TimeOfDay(t) / 60 in s.hour && TimeOfDay(t) % 60 in s.min
  {
    var v := TimeOfDay(t);
    TimeParts(DayOf(t), v / 60, v % 60);
    assert t == DayOf(t) * 1440 + v / 60 * 60 + v % 60;
  }

  lemma BetweenDays(after: Instant, t: int, limit: Instant)
    requires Later(t, after) && Before(t, limit)
    ensures DayOf(after.minute) <= DayOf(t) <= DayOf(limit.minute)
    ensures DayOf(after.minute) == DayOf(t) ==> TimeOfDay(after.minute) < TimeOfDay(t)
  {
  }

  lemma YearInWindow(after: Instant, c: Date)
    requires ValidDate(c) && DayOf(after.minute) <= DayNumber(c.year, c.month, c.day) <= DayOf(Limit(after).minute)
    requires c.month < 12
    ensures var year := DateOf(DayOf(after.minute)).year; year <= c.year <= year + 5
  {
    hide DayNumber, Civil, Limit, Weekday, AddDate;
    var a := DateOf(DayOf(after.minute));
    LimitDay(after);
    if c.year < a.year {
      YearsApart(c, a);
    } else if a.year + 5 < c.year {
      NotPastNextYear(a.year + 5, a.month, a.day, c);
    }
  }

  lemma NotPastNextYear(y: int, m: int, d: int, c: Date)
    requires 1 <= m <= 12 && 1 <= d <= 31 && (m == 2 ==> d <= 29) && (m != 2 ==> d <= DaysIn(y, m))
    requires ValidDate(c) && y < c.year
    ensures DayNumber(y, m, d) < DayNumber(c.year, c.month, c.day)
  {
    if ValidDate(Date(y, m, d)) {
      YearsApart(Date(y, m, d), c);
    } else {
      MonthStep(y, m, d);
      YearsApart(Date(y, 3, 1), c);
    }
  }

  /** Next answers "never" exactly when no date is possible at all, or 29 February is the only one and the
      window offers none. */
  lemma NoneIff(s: Schedule, after: Instant, r: Option<int>)
    requires Parsed(s) && IsNext(s, after, r)
    ensures r.None? <==> !EveryYear(s) && !(LeapDayOnly(s) && LeapDayInWindow(s, after))
  {
    if EveryYear(s) {
      YearlyIsFound(s, after, r);
    } else if LeapDayOnly(s) && LeapDayInWindow(s, after) {
      var year := DateOf(DayOf(after.minute)).year;
      var y :| year <= y <= year + 5 && Usable(s, after, y);
      LeapDayMatch(s, after, y);
    } else if r.Some? {
      OnlyLeapDays(s, r.value);
      MatchIsUsable(s, after, r.value);
    }
  }

  /** Whether any later minute matches depends on the fields alone. */
  lemma FiresAgainIff(s: Schedule, after: Instant)
    requires Parsed(s)
    ensures FiresAgain(s, after) <==> EveryYear(s) || LeapDayOnly(s)
  {
    hide Matches, DayNumber, Civil, Limit, Weekday;
    var a := DateOf(DayOf(after.minute));
    var v := SlotOf(s);
    if EveryYear(s) {
      var c := YearlyDate(s, a.year + 1);
      MatchAt(s, c, v);
      InsideWindow(after, c, v);
    } else if LeapDayOnly(s) {
      var y := 400 * (a.year / 400) + 400;
      var c := Date(y, 2, 29);
      YearsApart(a, c);
      MatchAt(s, c, v);
      DayIsLater(after.minute, LeapDay(y), v);
      assert Later(LeapDay(y) * 1440 + v, after);
    } else if FiresAgain(s, after) {
      var t :| Later(t, after) && Matches(s, t);
      OnlyLeapDays(s, t);
    }
  }

  lemma DayIsLater(t: int, day: int, v: int)
    requires DayOf(t) < day && 0 <= v
    ensures t < day * 1440 + v
  {
  }

  /** The documented promise, that "never" means never, fails exactly for leap-day schedules whose window
      holds no usable 29 February. */
  lemma NeverIsWrongIff(s: Schedule, after: Instant, r: Option<int>)
    requires Parsed(s) && IsNext(s, after, r)
    ensures r.None? && FiresAgain(s, after) <==> LeapDayOnly(s) && !LeapDayInWindow(s, after)
  {
    NoneIff(s, after, r);
    FiresAgainIff(s, after);
  }

  /** Such a window always contains a century year that is not a leap year. */
  lemma MissSpansCentury(s: Schedule, after: Instant)
    requires !LeapDayInWindow(s, after)
    ensures var year := DateOf(DayOf(after.minute)).year;
      exists c :: year < c <= year + 4 && SkippedCentury(c)
  {
    var year := DateOf(DayOf(after.minute)).year;
    var c := FourthYear(year);
    if Leap(c) {
      InsideWindow(after, Date(c, 2, 29), 0);
      assert Usable(s, after, c);
      assert false;
    }
    assert SkippedCentury(c);
  }

  predicate SkippedCentury(c: int) {
    c % 100 == 0 && c % 400 != 0
  }

  lemma FourthYear(year: int) returns (c: int)
    ensures year < c <= year + 4 && (Leap(c) || SkippedCentury(c))
  {
    c := 4 * (year / 4) + 4;
  }

  /** Around every skipped century such as 2100, a leap-day schedule asked at the start of 1 March four years
      before it answers "never", yet it runs again on 29 February four years after it. */
  lemma MissedLeapDay(s: Schedule, c: int)
    requires Parsed(s) && LeapDayOnly(s) && SkippedCentury(c)
    ensures IsNext(s, Instant(DayNumber(c - 4, 3, 1) * 1440, 0), None)
    ensures exists t :: Matches(s, t) && DayOf(t) == LeapDay(c + 4)
  {
    CenturyGap(c);
    NeverFrom(s, c - 4);
    LeapDayRuns(s, c + 4);
  }

  /** A leap-day schedule runs on every leap day. */
  lemma LeapDayRuns(s: Schedule, y: int)
    requires Parsed(s) && LeapDayOnly(s) && Leap(y)
    ensures exists t :: Matches(s, t) && DayOf(t) == LeapDay(y)
  {
    hide Matches, DayNumber, Civil, Weekday;
    var v := SlotOf(s);
    MatchAt(s, Date(y, 2, 29), v);
    MinuteFields(LeapDay(y), v);
    assert Matches(s, LeapDay(y) * 1440 + v);
  }

  lemma NeverFrom(s: Schedule, y: int)
    requires LeapDayOnly(s) && Leap(y) && forall z :: y < z <= y + 5 ==> !Leap(z)
    ensures IsNext(s, Instant(DayNumber(y, 3, 1) * 1440, 0), None)
  {
    var after := Instant(DayNumber(y, 3, 1) * 1440, 0);
    MinuteFields(DayNumber(y, 3, 1), 0);
    DateRoundTrip(Date(y, 3, 1));
    EmptyWindow(s, after, y);
    forall t | Later(t, after) && Before(t, Limit(after))
      ensures !Matches(s, t)
    {
      if Matches(s, t) {
        MatchIsUsable(s, after, t);
      }
    }
  }

  /** "0 0 29 2 *" is such a schedule. */
  const LEAP_MIDNIGHT := Schedule({0}, {0}, {29}, {2}, {0, 1, 2, 3, 4, 5, 6, 7}, false, true)

  lemma LeapMidnight()
    ensures Parsed(LEAP_MIDNIGHT) && LeapDayOnly(LEAP_MIDNIGHT)
  {
    var s := LEAP_MIDNIGHT;
    assert 0 in s.min && 0 in s.hour && 29 in s.dom && 2 in s.month && 0 in s.dow;
    assert DaysIn(1, 2) == 28;
  }

  /** Asked at the start of 1 March 2096 it is told "never", yet it runs on 29 February 2104. */
  lemma LeapMidnight2100()
    ensures IsNext(LEAP_MIDNIGHT, Instant(DayNumber(2096, 3, 1) * 1440, 0), None)
    ensures Matches(LEAP_MIDNIGHT, DayNumber(2104, 2, 29) * 1440)
  {
    hide DayNumber, Civil, Weekday, IsNext, Matches, Parsed, LeapDayOnly;
    LeapMidnight();
    MissedLeapDay(LEAP_MIDNIGHT, 2100);
    assert 0 / 60 in LEAP_MIDNIGHT.hour && 0 % 60 in LEAP_MIDNIGHT.min;
    MatchAt(LEAP_MIDNIGHT, Date(2104, 2, 29), 0);
  }

  lemma EmptyWindow(s: Schedule, after: Instant, y: int)
    requires DateOf(DayOf(after.minute)) == Date(y, 3, 1)
    requires Leap(y) && forall z :: y < z <= y + 5 ==> !Leap(z)
    ensures !LeapDayInWindow(s, after)
  {
    LeapDayGone(y);
    forall z | y <= z <= y + 5
      ensures !Usable(s, after, z)
    {
    }
  }

  lemma CenturyGap(c: int)
    requires SkippedCentury(c)
    ensures Leap(c - 4) && Leap(c + 4)
    ensures forall y :: c - 4 < y < c + 4 ==> !Leap(y)
  {
    var q := c / 100;
    forall y | c - 4 <= y <= c + 4
      ensures Leap(y) <==> y == c - 4 || y == c + 4
    {
      if y != c {
        NearCentury(q, y - c);
      }
    }
  }

  lemma ModFour(a: int, r: int)
    requires 0 <= r < 4
    ensures (4 * a + r) % 4 == r
  {
  }

  lemma ModHundred(a: int, r: int)
    requires 0 <= r < 100
    ensures (100 * a + r) % 100 == r
  {
  }

  /** Near a century a year is a leap year when it is a multiple of four. */
  lemma NearCentury(q: int, k: int)
    requires -4 <= k <= 4 && k != 0
    ensures Leap(100 * q + k) <==> k == -4 || k == 4
  {
    var y := 100 * q + k;
    ModFour(25 * q + (if k < 0 then -1 else if k < 4 then 0 else 1), if k < 0 then k + 4 else if k < 4 then k else 0);
    ModHundred(if k < 0 then q - 1 else q, if k < 0 then k + 100 else k);
  }

  lemma LeapDayGone(y: int)
    requires Leap(y)
    ensures LeapDay(y) < DayNumber(y, 3, 1)
  {
  }
}
