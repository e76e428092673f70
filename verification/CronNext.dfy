/** exprSchedule.Next: the search that jumps by month, day, hour and minute, against its specification,
    the least matching minute. Times are whole minutes since 1 January of year 1 at a fixed whole-minute
    offset, plus the part of the minute already gone. */
module CronNext {
  import opened Common
  import opened Masks
  import opened Calendar

  /** exprSchedule: the allowed values of each field, and whether the two day fields are "*". */
  datatype Schedule = Schedule(min: Mask, hour: Mask, dom: Mask, month: Mask, dow: Mask, domStar: bool, dowStar: bool)

  /** `nanos` is the part of the minute already gone. */
  datatype Instant = Instant(minute: int, nanos: nat)

  function DayOf(t: int): int {
    t / 1440
  }

  function TimeOfDay(t: int): int {
    t % 1440
  }

  function HourOf(t: int): (h: nat)
    ensures h < 24
  {
    TimeOfDay(t) / 60
  }

  function MinuteOf(t: int): (m: nat)
    ensures m < 60
  {
    t % 60
  }

  /** The date of a day, with its fields in their ranges. */
  function DateOf(day: int): (c: Date)
    ensures c == Civil(day) && ValidDate(c) && DayNumber(c.year, c.month, c.day) == day
    ensures 1 <= c.day <= 31
  {
    CivilRoundTrip(day);
    Civil(day)
  }

  /** The rule for the two day fields: when both are restricted, either may match. */
  predicate DayAllowed(domStar: bool, dowStar: bool, domOk: bool, dowOk: bool) {
    if domStar && dowStar then true
    else if domStar then dowOk
    else if dowStar then domOk
    else domOk || dowOk
  }

  predicate DayMatches(s: Schedule, day: int) {
    DayAllowed(s.domStar, s.dowStar, DateOf(day).day in s.dom, Weekday(day) in s.dow)
  }

  predicate Matches(s: Schedule, t: int) {
    && DateOf(DayOf(t)).month in s.month
    && DayMatches(s, DayOf(t))
    && HourOf(t) in s.hour
    && MinuteOf(t) in s.min
  }

  /** after.AddDate(5, 0, 0). */
  function Limit(after: Instant): Instant {
    Instant(AddDate(DayOf(after.minute), 5, 0, 0) * 1440 + TimeOfDay(after.minute), after.nanos)
  }

  /** A whole minute before an instant. */
  predicate Before(t: int, limit: Instant) {
    t < limit.minute || (t == limit.minute && 0 < limit.nanos)
  }

  /** A whole minute strictly after an instant. */
  predicate Later(t: int, after: Instant) {
    after.minute < t
  }

  /** The least matching minute of the window, if there is one. */
  ghost predicate IsNext(s: Schedule, after: Instant, r: Option<int>) {
    IsLeast(s, after, Limit(after), r)
  }

  ghost predicate IsLeast(s: Schedule, after: Instant, limit: Instant, r: Option<int>) {
    match r
    case None => forall t :: Later(t, after) && Before(t, limit) ==> !Matches(s, t)
    case Some(t) =>
      && Later(t, after) && Before(t, limit) && Matches(s, t)
      && forall u :: Later(u, after) && u < t ==> !Matches(s, u)
  }

  /** The specification has one answer. */
  lemma NextUnique(s: Schedule, after: Instant, r: Option<int>, q: Option<int>)
    requires IsNext(s, after, r) && IsNext(s, after, q)
    ensures r == q
  {
    LeastUnique(s, after, Limit(after), r, q);
  }

  lemma LeastUnique(s: Schedule, after: Instant, limit: Instant, r: Option<int>, q: Option<int>)
    requires IsLeast(s, after, limit, r) && IsLeast(s, after, limit, q)
    ensures r == q
  {
    if r.Some? && q.Some? {
      assert !(r.value < q.value) && !(q.value < r.value);
    }
  }

  // What the jumps pass over.

  /** No minute from `from` up to but excluding `to` matches. */
  ghost predicate Quiet(s: Schedule, from: int, upto: int)
    decreases upto - from
  {
    from >= upto || (!Matches(s, from) && Quiet(s, from + 1, upto))
  }

  lemma QuietEmpty(s: Schedule, from: int)
    ensures Quiet(s, from, from)
  {
  }

  lemma {:induction false} QuietAt(s: Schedule, from: int, upto: int, u: int)
    requires Quiet(s, from, upto) && from <= u < upto
    ensures !Matches(s, u)
    decreases upto - from
  {
    if from == u {
      assert !Matches(s, from);
    } else {
      QuietAt(s, from + 1, upto, u);
    }
  }

  lemma {:induction false} QuietIfNone(s: Schedule, from: int, upto: int)
    requires forall u :: from <= u < upto ==> !Matches(s, u)
    ensures Quiet(s, from, upto)
    decreases upto - from
  {
    if from < upto {
      QuietIfNone(s, from + 1, upto);
    }
  }

  lemma QuietMeans(s: Schedule, from: int, upto: int)
    requires Quiet(s, from, upto)
    ensures forall u :: from <= u < upto ==> !Matches(s, u)
  {
    forall u | from <= u < upto
      ensures !Matches(s, u)
    {
      QuietAt(s, from, upto, u);
    }
  }

  lemma {:induction false} QuietJoin(s: Schedule, from: int, mid: int, upto: int)
    requires from <= mid && Quiet(s, from, mid) && Quiet(s, mid, upto)
    ensures Quiet(s, from, upto)
    decreases mid - from
  {
    if from < mid {
      QuietJoin(s, from + 1, mid, upto);
    }
  }

  function MonthStart(t: int): int {
    var c := DateOf(DayOf(t));
    DayNumber(c.year, c.month, 1)
  }

  /** Lines 193-197: to midnight of the first day of the next month. */
  function NextMonthStart(t: int): int {
    AddDate(MonthStart(t), 0, 1, 0) * 1440
  }

  function NextDayStart(t: int): int {
    AddDate(DayOf(t), 0, 0, 1) * 1440
  }

  function NextHourStart(t: int): int {
    DayOf(t) * 1440 + HourOf(t) * 60 + 60
  }

  lemma SameMonth(t: int, u: int)
    requires t <= u < NextMonthStart(t)
    ensures DateOf(DayOf(u)).month == DateOf(DayOf(t)).month
  {
    var c := DateOf(DayOf(t));
    NextMonth(c.year, c.month);
    DayOffset(c.year, c.month, c.day);
    MonthDays(c.year, c.month, DayOf(u));
  }

  lemma MonthJump(s: Schedule, t: int)
    requires DateOf(DayOf(t)).month !in s.month
    ensures t < NextMonthStart(t) && Quiet(s, t, NextMonthStart(t))
  {
    var c := DateOf(DayOf(t));
    NextMonth(c.year, c.month);
    DayOffset(c.year, c.month, c.day);
    forall u | t <= u < NextMonthStart(t)
      ensures !Matches(s, u)
    {
      SameMonth(t, u);
    }
    QuietIfNone(s, t, NextMonthStart(t));
  }

  lemma SameDay(t: int, u: int)
    requires t <= u < (DayOf(t) + 1) * 1440
    ensures DayOf(u) == DayOf(t)
  {
  }

  lemma DayJump(s: Schedule, t: int)
    requires !DayMatches(s, DayOf(t))
    ensures t < NextDayStart(t) && Quiet(s, t, NextDayStart(t))
  {
    NextDay(DayOf(t));
    forall u | t <= u < NextDayStart(t)
      ensures !Matches(s, u)
    {
      SameDay(t, u);
    }
    QuietIfNone(s, t, NextDayStart(t));
  }

  /** The fields of a minute of a day. */
  lemma TimeParts(day: int, h: int, m: int)
    requires 0 <= h < 24 && 0 <= m < 60
    ensures var t := day * 1440 + h * 60 + m; DayOf(t) == day && HourOf(t) == h && MinuteOf(t) == m
  {
    var t := day * 1440 + h * 60 + m;
    assert DayOf(t) == day && TimeOfDay(t) == h * 60 + m;
    assert t == 60 * (24 * day + h) + m;
  }

  lemma SameHour(t: int, u: int)
    requires t <= u < NextHourStart(t)
    ensures HourOf(u) == HourOf(t)
  {
    TimeParts(DayOf(t), HourOf(t), u - DayOf(t) * 1440 - HourOf(t) * 60);
  }

  lemma HourJump(s: Schedule, t: int)
    requires HourOf(t) !in s.hour
    ensures t < NextHourStart(t) && Quiet(s, t, NextHourStart(t))
  {
    forall u | t <= u < NextHourStart(t)
      ensures !Matches(s, u)
    {
      SameHour(t, u);
    }
    QuietIfNone(s, t, NextHourStart(t));
  }

  /** The four tests of the loop, and where each failure leads. */
  function Jump(s: Schedule, t: int): Option<int> {
    if DateOf(DayOf(t)).month !in s.month then Some(NextMonthStart(t))
    else if !DayMatches(s, DayOf(t)) then Some(NextDayStart(t))
    else if HourOf(t) !in s.hour then Some(NextHourStart(t))
    else if MinuteOf(t) !in s.min then Some(t + 1)
    else None
  }

  lemma JumpIsQuiet(s: Schedule, t: int)
    ensures Jump(s, t).None? <==> Matches(s, t)
    ensures Jump(s, t).Some? ==> t < Jump(s, t).value && Quiet(s, t, Jump(s, t).value)
  {
    if DateOf(DayOf(t)).month !in s.month {
      MonthJump(s, t);
    } else if !DayMatches(s, DayOf(t)) {
      DayJump(s, t);
    } else if HourOf(t) !in s.hour {
      HourJump(s, t);
    } else if MinuteOf(t) !in s.min {
      assert Quiet(s, t + 1, t + 1);
    }
  }

  lemma Advance(s: Schedule, from: int, t: int, next: int)
    requires from <= t && Quiet(s, from, t) && Jump(s, t) == Some(next)
    ensures t < next && Quiet(s, from, next)
  {
    JumpIsQuiet(s, t);
    QuietJoin(s, from, t, next);
  }

  lemma Found(s: Schedule, after: Instant, limit: Instant, t: int)
    requires after.minute < t && Before(t, limit) && Quiet(s, after.minute + 1, t) && Jump(s, t) == None
    ensures IsLeast(s, after, limit, Some(t))
  {
    JumpIsQuiet(s, t);
    QuietMeans(s, after.minute + 1, t);
  }

  lemma NotFound(s: Schedule, after: Instant, limit: Instant, t: int)
    requires !Before(t, limit) && Quiet(s, after.minute + 1, t)
    ensures IsLeast(s, after, limit, None)
  {
    QuietMeans(s, after.minute + 1, t);
  }

  /** The jumps lose nothing: the search returns the least matching minute of the window. */
  method Next(s: Schedule, after: Instant) returns (r: Option<int>)
    ensures IsNext(s, after, r)
  {
    var t := after.minute + 1;
    var limit := Limit(after);
    ghost var from := t;
    QuietEmpty(s, t);
    while Before(t, limit)
      invariant from <= t && Quiet(s, from, t)
      decreases limit.minute + 1 - t
    {
      if DateOf(DayOf(t)).month !in s.month {
        Advance(s, from, t, NextMonthStart(t));
        t := NextMonthStart(t);
      } else if !DayMatches(s, DayOf(t)) {
        Advance(s, from, t, NextDayStart(t));
        t := NextDayStart(t);
      } else if HourOf(t) !in s.hour {
        Advance(s, from, t, NextHourStart(t));
        t := NextHourStart(t);
      } else if MinuteOf(t) !in s.min {
        Advance(s, from, t, t + 1);
        t := t + 1;
      } else {
        Found(s, after, limit, t);
        return Some(t);
      }
    }
    NotFound(s, after, limit, t);
    return None;
  }
}
