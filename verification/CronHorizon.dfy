/** When the search's 1830 days are enough (kelso/lib/cronexpr.py, kelso/lib/manifest.py). */
module CronHorizon {
  import opened Wrappers
  import opened Calendar
  import opened CronSearch

  lemma Member(xs: set<int>, low: int, high: int) returns (x: int)
    requires InRange(xs, low, high)
    ensures x in xs && low <= x <= high
  {
    assert exists y :: y in xs by {
      if forall y :: y !in xs { assert false; }
    }
    x :| x in xs;
  }

  /** Any of a schedule's times of day fits on a matching day. */
  lemma TimeFits(s: CronSchedule, n: nat, hour: int, minute: int)
    requires WellFormed(s) && DayFits(s, n) && hour in s.hours && minute in s.minutes
    ensures Fits(s, n * DAY + hour * 60 + minute)
  {
    SplitMinutes(n, hour, minute);
  }

  /** The first minute of a matching day on, some minute of it fits. */
  lemma FitInDay(s: CronSchedule, n: nat) returns (f: nat)
    requires WellFormed(s) && DayFits(s, n)
    ensures n * DAY <= f < (n + 1) * DAY && Fits(s, f)
  {
    var hour := Member(s.hours, 0, 23);
    var minute := Member(s.minutes, 0, 59);
    TimeFits(s, n, hour, minute);
    f := n * DAY + hour * 60 + minute;
  }

  /** From midnight of a matching day the search ends within that day. */
  lemma MatchingDayIsEnough(s: CronSchedule, n: nat)
    requires WellFormed(s) && DayFits(s, n)
    ensures FirstFit(s, n * DAY, Horizon(n * DAY)).Some?
    ensures FirstFit(s, n * DAY, Horizon(n * DAY)).value / DAY == n
  {
    var f := FitInDay(s, n);
    FoundBy(s, n * DAY, f);
  }

  /** A fit before the horizon is a bound on what is found. */
  lemma FoundBy(s: CronSchedule, start: nat, f: nat)
    requires start <= f < Horizon(start) && Fits(s, f)
    ensures FirstFit(s, start, Horizon(start)).Some? && start <= FirstFit(s, start, Horizon(start)).value <= f
  {
  }

  // --- what a schedule can match ------------------------------------------------------------

  /** Some day of every year matches. A restricted weekday always does, since two
      restricted day fields are alternatives. */
  predicate Yearly(s: CronSchedule) {
    !s.anyWeekday || s.anyDay || exists m, d :: m in s.months && d in s.days && d <= DaysIn(2001, m)
  }

  /** Only 29 February ever matches. */
  predicate LeapOnly(s: CronSchedule) {
    !Yearly(s) && 2 in s.months && 29 in s.days
  }

  lemma YearBounds(d: Date)
    requires Valid(d)
    ensures 0 <= DaysBeforeYear(d.year) <= DayNumber(d) < DaysBeforeYear(d.year + 1) <= DaysBeforeYear(d.year) + 366
  {
    YearLength(d.year);
    YearsAdd(d.year);
    MonthTable(d.year);
    MonthsAdd(d.year, d.month);
    MonthEnds(d.year, d.month);
  }

  lemma {:induction false} MonthEnds(y: int, m: int)
    requires 1 <= m <= 12
    ensures DaysBeforeMonth(y, m) + DaysIn(y, m) <= DaysBeforeMonth(y, 13)
    decreases 13 - m
  {
    assert DaysBeforeMonth(y, m + 1) == DaysBeforeMonth(y, m) + DaysIn(y, m);
    if m < 12 { MonthEnds(y, m + 1); }
  }

  lemma DaysUntil(n: int, w: int) returns (k: nat)
    requires 0 <= w <= 6
    ensures k <= 6 && CronWeekday(n + k) == w
  {
    k := (w - CronWeekday(n)) % 7;
    assert n + k + 1 == 7 * ((n + 1) / 7 + (if w >= CronWeekday(n) then 0 else 1)) + w;
  }

  /** The day of a month that falls on a weekday, within its first week. */
  lemma WeekdayInMonth(y: int, m: int, w: int) returns (d: Date)
    requires y >= 1 && 1 <= m <= 12 && 0 <= w <= 6
    ensures Valid(d) && d.year == y && d.month == m && CronWeekday(DayNumber(d)) == w
  {
    var first := Date(y, m, 1);
    var k := DaysUntil(DayNumber(first), w);
    d := Date(y, m, 1 + k);
    assert DayNumber(d) == DayNumber(first) + k;
  }

  lemma YearlyDay(s: CronSchedule, y: int) returns (d: Date)
    requires WellFormed(s) && Yearly(s) && y >= 1
    ensures Valid(d) && d.year == y && DayNumber(d) >= 0 && DayFits(s, DayNumber(d))
  {
    var m := Member(s.months, 1, 12);
    if !s.anyWeekday {
      var w := Member(s.weekdays, 0, 6);
      d := WeekdayInMonth(y, m, w);
    } else if s.anyDay {
      d := Date(y, m, 1);
    } else {
      var mm, dd :| mm in s.months && dd in s.days && dd <= DaysIn(2001, mm);
      d := Date(y, mm, dd);
    }
    DateOfNumber(d);
  }

  lemma DayWithin(s: CronSchedule, start: nat, n: nat)
    requires WellFormed(s) && DayFits(s, n) && start <= n * DAY && (n + 1) * DAY <= Horizon(start)
    ensures FirstFit(s, start, Horizon(start)).Some?
  {
    var f := FitInDay(s, n);
    FoundBy(s, start, f);
  }

  /** A schedule that some day of every year matches is always found in time. */
  lemma YearlyNeverRaises(s: CronSchedule, start: nat)
    requires WellFormed(s) && Yearly(s)
    ensures FirstFit(s, start, Horizon(start)).Some?
  {
    var today := DateOf(start / DAY);
    NumberOfDate(start / DAY);
    YearBounds(today);
    var d := YearlyDay(s, today.year + 1);
    YearBounds(d);
    DayWithin(s, start, DayNumber(d));
  }

  // --- 29 February ----------------------------------------------------------------------------

  /** The number of a leap year's 29 February. */
  function LeapDay(y: int): int
    requires y >= 1
  {
    DaysBeforeYear(y) + 59
  }

  lemma LeapDayNumber(y: int)
    requires y >= 1 && IsLeap(y)
    ensures DayNumber(Date(y, 2, 29)) == LeapDay(y)
  {
    assert DaysBeforeMonth(y, 1) == 0;
    assert DaysBeforeMonth(y, 2) == 31;
  }

  lemma LeapDayIs(y: int)
    requires y >= 1 && IsLeap(y)
    ensures LeapDay(y) >= 0 && DateOf(LeapDay(y)) == Date(y, 2, 29)
  {
    LeapDayNumber(y);
    DateOfNumber(Date(y, 2, 29));
  }

  /** A schedule only 29 February matches, matches all of them and no other day. */
  lemma LeapOnlyDays(s: CronSchedule, n: nat)
    requires WellFormed(s) && LeapOnly(s)
    ensures DayFits(s, n) <==> DateOf(n).month == 2 && DateOf(n).day == 29
  {
    var d := DateOf(n);
    if d.month in s.months && d.day in s.days {
      assert d.day > DaysIn(2001, d.month);
    }
  }

  /** Every fit of such a schedule is on a leap year's 29 February. */
  lemma LeapOnlyFits(s: CronSchedule, f: nat) returns (y: int)
    requires WellFormed(s) && LeapOnly(s) && Fits(s, f)
    ensures y >= 1 && IsLeap(y) && LeapDay(y) == f / DAY
  {
    LeapOnlyDays(s, f / DAY);
    NumberOfDate(f / DAY);
    y := DateOf(f / DAY).year;
    LeapDayNumber(y);
  }

  /** The minute of a leap year's 29 February at a time of day. */
  function LeapMinute(y: int, hour: int, minute: int): int
    requires y >= 1
  {
    LeapDay(y) * DAY + hour * 60 + minute
  }

  lemma LeapDayFits(s: CronSchedule, y: int)
    requires WellFormed(s) && LeapOnly(s) && y >= 1 && IsLeap(y)
    ensures LeapDay(y) >= 0 && DayFits(s, LeapDay(y))
  {
    LeapDayIs(y);
    LeapOnlyDays(s, LeapDay(y));
  }

  lemma LeapMinuteIs(y: int, hour: int, minute: int)
    requires y >= 1 && LeapDay(y) >= 0 && 0 <= hour && 0 <= minute
    ensures 0 <= LeapMinute(y, hour, minute) == LeapDay(y) * DAY + hour * 60 + minute
  {
  }

  lemma LeapMinuteFits(s: CronSchedule, y: int, hour: int, minute: int)
    requires WellFormed(s) && LeapOnly(s) && y >= 1 && IsLeap(y) && hour in s.hours && minute in s.minutes
    ensures LeapMinute(y, hour, minute) >= 0 && Fits(s, LeapMinute(y, hour, minute))
  {
    LeapDayFits(s, y);
    LeapMinuteIs(y, hour, minute);
    TimeFits(s, LeapDay(y), hour, minute);
  }

  /** Exactly when such a schedule raises, from any minute on: when none of its times on a
      29 February is among the minutes of the 1830 days that follow. */
  lemma LeapOnlyRaisesExactly(s: CronSchedule, start: nat)
    requires WellFormed(s) && LeapOnly(s)
    ensures FirstFit(s, start, Horizon(start)) == None <==>
            forall y, hour, minute :: y >= 1 && IsLeap(y) && hour in s.hours && minute in s.minutes ==>
              !(start <= LeapMinute(y, hour, minute) < Horizon(start))
  {
    forall y, hour, minute | y >= 1 && IsLeap(y) && hour in s.hours && minute in s.minutes
                             && start <= LeapMinute(y, hour, minute) < Horizon(start)
      ensures FirstFit(s, start, Horizon(start)).Some?
    {
      LeapMinuteFits(s, y, hour, minute);
    }
    if FirstFit(s, start, Horizon(start)).Some? {
      var f := FirstFit(s, start, Horizon(start)).value;
      var y := LeapOnlyFits(s, f);
      assert f == LeapMinute(y, f % DAY / 60, f % DAY % 60);
    }
  }

  // --- what validation accepts ----------------------------------------------------------------

  /** Manifest validation: the search from 2000-01-01 finds a time. */
  predicate Accepted(s: CronSchedule) {
    var start := Minutes(DateTime(Date(2000, 1, 1), 0, 0)) + 1;
    FirstFit(s, start, Horizon(start)).Some?
  }

  /** A schedule that is neither matches no day at all. */
  lemma HopelessNeverFits(s: CronSchedule, n: nat)
    requires WellFormed(s) && !Yearly(s) && !LeapOnly(s)
    ensures !DayFits(s, n)
  {
    var d := DateOf(n);
    if d.month in s.months && d.day <= DaysIn(2001, d.month) {
      assert d.day !in s.days;
    }
  }

  /** Validation accepts exactly the schedules that some date can match. */
  lemma AcceptedExactly(s: CronSchedule)
    requires WellFormed(s)
    ensures Accepted(s) <==> Yearly(s) || LeapOnly(s)
  {
    var t := DateTime(Date(2000, 1, 1), 0, 0);
    MinutesSplit(t);
    var start := Minutes(t) + 1;
    if Yearly(s) {
      YearlyNeverRaises(s, start);
    } else if LeapOnly(s) {
      LeapDayIs(2000);
      LeapOnlyDays(s, LeapDay(2000));
      MonthTable(2000);
      DayWithin(s, start, LeapDay(2000));
    } else if Accepted(s) {
      HopelessNeverFits(s, FirstFit(s, start, Horizon(start)).value / DAY);
    }
  }

  predicate Before(a: Date, b: Date) {
    a.year < b.year || (a.year == b.year && (a.month < b.month || (a.month == b.month && a.day < b.day)))
  }

  /** The next leap year's 29 February, of this century's. */
  function LeapYearFrom(d: Date): int {
    var y := d.year + (-d.year) % 4;
    if y == d.year && !Before(d, Date(y, 2, 29)) then y + 4 else y
  }

  lemma LeapYearFromIs(d: Date)
    requires Valid(d) && 2000 <= d.year && Before(d, Date(2096, 2, 29))
    ensures var y := LeapYearFrom(d);
            IsLeap(y) && d.year <= y <= d.year + 4 && (y == d.year ==> Before(d, Date(y, 2, 29)))
  {
    var y := LeapYearFrom(d);
    assert y % 4 == 0 && 2000 <= y <= 2096;
    assert y % 100 == 0 ==> y == 2000;
  }

  lemma BeforeLeapDay(d: Date)
    requires Valid(d) && Before(d, Date(d.year, 2, 29))
    ensures DayNumber(d) < LeapDay(d.year)
  {
    assert DaysBeforeMonth(d.year, 1) == 0;
    assert DaysBeforeMonth(d.year, 2) == 31;
  }

  /** The 29 February after a day of this century up to 2096-02-28. */
  lemma NextLeapDay(d: Date) returns (y: int)
    requires Valid(d) && 2000 <= d.year && Before(d, Date(2096, 2, 29))
    ensures IsLeap(y) && y >= 1 && DayNumber(d) < LeapDay(y) <= DayNumber(d) + 1523
  {
    y := LeapYearFrom(d);
    LeapYearFromIs(d);
    YearBounds(d);
    FourYears(d.year, y - d.year);
    if y == d.year {
      BeforeLeapDay(d);
    } else {
      FourYears(d.year + 1, y - d.year - 1);
    }
  }

  lemma FourYears(y: int, k: int)
    requires y >= 1 && 0 <= k <= 4
    ensures DaysBeforeYear(y) + 365 * k <= DaysBeforeYear(y + k) <= DaysBeforeYear(y) + 366 * k
    decreases k
  {
    if k > 0 {
      FourYears(y, k - 1);
      YearLength(y + k - 1);
    }
  }

  /** The horizon is enough: what validation accepts never raises for an instant from
      2000-01-01 through 2096-02-28. */
  lemma HorizonIsEnough(s: CronSchedule, after: DateTime)
    requires WellFormed(s) && Accepted(s)
    requires ValidTime(after) && 2000 <= after.date.year && Before(after.date, Date(2096, 2, 29))
    ensures FirstFit(s, Minutes(after) + 1, Horizon(Minutes(after) + 1)).Some?
  {
    AcceptedExactly(s);
    if Yearly(s) {
      YearlyNeverRaises(s, Minutes(after) + 1);
    } else {
      var y := NextLeapDay(after.date);
      LeapDayIs(y);
      LeapOnlyDays(s, LeapDay(y));
      DayWithin(s, Minutes(after) + 1, LeapDay(y));
    }
  }

  lemma {:induction false} YearsIncrease(a: int, b: int)
    requires 1 <= a <= b
    ensures DaysBeforeYear(a) + 365 * (b - a) <= DaysBeforeYear(b)
    decreases b - a
  {
    if a < b {
      YearsIncrease(a, b - 1);
      YearLength(b - 1);
    }
  }

  lemma NoLeapDayIn2100(y: int)
    requires y >= 1 && IsLeap(y)
    ensures !(LeapDay(2096) < LeapDay(y) <= LeapDay(2096) + SEARCH_DAYS)
  {
    if y <= 2096 {
      YearsIncrease(y, 2096);
    } else {
      assert y >= 2104;
      YearsIncrease(2104, y);
    }
  }

  lemma LeapMinutesAfter2096(start: nat, y: int, hour: int, minute: int)
    requires y >= 1 && IsLeap(y) && 0 <= hour < 24 && 0 <= minute < 60
    requires LeapDay(2096) * DAY <= start <= (LeapDay(2096) + 1) * DAY
    requires start <= LeapMinute(y, hour, minute) < Horizon(start)
    ensures y == 2096
  {
    NoLeapDayIn2100(y);
    if y != 2096 {
      OneLeapDay(y);
    }
  }

  lemma OneLeapDay(y: int)
    requires y >= 1 && y != 2096
    ensures LeapDay(y) != LeapDay(2096)
  {
    if y < 2096 { YearsIncrease(y, 2096); } else { YearsIncrease(2096, y); }
  }

  /** The bound is sharp: from a minute of 2096-02-29, or the end of that day, a schedule
      that matches only that date raises exactly when its last time on it has gone by, for
      2100 is no leap year. */
  lemma HorizonIsSharp(s: CronSchedule, start: nat)
    requires WellFormed(s) && LeapOnly(s)
    requires LeapDay(2096) * DAY <= start <= (LeapDay(2096) + 1) * DAY
    ensures FirstFit(s, start, Horizon(start)) == None <==>
            forall hour, minute :: hour in s.hours && minute in s.minutes ==> LeapMinute(2096, hour, minute) < start
  {
    LeapOnlyRaisesExactly(s, start);
    forall y, hour, minute | y >= 1 && IsLeap(y) && hour in s.hours && minute in s.minutes
                             && start <= LeapMinute(y, hour, minute) < Horizon(start)
      ensures y == 2096
    {
      LeapMinutesAfter2096(start, y, hour, minute);
    }
    assert forall hour, minute :: hour in s.hours && minute in s.minutes ==> LeapMinute(2096, hour, minute) < Horizon(start);
  }

  /** There is such a schedule: midnight on 29 February. */
  lemma LeapScheduleExists()
    ensures var s := CronSchedule({0}, {0}, {29}, {2}, {0, 1, 2, 3, 4, 5, 6}, false, true);
            WellFormed(s) && LeapOnly(s) && Accepted(s)
  {
    var s := CronSchedule({0}, {0}, {29}, {2}, {0, 1, 2, 3, 4, 5, 6}, false, true);
    AcceptedExactly(s);
  }
}
