/** A cron schedule's next time: the jumping search of `next_after` against the
    minute-by-minute one (kelso/lib/cronexpr.py). */
module CronSearch {
  import opened Wrappers
  import opened Calendar

  datatype CronSchedule = CronSchedule(
    minutes: set<int>, hours: set<int>, days: set<int>, months: set<int>, weekdays: set<int>,
    anyDay: bool, anyWeekday: bool)

  /** What parsing yields: every field non-empty and in its range. */
  predicate WellFormed(s: CronSchedule) {
    && InRange(s.minutes, 0, 59) && InRange(s.hours, 0, 23) && InRange(s.days, 1, 31)
    && InRange(s.months, 1, 12) && InRange(s.weekdays, 0, 6)
  }

  predicate InRange(xs: set<int>, low: int, high: int) {
    xs != {} && forall x :: x in xs ==> low <= x <= high
  }

  const SEARCH_DAYS: int := 1830

  /** Where a search that starts at minute `start` gives up. */
  function Horizon(start: nat): nat { start + SEARCH_DAYS * DAY }

  /** _day_matches: with both day fields restricted, either one is enough. */
  predicate DayMatches(s: CronSchedule, d: Date, weekday: int) {
    if s.anyDay && s.anyWeekday then true
    else if s.anyDay then weekday in s.weekdays
    else if s.anyWeekday then d.day in s.days
    else d.day in s.days || weekday in s.weekdays
  }

  /** Whether some minute of day `n` is scheduled. */
  predicate DayFits(s: CronSchedule, n: nat) {
    DateOf(n).month in s.months && DayMatches(s, DateOf(n), CronWeekday(n))
  }

  /** Whether minute `n` is scheduled. */
  predicate Fits(s: CronSchedule, n: nat) {
    DayFits(s, n / DAY) && n % DAY / 60 in s.hours && n % DAY % 60 in s.minutes
  }

  /** The minute-by-minute search, up to a limit. */
  function FirstFit(s: CronSchedule, start: nat, limit: nat): (r: Option<nat>)
    ensures r.Some? ==> start <= r.value < limit && Fits(s, r.value)
    ensures r.Some? ==> forall n: nat :: start <= n < r.value ==> !Fits(s, n)
    ensures r == None ==> forall n: nat :: start <= n < limit ==> !Fits(s, n)
    decreases limit - start
  {
    if start >= limit then None
    else if Fits(s, start) then Some(start)
    else FirstFit(s, start + 1, limit)
  }

  /** The first scheduled minute after minute `a`, if one comes within the horizon. */
  function FirstAfter(s: CronSchedule, a: nat): Option<nat> {
    FirstFit(s, a + 1, Horizon(a + 1))
  }

  // --- each jump passes over minutes that do not fit ----------------------------------------

  /** datetime.replace(day=1). */
  function FirstOfMonth(t: DateTime): DateTime { t.(date := t.date.(day := 1)) }

  function AtMidnight(t: DateTime): DateTime { t.(hour := 0, minute := 0) }

  /** Nothing in [from, to) fits. */
  ghost predicate Skippable(s: CronSchedule, from: nat, to: nat) {
    forall n: nat :: from <= n < to ==> !Fits(s, n)
  }

  lemma MinutesSplit(t: DateTime)
    requires ValidTime(t)
    ensures DayNumber(t.date) >= 0
    ensures Minutes(t) / DAY == DayNumber(t.date) && Minutes(t) % DAY / 60 == t.hour && Minutes(t) % DAY % 60 == t.minute
  {
    DateOfNumber(t.date);
    SplitMinutes(DayNumber(t.date), t.hour, t.minute);
  }

  /** Where the month jump lands. */
  function NextMonth(t: DateTime): DateTime
    requires ValidTime(t)
  {
    AtMidnight(FirstOfMonth(PlusDays(FirstOfMonth(t), 32)))
  }

  /** From the first of a month, 32 days on is in the next month. */
  lemma ThirtyTwoDaysOn(first: Date)
    requires Valid(first) && first.day == 1
    ensures DayNumber(first) >= 0
    ensures var len := DaysIn(first.year, first.month);
            var next := NextDate(first.(day := len));
            && Valid(next) && next.day == 1
            && DayNumber(next) == DayNumber(first) + len
            && DateOf(DayNumber(first) + 32) == next.(day := 33 - len)
  {
    var len := DaysIn(first.year, first.month);
    var last := first.(day := len);
    WithinMonth(first, len - 1);
    NextDayNumber(last);
    WithinMonth(NextDate(last), 32 - len);
  }

  lemma NextMonthNumber(t: DateTime)
    requires ValidTime(t)
    ensures ValidTime(NextMonth(t))
    ensures var first := t.date.(day := 1);
            && DayNumber(first) >= 0
            && DayNumber(NextMonth(t).date) == DayNumber(first) + DaysIn(t.date.year, t.date.month)
            && NextMonth(t).hour == 0 && NextMonth(t).minute == 0
  {
    var first := t.date.(day := 1);
    ThirtyTwoDaysOn(first);
    MinutesSplit(FirstOfMonth(t));
    var m := Minutes(FirstOfMonth(t));
    assert (m + 32 * DAY) / DAY == m / DAY + 32;
  }

  /** A minute before the month's end is in the month. */
  lemma SameMonth(first: Date, n: nat)
    requires Valid(first) && first.day == 1 && DayNumber(first) >= 0
    requires DayNumber(first) <= n / DAY < DayNumber(first) + DaysIn(first.year, first.month)
    ensures DateOf(n / DAY).month == first.month
  {
    WithinMonth(first, n / DAY - DayNumber(first));
  }

  /** While the month does not fit, nothing up to the next month does. */
  lemma MonthJump(s: CronSchedule, t: DateTime)
    requires ValidTime(t) && t.date.month !in s.months
    ensures ValidTime(NextMonth(t)) && Minutes(t) < Minutes(NextMonth(t)) && Skippable(s, Minutes(t), Minutes(NextMonth(t)))
  {
    NextMonthNumber(t);
    MinutesSplit(t);
    var to := NextMonth(t);
    MinutesSplit(to);
    var first := t.date.(day := 1);
    WithinMonth(first, t.date.day - 1);
    NumberOfDate(DayNumber(first) + t.date.day - 1);
    var from, end := Minutes(t), Minutes(to);
    assert end == DayNumber(to.date) * DAY;
    forall n: nat | from <= n < end ensures !Fits(s, n) {
      assert DayNumber(first) <= n / DAY < DayNumber(to.date);
      SameMonth(first, n);
    }
  }

  /** Where the day jump lands. */
  function NextDay(t: DateTime): DateTime
    requires ValidTime(t)
  {
    AtMidnight(PlusDays(t, 1))
  }

  lemma NextDayMinutes(t: DateTime)
    requires ValidTime(t)
    ensures ValidTime(NextDay(t)) && Minutes(NextDay(t)) == (Minutes(t) / DAY + 1) * DAY
  {
    var day := (Minutes(t) + DAY) / DAY;
    assert day == Minutes(t) / DAY + 1;
    NumberOfDate(day);
    assert NextDay(t) == DateTime(DateOf(day), 0, 0);
  }

  /** While the day does not fit, nothing up to the next midnight does. */
  lemma DayJump(s: CronSchedule, t: DateTime)
    requires ValidTime(t) && !(t.date.month in s.months && DayMatches(s, t.date, CronWeekday(DayNumber(t.date))))
    ensures ValidTime(NextDay(t)) && Minutes(t) < Minutes(NextDay(t)) && Skippable(s, Minutes(t), Minutes(NextDay(t)))
  {
    NextDayMinutes(t);
    MinutesSplit(t);
    DateOfNumber(t.date);
    forall n: nat | Minutes(t) <= n < Minutes(NextDay(t)) ensures !Fits(s, n) {
      assert n / DAY == Minutes(t) / DAY;
    }
  }

  /** Where the hour jump lands. */
  function NextHour(t: DateTime): DateTime
    requires ValidTime(t)
  {
    PlusMinutes(t, 60).(minute := 0)
  }

  lemma HourOf(n: nat)
    ensures n / 60 == n / DAY * 24 + n % DAY / 60 && n % DAY % 60 == n - n / 60 * 60
  {
    var q, r := n / DAY, n % DAY;
    assert n == (q * 24 + r / 60) * 60 + r % 60;
  }

  lemma NextHourMinutes(t: DateTime)
    requires ValidTime(t)
    ensures ValidTime(NextHour(t)) && Minutes(NextHour(t)) == (Minutes(t) / 60 + 1) * 60
  {
    var n := Minutes(t) + 60;
    HourOf(n);
    MinutesAt(n);
    assert n / 60 == Minutes(t) / 60 + 1;
  }

  /** While the hour does not fit, nothing up to the next hour does. */
  lemma HourJump(s: CronSchedule, t: DateTime)
    requires ValidTime(t) && t.hour !in s.hours
    ensures ValidTime(NextHour(t)) && Minutes(t) < Minutes(NextHour(t)) && Skippable(s, Minutes(t), Minutes(NextHour(t)))
  {
    NextHourMinutes(t);
    MinutesSplit(t);
    HourOf(Minutes(t));
    forall n: nat | Minutes(t) <= n < Minutes(NextHour(t)) ensures !Fits(s, n) {
      HourOf(n);
      assert n / 60 == Minutes(t) / 60;
      assert n % DAY / 60 == t.hour by { SameHour(n, Minutes(t)); }
    }
  }

  lemma SameHour(a: nat, b: nat)
    requires a / 60 == b / 60
    ensures a % DAY / 60 == b % DAY / 60
  {
    HourOf(a);
    HourOf(b);
    assert a / DAY == a / 60 / 24 && b / DAY == b / 60 / 24;
  }

  lemma FitsHere(s: CronSchedule, t: DateTime)
    requires ValidTime(t)
    ensures Fits(s, Minutes(t)) <==>
            && t.date.month in s.months && DayMatches(s, t.date, CronWeekday(DayNumber(t.date)))
            && t.hour in s.hours && t.minute in s.minutes
  {
    MinutesSplit(t);
    DateOfNumber(t.date);
  }

  lemma SkipOn(s: CronSchedule, a: nat, b: nat, c: nat)
    requires Skippable(s, a, b) && Skippable(s, b, c)
    ensures Skippable(s, a, c)
  {
  }

  lemma MinuteStep(s: CronSchedule, t: DateTime)
    requires ValidTime(t) && t.minute !in s.minutes
    ensures Minutes(PlusMinutes(t, 1)) == Minutes(t) + 1 && Skippable(s, Minutes(t), Minutes(t) + 1)
  {
    FitsHere(s, t);
    MinutesAt(Minutes(t) + 1);
  }

  /** The loop of next_after: the first scheduled minute from `start` on, up to a limit. */
  method Search(s: CronSchedule, start: DateTime, limit: nat) returns (r: Option<DateTime>)
    requires ValidTime(start)
    ensures r.Some? ==>
              && ValidTime(r.value) && Minutes(start) <= Minutes(r.value) < limit
              && Fits(s, Minutes(r.value)) && Skippable(s, Minutes(start), Minutes(r.value))
    ensures r == None ==> Skippable(s, Minutes(start), limit)
  {
    var at := start;
    while Minutes(at) < limit
      invariant ValidTime(at) && Minutes(start) <= Minutes(at) && Skippable(s, Minutes(start), Minutes(at))
      decreases limit - Minutes(at)
    {
      ghost var was := Minutes(at);
      if at.date.month !in s.months {
        MonthJump(s, at);
        at := NextMonth(at);
      } else if !DayMatches(s, at.date, CronWeekday(DayNumber(at.date))) {
        DayJump(s, at);
        at := NextDay(at);
      } else if at.hour !in s.hours {
        HourJump(s, at);
        at := NextHour(at);
      } else if at.minute !in s.minutes {
        MinuteStep(s, at);
        at := PlusMinutes(at, 1);
      } else {
        FitsHere(s, at);
        return Some(at);
      }
      SkipOn(s, Minutes(start), was, Minutes(at));
    }
    return None;
  }

  /** The date is on a day of the month and a weekday that the schedule has; where it
      restricts both, either one is enough. */
  ghost predicate OnDay(s: CronSchedule, d: Date)
    requires Valid(d)
  {
    var inMonth := s.anyDay || d.day in s.days;
    var inWeek := s.anyWeekday || exists w :: 0 <= w <= 6 && w in s.weekdays && FallsOn(d, w);
    if s.anyDay || s.anyWeekday then inMonth && inWeek else inMonth || inWeek
  }

  /** The schedule has the time: its month, its day, its hour and its minute. */
  ghost predicate Scheduled(s: CronSchedule, t: DateTime)
    requires ValidTime(t)
  {
    t.date.month in s.months && OnDay(s, t.date) && t.hour in s.hours && t.minute in s.minutes
  }

  lemma DayMatchesMeans(s: CronSchedule, d: Date)
    requires Valid(d)
    ensures DayMatches(s, d, CronWeekday(DayNumber(d))) <==> OnDay(s, d)
  {
    var w := CronWeekday(DayNumber(d));
    WeekdayMeans(d, w);
    forall v | 0 <= v <= 6 && FallsOn(d, v) ensures v == w {
      WeekdayMeans(d, v);
    }
  }

  /** A minute fits exactly when the schedule has its date and time. */
  lemma FitsMeans(s: CronSchedule, t: DateTime)
    requires ValidTime(t)
    ensures Fits(s, Minutes(t)) <==> Scheduled(s, t)
  {
    FitsHere(s, t);
    DayMatchesMeans(s, t.date);
  }

  /** The least of something is what the search one by one finds. */
  lemma FirstFitIs(s: CronSchedule, start: nat, limit: nat, r: Option<nat>)
    requires r.Some? ==> start <= r.value < limit && Fits(s, r.value) && Skippable(s, start, r.value)
    requires r == None ==> Skippable(s, start, limit)
    ensures FirstFit(s, start, limit) == r
  {
  }

  /** Minute `n` begins strictly after the instant `micros` past minute `a`. */
  predicate Later(n: nat, a: nat, micros: nat) {
    n * 60_000_000 > a * 60_000_000 + micros
  }

  lemma LaterMeans(s: CronSchedule, a: nat, micros: nat, m: nat)
    requires micros < 60_000_000 && Skippable(s, a + 1, m)
    ensures forall n: nat :: Later(n, a, micros) && Fits(s, n) ==> m <= n
    ensures a < m ==> Later(m, a, micros)
  {
    forall n: nat | Later(n, a, micros) && Fits(s, n) ensures m <= n {
      assert a < n;
    }
  }

  /** What the loop finds from the minute after `a` on is what next_after is to find. */
  lemma NextIs(s: CronSchedule, a: nat, micros: nat, limit: nat, r: Option<nat>)
    requires micros < 60_000_000
    requires r.Some? ==> a < r.value < limit && Fits(s, r.value) && Skippable(s, a + 1, r.value)
    requires r == None ==> Skippable(s, a + 1, limit)
    ensures FirstFit(s, a + 1, limit) == r
    ensures r.Some? ==> Later(r.value, a, micros) && forall n: nat :: Later(n, a, micros) && Fits(s, n) ==> r.value <= n
    ensures r == None <==> Skippable(s, a + 1, limit)
  {
    FirstFitIs(s, a + 1, limit, r);
    if r.Some? {
      LaterMeans(s, a, micros, r.value);
    }
  }

  /** It is the first time that the schedule has. */
  lemma NextIsScheduled(s: CronSchedule, after: DateTime, micros: nat, r: Option<DateTime>)
    requires ValidTime(after) && micros < 60_000_000
    requires r.Some? ==> ValidTime(r.value) && Fits(s, Minutes(r.value))
    requires r.Some? ==> forall n: nat :: Later(n, Minutes(after), micros) && Fits(s, n) ==> Minutes(r.value) <= n
    requires r == None ==> Skippable(s, Minutes(after) + 1, Horizon(Minutes(after) + 1))
    ensures r.Some? ==> Scheduled(s, r.value)
    ensures forall t :: ValidTime(t) && Scheduled(s, t) && Later(Minutes(t), Minutes(after), micros) ==>
              if r.Some? then Minutes(r.value) <= Minutes(t) else Minutes(after) + 1830 * DAY < Minutes(t)
  {
    if r.Some? {
      FitsMeans(s, r.value);
    }
    forall t | ValidTime(t) && Scheduled(s, t) && Later(Minutes(t), Minutes(after), micros)
      ensures if r.Some? then Minutes(r.value) <= Minutes(t) else Minutes(after) + 1830 * DAY < Minutes(t)
    {
      FitsMeans(s, t);
      LaterIsAfter(Minutes(t), Minutes(after), micros);
    }
  }

  lemma LaterIsAfter(n: nat, a: nat, micros: nat)
    requires Later(n, a, micros)
    ensures a + 1 <= n
  {
  }

  lemma SearchIsNext(s: CronSchedule, after: DateTime, micros: nat, start: nat, r: Option<DateTime>)
    requires ValidTime(after) && micros < 60_000_000 && start == Minutes(after) + 1
    requires r.Some? ==>
               && ValidTime(r.value) && start <= Minutes(r.value) < Horizon(start)
               && Fits(s, Minutes(r.value)) && Skippable(s, start, Minutes(r.value))
    requires r == None ==> Skippable(s, start, Horizon(start))
    ensures r.Some? ==> Later(Minutes(r.value), Minutes(after), micros) && Minutes(r.value) <= Minutes(after) + 1830 * DAY
    ensures r.Some? ==> forall n: nat :: Later(n, Minutes(after), micros) && Fits(s, n) ==> Minutes(r.value) <= n
    ensures FirstAfter(s, Minutes(after)) == if r.Some? then Some(Minutes(r.value)) else None
    ensures r == None <==> Skippable(s, Minutes(after) + 1, Horizon(Minutes(after) + 1))
    ensures r.Some? ==> Scheduled(s, r.value)
    ensures forall t :: ValidTime(t) && Scheduled(s, t) && Later(Minutes(t), Minutes(after), micros) ==>
              if r.Some? then Minutes(r.value) <= Minutes(t) else Minutes(after) + 1830 * DAY < Minutes(t)
  {
    NextIs(s, Minutes(after), micros, Horizon(start), if r.Some? then Some(Minutes(r.value)) else None);
    NextIsScheduled(s, after, micros, r);
  }

  /** next_after: the first scheduled minute strictly after an instant `micros` past
      the minute `after`, or none (a ValueError). The four jumps find what the
      minute-by-minute search finds, over the 1830 days that follow. */
  method NextAfter(s: CronSchedule, after: DateTime, micros: nat) returns (r: Option<DateTime>)
    requires ValidTime(after) && micros < 60_000_000
    ensures r.Some? ==> ValidTime(r.value) && Fits(s, Minutes(r.value)) && Later(Minutes(r.value), Minutes(after), micros)
    ensures r.Some? ==> Minutes(r.value) <= Minutes(after) + 1830 * DAY
    ensures r.Some? ==> forall n: nat :: Later(n, Minutes(after), micros) && Fits(s, n) ==> Minutes(r.value) <= n
    ensures FirstAfter(s, Minutes(after)) == if r.Some? then Some(Minutes(r.value)) else None
    ensures r == None <==> Skippable(s, Minutes(after) + 1, Horizon(Minutes(after) + 1))
    ensures r.Some? ==> Scheduled(s, r.value)
    ensures forall t :: ValidTime(t) && Scheduled(s, t) && Later(Minutes(t), Minutes(after), micros) ==>
              if r.Some? then Minutes(r.value) <= Minutes(t) else Minutes(after) + 1830 * DAY < Minutes(t)
  {
    var at := PlusMinutes(after, 1);
    MinutesAt(Minutes(after) + 1);
    r := Search(s, at, Horizon(Minutes(at)));
    SearchIsNext(s, after, micros, Minutes(at), r);
  }
}
