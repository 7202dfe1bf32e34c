/** The proleptic Gregorian calendar, as Python's datetime keeps it: days numbered
    from 0001-01-01 and minutes numbered from its midnight. */
module Calendar {
  datatype Date = Date(year: int, month: int, day: int)

  predicate IsLeap(y: int) { y % 4 == 0 && (y % 100 != 0 || y % 400 == 0) }

  function DaysIn(y: int, m: int): int {
    if m == 2 then (if IsLeap(y) then 29 else 28)
    else if m == 4 || m == 6 || m == 9 || m == 11 then 30
    else 31
  }

  predicate Valid(d: Date) {
    1 <= d.year && 1 <= d.month <= 12 && 1 <= d.day <= DaysIn(d.year, d.month)
  }

  /** The day after. */
  function NextDate(d: Date): Date {
    if d.day < DaysIn(d.year, d.month) then d.(day := d.day + 1)
    else if d.month < 12 then Date(d.year, d.month + 1, 1)
    else Date(d.year + 1, 1, 1)
  }

  /** The date of a day: the calendar, counted out from the first one. */
  function DateOf(n: nat): (d: Date)
    ensures Valid(d)
  {
    if n == 0 then Date(1, 1, 1) else NextDate(DateOf(n - 1))
  }

  // --- the number of a date, in closed form -------------------------------------------

  function DaysBeforeYear(y: int): int
    requires y >= 1
  {
    (y - 1) * 365 + (y - 1) / 4 - (y - 1) / 100 + (y - 1) / 400
  }

  function DaysBeforeMonth(y: int, m: int): int
    requires 1 <= m <= 13
    decreases m
  {
    if m == 1 then 0 else DaysBeforeMonth(y, m - 1) + DaysIn(y, m - 1)
  }

  function DayNumber(d: Date): int
    requires Valid(d)
  {
    DaysBeforeYear(d.year) + DaysBeforeMonth(d.year, d.month) + d.day - 1
  }

  lemma YearLength(y: int)
    requires y >= 1
    ensures DaysBeforeYear(y + 1) == DaysBeforeYear(y) + (if IsLeap(y) then 366 else 365)
  {
    assert y / 4 == (y - 1) / 4 + (if y % 4 == 0 then 1 else 0);
    assert y / 100 == (y - 1) / 100 + (if y % 100 == 0 then 1 else 0);
    assert y / 400 == (y - 1) / 400 + (if y % 400 == 0 then 1 else 0);
  }

  lemma MonthTable(y: int)
    ensures DaysBeforeMonth(y, 2) == 31
    ensures DaysBeforeMonth(y, 3) == 31 + DaysIn(y, 2)
    ensures DaysBeforeMonth(y, 13) == if IsLeap(y) then 366 else 365
  {
    assert DaysBeforeMonth(y, 1) == 0;
    assert DaysBeforeMonth(y, 2) == 31;
    assert DaysBeforeMonth(y, 3) == 31 + DaysIn(y, 2);
    assert DaysBeforeMonth(y, 4) == DaysBeforeMonth(y, 3) + 31;
    assert DaysBeforeMonth(y, 5) == DaysBeforeMonth(y, 4) + 30;
    assert DaysBeforeMonth(y, 6) == DaysBeforeMonth(y, 5) + 31;
    assert DaysBeforeMonth(y, 7) == DaysBeforeMonth(y, 6) + 30;
    assert DaysBeforeMonth(y, 8) == DaysBeforeMonth(y, 7) + 31;
    assert DaysBeforeMonth(y, 9) == DaysBeforeMonth(y, 8) + 31;
    assert DaysBeforeMonth(y, 10) == DaysBeforeMonth(y, 9) + 30;
    assert DaysBeforeMonth(y, 11) == DaysBeforeMonth(y, 10) + 31;
    assert DaysBeforeMonth(y, 12) == DaysBeforeMonth(y, 11) + 30;
    assert DaysBeforeMonth(y, 13) == DaysBeforeMonth(y, 12) + 31;
  }

  lemma NextDayNumber(d: Date)
    requires Valid(d)
    ensures Valid(NextDate(d)) && DayNumber(NextDate(d)) == DayNumber(d) + 1
  {
    YearLength(d.year);
    MonthTable(d.year);
    assert DaysBeforeMonth(d.year, d.month + 1) == DaysBeforeMonth(d.year, d.month) + DaysIn(d.year, d.month);
    assert DaysBeforeMonth(d.year + 1, 1) == 0;
  }

  lemma {:induction false} YearsAdd(y: int)
    requires y >= 1
    ensures DaysBeforeYear(y) >= 365 * (y - 1)
  {
  }

  lemma {:induction false} MonthsAdd(y: int, m: int)
    requires 1 <= m <= 13
    ensures 28 * (m - 1) <= DaysBeforeMonth(y, m) <= 31 * (m - 1)
    decreases m
  {
    if m > 1 { MonthsAdd(y, m - 1); }
  }

  lemma DayNumberNat(d: Date)
    requires Valid(d)
    ensures DayNumber(d) >= 0
  {
    YearsAdd(d.year);
    MonthsAdd(d.year, d.month);
  }

  /** The day before. */
  function PrevDate(d: Date): Date {
    if d.day > 1 then d.(day := d.day - 1)
    else if d.month > 1 then Date(d.year, d.month - 1, DaysIn(d.year, d.month - 1))
    else Date(d.year - 1, 12, 31)
  }

  lemma {:induction false} NumberOfDate(n: nat)
    ensures DayNumber(DateOf(n)) == n
  {
    if n > 0 {
      NumberOfDate(n - 1);
      NextDayNumber(DateOf(n - 1));
    } else {
      assert DaysBeforeMonth(1, 1) == 0;
    }
  }

  /** The closed form is the counting, the other way round. */
  lemma {:induction false} DateOfNumber(d: Date)
    requires Valid(d)
    ensures DayNumber(d) >= 0 && DateOf(DayNumber(d)) == d
    decreases DayNumber(d), 0
  {
    DayNumberNat(d);
    if d != Date(1, 1, 1) {
      var p := PrevDate(d);
      assert Valid(p) && NextDate(p) == d;
      NextDayNumber(p);
      DayNumberNat(p);
      DateOfNumber(p);
    } else {
      assert DaysBeforeMonth(1, 1) == 0;
    }
  }

  /** The days of one month, from any of them to its last. */
  lemma {:induction false} WithinMonth(d: Date, k: nat)
    requires Valid(d) && d.day + k <= DaysIn(d.year, d.month)
    ensures DayNumber(d) >= 0 && DateOf(DayNumber(d) + k) == d.(day := d.day + k)
  {
    DateOfNumber(d);
    if k > 0 { WithinMonth(d, k - 1); }
  }

  /** 0 is Sunday, as cron counts. */
  function CronWeekday(n: int): int { (n + 1) % 7 }

  /** A Sunday: 1970-01-01 was a Thursday. */
  const SUNDAY: Date := Date(1970, 1, 4)

  /** `d` is `w` days after a Sunday, counted in weeks from a known one. */
  ghost predicate FallsOn(d: Date, w: int)
    requires Valid(d)
  {
    exists weeks: int :: DayNumber(d) == DayNumber(SUNDAY) + 7 * weeks + w
  }

  lemma WeeksApart(n: int, sunday: int, w: int)
    requires sunday % 7 == 6 && 0 <= w <= 6
    ensures (n + 1) % 7 == w <==> exists weeks: int :: n == sunday + 7 * weeks + w
  {
    if (n + 1) % 7 == w {
      assert n == sunday + 7 * ((n + 1) / 7 - (sunday + 1) / 7) + w;
    }
  }

  /** The weekday of a day is how far it is from a Sunday. */
  lemma WeekdayMeans(d: Date, w: int)
    requires Valid(d) && 0 <= w <= 6
    ensures CronWeekday(DayNumber(d)) == w <==> FallsOn(d, w)
  {
    KnownSunday();
    WeeksApart(DayNumber(d), DayNumber(SUNDAY), w);
  }

  lemma KnownSunday()
    ensures DayNumber(SUNDAY) == 719165 && DayNumber(SUNDAY) % 7 == 6
  {
    assert DaysBeforeMonth(1970, 1) == 0;
  }

  // --- minutes ------------------------------------------------------------------------

  datatype DateTime = DateTime(date: Date, hour: int, minute: int)

  predicate ValidTime(t: DateTime) {
    Valid(t.date) && 0 <= t.hour < 24 && 0 <= t.minute < 60
  }

  const DAY: int := 1440

  function Minutes(t: DateTime): (n: nat)
    requires ValidTime(t)
  {
    DayNumberNat(t.date);
    DayNumber(t.date) * DAY + t.hour * 60 + t.minute
  }

  function At(n: nat): (t: DateTime)
    ensures ValidTime(t)
  {
    DateTime(DateOf(n / DAY), n % DAY / 60, n % DAY % 60)
  }

  lemma SplitMinutes(day: nat, hour: nat, minute: nat)
    requires hour < 24 && minute < 60
    ensures var n := day * DAY + hour * 60 + minute;
            n / DAY == day && n % DAY / 60 == hour && n % DAY % 60 == minute
  {
    var n := day * DAY + hour * 60 + minute;
    var r := hour * 60 + minute;
    assert 0 <= r < DAY && n == day * DAY + r;
    assert n / DAY == day && n % DAY == r;
  }

  lemma MinutesAt(n: nat)
    ensures Minutes(At(n)) == n
  {
    NumberOfDate(n / DAY);
    assert n == n / DAY * DAY + n % DAY;
  }

  /** timedelta(days=k) and timedelta(minutes=k) added. */
  function PlusDays(t: DateTime, k: nat): DateTime
    requires ValidTime(t)
  {
    At(Minutes(t) + k * DAY)
  }

  function PlusMinutes(t: DateTime, k: nat): DateTime
    requires ValidTime(t)
  {
    At(Minutes(t) + k)
  }
}
