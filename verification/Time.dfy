/**
 * src/server/lib/time.ts: bucket alignment, bucket ends and billing windows, in UTC and in
 * whole milliseconds since 1970. A `Date` is an object whose time value the `setUTC...`
 * methods move (ECMA-262, section 21.4.4); what each routine does with one is proved
 * against a closed form, and the laws of the module are proved about those forms.
 */
module Time {
  import opened Calendar
  import opened Common

  const MS_PER_MINUTE := 60_000
  const MS_PER_HOUR := 3_600_000
  const MS_PER_DAY := 86_400_000

  function Day(t: int): int {
    t / MS_PER_DAY
  }

  function TimeWithinDay(t: int): int {
    t % MS_PER_DAY
  }

  function HourFromTime(t: int): int {
    TimeWithinDay(t) / MS_PER_HOUR
  }

  function MinFromTime(t: int): int {
    TimeWithinDay(t) % MS_PER_HOUR / MS_PER_MINUTE
  }

  /** Seconds and milliseconds together: what is left of the time value within its minute. */
  function MsWithinMinute(t: int): int {
    t % MS_PER_MINUTE
  }

  /** Sunday is 0; 1 January 1970 was a Thursday. */
  function WeekDay(t: int): int {
    (Day(t) + 4) % 7
  }

  function MakeDate(day: int, time: int): int {
    day * MS_PER_DAY + time
  }

  lemma Apart(k: int, d: int)
    requires k != 0 && d > 0
    ensures k * d >= d || k * d <= -d
  {
    if k > 0 {
      assert (k - 1) * d >= 0;
    } else {
      assert (-k - 1) * d >= 0;
    }
  }

  /** Quotient and remainder are the only ones. */
  lemma Divides(n: int, d: int, q: int, r: int)
    requires d > 0 && n == q * d + r && 0 <= r < d
    ensures n / d == q && n % d == r
  {
    var k := n / d - q;
    assert k * d == r - n % d;
    if k != 0 {
      Apart(k, d);
    }
  }

  lemma DateParts(day: int, time: int)
    requires 0 <= time < MS_PER_DAY
    ensures Day(MakeDate(day, time)) == day && TimeWithinDay(MakeDate(day, time)) == time
  {
    Divides(MakeDate(day, time), MS_PER_DAY, day, time);
  }

  /** A day, hour, minute and rest make one time value, and these are its parts. */
  lemma Clock(day: int, hour: int, minute: int, ms: int)
    requires 0 <= hour < 24 && 0 <= minute < 60 && 0 <= ms < MS_PER_MINUTE
    ensures var t := MakeDate(day, hour * MS_PER_HOUR + minute * MS_PER_MINUTE + ms);
            && Day(t) == day && HourFromTime(t) == hour && MinFromTime(t) == minute && MsWithinMinute(t) == ms
            && t % MS_PER_HOUR == minute * MS_PER_MINUTE + ms
            && TimeWithinDay(t) == hour * MS_PER_HOUR + minute * MS_PER_MINUTE + ms
  {
    var time := hour * MS_PER_HOUR + minute * MS_PER_MINUTE + ms;
    DateParts(day, time);
    Divides(time, MS_PER_HOUR, hour, minute * MS_PER_MINUTE + ms);
    Divides(minute * MS_PER_MINUTE + ms, MS_PER_MINUTE, minute, ms);
    Divides(MakeDate(day, time), MS_PER_MINUTE, (day * 24 + hour) * 60 + minute, ms);
    Divides(MakeDate(day, time), MS_PER_HOUR, day * 24 + hour, minute * MS_PER_MINUTE + ms);
  }

  lemma TimeParts(t: int)
    ensures t == MakeDate(Day(t), HourFromTime(t) * MS_PER_HOUR + MinFromTime(t) * MS_PER_MINUTE + MsWithinMinute(t))
    ensures 0 <= HourFromTime(t) < 24 && 0 <= MinFromTime(t) < 60 && 0 <= MsWithinMinute(t) < MS_PER_MINUTE
    ensures 0 <= TimeWithinDay(t) < MS_PER_DAY
    ensures t % MS_PER_HOUR == MinFromTime(t) * MS_PER_MINUTE + MsWithinMinute(t)
    ensures TimeWithinDay(t) == HourFromTime(t) * MS_PER_HOUR + MinFromTime(t) * MS_PER_MINUTE + MsWithinMinute(t)
  {
    var time := TimeWithinDay(t);
    var ms := time % MS_PER_HOUR % MS_PER_MINUTE;
    Clock(Day(t), time / MS_PER_HOUR, time % MS_PER_HOUR / MS_PER_MINUTE, ms);
  }

  /** A `Date`: one time value, moved in place. */
  class UtcDate {
    var t: int

    constructor (t: int)
      ensures this.t == t
    {
      this.t := t;
    }

    /** setUTCSeconds(0, 0) */
    method ClearSeconds()
      modifies this
      ensures t == old(t) - MsWithinMinute(old(t))
    {
      hide Day, HourFromTime, MinFromTime, MsWithinMinute, TimeWithinDay;
      TimeParts(t);
      t := MakeDate(Day(t), HourFromTime(t) * MS_PER_HOUR + MinFromTime(t) * MS_PER_MINUTE);
    }

    /** setUTCMinutes(0, 0, 0) */
    method ClearMinutes()
      modifies this
      ensures t == old(t) - old(t) % MS_PER_HOUR
    {
      hide Day, HourFromTime, MinFromTime, MsWithinMinute, TimeWithinDay;
      TimeParts(t);
      t := MakeDate(Day(t), HourFromTime(t) * MS_PER_HOUR);
    }

    /** setUTCHours(0, 0, 0, 0) */
    method ClearHours()
      modifies this
      ensures t == Day(old(t)) * MS_PER_DAY
    {
      t := MakeDate(Day(t), 0);
    }

    /** setUTCMinutes(minutes), which keeps the seconds and milliseconds and carries into the hour. */
    method SetMinutes(minutes: int)
      modifies this
      ensures t == old(t) + (minutes - MinFromTime(old(t))) * MS_PER_MINUTE
    {
      hide Day, HourFromTime, MinFromTime, MsWithinMinute, TimeWithinDay;
      TimeParts(t);
      t := MakeDate(Day(t), HourFromTime(t) * MS_PER_HOUR + minutes * MS_PER_MINUTE + MsWithinMinute(t));
    }

    /** setUTCHours(hours), which keeps the smaller units and carries into the day. */
    method SetHours(hours: int)
      modifies this
      ensures t == old(t) + (hours - HourFromTime(old(t))) * MS_PER_HOUR
    {
      hide Day, HourFromTime, MinFromTime, MsWithinMinute, TimeWithinDay;
      TimeParts(t);
      t := MakeDate(Day(t), hours * MS_PER_HOUR + MinFromTime(t) * MS_PER_MINUTE + MsWithinMinute(t));
    }

    /** setUTCDate(date): carries into the month. */
    method SetDate(date: int)
      modifies this
      ensures t == old(t) + (date - DateOf(Day(old(t)))) * MS_PER_DAY
    {
      var month := MonthOf(Day(t));
      t := MakeDate(MakeDay(month.year, month.month, date), TimeWithinDay(t));
    }

    /** setUTCMonth(month): keeps the date, so a date the month does not have runs into the next. */
    method SetMonth(month: int)
      modifies this
      ensures t == MakeDate(MakeDay(YearOf(Day(old(t))), month, DateOf(Day(old(t)))), TimeWithinDay(old(t)))
    {
      t := MakeDate(MakeDay(YearOf(Day(t)), month, DateOf(Day(t))), TimeWithinDay(t));
    }
  }

  // ------------------------------------------------------------------ buckets

  datatype Granularity = MINUTE | HOUR | DAY | MONTH

  function Width(g: Granularity): int
    requires g != MONTH
  {
    match g
    case MINUTE => MS_PER_MINUTE
    case HOUR => MS_PER_HOUR
    case DAY => MS_PER_DAY
  }

  /** The month of instant `t`. */
  function MonthAt(t: int): Month {
    MonthOf(Day(t))
  }

  function MonthBegin(m: Month): int {
    FirstDay(m) * MS_PER_DAY
  }

  /** The latest multiple of the width, or month boundary, that is not after `t`. */
  function Aligned(t: int, g: Granularity): int {
    if g == MONTH then MonthBegin(MonthAt(t)) else t - t % Width(g)
  }

  method BucketStart(input: int, g: Granularity) returns (date: UtcDate)
    ensures fresh(date) && date.t == Aligned(input, g)
  {
    date := new UtcDate(input);
    date.ClearSeconds();
    if g == MINUTE {
      return;
    }
    date.ClearMinutes();
    assert date.t == input - input % MS_PER_HOUR by { AlignTwice(input); }
    if g == HOUR {
      return;
    }
    date.ClearHours();
    assert date.t == input - input % MS_PER_DAY by { AlignTwice(input); }
    if g == DAY {
      return;
    }
    assert Day(date.t) == Day(input);
    date.SetDate(1);
  }

  /** The instant one granule after `t`, on the clock for a width and on the calendar for months. */
  function After(t: int, g: Granularity): int {
    if g == MONTH then
      MakeDate(MakeDay(YearOf(Day(t)), MonthAt(t).month + 1, DateOf(Day(t))), TimeWithinDay(t))
    else
      t + Width(g)
  }

  method BucketEnd(start: UtcDate, g: Granularity) returns (date: UtcDate)
    ensures fresh(date) && date.t == After(start.t, g)
  {
    date := new UtcDate(start.t);
    if g == MINUTE {
      date.SetMinutes(MinFromTime(date.t) + 1);
    } else if g == HOUR {
      date.SetHours(HourFromTime(date.t) + 1);
    } else if g == DAY {
      date.SetDate(DateOf(Day(date.t)) + 1);
    } else {
      date.SetMonth(MonthAt(date.t).month + 1);
    }
  }

  /** Known dates, months counting from 0: the first day, the leap day of 2024, and the sixth of January 2025. */
  lemma KnownDays()
    ensures MakeDay(1970, 0, 1) == 0 && MakeDay(2024, 1, 29) == 19_782 && MakeDay(2025, 0, 6) == 20_094
  {
    KnownYears();
    hide DayFromYear;
  }

  lemma KnownYears()
    ensures DayFromYear(1970) == 0 && DayFromYear(2024) == 19_723 && DayFromYear(2025) == 20_089
  {
    hide DayFromYear;
    DayFromYearFormula(1970);
    DayFromYearFormula(2024);
    DayFromYearFormula(2025);
  }

  /** That day was a Monday. */
  lemma KnownMonday()
    ensures WeekDay(20_094 * 86_400_000) == 1
  {
  }

  /** Aligning to minutes and then hours is aligning to hours; likewise hours, then days. */
  lemma AlignTwice(t: int)
    ensures var m := t - t % MS_PER_MINUTE; m - m % MS_PER_HOUR == t - t % MS_PER_HOUR
    ensures var h := t - t % MS_PER_HOUR; h - h % MS_PER_DAY == t - t % MS_PER_DAY
  {
    hide Day, HourFromTime, MinFromTime, MsWithinMinute;
    TimeParts(t);
    Clock(Day(t), HourFromTime(t), MinFromTime(t), 0);
    Clock(Day(t), HourFromTime(t), 0, 0);
    assert MsWithinMinute(t) == t % MS_PER_MINUTE by { MinuteRest(t); }
  }

  lemma MinuteRest(t: int)
    ensures MsWithinMinute(t) == t % MS_PER_MINUTE
  {
  }

  /** A bucket holds the instant it was computed for. */
  lemma BucketContains(t: int, g: Granularity)
    ensures Aligned(t, g) <= t < After(Aligned(t, g), g)
    ensures g == MONTH ==> After(Aligned(t, g), g) == MonthBegin(Next(MonthAt(t)))
  {
    hide FirstDay, MonthOf, Next;
    if g == MONTH {
      MonthBeginsAlone(MonthAt(t));
    }
  }

  /** The first instant of a month belongs to it, is its first day, and is followed by the next month's. */
  lemma MonthBeginsAlone(m: Month)
    ensures MonthAt(MonthBegin(m)) == m && DateOf(Day(MonthBegin(m))) == 1
    ensures After(MonthBegin(m), MONTH) == MonthBegin(Next(m))
  {
    hide FirstDay, MonthOf, Carry, Day, TimeWithinDay, DaysInMonth;
    DateParts(FirstDay(m), 0);
    MonthLength(m);
    MonthOfUnique(FirstDay(m), m);
  }

  lemma Tile(t: int, u: int, width: int)
    requires width > 0
    ensures u - u % width == t - t % width <==> t - t % width <= u < t - t % width + width
  {
    if t - t % width <= u < t - t % width + width {
      Divides(u, width, t / width, u - (t - t % width));
    }
  }

  /** Buckets tile: an instant shares `t`'s bucket exactly when it is inside that bucket's bounds. */
  lemma BucketsTile(t: int, u: int, g: Granularity)
    ensures Aligned(u, g) == Aligned(t, g) <==> Aligned(t, g) <= u < After(Aligned(t, g), g)
  {
    if g == MONTH {
      hide FirstDay, MonthOf, Next;
      BucketContains(t, g);
      BucketContains(u, g);
      MonthOfUnique(Day(u), MonthAt(t));
      MonthBeginsAlone(MonthAt(t));
      MonthBeginsAlone(MonthAt(u));
    } else {
      Tile(t, u, Width(g));
    }
  }

  /** Aligning twice is aligning once. */
  lemma AlignIdempotent(t: int, g: Granularity)
    ensures Aligned(Aligned(t, g), g) == Aligned(t, g)
  {
    hide Aligned, After;
    BucketContains(t, g);
    BucketsTile(t, Aligned(t, g), g);
  }

  function Rank(g: Granularity): nat {
    match g
    case MINUTE => 0
    case HOUR => 1
    case DAY => 2
    case MONTH => 3
  }

  /** Buckets nest: aligning finely first does not change the coarse bucket. */
  lemma BucketsNest(t: int, fine: Granularity, coarse: Granularity)
    requires Rank(fine) <= Rank(coarse)
    ensures Aligned(Aligned(t, fine), coarse) == Aligned(t, coarse)
  {
    hide FirstDay, MonthOf;
    if fine == coarse {
      AlignIdempotent(t, fine);
    } else if coarse == MONTH {
      AlignWithinDay(t, fine);
    } else {
      AlignTwice(t);
      AlignTwice(t - t % MS_PER_MINUTE);
    }
  }

  lemma AlignWithinDay(t: int, fine: Granularity)
    requires fine != MONTH
    ensures Day(Aligned(t, fine)) == Day(t)
  {
    hide Day, HourFromTime, MinFromTime;
    TimeParts(t);
    MinuteRest(t);
    Clock(Day(t), HourFromTime(t), if fine == MINUTE then MinFromTime(t) else 0, 0);
    Clock(Day(t), 0, 0, 0);
  }

  /** `n` bucket ends taken one after another. */
  function Stepped(t: int, g: Granularity, n: nat): int {
    if n == 0 then t else After(Stepped(t, g, n - 1), g)
  }

  lemma {:induction false} SteppedByWidth(t: int, g: Granularity, n: nat)
    requires g != MONTH
    ensures Stepped(t, g, n) == t + n * Width(g)
  {
    if n > 0 {
      SteppedByWidth(t, g, n - 1);
    }
  }

  /** How many buckets of the fine granularity one coarse bucket starting at `start` holds. */
  function Pieces(start: int, fine: Granularity, coarse: Granularity): nat
    requires Rank(fine) <= Rank(coarse)
  {
    if fine == coarse then 1
    else if coarse == MONTH then DaysInMonth(MonthAt(start)) * PerDay(fine)
    else Width(coarse) / Width(fine)
  }

  function PerDay(g: Granularity): nat {
    match g
    case MINUTE => 1440
    case HOUR => 24
    case DAY => 1
    case MONTH => 0
  }

  lemma DayInPieces(fine: Granularity, days: nat)
    requires fine != MONTH
    ensures days * PerDay(fine) * Width(fine) == days * MS_PER_DAY
  {
    assert PerDay(fine) * Width(fine) == MS_PER_DAY;
  }

  lemma MonthInPieces(m: Month, fine: Granularity)
    requires fine != MONTH
    ensures Stepped(MonthBegin(m), fine, DaysInMonth(m) * PerDay(fine)) == MonthBegin(Next(m))
  {
    hide FirstDay, MonthOf, Next, DaysInMonth, Stepped, PerDay, Width;
    SteppedByWidth(MonthBegin(m), fine, DaysInMonth(m) * PerDay(fine));
    DayInPieces(fine, DaysInMonth(m));
    MonthLength(m);
  }

  /**
   * Fine buckets tile a coarse one: stepping from a coarse start reaches the coarse end
   * exactly, after the number of pieces its length gives, leap Februaries included.
   */
  lemma StepsReachEnd(t: int, fine: Granularity, coarse: Granularity)
    requires Rank(fine) <= Rank(coarse)
    ensures var start := Aligned(t, coarse);
            Stepped(start, fine, Pieces(start, fine, coarse)) == After(start, coarse)
  {
    hide FirstDay, MonthOf, Next, DaysInMonth;
    var start := Aligned(t, coarse);
    if fine == coarse {
      assert Stepped(start, fine, 1) == After(Stepped(start, fine, 0), fine);
    } else if coarse == MONTH {
      hide MonthBegin, MonthAt;
      MonthBeginsAlone(MonthAt(t));
      MonthInPieces(MonthAt(t), fine);
    } else {
      SteppedByWidth(start, fine, Pieces(start, fine, coarse));
    }
  }

  // ---------------------------------------------------------- billing periods

  datatype Period = MONTHLY | WEEKLY | CUSTOM

  datatype Range = Range(start: int, end: int)

  /** The start of the period that begins in month `m`. */
  function PeriodBegin(m: Month, day: int): int {
    (FirstDay(m) + day - 1) * MS_PER_DAY
  }

  function ClampDay(day: int): (d: int)
    ensures 1 <= d <= 28
    ensures 1 <= day <= 28 ==> d == day
  {
    Min(28, Max(1, day))
  }

  /** Weeks begin on Monday; every other period begins on one date of the month. */
  function BillingWindow(period: Period, periodStartDay: int, now: int): Range {
    if period == WEEKLY then
      var monday := Day(now) - (WeekDay(now) + 6) % 7;
      Range(monday * MS_PER_DAY, (monday + 7) * MS_PER_DAY)
    else
      var day := ClampDay(periodStartDay);
      var current := MonthAt(now);
      var first := if now < PeriodBegin(current, day) then Previous(current) else current;
      Range(PeriodBegin(first, day), PeriodBegin(Next(first), day))
  }

  /** A period starts in its month, on its date: no month is too short for days 1 to 28. */
  lemma PeriodBeginsIn(m: Month, day: int)
    requires 1 <= day <= 28
    ensures MonthAt(PeriodBegin(m, day)) == m && DateOf(Day(PeriodBegin(m, day))) == day
    ensures TimeWithinDay(PeriodBegin(m, day)) == 0
  {
    hide FirstDay, MonthOf, Next;
    MonthLength(m);
    MonthOfUnique(FirstDay(m) + day - 1, m);
  }
  /** setUTCMonth from the start of a period: the same date of another month. */
  lemma SameDateOf(m: Month, day: int, month: int)
    requires 1 <= day <= 28
    ensures var t := PeriodBegin(m, day);
            && MonthAt(t) == m
            && MakeDate(MakeDay(YearOf(Day(t)), month, DateOf(Day(t))), TimeWithinDay(t))
               == PeriodBegin(Carry(m.year, month), day)
  {
    hide FirstDay, MonthOf, DateOf, TimeWithinDay, Day;
    PeriodBeginsIn(m, day);
  }

  /** The start of the day, and setUTCDate from there. */
  lemma FromMidnight(now: int, date: int)
    ensures var t := Day(now) * MS_PER_DAY;
            && Day(t) == Day(now) && WeekDay(t) == WeekDay(now) && MonthAt(t) == MonthAt(now)
            && t + (date - DateOf(Day(t))) * MS_PER_DAY == PeriodBegin(MonthAt(now), date)
  {
    hide FirstDay, MonthOf, MonthFrom;
    DateParts(Day(now), 0);
  }

  method BillingPeriod(period: Period, periodStartDay: int, now: int) returns (range: Range)
    ensures range == BillingWindow(period, periodStartDay, now)
  {
    hide Day, TimeWithinDay, FirstDay, MonthAt, PeriodBegin, DateOf, WeekDay, MakeDate, MakeDay, YearOf;
    var start := new UtcDate(now);
    start.ClearHours();
    FromMidnight(now, 1);
    if period == WEEKLY {
      var weekday := (WeekDay(start.t) + 6) % 7;
      start.SetDate(DateOf(Day(start.t)) - weekday);
      var weekEnd := new UtcDate(start.t);
      weekEnd.SetDate(DateOf(Day(weekEnd.t)) + 7);
      return Range(start.t, weekEnd.t);
    }

    ghost var first := MonthAt(now);
    var day := Min(28, Max(1, periodStartDay));
    FromMidnight(now, day);
    start.SetDate(day);
    SameDateOf(first, day, first.month - 1);
    if start.t > now {
      start.SetMonth(MonthAt(start.t).month - 1);
      first := Previous(first);
    }
    SameDateOf(first, day, first.month + 1);
    var end := new UtcDate(start.t);
    end.SetMonth(MonthAt(end.t).month + 1);
    return Range(start.t, end.t);
  }

  /** A billing period holds the instant it is asked for. */
  lemma WindowContains(period: Period, periodStartDay: int, now: int)
    ensures var w := BillingWindow(period, periodStartDay, now); w.start <= now < w.end
  {
    hide FirstDay, MonthOf, Next, Previous;
    if period != WEEKLY {
      var day := ClampDay(periodStartDay);
      var current := MonthAt(now);
      MonthLength(current);
      MonthLength(Previous(current));
      assert Next(Previous(current)) == current;
    }
  }

  /** The window that starts in month `m` is the one every instant inside it gets. */
  lemma WindowOfMonth(period: Period, periodStartDay: int, m: Month, u: int)
    requires period != WEEKLY
    requires PeriodBegin(m, ClampDay(periodStartDay)) <= u < PeriodBegin(Next(m), ClampDay(periodStartDay))
    ensures var day := ClampDay(periodStartDay);
            BillingWindow(period, periodStartDay, u) == Range(PeriodBegin(m, day), PeriodBegin(Next(m), day))
  {
    hide FirstDay, MonthOf, Next, Previous;
    MonthLength(m);
    MonthLength(Next(m));
    if Day(u) < FirstDay(Next(m)) {
      MonthOfUnique(Day(u), m);
    } else {
      MonthOfUnique(Day(u), Next(m));
    }
  }

  lemma WindowOfWeek(periodStartDay: int, monday: int, u: int)
    requires (monday + 4) % 7 == 1
    requires monday * MS_PER_DAY <= u < (monday + 7) * MS_PER_DAY
    ensures BillingWindow(WEEKLY, periodStartDay, u) == Range(monday * MS_PER_DAY, (monday + 7) * MS_PER_DAY)
  {
    assert monday <= Day(u) < monday + 7;
  }

  lemma WeekStable(periodStartDay: int, now: int, u: int)
    requires var w := BillingWindow(WEEKLY, periodStartDay, now); w.start <= u < w.end
    ensures BillingWindow(WEEKLY, periodStartDay, u) == BillingWindow(WEEKLY, periodStartDay, now)
  {
    WindowOfWeek(periodStartDay, Day(now) - (WeekDay(now) + 6) % 7, u);
  }

  lemma MonthStable(period: Period, periodStartDay: int, now: int, u: int)
    requires period != WEEKLY
    requires var w := BillingWindow(period, periodStartDay, now); w.start <= u < w.end
    ensures BillingWindow(period, periodStartDay, u) == BillingWindow(period, periodStartDay, now)
  {
    hide FirstDay, MonthOf, Next, Previous, ClampDay, PeriodBegin, MonthAt;
    var current := MonthAt(now);
    var first := if now < PeriodBegin(current, ClampDay(periodStartDay)) then Previous(current) else current;
    WindowOfMonth(period, periodStartDay, first, u);
  }

  lemma WindowStable(period: Period, periodStartDay: int, now: int, u: int)
    requires var w := BillingWindow(period, periodStartDay, now); w.start <= u < w.end
    ensures BillingWindow(period, periodStartDay, u) == BillingWindow(period, periodStartDay, now)
  {
    hide BillingWindow;
    if period == WEEKLY {
      WeekStable(periodStartDay, now, u);
    } else {
      MonthStable(period, periodStartDay, now, u);
    }
  }

  /**
   * Billing periods partition time: an instant gets the same period as `now` exactly when
   * it lies inside it.
   */
  lemma WindowsPartition(period: Period, periodStartDay: int, now: int, u: int)
    ensures var w := BillingWindow(period, periodStartDay, now);
            BillingWindow(period, periodStartDay, u) == w <==> w.start <= u < w.end
  {
    hide BillingWindow;
    WindowContains(period, periodStartDay, u);
    var w := BillingWindow(period, periodStartDay, now);
    if w.start <= u < w.end {
      WindowStable(period, periodStartDay, now, u);
    }
  }

  /** Asked at the end of a period, the next one starts exactly there. */
  lemma WindowsAbut(period: Period, periodStartDay: int, now: int)
    ensures var w := BillingWindow(period, periodStartDay, now);
            BillingWindow(period, periodStartDay, w.end).start == w.end
  {
    hide FirstDay, MonthOf, Next, Previous;
    var w := BillingWindow(period, periodStartDay, now);
    if period == WEEKLY {
      WindowOfWeek(periodStartDay, Day(w.end), w.end);
    } else {
      var day := ClampDay(periodStartDay);
      var current := MonthAt(now);
      var first := if now < PeriodBegin(current, day) then Previous(current) else current;
      MonthLength(Next(first));
      WindowOfMonth(period, periodStartDay, Next(first), w.end);
    }
  }

  /**
   * A week has 7 days and starts on a Monday; a month has 28 to 31 days and starts on the
   * clamped date, at midnight.
   */
  lemma WindowShape(period: Period, periodStartDay: int, now: int)
    ensures var w := BillingWindow(period, periodStartDay, now);
            && TimeWithinDay(w.start) == 0
            && (period == WEEKLY ==> WeekDay(w.start) == 1 && w.end - w.start == 7 * MS_PER_DAY)
            && (period != WEEKLY ==>
                  && DateOf(Day(w.start)) == ClampDay(periodStartDay)
                  && 28 * MS_PER_DAY <= w.end - w.start <= 31 * MS_PER_DAY
                  && w.end - w.start == DaysInMonth(MonthAt(w.start)) * MS_PER_DAY)
  {
    hide FirstDay, MonthOf, Next, Previous, DaysInMonth, DateOf;
    if period != WEEKLY {
      var day := ClampDay(periodStartDay);
      var current := MonthAt(now);
      var first := if now < PeriodBegin(current, day) then Previous(current) else current;
      PeriodBeginsIn(first, day);
      MonthLength(first);
    }
  }

  // ------------------------------------------------------------------- ranges

  /** `new Date(text)`: a time value, or NaN when the text is not a date. */
  datatype Stamp = Invalid | At(ms: int)

  datatype Preset = TODAY | DAYS_7 | DAYS_30 | MONTH_TO_DATE | CUSTOM_RANGE | UNRECOGNISED

  /** `from` and `to` are absent when missing or empty. */
  method ResolveRange(preset: Preset, from: Option<Stamp>, to: Option<Stamp>, now: int)
    returns (range: Option<Range>)
    ensures range.None? <==>
              || preset == UNRECOGNISED
              || (preset == CUSTOM_RANGE && (from.None? || from.value.Invalid? || to == Some(Invalid)))
              || (preset == CUSTOM_RANGE && (if to.Some? then to.value.ms else now) <= from.value.ms)
    ensures range.Some? ==> range.value.start <= range.value.end
    ensures range.Some? && preset == CUSTOM_RANGE ==>
              range.value == Range(from.value.ms, if to.Some? then to.value.ms else now)
    ensures range.Some? && preset != CUSTOM_RANGE ==>
              range.value == Range(PresetStart(preset, now), now)
    // What that comes to: seven or thirty times 24 hours, or since midnight or the first of the month.
    ensures range.Some? && preset != CUSTOM_RANGE ==> range.value.end == now
    ensures range.Some? && preset == DAYS_7 ==> now - range.value.start == 604_800_000
    ensures range.Some? && preset == DAYS_30 ==> now - range.value.start == 2_592_000_000
    ensures range.Some? && preset == TODAY ==>
              now - 86_400_000 < range.value.start && range.value.start % 86_400_000 == 0
    ensures range.Some? && preset == MONTH_TO_DATE ==>
              && MonthAt(range.value.start) == MonthAt(now) && DateOf(Day(range.value.start)) == 1
              && range.value.start % 86_400_000 == 0
  {
    hide DateOf, Day, MonthOf, FirstDay;
    PresetBegins(now);
    if preset == CUSTOM_RANGE {
      if from.None? {
        return None;
      }
      var start := from.value;
      var end := if to.Some? then to.value else At(now);
      if start.Invalid? || end.Invalid? {
        return None;
      }
      if end.ms <= start.ms {
        return None;
      }
      return Some(Range(start.ms, end.ms));
    }
    if preset == TODAY {
      var start := new UtcDate(now);
      start.ClearHours();
      StartOfDay(now);
      return Some(Range(start.t, now));
    }
    if preset == DAYS_7 || preset == DAYS_30 {
      var days := if preset == DAYS_7 then 7 else 30;
      return Some(Range(now - days * MS_PER_DAY, now));
    }
    if preset == MONTH_TO_DATE {
      var start := new UtcDate(now);
      start.SetDate(1);
      start.ClearHours();
      FirstOfMonth(now);
      return Some(Range(start.t, now));
    }
    return None;
  }

  lemma PresetBegins(now: int)
    ensures now - 86_400_000 < Aligned(now, DAY) && Aligned(now, DAY) % 86_400_000 == 0
    ensures MonthAt(Aligned(now, MONTH)) == MonthAt(now) && DateOf(Day(Aligned(now, MONTH))) == 1
    ensures Aligned(now, MONTH) % 86_400_000 == 0
  {
    hide FirstDay, MonthOf, DateOf;
    MonthBeginsAlone(MonthAt(now));
  }

  lemma StartOfDay(now: int)
    ensures Day(now) * MS_PER_DAY == Aligned(now, DAY) <= now
  {
  }

  lemma FirstOfMonth(now: int)
    ensures Day(now + (1 - DateOf(Day(now))) * MS_PER_DAY) * MS_PER_DAY == Aligned(now, MONTH) <= now
  {
    hide FirstDay, MonthOf;
    assert FirstDay(MonthAt(now)) == Day(now) + 1 - DateOf(Day(now));
    DateParts(FirstDay(MonthAt(now)), TimeWithinDay(now));
  }

  /** Where a named range starts: a bucket boundary, or a fixed number of days back. */
  function PresetStart(preset: Preset, now: int): int {
    match preset
    case TODAY => Aligned(now, DAY)
    case DAYS_7 => now - 7 * MS_PER_DAY
    case DAYS_30 => now - 30 * MS_PER_DAY
    case MONTH_TO_DATE => Aligned(now, MONTH)
    case _ => now
  }

  /**
   * A named range is empty, and would show no data at all, exactly at the boundary it
   * counts from: midnight for "today", the first midnight of the month for "month".
   */
  lemma PresetEmptyAtBoundary(preset: Preset, now: int)
    requires preset != CUSTOM_RANGE && preset != UNRECOGNISED
    ensures PresetStart(preset, now) == now <==>
              || (preset == TODAY && TimeWithinDay(now) == 0)
              || (preset == MONTH_TO_DATE && TimeWithinDay(now) == 0 && DateOf(Day(now)) == 1)
  {
    hide FirstDay, MonthOf;
    TimeParts(now);
  }

  /** Days elapsed in a range, as an exact fraction. */
  function ElapsedDays(range: Range, now: int): real {
    var ms := Min(range.end, now) - range.start;
    if ms <= 0 then 0.0 else ms as real / MS_PER_DAY as real
  }

  function RangeDays(range: Range): real {
    var days := (range.end - range.start) as real / MS_PER_DAY as real;
    if days < 0.0 then 0.0 else days
  }

  /**
   * Elapsed time never runs past the range; it is positive exactly once `now` is past the
   * start of a range that has a length, and that length exactly from the end on.
   */
  lemma ElapsedWithinRange(range: Range, now: int)
    ensures 0.0 <= ElapsedDays(range, now) <= RangeDays(range)
    ensures range.start < now && range.start < range.end <==> ElapsedDays(range, now) > 0.0
    ensures ElapsedDays(range, now) == RangeDays(range) <==> range.end <= range.start || range.end <= now
  {
    var ms := Min(range.end, now) - range.start;
    var all := range.end - range.start;
    assert ms <= all;
    assert ms as real <= all as real;
    DivideByDay(ms as real, all as real);
    DivideByDay(0.0, ms as real);
    DivideByDay(0.0, all as real);
  }

  lemma DivideByDay(a: real, b: real)
    ensures a <= b ==> a / MS_PER_DAY as real <= b / MS_PER_DAY as real
    ensures a < b ==> a / MS_PER_DAY as real < b / MS_PER_DAY as real
  {
  }
}
