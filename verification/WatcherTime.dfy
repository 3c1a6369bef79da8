/** Watcher windows: aligning an instant to the start of its window and shifting it by one
    period (packages/connector-sdk/src/watcher-time.ts). */
module WatcherTime {
  import opened CivilCalendar

  const MS_PER_DAY := 86_400_000

  datatype Granularity = Daily | Weekly | Monthly | Quarterly

  function Day(t: int): int { t / MS_PER_DAY }
  function TimeWithinDay(t: int): int { t % MS_PER_DAY }
  function WeekDay(t: int): int { (Day(t) + 4) % 7 }
  function MonthOf(t: int): int { MonthOfDay(Day(t)) }
  function DateOf(t: int): int { DateOfDay(Day(t)) }

  function MakeDate(day: int, time: int): int { day * MS_PER_DAY + time }

  lemma MakeDateSplits(day: int, time: int)
    requires 0 <= time < MS_PER_DAY
    ensures Day(MakeDate(day, time)) == day
    ensures TimeWithinDay(MakeDate(day, time)) == time
  {}

  lemma DateParts(t: int)
    ensures t == MakeDate(Day(t), TimeWithinDay(t)) && 0 <= TimeWithinDay(t) < MS_PER_DAY
  {}

  /** The part of JavaScript's `Date` the source uses: one time value, changed in place by the
      `setUTC...` methods of section 21.4.4 of ECMA-262. */
  class JsDate {
    var time: int

    constructor (t: int)
      ensures time == t
    {
      time := t;
    }

    function GetUTCDate(): int reads this { DateOf(time) }
    function GetUTCMonth(): int reads this { MonthOf(time) % 12 }
    function GetUTCFullYear(): int reads this { MonthOf(time) / 12 }
    function GetUTCDay(): int reads this { WeekDay(time) }

    method SetUTCDate(date: int)
      modifies this
      ensures time == MakeDate(MonthStart(MonthOf(old(time))) + date - 1, TimeWithinDay(old(time)))
    {
      hide MonthStart, MonthOfDay, MakeDay;
      MakeDayCountsMonths(GetUTCFullYear(), GetUTCMonth(), date);
      time := MakeDate(MakeDay(GetUTCFullYear(), GetUTCMonth(), date), TimeWithinDay(time));
    }

    /** `month` counts from the January of the current year and may overflow it. */
    method SetUTCMonth(month: int, date: int)
      modifies this
      ensures var january := MonthOf(old(time)) - MonthOf(old(time)) % 12;
              time == MakeDate(MonthStart(january + month) + date - 1, TimeWithinDay(old(time)))
    {
      hide MonthStart, MonthOfDay, MakeDay;
      MakeDayCountsMonths(GetUTCFullYear(), month, date);
      time := MakeDate(MakeDay(GetUTCFullYear(), month, date), TimeWithinDay(time));
    }

    /** `setUTCHours(0, 0, 0, 0)`. */
    method SetUTCMidnight()
      modifies this
      ensures time == old(time) - TimeWithinDay(old(time))
    {
      time := MakeDate(Day(time), 0);
    }
  }

  // ---- What the two operations compute ----

  /** One instant shifted by `n` days, or by `n` months keeping the day of the month, which may
      overflow the new month. */
  function AddDays(t: int, n: int): int {
    t + n * MS_PER_DAY
  }

  function AddMonths(t: int, n: int): int {
    MakeDate(MonthStart(MonthOf(t) + n) + DateOf(t) - 1, TimeWithinDay(t))
  }

  function Shift(t: int, g: Granularity, direction: int): int {
    match g
    case Daily => AddDays(t, direction)
    case Weekly => AddDays(t, 7 * direction)
    case Monthly => AddMonths(t, direction)
    case Quarterly => AddMonths(t, 3 * direction)
  }

  /** The instants a window may start at: midnights, Monday midnights, midnights of the first of
      a month, and of the first of a quarter. */
  predicate IsStart(t: int, g: Granularity) {
    && TimeWithinDay(t) == 0
    && match g
       case Daily => true
       case Weekly => WeekDay(t) == 1
       case Monthly => DateOf(t) == 1
       case Quarterly => DateOf(t) == 1 && MonthOf(t) % 3 == 0
  }

  /** `start` is the latest window start not after `t`. */
  ghost predicate IsLatestStart(start: int, t: int, g: Granularity) {
    && IsStart(start, g)
    && start <= t
    && forall u :: IsStart(u, g) && u <= t ==> u <= start
  }

  // ---- The windows, numbered ----

  /** Start of the `k`-th window; windows are numbered through all of time. */
  function StartAt(g: Granularity, k: int): int {
    MS_PER_DAY * match g
                 case Daily => k
                 case Weekly => 7 * k + 4
                 case Monthly => MonthStart(k)
                 case Quarterly => MonthStart(3 * k)
  }

  function Index(g: Granularity, t: int): int {
    match g
    case Daily => Day(t)
    case Weekly => (Day(t) - 4) / 7
    case Monthly => MonthOf(t)
    case Quarterly => MonthOf(t) / 3
  }

  function Align(t: int, g: Granularity): int {
    StartAt(g, Index(g, t))
  }

  lemma StartsIncrease(g: Granularity, a: int, b: int)
    requires a < b
    ensures StartAt(g, a) < StartAt(g, b)
  {
    hide MonthStart;
    match g
    case Daily =>
    case Weekly =>
    case Monthly => MonthsIncrease(a, b);
    case Quarterly => MonthsIncrease(3 * a, 3 * b);
  }

  lemma IndexBrackets(g: Granularity, t: int)
    ensures StartAt(g, Index(g, t)) <= t < StartAt(g, Index(g, t) + 1)
  {
    hide MonthStart, MonthOfDay;
    DateParts(t);
    if g == Quarterly {
      var m := MonthOf(t);
      assert 3 * (m / 3) <= m < 3 * (m / 3) + 3;
      if 3 * (m / 3) < m { MonthsIncrease(3 * (m / 3), m); }
      if m + 1 < 3 * (m / 3) + 3 { MonthsIncrease(m + 1, 3 * (m / 3) + 3); }
    }
  }

  /** The numbered starts are exactly the window starts. */
  lemma StartsAreNumbered(g: Granularity, t: int)
    ensures IsStart(t, g) <==> t == StartAt(g, Index(g, t))
  {
    hide MonthStart, MonthOfDay;
    DateParts(t);
    if g == Quarterly {
      var m := MonthOf(t);
      if 3 * (m / 3) < m { MonthsIncrease(3 * (m / 3), m); }
    }
  }

  lemma NumberedStarts(g: Granularity, k: int)
    ensures IsStart(StartAt(g, k), g) && Index(g, StartAt(g, k)) == k
  {
    hide MonthStart, MonthOfDay;
    match g
    case Daily =>
    case Weekly =>
    case Monthly => FirstOfMonth(k);
    case Quarterly => FirstOfMonth(3 * k);
  }

  lemma FirstOfMonth(month: int)
    ensures var t := MS_PER_DAY * MonthStart(month);
            TimeWithinDay(t) == 0 && Day(t) == MonthStart(month) && MonthOf(t) == month && DateOf(t) == 1
  {
    hide MonthStart, MonthOfDay;
    assert 28 <= DaysInMonth(month) by { MonthLength(month); }
    MonthIsUnique(MonthStart(month), month);
  }

  lemma ShiftedStart(g: Granularity, k: int, direction: int)
    ensures Shift(StartAt(g, k), g, direction) == StartAt(g, k + direction)
  {
    hide MonthStart, MonthOfDay;
    match g
    case Daily =>
    case Weekly =>
    case Monthly => FirstOfMonth(k);
    case Quarterly =>
      FirstOfMonth(3 * k);
      assert 3 * k + 3 * direction == 3 * (k + direction);
  }

  // ---- The operations ----

  method ShiftWatcherPeriod(date: JsDate, g: Granularity, direction: int) returns (result: JsDate)
    ensures fresh(result) && result.time == Shift(date.time, g, direction)
  {
    hide MonthStart, MonthOfDay;
    result := new JsDate(date.time);
    DateParts(date.time);
    match g {
      case Daily => result.SetUTCDate(result.GetUTCDate() + direction);
      case Weekly => result.SetUTCDate(result.GetUTCDate() + 7 * direction);
      case Monthly => result.SetUTCMonth(result.GetUTCMonth() + direction, result.GetUTCDate());
      case Quarterly => result.SetUTCMonth(result.GetUTCMonth() + 3 * direction, result.GetUTCDate());
    }
  }

  method AlignToWatcherWindowStart(date: JsDate, g: Granularity) returns (result: JsDate)
    ensures fresh(result) && result.time == Align(date.time, g)
    ensures IsLatestStart(result.time, date.time, g)
  {
    hide MonthStart, MonthOfDay;
    result := new JsDate(date.time);
    DateParts(date.time);
    match g {
      case Daily =>
        result.SetUTCMidnight();
      case Weekly =>
        var dayOfWeek := result.GetUTCDay();
        var daysToMonday := if dayOfWeek == 0 then 6 else dayOfWeek - 1;
        result.SetUTCDate(result.GetUTCDate() - daysToMonday);
        MondayOfWeek(date.time, daysToMonday, result.time);
        result.SetUTCMidnight();
      case Monthly =>
        result.SetUTCDate(1);
        MakeDateSplits(MonthStart(MonthOf(date.time)), TimeWithinDay(date.time));
        result.SetUTCMidnight();
      case Quarterly =>
        var month := result.GetUTCMonth();
        var quarterStart := month / 3 * 3;
        result.SetUTCMonth(quarterStart, 1);
        QuarterOfMonth(MonthOf(date.time));
        MakeDateSplits(MonthStart(MonthOf(date.time) / 3 * 3), TimeWithinDay(date.time));
        result.SetUTCMidnight();
    }
    AlignIsLatestStart(date.time, g);
  }

  lemma MondayOfWeek(t: int, daysToMonday: int, u: int)
    requires daysToMonday == if WeekDay(t) == 0 then 6 else WeekDay(t) - 1
    requires u == AddDays(t, -daysToMonday)
    ensures u - TimeWithinDay(u) == Align(t, Weekly)
  {
    DateParts(t);
    MakeDateSplits(Day(t) - daysToMonday, TimeWithinDay(t));
    assert u == MakeDate(Day(t) - daysToMonday, TimeWithinDay(t));
    assert Day(t) - daysToMonday == 7 * ((Day(t) - 4) / 7) + 4;
  }

  lemma QuarterOfMonth(m: int)
    ensures m - m % 12 + m % 12 / 3 * 3 == m / 3 * 3
  {}

  // ---- Windows tile time ----

  lemma AlignIsLatestStart(t: int, g: Granularity)
    ensures IsLatestStart(Align(t, g), t, g)
  {
    hide StartAt, Index, IsStart;
    NumberedStarts(g, Index(g, t));
    IndexBrackets(g, t);
    forall u | IsStart(u, g) && u <= t
      ensures u <= Align(t, g)
    {
      StartsAreNumbered(g, u);
      if Index(g, t) < Index(g, u) {
        if Index(g, t) + 1 < Index(g, u) { StartsIncrease(g, Index(g, t) + 1, Index(g, u)); }
        assert false;
      }
      if Index(g, u) < Index(g, t) { StartsIncrease(g, Index(g, u), Index(g, t)); }
    }
  }

  /** Every instant lies in the window from its aligned start to that start shifted once, the
      shifted start opens the next window, and no other window starts in between. */
  lemma WindowsTile(t: int, g: Granularity)
    ensures var start := Align(t, g);
            var next := Shift(start, g, 1);
            && start <= t < next
            && IsStart(next, g) && Align(start, g) == start && Shift(next, g, -1) == start
            && forall u :: IsStart(u, g) ==> u <= start || next <= u
  {
    hide StartAt, Index, IsStart, Shift;
    var k := Index(g, t);
    IndexBrackets(g, t);
    ShiftedStart(g, k, 1);
    ShiftedStart(g, k + 1, -1);
    NumberedStarts(g, k);
    NumberedStarts(g, k + 1);
    forall u | IsStart(u, g)
      ensures u <= StartAt(g, k) || StartAt(g, k + 1) <= u
    {
      StartsAreNumbered(g, u);
      if Index(g, u) < k { StartsIncrease(g, Index(g, u), k); }
      if k + 1 < Index(g, u) { StartsIncrease(g, k + 1, Index(g, u)); }
    }
  }

  /** `addWatcherPeriod` applied `n` times. */
  function AddRepeatedly(t: int, g: Granularity, n: nat): int {
    if n == 0 then t else Shift(AddRepeatedly(t, g, n - 1), g, 1)
  }

  lemma RepeatedFromStart(g: Granularity, k: int, n: nat)
    ensures AddRepeatedly(StartAt(g, k), g, n) == StartAt(g, k + n)
  {
    hide StartAt, Shift;
    if n > 0 {
      RepeatedFromStart(g, k, n - 1);
      ShiftedStart(g, k + (n - 1), 1);
    }
  }

  /** Repeated addition from a start visits window starts only, each later one exactly once. */
  lemma AddVisitsEveryStart(start: int, u: int, g: Granularity)
    requires IsStart(start, g)
    ensures (IsStart(u, g) && start <= u) <==> (exists n: nat :: AddRepeatedly(start, g, n) == u)
    ensures forall m: nat, n: nat | m < n :: AddRepeatedly(start, g, m) < AddRepeatedly(start, g, n)
  {
    hide StartAt, Index, IsStart, Shift;
    StartsAreNumbered(g, start);
    var k := Index(g, start);
    forall m: nat, n: nat | m < n
      ensures AddRepeatedly(start, g, m) < AddRepeatedly(start, g, n)
    {
      RepeatedFromStart(g, k, m);
      RepeatedFromStart(g, k, n);
      StartsIncrease(g, k + m, k + n);
    }
    if IsStart(u, g) && start <= u {
      StartsAreNumbered(g, u);
      if Index(g, u) < k { StartsIncrease(g, Index(g, u), k); assert false; }
      var n: nat := Index(g, u) - k;
      RepeatedFromStart(g, k, n);
      assert AddRepeatedly(start, g, n) == u;
    }
    forall n: nat | AddRepeatedly(start, g, n) == u
      ensures IsStart(u, g) && start <= u
    {
      RepeatedFromStart(g, k, n);
      NumberedStarts(g, k + n);
      if n > 0 { StartsIncrease(g, k, k + n); }
    }
  }

  /** Every window of `fine` lies inside one window of `coarse`. */
  predicate Refines(fine: Granularity, coarse: Granularity) {
    fine == coarse || fine == Daily || (fine == Monthly && coarse == Quarterly)
  }

  lemma CoarserAbsorbsFiner(t: int, fine: Granularity, coarse: Granularity)
    requires Refines(fine, coarse)
    ensures Align(Align(t, fine), coarse) == Align(t, coarse)
  {
    hide StartAt, Index, IsStart;
    var start := Align(t, coarse);
    AlignIsLatestStart(t, fine);
    AlignIsLatestStart(t, coarse);
    AlignIsLatestStart(Align(t, fine), coarse);
    assert IsStart(start, fine) by { CoarseStartIsFine(start, fine, coarse); }
  }

  lemma CoarseStartIsFine(t: int, fine: Granularity, coarse: Granularity)
    requires Refines(fine, coarse) && IsStart(t, coarse)
    ensures IsStart(t, fine)
  {
    hide MonthStart, MonthOfDay;
  }

  /** For any two granularities: the second alignment absorbs the first exactly when its own
      start does not lie behind the first one's. */
  lemma AbsorbsExactly(t: int, first: Granularity, second: Granularity)
    ensures Align(Align(t, first), second) == Align(t, second) <==> Align(t, second) <= Align(t, first)
  {
    hide StartAt, Index, IsStart;
    AlignIsLatestStart(t, first);
    AlignIsLatestStart(t, second);
    AlignIsLatestStart(Align(t, first), second);
  }

  /** Days since the Monday of the week, and since the first of the month or quarter. */
  function DayOfWeek(t: int): int { (Day(t) - 4) % 7 }
  function DayOfMonth(t: int): int { DateOf(t) - 1 }
  function DayOfQuarter(t: int): int { Day(t) - MonthStart(MonthOf(t) / 3 * 3) }

  /** Weeks against months and quarters: the coarser start is absorbed exactly when the week began
      in the same month or quarter, the week exactly when the month or quarter began in it. */
  lemma WeeksInMonths(t: int)
    ensures Align(Align(t, Weekly), Monthly) == Align(t, Monthly) <==> DayOfWeek(t) <= DayOfMonth(t)
    ensures Align(Align(t, Monthly), Weekly) == Align(t, Weekly) <==> DayOfMonth(t) <= DayOfWeek(t)
    ensures Align(Align(t, Weekly), Quarterly) == Align(t, Quarterly) <==> DayOfWeek(t) <= DayOfQuarter(t)
    ensures Align(Align(t, Quarterly), Weekly) == Align(t, Weekly) <==> DayOfQuarter(t) <= DayOfWeek(t)
  {
    AbsorbsExactly(t, Weekly, Monthly);
    AbsorbsExactly(t, Monthly, Weekly);
    AbsorbsExactly(t, Weekly, Quarterly);
    AbsorbsExactly(t, Quarterly, Weekly);
    StartsInDays(t);
    hide Align, DayOfWeek, DayOfMonth, DayOfQuarter, Day;
  }

  lemma StartsInDays(t: int)
    ensures Align(t, Weekly) == MS_PER_DAY * (Day(t) - DayOfWeek(t))
    ensures Align(t, Monthly) == MS_PER_DAY * (Day(t) - DayOfMonth(t))
    ensures Align(t, Quarterly) == MS_PER_DAY * (Day(t) - DayOfQuarter(t))
  {
    hide MonthStart, MonthOfDay, Day;
    assert 7 * ((Day(t) - 4) / 7) + (Day(t) - 4) % 7 == Day(t) - 4;
    assert 3 * (MonthOf(t) / 3) == MonthOf(t) / 3 * 3;
  }

  /** Both fail somewhere: the week of 1970-01-01 began in December, and the month of Monday
      1970-01-05 began in the week before. */
  lemma WeeksAndMonthsDoNotNest()
    ensures exists t :: Align(Align(t, Weekly), Monthly) != Align(t, Monthly)
    ensures exists t :: Align(Align(t, Monthly), Weekly) != Align(t, Weekly)
  {
    hide MonthStart, MonthOfDay, Align;
    MonthsAroundTheEpoch();
    MonthIsUnique(0, 23640);
    MonthIsUnique(4, 23640);
    WeeksInMonths(0);
    WeeksInMonths(4 * MS_PER_DAY);
  }

  lemma MonthsAroundTheEpoch()
    ensures MonthStart(23640) == 0 && MonthStart(23641) == 31
  {
    assert 23640 / 12 == 1970 && 23641 / 12 == 1970 && 23640 % 12 == 0 && 23641 % 12 == 1;
    assert DayFromYear(1970) == 0;
    hide DayFromYear, IsLeap;
  }

  // ---- Shifting there and back ----

  /** The number of months a period shifts by; 0 for the periods counted in days. */
  function MonthsShifted(g: Granularity, direction: int): int {
    match g
    case Daily => 0
    case Weekly => 0
    case Monthly => direction
    case Quarterly => 3 * direction
  }

  /** Shifting one period and back returns to the same instant exactly when the month in between
      has a day of that number; day-based periods always return. */
  lemma ShiftThereAndBack(t: int, g: Granularity, direction: int)
    requires direction == 1 || direction == -1
    ensures Shift(Shift(t, g, direction), g, -direction) == t
            <==> DateOf(t) <= DaysInMonth(MonthOf(t) + MonthsShifted(g, direction))
  {
    hide MonthStart, MonthOfDay;
    if g == Monthly || g == Quarterly {
      MonthsThereAndBack(t, MonthsShifted(g, direction));
    }
  }

  lemma MonthsThereAndBack(t: int, n: int)
    requires n != 0
    ensures AddMonths(AddMonths(t, n), -n) == t <==> DateOf(t) <= DaysInMonth(MonthOf(t) + n)
  {
    hide MonthStart, MonthOfDay;
    var month, date := MonthOf(t) + n, DateOf(t);
    DateParts(t);
    assert date <= 31 by { MonthLength(MonthOf(t)); }
    assert 28 <= DaysInMonth(month) by { MonthLength(month); }
    var day := MonthStart(month) + date - 1;
    MakeDateSplits(day, TimeWithinDay(t));
    if date <= DaysInMonth(month) {
      MonthIsUnique(day, month);
    } else {
      DateOverflows(month, date);
      assert 28 <= DaysInMonth(MonthOf(t)) by { MonthLength(MonthOf(t)); }
      assert MonthOf(AddMonths(t, n)) + -n == MonthOf(t) + 1;
      assert AddMonths(AddMonths(t, n), -n)
          == MakeDate(MonthStart(MonthOf(t) + 1) + (date - DaysInMonth(month)) - 1, TimeWithinDay(t));
    }
  }

  /** In particular every instant on day 1 to 28 returns. */
  lemma EarlyDaysShiftBack(t: int, g: Granularity, direction: int)
    requires direction == 1 || direction == -1
    requires DateOf(t) <= 28
    ensures Shift(Shift(t, g, direction), g, -direction) == t
  {
    hide MonthStart, MonthOfDay, Shift;
    ShiftThereAndBack(t, g, direction);
    assert 28 <= DaysInMonth(MonthOf(t) + MonthsShifted(g, direction)) by {
      MonthLength(MonthOf(t) + MonthsShifted(g, direction));
    }
  }
}
