/** Days since 1970-01-01 and the proleptic Gregorian calendar, as section 21.4.1 of ECMA-262
    defines them over unbounded integers.  A month is numbered absolutely: month `m` (0..11) of
    year `y` is `12 * y + m`. */
module CivilCalendar {

  predicate IsLeap(y: int) {
    y % 4 == 0 && (y % 100 != 0 || y % 400 == 0)
  }

  /** Day number of January 1st of year `y`. */
  function DayFromYear(y: int): int {
    365 * (y - 1970) + (y - 1969) / 4 - (y - 1901) / 100 + (y - 1601) / 400
  }

  /** Days of a year that precede its month `m`; `m == 12` gives the length of the year. */
  function DaysBeforeMonth(m: int, leap: bool): int
    requires 0 <= m <= 12
  {
    var feb29 := if leap then 1 else 0;
    match m
    case 0 => 0
    case 1 => 31
    case 2 => 59 + feb29
    case 3 => 90 + feb29
    case 4 => 120 + feb29
    case 5 => 151 + feb29
    case 6 => 181 + feb29
    case 7 => 212 + feb29
    case 8 => 243 + feb29
    case 9 => 273 + feb29
    case 10 => 304 + feb29
    case 11 => 334 + feb29
    case 12 => 365 + feb29
  }

  /** Day number of the first day of absolute month `month`. */
  function MonthStart(month: int): int {
    DayFromYear(month / 12) + DaysBeforeMonth(month % 12, IsLeap(month / 12))
  }

  function DaysInMonth(month: int): int {
    MonthStart(month + 1) - MonthStart(month)
  }

  lemma YearLength(y: int)
    ensures DayFromYear(y + 1) - DayFromYear(y) == DaysBeforeMonth(12, IsLeap(y))
  {
    FourthYears(y);
    Centuries(y);
    FourthCenturies(y);
  }

  lemma FourthYears(y: int)
    ensures (y - 1968) / 4 - (y - 1969) / 4 == if y % 4 == 0 then 1 else 0
  {}

  lemma Centuries(y: int)
    ensures (y - 1900) / 100 - (y - 1901) / 100 == if y % 100 == 0 then 1 else 0
    ensures y % 100 == 0 ==> y % 4 == 0
  {}

  lemma FourthCenturies(y: int)
    ensures (y - 1600) / 400 - (y - 1601) / 400 == if y % 400 == 0 then 1 else 0
    ensures y % 400 == 0 ==> y % 100 == 0
  {}

  /** YearFromTime of section 21.4.1.3: the year that contains day `d`.  The estimate through the
      400-year cycle of 146097 days is off by at most one year. */
  function YearOfDay(d: int): (y: int)
    ensures DayFromYear(y) <= d < DayFromYear(y + 1)
  {
    var g := 1970 + d * 400 / 146097;
    EstimateIsClose(d);
    if d < DayFromYear(g) then g - 1
    else if DayFromYear(g + 1) <= d then g + 1
    else g
  }

  lemma EstimateIsClose(d: int)
    ensures var g := 1970 + d * 400 / 146097;
            DayFromYear(g - 1) <= d < DayFromYear(g + 2)
  {
    var k := d * 400 / 146097;
    var g := 1970 + k;
    assert 146097 * k <= 400 * d < 146097 * k + 146097;
    YearBounds(g - 1);
    YearBounds(g + 2);
  }

  lemma YearBounds(y: int)
    ensures 146097 * (y - 1970) - 600 <= 400 * DayFromYear(y) <= 146097 * (y - 1970) + 600
  {
    var a, b, c := (y - 1969) / 4, (y - 1901) / 100, (y - 1601) / 400;
    assert 4 * a <= y - 1969 < 4 * a + 4;
    assert 100 * b <= y - 1901 < 100 * b + 100;
    assert 400 * c <= y - 1601 < 400 * c + 400;
  }

  /** The month of the year that holds the `n`-th day of a year (MonthFromTime, 21.4.1.4). */
  function MonthInYear(n: int, leap: bool): (m: int)
    requires 0 <= n < DaysBeforeMonth(12, leap)
    ensures 0 <= m < 12
    ensures DaysBeforeMonth(m, leap) <= n < DaysBeforeMonth(m + 1, leap)
  {
    if n < DaysBeforeMonth(1, leap) then 0
    else if n < DaysBeforeMonth(2, leap) then 1
    else if n < DaysBeforeMonth(3, leap) then 2
    else if n < DaysBeforeMonth(4, leap) then 3
    else if n < DaysBeforeMonth(5, leap) then 4
    else if n < DaysBeforeMonth(6, leap) then 5
    else if n < DaysBeforeMonth(7, leap) then 6
    else if n < DaysBeforeMonth(8, leap) then 7
    else if n < DaysBeforeMonth(9, leap) then 8
    else if n < DaysBeforeMonth(10, leap) then 9
    else if n < DaysBeforeMonth(11, leap) then 10
    else 11
  }

  /** The absolute month that contains day `d`. */
  function MonthOfDay(d: int): (month: int)
    ensures MonthStart(month) <= d < MonthStart(month + 1)
  {
    hide DayFromYear, DaysBeforeMonth, IsLeap, YearOfDay, MonthInYear, MonthStart;
    var y := YearOfDay(d);
    YearLength(y);
    var m := MonthInYear(d - DayFromYear(y), IsLeap(y));
    MonthHolds(y, m);
    12 * y + m
  }

  lemma MonthHolds(y: int, m: int)
    requires 0 <= m < 12
    ensures MonthStart(12 * y + m) == DayFromYear(y) + DaysBeforeMonth(m, IsLeap(y))
    ensures MonthStart(12 * y + m + 1) == DayFromYear(y) + DaysBeforeMonth(m + 1, IsLeap(y))
  {
    hide DayFromYear, DaysBeforeMonth, IsLeap;
    var month := 12 * y + m;
    assert month / 12 == y && month % 12 == m;
    MonthLength(month);
  }

  /** Day of the month, from 1 (DateFromTime, 21.4.1.5). */
  function DateOfDay(d: int): (date: int)
    ensures 1 <= date <= DaysInMonth(MonthOfDay(d))
  {
    d - MonthStart(MonthOfDay(d)) + 1
  }

  /** MakeDay of section 21.4.1.28: `month` and `date` may lie outside their usual ranges and
      then overflow into neighbouring years and months. */
  function MakeDay(year: int, month: int, date: int): int {
    var ym := year + month / 12;
    var mn := month % 12;
    DayFromYear(ym) + DaysBeforeMonth(mn, IsLeap(ym)) + date - 1
  }

  lemma MonthLength(month: int)
    ensures MonthStart(month + 1) - MonthStart(month)
            == DaysBeforeMonth(month % 12 + 1, IsLeap(month / 12)) - DaysBeforeMonth(month % 12, IsLeap(month / 12))
    ensures 28 <= DaysInMonth(month) <= 31
  {
    YearLength(month / 12);
    if month % 12 == 11 {
      assert (month + 1) / 12 == month / 12 + 1 && (month + 1) % 12 == 0;
    } else {
      assert (month + 1) / 12 == month / 12 && (month + 1) % 12 == month % 12 + 1;
    }
  }

  lemma LeapYears(y: int)
    ensures IsLeap(y) <==> (y % 4 == 0 && y % 100 != 0) || y % 400 == 0
  {
    FourthCenturies(y);
    Centuries(y);
  }

  /** Months have the lengths of the Gregorian calendar, and day 0 is the first of January 1970. */
  lemma MonthLengths(month: int)
    ensures MonthStart(12 * 1970) == 0
    ensures var y, m := month / 12, month % 12;
            DaysInMonth(month)
            == if m in {3, 5, 8, 10} then 30
               else if m != 1 then 31
               else if (y % 4 == 0 && y % 100 != 0) || y % 400 == 0 then 29
               else 28
  {
    assert MonthStart(12 * 1970) == 0 by { assert 12 * 1970 / 12 == 1970; }
    MonthLength(month);
    LeapYears(month / 12);
    hide MonthStart, IsLeap;
  }

  lemma MonthsIncrease(a: int, b: int)
    requires a < b
    ensures MonthStart(a) + 28 * (b - a) <= MonthStart(b)
    decreases b - a
  {
    assert 28 <= DaysInMonth(b - 1) by { MonthLength(b - 1); }
    if a < b - 1 { MonthsIncrease(a, b - 1); }
  }

  lemma MonthsAreDisjoint(d: int, a: int, b: int)
    requires MonthStart(a) <= d < MonthStart(a + 1)
    requires MonthStart(b) <= d < MonthStart(b + 1)
    ensures a == b
  {
    hide MonthStart;
    if a + 1 < b {
      MonthsIncrease(a + 1, b);
    } else if b + 1 < a {
      MonthsIncrease(b + 1, a);
    }
  }

  /** Only one month contains a given day. */
  lemma MonthIsUnique(d: int, month: int)
    requires MonthStart(month) <= d < MonthStart(month + 1)
    ensures MonthOfDay(d) == month
  {
    hide MonthStart, MonthOfDay;
    MonthsAreDisjoint(d, month, MonthOfDay(d));
  }

  /** From a day to its civil date and back. */
  lemma DayToCivilAndBack(d: int)
    ensures var month := MonthOfDay(d);
            MakeDay(month / 12, month % 12, DateOfDay(d)) == d
  {
    hide MonthStart, MonthOfDay, MakeDay;
    var month := MonthOfDay(d);
    MakeDayCountsMonths(month / 12, month % 12, DateOfDay(d));
  }

  /** From a civil date, which may name its month relative to any year, to a day and back. */
  lemma CivilToDayAndBack(year: int, month: int, date: int)
    requires 1 <= date <= DaysInMonth(12 * year + month)
    ensures MonthOfDay(MakeDay(year, month, date)) == 12 * year + month
    ensures DateOfDay(MakeDay(year, month, date)) == date
  {
    hide MonthStart, MakeDay;
    MakeDayCountsMonths(year, month, date);
    MonthIsUnique(MakeDay(year, month, date), 12 * year + month);
  }

  lemma MakeDayCountsMonths(year: int, month: int, date: int)
    ensures MakeDay(year, month, date) == MonthStart(12 * year + month) + date - 1
  {
    assert (12 * year + month) / 12 == year + month / 12;
    assert (12 * year + month) % 12 == month % 12;
  }

  /** A date past the end of its month lands in the following month. */
  lemma DateOverflows(month: int, date: int)
    requires DaysInMonth(month) < date <= 31
    ensures var d := MonthStart(month) + date - 1;
            MonthOfDay(d) == month + 1 && DateOfDay(d) == date - DaysInMonth(month)
  {
    hide MonthStart, MonthOfDay;
    assert 28 <= DaysInMonth(month) by { MonthLength(month); }
    assert 28 <= DaysInMonth(month + 1) by { MonthLength(month + 1); }
    MonthIsUnique(MonthStart(month) + date - 1, month + 1);
  }
}
