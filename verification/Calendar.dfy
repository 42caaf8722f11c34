/** The proleptic Gregorian calendar in UTC, with day 0 = Monday, 0001-01-01, and the ISO 8601
    week date built on it. Keys that the program formats as text are tuples here. */
module Calendar {
  import opened Numbers

  datatype Date = Date(year: int, month: int, day: int)

  datatype WeekKey = WeekKey(year: int, week: int)

  datatype MonthKey = MonthKey(year: int, month: int)

  const SECONDS_PER_DAY := 86400

  /** The UTC day of a time in seconds. */
  function DayOf(seconds: int): int {
    seconds / SECONDS_PER_DAY
  }

  lemma DayBounds(seconds: int)
    ensures 86400 * DayOf(seconds) <= seconds < 86400 * (DayOf(seconds) + 1)
  {
  }

  // ----- Years -----

  predicate IsLeap(y: int) {
    y % 4 == 0 && (y % 100 != 0 || y % 400 == 0)
  }

  /** The day number of 1 January. */
  function Jan1(y: int): int {
    var n := y - 1;
    365 * n + n / 4 - n / 100 + n / 400
  }

  lemma Quotient4(y: int)
    ensures y / 4 == (y - 1) / 4 + if y % 4 == 0 then 1 else 0
  {
  }

  lemma Quotient100(y: int)
    ensures y / 100 == (y - 1) / 100 + if y % 100 == 0 then 1 else 0
    ensures y % 100 == 0 ==> y % 4 == 0
  {
    var q, r := y / 100, y % 100;
    if r == 0 {
      Divide(y - 1, 100, q - 1, 99);
      Divide(y, 4, 25 * q, 0);
    } else {
      Divide(y - 1, 100, q, r - 1);
    }
  }

  lemma Quotient400(y: int)
    ensures y / 400 == (y - 1) / 400 + if y % 400 == 0 then 1 else 0
    ensures y % 400 == 0 ==> y % 100 == 0
  {
    var q, r := y / 400, y % 400;
    if r == 0 {
      Divide(y - 1, 400, q - 1, 399);
      Divide(y, 100, 4 * q, 0);
    } else {
      Divide(y - 1, 400, q, r - 1);
    }
  }

  lemma YearLength(y: int)
    ensures Jan1(y + 1) == Jan1(y) + if IsLeap(y) then 366 else 365
  {
    Quotient4(y);
    Quotient100(y);
    Quotient400(y);
  }

  lemma {:induction false} YearsApart(y: int, z: int)
    requires y < z
    ensures Jan1(y) + 365 * (z - y) <= Jan1(z) <= Jan1(y) + 366 * (z - y)
    decreases z - y
  {
    YearLength(z - 1);
    if y < z - 1 {
      YearsApart(y, z - 1);
    }
  }

  function YearFrom(d: int, y: int): (r: int)
    requires Jan1(y) <= d
    ensures Jan1(r) <= d < Jan1(r + 1)
    decreases d - Jan1(y)
  {
    YearLength(y);
    if d < Jan1(y + 1) then y else YearFrom(d, y + 1)
  }

  function YearOf(d: int): int {
    YearFrom(d, if d >= 0 then 1 else d / 365)
  }

  lemma YearBounds(d: int)
    ensures Jan1(YearOf(d)) <= d < Jan1(YearOf(d) + 1)
  {
  }

  lemma YearUnique(d: int, y: int)
    requires Jan1(y) <= d < Jan1(y + 1)
    ensures YearOf(d) == y
  {
    var z := YearOf(d);
    if y < z && y + 1 < z {
      YearsApart(y + 1, z);
    } else if z < y && z + 1 < y {
      YearsApart(z + 1, y);
    }
  }

  // ----- Months -----

  function DaysBefore(m: int): int
    requires 1 <= m <= 13
  {
    [0, 31, 59, 90, 120, 151, 181, 212, 243, 273, 304, 334, 365][m - 1]
  }

  /** The day number of the first of the month; month 13 is January of the next year. */
  function MonthStart(y: int, m: int): int
    requires 1 <= m <= 13
  {
    Jan1(y) + DaysBefore(m) + if m > 2 && IsLeap(y) then 1 else 0
  }

  function MonthFrom(y: int, d: int, m: int): (r: int)
    requires 1 <= m <= 12 && MonthStart(y, 1) <= d < MonthStart(y, m + 1)
    ensures 1 <= r <= m && MonthStart(y, r) <= d < MonthStart(y, r + 1)
    decreases m
  {
    if MonthStart(y, m) <= d then m else MonthFrom(y, d, m - 1)
  }

  function DateOf(d: int): Date {
    var y := YearOf(d);
    YearLength(y);
    var m := MonthFrom(y, d, 12);
    Date(y, m, d - MonthStart(y, m) + 1)
  }

  lemma DateBounds(d: int)
    ensures var date := DateOf(d);
            && 1 <= date.month <= 12 && date.year == YearOf(d)
            && MonthStart(date.year, date.month) <= d < MonthStart(date.year, date.month + 1)
            && d == MonthStart(date.year, date.month) + date.day - 1
  {
    YearLength(YearOf(d));
  }

  lemma {:induction false} MonthsOrdered(y: int, m: int, n: int)
    requires 1 <= m <= n <= 13
    ensures MonthStart(y, m) <= MonthStart(y, n)
  {
  }

  lemma NewYear(y: int)
    ensures MonthStart(y, 13) == MonthStart(y + 1, 1)
  {
    YearLength(y);
  }

  /** The day whose number is right for a date has that date. */
  lemma DateUnique(d: int, y: int, m: int)
    requires 1 <= m <= 12 && MonthStart(y, m) <= d < MonthStart(y, m + 1)
    ensures DateOf(d) == Date(y, m, d - MonthStart(y, m) + 1)
  {
    hide DateOf, YearOf;
    DateBounds(d);
    YearLength(y);
    MonthsOrdered(y, 1, m);
    MonthsOrdered(y, m + 1, 13);
    YearUnique(d, y);
    var n := DateOf(d).month;
    if n < m {
      MonthsOrdered(y, n + 1, m);
    } else if m < n {
      MonthsOrdered(y, m + 1, n);
    }
  }

  /** The calendar is anchored: day 0 is 1 January of year 1, day 719162 is the Unix epoch. */
  lemma Epoch()
    ensures DateOf(0) == Date(1, 1, 1)
    ensures DateOf(719162) == Date(1970, 1, 1)
  {
    hide DateOf;
    DateUnique(0, 1, 1);
    DateUnique(719162, 1970, 1);
  }

  lemma MonthLength(y: int, m: int)
    requires 1 <= m <= 12
    ensures MonthStart(y, m + 1) - MonthStart(y, m) ==
            if m == 2 then (if y % 4 == 0 && (y % 100 != 0 || y % 400 == 0) then 29 else 28)
            else if m in {4, 6, 9, 11} then 30 else 31
  {
    hide Jan1;
  }

  /** The day after a date is the next date: of the month, of the year, or the next 1 January. */
  lemma NextDate(d: int)
    ensures var a := DateOf(d);
            var leap := a.year % 4 == 0 && (a.year % 100 != 0 || a.year % 400 == 0);
            var last := if a.month == 2 then (if leap then 29 else 28)
                        else if a.month in {4, 6, 9, 11} then 30 else 31;
            && 1 <= a.month <= 12 && 1 <= a.day <= last
            && DateOf(d + 1) == if a.day < last then Date(a.year, a.month, a.day + 1)
                                else if a.month < 12 then Date(a.year, a.month + 1, 1)
                                else Date(a.year + 1, 1, 1)
  {
    hide DateOf, MonthStart, IsLeap;
    DateBounds(d);
    var a := DateOf(d);
    MonthLength(a.year, a.month);
    if d + 1 < MonthStart(a.year, a.month + 1) {
      DateUnique(d + 1, a.year, a.month);
    } else if a.month < 12 {
      MonthLength(a.year, a.month + 1);
      DateUnique(d + 1, a.year, a.month + 1);
    } else {
      NewYear(a.year);
      MonthLength(a.year + 1, 1);
      DateUnique(d + 1, a.year + 1, 1);
    }
  }

  /** A date names one day. */
  lemma DateInjective(d: int, e: int)
    ensures DateOf(d) == DateOf(e) <==> d == e
  {
    DateBounds(d);
    DateBounds(e);
  }

  function MonthOf(d: int): MonthKey {
    MonthKey(DateOf(d).year, DateOf(d).month)
  }

  function FirstOfMonth(d: int): int {
    DateBounds(d);
    MonthStart(DateOf(d).year, DateOf(d).month)
  }

  function FirstOfNextMonth(d: int): int {
    DateBounds(d);
    MonthStart(DateOf(d).year, DateOf(d).month + 1)
  }

  /** The days that share a month key are the days from the first of the month up to the first
      of the next, over year ends too. */
  lemma SameMonth(d: int, e: int)
    ensures FirstOfMonth(d) <= d < FirstOfNextMonth(d)
    ensures MonthOf(e) == MonthOf(d) <==> FirstOfMonth(d) <= e < FirstOfNextMonth(d)
  {
    hide DateOf, MonthStart;
    DateBounds(d);
    DateBounds(e);
    if FirstOfMonth(d) <= e < FirstOfNextMonth(d) {
      DateUnique(e, DateOf(d).year, DateOf(d).month);
    }
  }

  /** Months have 28, 29, 30 or 31 days. */
  lemma MonthLengths(d: int)
    ensures var y, m := MonthOf(d).year, MonthOf(d).month;
            FirstOfNextMonth(d) - FirstOfMonth(d) ==
            if m == 2 then (if y % 4 == 0 && (y % 100 != 0 || y % 400 == 0) then 29 else 28)
            else if m in {4, 6, 9, 11} then 30 else 31
  {
    hide DateOf, MonthStart;
    DateBounds(d);
    MonthLength(DateOf(d).year, DateOf(d).month);
  }

  // ----- ISO weeks -----

  function Monday(d: int): int {
    d - d % 7
  }

  /** `time.Weekday`: Sunday is 0. */
  function Weekday(d: int): int {
    (d + 1) % 7
  }

  /** Days of the week follow one another, 1 January 1970 is a Thursday, and `Monday` is the last
      Monday up to the day. */
  lemma Weekdays(d: int)
    ensures DateOf(719162) == Date(1970, 1, 1) && Weekday(719162) == 4
    ensures Weekday(d + 1) == if Weekday(d) == 6 then 0 else Weekday(d) + 1
    ensures Weekday(Monday(d)) == 1 && Monday(d) <= d < Monday(d) + 7
  {
    hide DateOf;
    Epoch();
  }

  /** A week belongs to the year of its Thursday and is numbered from that year's first. */
  function WeekOf(d: int): WeekKey {
    var thursday := Monday(d) + 3;
    var y := YearOf(thursday);
    WeekKey(y, (thursday - Jan1(y)) / 7 + 1)
  }

  lemma SameMonday(d: int, e: int)
    ensures Monday(d) == Monday(e) <==> Monday(d) <= e < Monday(d) + 7
    ensures (Monday(d) + 3) % 7 == (Monday(e) + 3) % 7
  {
    assert Monday(d) == 7 * (d / 7) && Monday(e) == 7 * (e / 7);
  }

  /** Two Thursdays in the same sevenths from some day are the same. */
  lemma SameQuotient(s: int, t: int, from: int)
    requires s % 7 == t % 7 && (s - from) / 7 == (t - from) / 7
    ensures s == t
  {
    assert s == 7 * (s / 7) + s % 7 && t == 7 * (t / 7) + t % 7;
    assert -7 < s - t < 7;
  }

  /** Two days share a week key exactly when they share their Monday. */
  lemma SameWeek(d: int, e: int)
    ensures WeekOf(d) == WeekOf(e) <==> Monday(d) == Monday(e)
    ensures WeekOf(d) == WeekOf(e) <==> Monday(d) <= e < Monday(d) + 7
  {
    hide Jan1, Monday;
    SameMonday(d, e);
    if WeekOf(d) == WeekOf(e) {
      SameQuotient(Monday(d) + 3, Monday(e) + 3, Jan1(WeekOf(d).year));
    }
  }

  lemma FirstWeek(y: int)
    ensures WeekOf(Jan1(y) + 3) == WeekKey(y, 1)
  {
    var d := Jan1(y) + 3;
    var thursday := Monday(d) + 3;
    YearLength(y);
    YearUnique(thursday, y);
  }

  /** Section 4.1.4 of ISO 8601: 4 January is always in week 1 of its year. */
  lemma FourthOfJanuary(d: int)
    requires DateOf(d).month == 1 && DateOf(d).day == 4
    ensures WeekOf(d) == WeekKey(DateOf(d).year, 1)
  {
    hide DateOf, WeekOf, Jan1;
    DateBounds(d);
    FirstWeek(DateOf(d).year);
  }

  lemma WeekRange(d: int)
    ensures 1 <= WeekOf(d).week <= 53
  {
    YearLength(YearOf(Monday(d) + 3));
  }

  lemma NextMonday(d: int)
    ensures Monday(d + 7) == Monday(d) + 7
  {
  }

  lemma ThursdaySteps(t: int, y: int)
    requires Jan1(y) <= t < Jan1(y + 1)
    ensures t + 7 < Jan1(y + 1) ==> YearOf(t + 7) == y && (t + 7 - Jan1(y)) / 7 == (t - Jan1(y)) / 7 + 1
    ensures t + 7 >= Jan1(y + 1) ==>
              YearOf(t + 7) == y + 1 && (t + 7 - Jan1(y + 1)) / 7 == 0 && (t - Jan1(y)) / 7 >= 51
  {
    hide YearOf, Jan1;
    YearLength(y);
    YearLength(y + 1);
    if t + 7 < Jan1(y + 1) {
      YearUnique(t + 7, y);
    } else {
      YearUnique(t + 7, y + 1);
    }
  }

  /** The next week has the next number, or is the first of the next year after week 52 or 53. */
  lemma NextWeek(d: int)
    ensures var w, next := WeekOf(d), WeekOf(d + 7);
            next == WeekKey(w.year, w.week + 1) || (next == WeekKey(w.year + 1, 1) && w.week >= 52)
  {
    hide Jan1, YearOf, Monday;
    NextMonday(d);
    var t := Monday(d) + 3;
    YearBounds(t);
    ThursdaySteps(t, YearOf(t));
  }
}
