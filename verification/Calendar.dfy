/** The Gregorian calendar: breaking a time down into a date, and putting it together again. */
module Calendar {
  import opened Options

  // ---------------------------------------------------------------- the calendar

  /** Years count from 1900, as in struct tm. */
  predicate Leap(year: int) {
    (year + 1900) % 4 == 0 && ((year + 1900) % 100 != 0 || (year + 1900) % 400 == 0)
  }

  function YearLength(year: int): int {
    if Leap(year) then 366 else 365
  }

  /** Days from the start of 1970 to the start of the year, adding up the years between. */
  function YearStart(year: int): int
    decreases if year > 70 then year - 70 else 70 - year
  {
    if year == 70 then 0
    else if year > 70 then YearStart(year - 1) + YearLength(year - 1)
    else YearStart(year + 1) - YearLength(year)
  }

  const DAYS_IN_MONTH: seq<int> := [31, 28, 31, 30, 31, 30, 31, 31, 30, 31, 30, 31]
  const JULIAN_DAYS: seq<int> := [0, 31, 59, 90, 120, 151, 181, 212, 243, 273, 304, 334]

  function MonthLength(leap: bool, month: int): int
    requires 0 <= month < 12
  {
    DAYS_IN_MONTH[month] + if leap && month == 1 then 1 else 0
  }

  /** Days from the start of the year to the start of the month: julian_days_by_month. */
  function MonthStart(leap: bool, month: int): int
    requires 0 <= month < 12
  {
    JULIAN_DAYS[month] + if leap && month > 1 then 1 else 0
  }

  /** The fields of struct tm that are set. */
  datatype Date = Date(year: int, month: int, mday: int, yday: int, wday: int, hour: int, min: int, sec: int)

  predicate IsDay(d: Date) {
    && 0 <= d.month < 12 && 1 <= d.mday <= MonthLength(Leap(d.year), d.month)
    && d.yday == MonthStart(Leap(d.year), d.month) + d.mday - 1
    && d.wday == (YearStart(d.year) + d.yday + 4) % 7
  }

  predicate Valid(d: Date) {
    IsDay(d) && 0 <= d.hour < 24 && 0 <= d.min < 60 && 0 <= d.sec < 60
  }

  /** The day that a date names, counted from 1 January 1970. */
  function DayOf(d: Date): int {
    YearStart(d.year) + d.yday
  }

  /** The second that a date names. */
  function SecondOf(d: Date): int {
    60 * (60 * (24 * DayOf(d) + d.hour) + d.min) + d.sec
  }

  lemma MonthsFill(leap: bool, month: int)
    requires 0 <= month < 12
    ensures MonthStart(leap, month) + MonthLength(leap, month) == if month == 11 then (if leap then 366 else 365)
            else MonthStart(leap, month + 1)
    ensures MonthLength(leap, month) >= 28 && MonthStart(leap, month) >= 0 && MonthStart(leap, 0) == 0
  {}

  lemma {:induction false} MonthsGrow(leap: bool, a: int, b: int)
    requires 0 <= a < b < 12
    ensures MonthStart(leap, a) + MonthLength(leap, a) <= MonthStart(leap, b)
    decreases b - a
  {
    MonthsFill(leap, a);
    hide MonthStart, MonthLength;
    if a + 1 < b {
      MonthsFill(leap, a + 1);
      MonthsGrow(leap, a + 1, b);
    }
  }

  lemma NextYear(year: int)
    ensures YearStart(year + 1) == YearStart(year) + YearLength(year)
  {}

  lemma {:induction false} YearsGrow(a: int, b: int)
    requires a < b
    ensures YearStart(a) + YearLength(a) <= YearStart(b)
    decreases b - a
  {
    NextYear(a);
    hide YearStart;
    if a + 1 < b {
      YearsGrow(a + 1, b);
    }
  }

  lemma DayInYear(d: Date)
    requires IsDay(d)
    ensures 0 <= d.yday < YearLength(d.year)
  {
    MonthsFill(Leap(d.year), d.month);
    if d.month < 11 {
      MonthsGrow(Leap(d.year), d.month, 11);
      MonthsFill(Leap(d.year), 11);
    }
    hide MonthStart, MonthLength, YearStart;
  }

  lemma OneYear(a: Date, b: Date)
    requires IsDay(a) && IsDay(b) && DayOf(a) == DayOf(b)
    ensures a.year == b.year && a.yday == b.yday
  {
    DayInYear(a);
    DayInYear(b);
    hide IsDay, YearStart, YearLength;
    if a.year < b.year {
      YearsGrow(a.year, b.year);
    } else if b.year < a.year {
      YearsGrow(b.year, a.year);
    }
  }

  lemma OneMonth(a: Date, b: Date)
    requires IsDay(a) && IsDay(b) && a.year == b.year && a.yday == b.yday
    ensures a.month == b.month && a.mday == b.mday && a.wday == b.wday
  {
    hide MonthStart, MonthLength, YearStart;
    if a.month < b.month {
      MonthsGrow(Leap(a.year), a.month, b.month);
    } else if b.month < a.month {
      MonthsGrow(Leap(a.year), b.month, a.month);
    }
  }

  /** A second has one date. */
  lemma OneDate(a: Date, b: Date)
    requires Valid(a) && Valid(b) && SecondOf(a) == SecondOf(b)
    ensures a == b
  {
    hide IsDay, YearStart;
    assert DayOf(a) == DayOf(b) && a.hour == b.hour && a.min == b.min && a.sec == b.sec by {
      hide DayOf;
    }
    OneYear(a, b);
    OneMonth(a, b);
  }

  // ---------------------------------------------------------------- one day after the other

  /** Thirty days hath September, April, June, and November; months count from 0. */
  function DaysOf(year: int, month: int): int {
    if month == 8 || month == 3 || month == 5 || month == 10 then 30
    else if month == 1 then (if year % 4 == 0 && (year % 100 != 0 || year % 400 == 0) then 29 else 28)
    else 31
  }

  lemma MonthLengthIs(year: int, month: int)
    requires 0 <= month < 12
    ensures MonthLength(Leap(year), month) == DaysOf(year + 1900, month)
  {}

  /** The date one day later. */
  function Tomorrow(d: Date): Date {
    var e := d.(wday := if d.wday == 6 then 0 else d.wday + 1);
    if d.mday < DaysOf(d.year + 1900, d.month) then e.(mday := d.mday + 1, yday := d.yday + 1)
    else if d.month < 11 then e.(mday := 1, month := d.month + 1, yday := d.yday + 1)
    else e.(mday := 1, month := 0, yday := 0, year := d.year + 1)
  }

  /** The date n days after Thursday, 1 January 1970. */
  function DateOfDay(n: nat): Date {
    if n == 0 then Date(70, 0, 1, 0, 4, 0, 0, 0) else Tomorrow(DateOfDay(n - 1))
  }

  lemma Epoch()
    ensures Valid(Date(70, 0, 1, 0, 4, 0, 0, 0)) && SecondOf(Date(70, 0, 1, 0, 4, 0, 0, 0)) == 0
  {}

  /** The next day is in the calendar. */
  lemma NextInYear(d: Date)
    requires IsDay(d)
    ensures var e := Tomorrow(d);
            && DayOf(e) == DayOf(d) + 1 && 0 <= e.month < 12 && 1 <= e.mday <= MonthLength(Leap(e.year), e.month)
            && e.yday == MonthStart(Leap(e.year), e.month) + e.mday - 1
  {
    MonthLengthIs(d.year, d.month);
    MonthsFill(Leap(d.year), d.month);
    NextYear(d.year);
    StartsYear(d.year + 1);
    hide YearStart, Leap, MonthStart, MonthLength, DaysOf;
    if d.mday == MonthLength(Leap(d.year), d.month) && d.month < 11 {
      MonthsFill(Leap(d.year), d.month + 1);
    }
  }

  lemma NextWeekday(n: int)
    ensures (n + 1) % 7 == if n % 7 == 6 then 0 else n % 7 + 1
  {}

  lemma TomorrowIs(d: Date)
    ensures var e := Tomorrow(d);
            && e.wday == (if d.wday == 6 then 0 else d.wday + 1) && e.hour == d.hour && e.min == d.min && e.sec == d.sec
  {
    hide DaysOf;
  }

  /** From the date of a second follows that of 86400 seconds later. */
  lemma NextDay(d: Date)
    requires Valid(d)
    ensures Valid(Tomorrow(d)) && SecondOf(Tomorrow(d)) == SecondOf(d) + 86400
  {
    NextInYear(d);
    NextWeekday(DayOf(d) + 4);
    TomorrowIs(d);
    hide YearStart, Leap, MonthStart, MonthLength, Tomorrow;
  }

  /** Counting the days on from second 0 gives the valid dates of their seconds. */
  lemma {:induction false} DaysCount(n: nat)
    ensures Valid(DateOfDay(n)) && SecondOf(DateOfDay(n)) == 86400 * n
  {
    if n == 0 {
      Epoch();
    } else {
      DaysCount(n - 1);
      NextDay(DateOfDay(n - 1));
    }
    hide Valid, SecondOf, Tomorrow;
    assert DateOfDay(0) == Date(70, 0, 1, 0, 4, 0, 0, 0);
  }

  lemma StartsYear(year: int)
    ensures MonthStart(Leap(year), 0) == 0 && MonthLength(Leap(year), 0) == 31
  {}

  /** What the fields of a date are: those of the day, and the time of the day. */
  lemma DateFields(d: Date)
    requires Valid(d)
    ensures 0 <= d.month < 12 && 1 <= d.mday <= DaysOf(d.year + 1900, d.month)
    ensures var time := SecondOf(d);
            && d.wday == (time / 86400 + 4) % 7 && d.hour == time / 3600 % 24 && d.min == time / 60 % 60
            && d.sec == time % 60
  {
    MonthLengthIs(d.year, d.month);
    hide YearStart, Leap, MonthStart, MonthLength, DaysOf;
    var day := DayOf(d);
    assert SecondOf(d) == 86400 * day + (3600 * d.hour + 60 * d.min + d.sec);
    hide DayOf, IsDay;
    assert SecondOf(d) / 60 == 60 * (24 * day + d.hour) + d.min;
    assert SecondOf(d) / 3600 == 24 * day + d.hour;
    assert SecondOf(d) / 86400 == day;
  }

  // ---------------------------------------------------------------- years in closed form

  /** Leap years before the year, since 1970. */
  function LeapYears(year: int): int {
    (year + 1899) / 4 - (year + 1899) / 100 + (year + 1899) / 400 - 477
  }

  lemma QuotStep4(y: int)
    ensures y / 4 == (y - 1) / 4 + (if y % 4 == 0 then 1 else 0)
  {}

  lemma QuotStep100(y: int)
    ensures y / 100 == (y - 1) / 100 + (if y % 100 == 0 then 1 else 0)
    ensures y % 100 == 0 ==> y % 4 == 0
  {}

  lemma QuotStep400(y: int)
    ensures y / 400 == (y - 1) / 400 + (if y % 400 == 0 then 1 else 0)
    ensures y % 400 == 0 ==> y % 100 == 0
  {}

  lemma LeapYearsStep(year: int)
    ensures LeapYears(year + 1) == LeapYears(year) + if Leap(year) then 1 else 0
  {
    var y := year + 1900;
    QuotStep4(y);
    QuotStep100(y);
    QuotStep400(y);
  }

  lemma {:induction false} YearStartIs(year: int)
    ensures YearStart(year) == 365 * (year - 70) + LeapYears(year)
    decreases if year > 70 then year - 70 else 70 - year
  {
    hide LeapYears, Leap;
    if year > 70 {
      YearStartIs(year - 1);
      LeapYearsStep(year - 1);
    } else if year < 70 {
      YearStartIs(year + 1);
      LeapYearsStep(year);
    } else {
      assert LeapYears(70) == 0 by {
        FirstLeapYears();
      }
    }
  }

  lemma FirstLeapYears()
    ensures LeapYears(70) == 0 && LeapYears(108) == 9
  {}

  const CYCLE: int := 146097

  /** Years repeat every 400 years. */
  lemma Cycles(year: int, n: int)
    ensures YearStart(year + 400 * n) == YearStart(year) + CYCLE * n
  {
    YearStartIs(year);
    YearStartIs(year + 400 * n);
    hide YearStart;
    var y := year + 1899;
    assert (y + 400 * n) / 4 == y / 4 + 100 * n;
    assert (y + 400 * n) / 100 == y / 100 + 4 * n;
    assert (y + 400 * n) / 400 == y / 400 + n;
  }

  // ---------------------------------------------------------------- breaking down a time

  /** Division and remainder of C, truncating towards zero. */
  function Quot(a: int, b: int): int
    requires b > 0
  {
    if a >= 0 then a / b else -(-a / b)
  }

  function Rem(a: int, b: int): int
    requires b > 0
  {
    a - b * Quot(a, b)
  }

  lemma QuotRem(a: int, b: int)
    requires b > 0
    ensures -b < Rem(a, b) < b && (a >= 0 ==> Rem(a, b) >= 0) && (a <= 0 ==> Rem(a, b) <= 0)
    ensures a == b * Quot(a, b) + Rem(a, b)
  {
    if a < 0 {
      assert -a == b * (-a / b) + (-a) % b;
    }
  }

  const CHEAT_DAYS: int := 1199145600 / 24 / 60 / 60
  const CHEAT_YEARS: int := 108

  predicate FitsInt(year: int) {
    -0x8000_0000 <= year <= 0x7fff_ffff
  }

  /** The lines that take seconds, minutes and hours off a time and wrap negative ones. */
  method TimeOfDay(time: int) returns (day: int, hour: int, min: int, sec: int)
    ensures 0 <= hour < 24 && 0 <= min < 60 && 0 <= sec < 60
    ensures time == 60 * (60 * (24 * day + hour) + min) + sec
  {
    hide Rem, Quot;
    sec := Rem(time, 60);
    QuotRem(time, 60);
    var t := Quot(time, 60);
    min := Rem(t, 60);
    QuotRem(t, 60);
    t := Quot(t, 60);
    hour := Rem(t, 24);
    QuotRem(t, 24);
    day := Quot(t, 24);
    if sec < 0 {
      min := min - 1;
      sec := sec + 60;
    }
    if min < 0 {
      hour := hour - 1;
      min := min + 60;
    }
    if hour < 0 {
      day := day - 1;
      hour := hour + 24;
    }
  }

  /** The year and the days into it, forwards from a day that is not before the start of the year. */
  method YearForward(start: int, days: int) returns (year: int, m: int)
    requires days >= 0
    ensures YearStart(year) + m == YearStart(start) + days && 0 <= m < YearLength(year)
  {
    hide YearStart, Leap;
    year, m := start, days;
    var cycles := Quot(m, CYCLE);
    if cycles != 0 {
      Cycles(year, cycles);
      m := m - cycles * CYCLE;
      year := year + cycles * 400;
    }
    while m >= YearLength(year)
      invariant m >= 0 && YearStart(year) + m == YearStart(start) + days
      decreases m
    {
      NextYear(year);
      m := m - YearLength(year);
      year := year + 1;
    }
  }

  /** The year and the days back from its end, backwards from a day before the end of the year. */
  method YearBackward(start: int, days: int) returns (year: int, m: int)
    requires days < 0
    ensures YearStart(year + 1) + m == YearStart(start + 1) + days && -YearLength(year) <= m < 0
  {
    hide YearStart, Leap;
    year, m := start, days;
    QuotRem(m, CYCLE);
    var cycles := Quot(m, CYCLE) + 1;
    if cycles != 0 {
      Cycles(year + 1, cycles);
      m := m - cycles * CYCLE;
      year := year + cycles * 400;
      assert year + 1 == start + 1 + 400 * cycles;
    }
    while m < -YearLength(year)
      invariant m < 0 && YearStart(year + 1) + m == YearStart(start + 1) + days
      decreases -m
    {
      NextYear(year);
      m := m + YearLength(year);
      year := year - 1;
    }
  }

  /** The month and the days into it, from the days into the year. */
  method MonthForward(leap: bool, days: int) returns (month: int, m: int)
    requires 0 <= days < if leap then 366 else 365
    ensures 0 <= month < 12 && MonthStart(leap, month) + m == days && 0 <= m < MonthLength(leap, month)
  {
    hide MonthStart, MonthLength;
    month, m := 0, days;
    MonthsFill(leap, 0);
    while m >= MonthLength(leap, month)
      invariant 0 <= month < 12 && 0 <= m && MonthStart(leap, month) + m == days
      decreases m
    {
      MonthsFill(leap, month);
      m := m - MonthLength(leap, month);
      month := month + 1;
    }
  }

  /** The month and the days into it, from the days back from the end of the year. */
  method MonthBackward(leap: bool, days: int) returns (month: int, m: int)
    requires -(if leap then 366 else 365) <= days < 0
    ensures 0 <= month < 12 && 0 <= m < MonthLength(leap, month)
    ensures MonthStart(leap, month) + m == (if leap then 366 else 365) + days
  {
    hide MonthStart, MonthLength;
    month, m := 11, days;
    MonthsFill(leap, 11);
    while m < -MonthLength(leap, month)
      invariant 0 <= month < 12 && m < 0
      invariant MonthStart(leap, month) + MonthLength(leap, month) + m == (if leap then 366 else 365) + days
      decreases month
    {
      MonthsFill(leap, month);
      MonthsFill(leap, 0);
      if month > 0 {
        MonthsFill(leap, month - 1);
      }
      m := m + MonthLength(leap, month);
      month := month - 1;
    }
    m := m + MonthLength(leap, month);
  }

  /** ms_gmtime64_r: the date of a second, unless its year does not fit an int. */
  method Gmtime(time: int) returns (r: Option<Date>)
    ensures r.Some? ==> Valid(r.value) && SecondOf(r.value) == time && FitsInt(r.value.year)
    ensures r.Some? ==>
              var d := r.value;
              && 0 <= d.month < 12 && 1 <= d.mday <= DaysOf(d.year + 1900, d.month)
              && d.wday == (time / 86400 + 4) % 7 && d.hour == time / 3600 % 24 && d.min == time / 60 % 60
              && d.sec == time % 60
    ensures exists d: Date :: Valid(d) && SecondOf(d) == time
    ensures r.None? <==> forall d: Date :: Valid(d) && SecondOf(d) == time ==> !FitsInt(d.year)
  {
    hide YearStart, MonthStart, MonthLength, Leap, DaysOf;
    var day, hour, min, sec := TimeOfDay(time);
    var wday := Rem(day + 4, 7);
    if wday < 0 {
      wday := wday + 7;
    }
    var year, m, month := 70, day, 0;
    CheatYear();
    if m >= CHEAT_DAYS {
      year := CHEAT_YEARS;
      m := m - CHEAT_DAYS;
    }
    if m >= 0 {
      year, m := YearForward(year, m);
      month, m := MonthForward(Leap(year), m);
    } else {
      year, m := YearBackward(year - 1, m);
      NextYear(year);
      month, m := MonthBackward(Leap(year), m);
    }
    ghost var yday := MonthStart(Leap(year), month) + m;
    assert YearStart(year) + yday == day;
    var date := Date(year, month, m + 1, MonthStart(Leap(year), month) + m, wday, hour, min, sec);
    assert wday == (day + 4) % 7 by {
      WeekDay(day + 4);
    }
    assert Valid(date) && SecondOf(date) == time;
    forall d: Date | Valid(d) && SecondOf(d) == time ensures d == date {
      OneDate(d, date);
    }
    DateFields(date);
    if !FitsInt(year) {
      return None;
    }
    return Some(date);
  }

  lemma CheatYear()
    ensures CHEAT_DAYS == 13879 && YearStart(70) == 0 && YearStart(CHEAT_YEARS) == CHEAT_DAYS
  {
    YearStartIs(CHEAT_YEARS);
    FirstLeapYears();
  }

  lemma WeekDay(n: int)
    ensures n % 7 == if Rem(n, 7) < 0 then Rem(n, 7) + 7 else Rem(n, 7)
  {}
}
