/** Nanosecond times and their date parts: each conversion undoes the other on the representable range. */
module TimeValues {
  import opened Options
  import opened Mseed
  import opened Calendar

  const NSTMODULUS: int := 1_000_000_000

  predicate IsInt64(n: int) {
    -0x8000_0000_0000_0000 <= n <= 0x7fff_ffff_ffff_ffff
  }

  /** Year, day of year, hour, minute, second and nanosecond. */
  datatype Parts = Parts(year: int, yday: int, hour: int, min: int, sec: int, nsec: int)

  predicate IsParts(p: Parts) {
    && 1 <= p.yday <= YearLength(p.year - 1900) && 0 <= p.hour < 24 && 0 <= p.min < 60 && 0 <= p.sec < 60
    && 0 <= p.nsec < NSTMODULUS
  }

  /** The second that the parts name. */
  function Seconds(p: Parts): int {
    60 * (60 * (24 * (YearStart(p.year - 1900) + p.yday - 1) + p.hour) + p.min) + p.sec
  }

  /** The time that the parts name. */
  function Nanos(p: Parts): int {
    Seconds(p) * NSTMODULUS + p.nsec
  }

  /** Mixed radix numbers have one set of digits. */
  lemma OneSet(d: int, h: int, m: int, s: int, d': int, h': int, m': int, s': int)
    requires 0 <= h < 24 && 0 <= m < 60 && 0 <= s < 60 && 0 <= h' < 24 && 0 <= m' < 60 && 0 <= s' < 60
    requires 60 * (60 * (24 * d + h) + m) + s == 60 * (60 * (24 * d' + h') + m') + s'
    ensures d == d' && h == h' && m == m' && s == s'
  {
    assert s == s';
    assert m == m';
  }

  /** A time has one set of parts. */
  lemma OneParts(p: Parts, q: Parts)
    requires IsParts(p) && IsParts(q) && Nanos(p) == Nanos(q)
    ensures p == q
  {
    hide YearStart, YearLength;
    assert p.nsec == q.nsec && Seconds(p) == Seconds(q) by {
      hide Seconds;
    }
    OneSet(YearStart(p.year - 1900) + p.yday - 1, p.hour, p.min, p.sec, YearStart(q.year - 1900) + q.yday - 1, q.hour,
           q.min, q.sec);
    hide Seconds, Nanos;
    if p.year < q.year {
      YearsGrow(p.year - 1900, q.year - 1900);
    } else if q.year < p.year {
      YearsGrow(q.year - 1900, p.year - 1900);
    }
  }

  // ---------------------------------------------------------------- the range of years

  lemma YearBounds()
    ensures YearStart(-223) == -107015 && YearStart(-222) == -106650 && YearStart(362) == 106651
            && YearStart(363) == 107016
    ensures YearStart(2) == -24837
  {
    YearStartIs(-223);
    YearStartIs(-222);
    YearStartIs(362);
    YearStartIs(363);
    YearStartIs(2);
    hide YearStart;
  }

  /** An int64 time is in a year from 1677 to 2262. */
  lemma Int64Years(p: Parts)
    requires IsParts(p) && IsInt64(Nanos(p))
    ensures 1677 <= p.year <= 2262
    ensures p.year >= 1678 <==> Nanos(p) >= YearStart(-222) * 86400 * NSTMODULUS
  {
    YearBounds();
    hide YearStart;
    var y := p.year - 1900;
    if y < -222 {
      if y < -223 {
        YearsGrow(y, -223);
      }
      YearsGrow(y, -222);
    } else if y > -222 {
      YearsGrow(-222, y);
      if y > 362 {
        if y > 363 {
          YearsGrow(363, y);
        }
      }
    }
  }

  // ---------------------------------------------------------------- breaking down a time

  /** The parts of a date and a nanosecond: the year is a uint16_t. */
  function PartsOf(d: Date, nsec: int): Parts {
    Parts((d.year + 1900) % 0x1_0000, d.yday + 1, d.hour, d.min, d.sec, nsec)
  }

  /** ms_nstime2time */
  method Nstime2Time(nstime: int) returns (r: Option<Parts>)
    requires IsInt64(nstime)
    ensures r.Some? && IsParts(r.value) && Nanos(r.value) == nstime
  {
    hide YearStart, YearLength, FitsInt, IsInt64, IsDay;
    QuotRem(nstime, NSTMODULUS);
    var isec := Quot(nstime, NSTMODULUS);
    var ifract := nstime - isec * NSTMODULUS;
    if nstime < 0 && ifract != 0 {
      isec := isec - 1;
      ifract := NSTMODULUS - (-ifract);
    }
    var date := Gmtime(isec);
    DateExists(isec, nstime, ifract, date);
    if date.None? {
      return None;
    }
    return Some(PartsOf(date.value, ifract));
  }

  /** The year of an int64 time fits both an int and a uint16_t. */
  lemma DateExists(isec: int, nstime: int, ifract: int, date: Option<Date>)
    requires IsInt64(nstime) && nstime == isec * NSTMODULUS + ifract && 0 <= ifract < NSTMODULUS
    requires exists d: Date :: Valid(d) && SecondOf(d) == isec
    requires date.Some? ==> Valid(date.value) && SecondOf(date.value) == isec
    requires date.None? ==> forall d: Date :: Valid(d) && SecondOf(d) == isec ==> !FitsInt(d.year)
    ensures date.Some? && IsParts(PartsOf(date.value, ifract)) && Nanos(PartsOf(date.value, ifract)) == nstime
  {
    hide YearStart, YearLength, IsDay;
    var d: Date :| Valid(d) && SecondOf(d) == isec;
    DayInYear(d);
    var p := Parts(d.year + 1900, d.yday + 1, d.hour, d.min, d.sec, ifract);
    Int64Years(p);
    if date.Some? {
      OneDate(d, date.value);
    }
  }

  // ---------------------------------------------------------------- putting a time together

  predicate InRange(p: Parts) {
    && 1678 <= p.year <= 2262 && 1 <= p.yday <= 365 + (if Leap(p.year - 1900) then 1 else 0)
    && 0 <= p.hour <= 23 && 0 <= p.min <= 59 && 0 <= p.sec <= 60 && 0 <= p.nsec <= 999_999_999
  }

  /** ms_time2nstime_int: >> 2 is a division by 4 that rounds down, / and % are those of C. */
  function Time2NstimeInt(p: Parts): int {
    var shortyear := p.year - 1900;
    var a4 := shortyear / 4 + 475 - (if shortyear % 4 == 0 then 1 else 0);
    var a100 := Quot(a4, 25) - (if Rem(a4, 25) < 0 then 1 else 0);
    var a400 := a100 / 4;
    var interveningLeapDays := (a4 - 492) - (a100 - 19) + (a400 - 4);
    var days := 365 * (shortyear - 70) + interveningLeapDays + (p.yday - 1);
    (60 * (60 * (24 * days + p.hour) + p.min) + p.sec) * NSTMODULUS + p.nsec
  }

  /** ms_time2nstime, before the result is stored in an int64_t */
  function Time2Nstime(p: Parts): int {
    if InRange(p) then Time2NstimeInt(p) else NSTERROR
  }

  /** The quotient that C truncates, corrected to round down. */
  lemma FloorQuot(a: int)
    ensures Quot(a, 25) - (if Rem(a, 25) < 0 then 1 else 0) == a / 25
  {}

  /** The leap days between are the ones counted by the calendar, in every year. */
  lemma LeapDays(year: int)
    ensures var a4 := (year / 4 + 475 - if year % 4 == 0 then 1 else 0);
            LeapYears(year) == (a4 - 492) - (a4 / 25 - 19) + (a4 / 25 / 4 - 4)
  {
    var y := year + 1899;
    var a4 := year / 4 + 475 - if year % 4 == 0 then 1 else 0;
    assert a4 == y / 4;
    assert y / 4 / 25 == y / 100;
    assert y / 100 / 4 == y / 400;
  }

  /** The formula counts the calendar's days. */
  lemma Time2NstimeIsNanos(p: Parts)
    ensures Time2NstimeInt(p) == Nanos(p)
  {
    DaysToYear(p.year - 1900);
    hide YearStart, Quot, Rem;
  }

  lemma DaysToYear(year: int)
    ensures var a4 := year / 4 + 475 - (if year % 4 == 0 then 1 else 0);
            var a100 := Quot(a4, 25) - (if Rem(a4, 25) < 0 then 1 else 0);
            365 * (year - 70) + (a4 - 492) - (a100 - 19) + (a100 / 4 - 4) == YearStart(year)
  {
    FloorQuot(year / 4 + 475 - if year % 4 == 0 then 1 else 0);
    LeapDays(year);
    YearStartIs(year);
    hide *;
  }

  /** A time in a supported year comes back from its parts; one from 1677 is refused. */
  lemma FromPartsOf(nstime: int, p: Parts)
    requires IsInt64(nstime) && IsParts(p) && Nanos(p) == nstime
    ensures Time2Nstime(p) == nstime <==> nstime >= YearStart(-222) * 86400 * NSTMODULUS
  {
    Int64Years(p);
    Time2NstimeIsNanos(p);
    YearBounds();
    hide YearStart, Nanos, Time2NstimeInt;
  }

  /** Parts in range come back from their time exactly when the second is not a leap second. */
  lemma ToPartsOf(p: Parts, q: Parts)
    requires InRange(p) && IsParts(q) && Nanos(q) == Time2Nstime(p)
    ensures q == p <==> p.sec <= 59
  {
    Time2NstimeIsNanos(p);
    hide Nanos, Time2NstimeInt, YearStart;
    if p.sec <= 59 {
      OneParts(p, q);
    }
  }

  const SENTINEL: Parts := Parts(1902, 1, 0, 0, 0, 0)

  lemma SentinelNanos()
    ensures IsParts(SENTINEL) && Nanos(SENTINEL) == NSTERROR
    ensures IsParts(Parts(1901, 365, 23, 59, 59, 0)) && Nanos(Parts(1901, 365, 23, 59, 59, 0)) == NSTERROR - NSTMODULUS
    ensures Nanos(Parts(1901, 365, 23, 59, 60, 0)) == NSTERROR
  {
    YearBounds();
    NextYear(1);
    assert YearLength(1) == 365 && YearLength(2) == 365;
    hide YearStart, YearLength;
  }

  /** A leap second has the time of the second after it. */
  lemma LeapSecond(p: Parts)
    requires InRange(p) && p.sec == 60
    ensures IsParts(p.(sec := 59)) && Nanos(p.(sec := 59)) == Nanos(p) - NSTMODULUS
  {
    hide YearStart;
  }

  /** The error value is the time of one instant that is in range, and of the leap second before it. */
  lemma SentinelIs(p: Parts)
    requires InRange(p)
    ensures Time2Nstime(p) == NSTERROR <==> p == SENTINEL || p == Parts(1901, 365, 23, 59, 60, 0)
  {
    Time2NstimeIsNanos(p);
    SentinelNanos();
    assert p.sec <= 59 ==> IsParts(p);
    hide YearStart, Time2NstimeInt, Nanos, IsParts;
    if Nanos(p) == NSTERROR {
      if p.sec <= 59 {
        OneParts(p, SENTINEL);
      } else {
        LeapSecond(p);
        OneParts(p.(sec := 59), Parts(1901, 365, 23, 59, 59, 0));
      }
    }
  }
}
