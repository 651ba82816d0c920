/** Start times in version 2 headers: a second, tenths of milliseconds and a microsecond offset. */
module TimeSplit {
  import opened Options
  import opened Mseed
  import opened Calendar
  import opened TimeValues

  /** The nearest microsecond, of two the one further from zero. */
  function Micros(nstime: int): int {
    if nstime >= 0 then (nstime + 500) / 1000 else -((500 - nstime) / 1000)
  }

  lemma MicrosIsNearest(nstime: int)
    ensures -500 <= 1000 * Micros(nstime) - nstime <= 500
    ensures 1000 * Micros(nstime) - nstime == 500 ==> nstime >= 0
    ensures 1000 * Micros(nstime) - nstime == -500 ==> nstime < 0
  {}

  /** The second, tenths of milliseconds and offset stand for a number of microseconds. */
  predicate Splits(micros: int, second: int, fsec: int, offset: int) {
    && 0 <= fsec <= 9999 && -50 <= offset <= 49
    && micros == 1_000_000 * second + 100 * fsec + offset
  }

  /** There is one such split. */
  lemma OneSplit(micros: int, s: int, f: int, o: int, s': int, f': int, o': int)
    requires Splits(micros, s, f, o) && Splits(micros, s', f', o')
    ensures s == s' && f == f' && o == o'
  {
    assert 10000 * s + f == 10000 * s' + f';
  }

  /** nstime2fsec_usec_offset */
  method Split(nstime: int) returns (second: int, fsec: int, usecOffset: int)
    ensures second % NSTMODULUS == 0 && Splits(Micros(nstime), second / NSTMODULUS, fsec, usecOffset)
  {
    var usecTime := Quot(nstime + (if nstime >= 0 then 500 else -500), 1000) * 1000;
    var totalUsec := Quot(usecTime, 1000);
    var totalFsec := Quot(usecTime, 100_000);
    assert totalUsec == Micros(nstime) && usecTime == 1000 * totalUsec;
    usecOffset := totalUsec - totalFsec * 100;
    if usecOffset > 49 {
      totalFsec := totalFsec + 1;
      usecOffset := usecOffset - 100;
    } else if usecOffset < -50 {
      totalFsec := totalFsec - 1;
      usecOffset := usecOffset + 100;
    }
    fsec := Rem(totalFsec, 10_000);
    var seconds := Quot(totalFsec, 10_000);
    if fsec < 0 {
      fsec := fsec + 10_000;
      seconds := seconds - 1;
    }
    second := seconds * NSTMODULUS;
  }

  // ---------------------------------------------------------------- header and reader

  /** A BTIME, and the offset in blockette 1001, if there is one. */
  datatype StartTime = StartTime(year: int, yday: int, hour: int, min: int, sec: int, fract: int, offset: Option<int>)

  /** The start time as it is written, with or without blockette 1001. */
  function HeaderTime(p: Parts, fsec: int, usecOffset: int, blockette: bool): StartTime {
    StartTime(p.year, p.yday, p.hour, p.min, p.sec, fsec, if blockette then Some(usecOffset) else None)
  }

  /** ms_btime2nstime */
  function Btime2Nstime(t: StartTime): int {
    if t.year == 0 then NSTUNSET
    else Time2Nstime(Parts(t.year, t.yday, t.hour, t.min, t.sec, t.fract * (NSTMODULUS / 10_000)))
  }

  /** The start time that msr3_unpack_mseed2 assembles, or None when it gives up. */
  function ReadStart(t: StartTime): Option<int> {
    var start := Btime2Nstime(t);
    if start == NSTERROR then None
    else Some(start + (if t.offset.Some? then t.offset.value * (NSTMODULUS / 1_000_000) else 0))
  }

  /** The lines of msr3_pack_header2_offsets that write the start time. Blockette 1001 is written for an offset
      or a timing quality. */
  method PackStart(nstime: int, quality: bool) returns (t: StartTime, ghost p: Parts, ghost usecOffset: int)
    requires IsInt64(nstime) && IsInt64(nstime / NSTMODULUS * NSTMODULUS)
             && IsInt64((nstime / NSTMODULUS + 1) * NSTMODULUS)
    ensures IsParts(p) && p.nsec == 0 && t == HeaderTime(p, t.fract, usecOffset, quality || usecOffset != 0)
    ensures Splits(Micros(nstime), Seconds(p), t.fract, usecOffset)
  {
    var second, fsec, offset := Split(nstime);
    SecondIsNear(nstime, second / NSTMODULUS, fsec, offset);
    hide Micros, YearStart, YearLength;
    var parts := Nstime2Time(second);
    p, usecOffset := parts.value, offset;
    t := HeaderTime(parts.value, fsec, offset, quality || offset != 0);
  }

  /** The split second is the one that the time is in, or the next. */
  lemma SecondIsNear(nstime: int, s: int, f: int, o: int)
    requires Splits(Micros(nstime), s, f, o)
    ensures s == nstime / NSTMODULUS || s == nstime / NSTMODULUS + 1
  {
    MicrosIsNearest(nstime);
    hide Micros;
  }

  /** Parts that name the error value, or a year that the reader refuses. */
  predicate Refuses(p: Parts, fsec: int) {
    p.year == 1677 || (p.(nsec := 0) == SENTINEL && fsec == 0)
  }

  /** What the reader makes of the second that the parts name, the fraction, and the offset if there is one. */
  lemma ReadStartIs(p: Parts, fsec: int, usecOffset: int, blockette: bool)
    requires IsParts(p) && 1677 <= p.year <= 2262 && 0 <= fsec <= 9999
    ensures ReadStart(HeaderTime(p, fsec, usecOffset, blockette))
            == if Refuses(p, fsec) then None
               else Some(Seconds(p) * NSTMODULUS + fsec * 100_000 + if blockette then usecOffset * 1000 else 0)
  {
    hide *;
    var z, q := p.(nsec := 0), p.(nsec := fsec * 100_000);
    SecondsOnly(p);
    SameSecond(z, fsec);
    assert q == z.(nsec := fsec * 100_000);
    Time2NstimeIsNanos(q);
    if InRange(q) {
      SentinelIs(q);
    }
    NormalSecond(p);
    SentinelSecond(p, fsec);
    ReadStartUnfolds(p, fsec, usecOffset, blockette);
    RefusesIs(p, fsec);
  }

  lemma SentinelSecond(p: Parts, fsec: int)
    ensures p.(nsec := fsec * 100_000) == SENTINEL <==> p.(nsec := 0) == SENTINEL && fsec == 0
  {}

  lemma NormalSecond(p: Parts)
    requires IsParts(p)
    ensures p.sec <= 59
  {
    hide YearStart, YearLength;
  }

  lemma ReadStartUnfolds(p: Parts, fsec: int, usecOffset: int, blockette: bool)
    requires 1677 <= p.year
    ensures var q := p.(nsec := fsec * 100_000);
            && ReadStart(HeaderTime(p, fsec, usecOffset, blockette))
               == (if !InRange(q) || Time2NstimeInt(q) == NSTERROR then None
                   else Some(Time2NstimeInt(q) + if blockette then usecOffset * 1000 else 0))
            && Nanos(q) == Seconds(q) * NSTMODULUS + q.nsec
            && (InRange(q) ==> Time2Nstime(q) == Time2NstimeInt(q))
  {
    hide InRange, Time2NstimeInt, Seconds;
  }

  lemma SecondsOnly(p: Parts)
    requires IsParts(p)
    ensures IsParts(p.(nsec := 0)) && Seconds(p.(nsec := 0)) == Seconds(p)
  {
    hide YearStart, YearLength;
  }

  /** Of the times a header can hold, the reader refuses those in 1677 and the one that is the error value;
      every other start time is recovered to the microsecond. */
  lemma HeaderReadsBack(nstime: int, p: Parts, fsec: int, usecOffset: int, quality: bool)
    requires IsParts(p) && p.nsec == 0 && IsInt64(Nanos(p)) && Splits(Micros(nstime), Seconds(p), fsec, usecOffset)
    ensures var r := ReadStart(HeaderTime(p, fsec, usecOffset, quality || usecOffset != 0));
            && (r.None? <==> p.year == 1677 || (p == SENTINEL && fsec == 0))
            && (r.Some? ==> r.value == 1000 * Micros(nstime))
  {
    hide Micros, Seconds, YearLength, ReadStart;
    Int64Years(p);
    ReadStartIs(p, fsec, usecOffset, quality || usecOffset != 0);
  }

  lemma SameSecond(p: Parts, fsec: int)
    requires IsParts(p) && p.nsec == 0 && 0 <= fsec <= 9999
    ensures Seconds(p.(nsec := fsec * 100_000)) == Seconds(p)
    ensures InRange(p.(nsec := fsec * 100_000)) <==> 1678 <= p.year <= 2262
  {
    hide YearStart, Leap;
  }

  // ---------------------------------------------------------------- records after the first

  /** The lines of msr3_pack_next that update the start time of a version 2 record after the first: they pair the
      rounded fraction with the second before rounding, and there is a place for the offset only if the first
      record had one. */
  method UpdateStart(first: StartTime, nstime: int)
    returns (t: StartTime, ghost p: Parts, ghost s: int, ghost usecOffset: int)
    requires IsInt64(nstime)
    ensures IsParts(p) && Nanos(p) == nstime && Splits(Micros(nstime), s, t.fract, usecOffset)
    ensures t == HeaderTime(p, t.fract, usecOffset, first.offset.Some?)
  {
    hide Micros, YearStart, YearLength;
    var second, fsec, offset := Split(nstime);
    var parts := Nstime2Time(nstime);
    p, s, usecOffset := parts.value, second / NSTMODULUS, offset;
    t := HeaderTime(parts.value, fsec, offset, first.offset.Some?);
  }

  /** The time is not within 50.5 microseconds of the next second. */
  predicate SameSecondRounded(nstime: int, p: Parts) {
    p.nsec < 999_949_500 || (p.nsec == 999_949_500 && nstime < 0)
  }

  /** The split second is that of the time exactly under this condition. */
  lemma RoundsWithin(nstime: int, p: Parts, s: int, fsec: int, usecOffset: int)
    requires IsParts(p) && Nanos(p) == nstime && Splits(Micros(nstime), s, fsec, usecOffset)
    ensures s == Seconds(p) <==> SameSecondRounded(nstime, p)
    ensures s == Seconds(p) || s == Seconds(p) + 1
  {
    hide Seconds;
    var sec := Seconds(p);
    assert nstime == sec * NSTMODULUS + p.nsec;
    MicrosIsNearest(nstime);
    hide Micros;
    var u := Micros(nstime) - 1_000_000 * sec;
    assert -500 <= 1000 * u - p.nsec <= 500;
    assert u < 999_950 <==> SameSecondRounded(nstime, p);
    if u < 999_950 {
      assert s == sec;
    } else {
      assert s == sec + 1;
    }
  }

  /** There is no offset when the time is nearest to a whole number of tenths of milliseconds. */
  lemma NoOffset(micros: int, s: int, fsec: int, usecOffset: int)
    requires Splits(micros, s, fsec, usecOffset)
    ensures usecOffset == 0 <==> micros % 100 == 0
  {
    assert micros == 100 * (10_000 * s + fsec) + usecOffset;
  }

  /** The second of the error value. */
  lemma ErrorSecond(p: Parts)
    requires IsParts(p)
    ensures p.(nsec := 0) == SENTINEL <==> Seconds(p) == -2_145_916_800
  {
    SecondsOnly(p);
    SentinelNanos();
    hide Seconds, YearLength;
    if Seconds(p) == -2_145_916_800 {
      OneParts(p.(nsec := 0), SENTINEL);
    }
  }

  /** The times that are rounded to the second of the error value. */
  lemma RoundsToSecond(nstime: int, second: int, nsec: int, fsec: int, usecOffset: int)
    requires nstime == second * NSTMODULUS + nsec && 0 <= nsec < NSTMODULUS
    requires Splits(Micros(nstime), second, fsec, usecOffset)
    ensures second == -2_145_916_800 && fsec == 0 <==> NSTERROR <= nstime <= NSTERROR + 49_500
  {
    MicrosIsNearest(nstime);
    var u := Micros(nstime) - 1_000_000 * second;
    hide Micros;
    assert u == 100 * fsec + usecOffset && -500 <= 1000 * u - nsec <= 500;
  }

  /** The times that the reader takes for the error value. */
  lemma ErrorTimes(nstime: int, p: Parts, fsec: int, usecOffset: int)
    requires IsParts(p) && Nanos(p) == nstime && Splits(Micros(nstime), Seconds(p), fsec, usecOffset)
    ensures p.(nsec := 0) == SENTINEL && fsec == 0 <==> NSTERROR <= nstime <= NSTERROR + 49_500
  {
    ErrorSecond(p);
    RoundsToSecond(nstime, Seconds(p), p.nsec, fsec, usecOffset);
    hide Seconds, Micros, YearLength, Splits;
  }

  /** The reader recovers the rounded start time of a later record exactly when the time is not in 1677, not among
      those taken for the error value, and not within 50.5 microseconds of the next second, and there is a place for
      the offset or the nearest microsecond is a whole number of tenths of milliseconds. */
  lemma LaterRecordTime(nstime: int, p: Parts, s: int, fsec: int, usecOffset: int, blockette: bool)
    requires IsParts(p) && IsInt64(nstime) && Nanos(p) == nstime && Splits(Micros(nstime), s, fsec, usecOffset)
    ensures ReadStart(HeaderTime(p, fsec, usecOffset, blockette)) == Some(1000 * Micros(nstime))
            <==> && p.year != 1677 && !(NSTERROR <= nstime <= NSTERROR + 49_500)
                 && SameSecondRounded(nstime, p) && (blockette || Micros(nstime) % 100 == 0)
  {
    hide *;
    Int64Years(p);
    SplitFraction(Micros(nstime), s, fsec, usecOffset);
    RoundsWithin(nstime, p, s, fsec, usecOffset);
    NoOffset(Micros(nstime), s, fsec, usecOffset);
    if s == Seconds(p) {
      ErrorTimes(nstime, p, fsec, usecOffset);
    }
    RefusesIs(p, fsec);
    ReadStartIs(p, fsec, usecOffset, blockette);
    PairedTime(Micros(nstime), s, Seconds(p), fsec, usecOffset, blockette);
  }

  lemma SplitFraction(micros: int, s: int, fsec: int, usecOffset: int)
    requires Splits(micros, s, fsec, usecOffset)
    ensures 0 <= fsec <= 9999
  {}

  lemma RefusesIs(p: Parts, fsec: int)
    ensures Refuses(p, fsec) <==> p.year == 1677 || (p.(nsec := 0) == SENTINEL && fsec == 0)
  {}

  /** A second and a fraction name the microsecond when they belong together and the offset is not lost. */
  lemma PairedTime(micros: int, s: int, second: int, fsec: int, usecOffset: int, blockette: bool)
    requires Splits(micros, s, fsec, usecOffset) && (s == second || s == second + 1)
    ensures second * NSTMODULUS + fsec * 100_000 + (if blockette then usecOffset * 1000 else 0) == 1000 * micros
            <==> s == second && (blockette || usecOffset == 0)
  {}
}
