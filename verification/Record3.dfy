/** Version 3 records as bytes, and reading one from a buffer. */
module Record3 {
  import opened Mseed
  import opened Calendar
  import opened TimeValues
  import opened Bytes
  import Crc

  const MINRECLEN: int := 40
  const MAXRECLEN: int := 10485760
  const FIXED_LENGTH: int := 40

  /** The size of an identifier field, which holds a terminating zero too. */
  const SID_SIZE: int := 64

  // ---------------------------------------------------------------- the CRC field

  /** A CRC in four bytes. */
  function CrcBytes(c: bv32): (s: seq<bv8>)
    ensures |s| == 4
  {
    [(c & 0xff) as bv8, ((c >> 8) & 0xff) as bv8, ((c >> 16) & 0xff) as bv8, ((c >> 24) & 0xff) as bv8]
  }

  function CrcFrom(s: seq<bv8>): bv32
    requires |s| == 4
  {
    Crc.Word(s[0], s[1], s[2], s[3])
  }

  lemma CrcReads(c: bv32)
    ensures CrcFrom(CrcBytes(c)) == c
  {}

  // ---------------------------------------------------------------- records

  /** What a record says apart from its samples. */
  datatype Header = Header(flags: bv8, start: Parts, encoding: bv8, rate: seq<bv8>, pubversion: bv8, sid: seq<bv8>,
                           extra: seq<bv8>)

  predicate FitsFormat(h: Header) {
    && IsParts(h.start) && 0 <= h.start.year < 0x1_0000 && |h.rate| == 8 && |h.sid| < SID_SIZE && |h.extra| < 0x1_0000
  }

  function TimeBytes(p: Parts): (s: seq<bv8>)
    requires IsParts(p) && 0 <= p.year < 0x1_0000
    ensures |s| == 11
  {
    Le(p.nsec, 4) + (Le(p.year, 2) + (Le(p.yday, 2) + [Byte(p.hour), Byte(p.min), Byte(p.sec)]))
  }

  /** The header of a record, as far as its CRC field, from there to the payload length, and the rest. */
  function Front(h: Header, count: int): (s: seq<bv8>)
    requires FitsFormat(h) && 0 <= count < 0x1_0000_0000
    ensures |s| == 28
  {
    ([0x4D, 0x53, 3, h.flags] + (TimeBytes(h.start) + ([h.encoding] + h.rate))) + Le(count, 4)
  }

  function Back(h: Header, datalength: int): (s: seq<bv8>)
    requires FitsFormat(h) && 0 <= datalength < 0x1_0000_0000
    ensures |s| == 8 + |h.sid| + |h.extra|
  {
    [h.pubversion, Byte(|h.sid|)] + (Le(|h.extra|, 2) + (Le(datalength, 4) + (h.sid + h.extra)))
  }

  /** A record with the given CRC field. */
  function RecordBytes(h: Header, count: int, crc: bv32, payload: seq<bv8>): (s: seq<bv8>)
    requires FitsFormat(h) && 0 <= count < 0x1_0000_0000 && |payload| < 0x1_0000_0000
    ensures |s| == FIXED_LENGTH + |h.sid| + |h.extra| + |payload|
  {
    Front(h, count) + (CrcBytes(crc) + (Back(h, |payload|) + payload))
  }

  /** The CRC of a record whose CRC field is zero. */
  function RecordCrc(h: Header, count: int, payload: seq<bv8>): bv32
    requires FitsFormat(h) && 0 <= count < 0x1_0000_0000 && |payload| < 0x1_0000_0000
  {
    Crc.Checksum(RecordBytes(h, count, 0, payload), 0)
  }

  /** A record with its CRC. */
  function Sealed(h: Header, count: int, payload: seq<bv8>): (s: seq<bv8>)
    requires FitsFormat(h) && 0 <= count < 0x1_0000_0000 && |payload| < 0x1_0000_0000
    ensures |s| == FIXED_LENGTH + |h.sid| + |h.extra| + |payload|
  {
    RecordBytes(h, count, RecordCrc(h, count, payload), payload)
  }

  // ---------------------------------------------------------------- reading

  /** An MS3Record as parsed: the payload is not decoded. */
  datatype Parsed = Parsed(reclen: int, flags: bv8, start: int, encoding: bv8, rate: seq<bv8>, count: int,
                           pubversion: bv8, sid: seq<bv8>, extra: seq<bv8>, payload: seq<bv8>)

  /** The results of msr3_parse; a buffer without a version 3 signature goes to the version 2 branch. */
  datatype ParseResult = Success(r: Parsed) | NeedMore(bytes: int) | NotSeed | NotVersion3 | OutOfRange | InvalidCrc
           | GenError

  function U8(s: seq<bv8>, i: nat): (n: int)
    requires i < |s|
    ensures 0 <= n < 256
  {
    Value(s[i])
  }

  function Field(s: seq<bv8>, i: nat, k: nat): (n: int)
    requires i + k <= |s|
    ensures n >= 0
  {
    FromLe(s[i..i + k])
  }

  /** MS3_ISVALIDHEADER */
  predicate ValidHeader(s: seq<bv8>)
    requires MINRECLEN <= |s|
  {
    s[0] == 0x4D && s[1] == 0x53 && s[2] == 3 && U8(s, 12) <= 23 && U8(s, 13) <= 59 && U8(s, 14) <= 60
  }

  /** The record length that ms3_detect adds up in 32 bits. */
  function DetectedLength(s: seq<bv8>): int
    requires MINRECLEN <= |s|
  {
    (FIXED_LENGTH + U8(s, 33) + Field(s, 34, 2) + Field(s, 36, 4)) % 0x1_0000_0000
  }

  function StartParts(s: seq<bv8>): Parts
    requires MINRECLEN <= |s|
  {
    Parts(Field(s, 8, 2), Field(s, 10, 2), U8(s, 12), U8(s, 13), U8(s, 14), Field(s, 4, 4))
  }

  /** The CRC of a whole record with its CRC field zeroed. */
  function ZeroedCrc(s: seq<bv8>): bv32
    requires MINRECLEN <= |s|
  {
    Crc.Checksum(s[..28] + [0, 0, 0, 0] + s[32..], 0)
  }

  /** msr3_unpack_mseed3 on a record of detected length */
  function Unpack(s: seq<bv8>, validate: bool): ParseResult
    requires MINRECLEN <= |s| <= MAXRECLEN && ValidHeader(s)
  {
    var sidlength, extralength, datalength := U8(s, 33), Field(s, 34, 2), Field(s, 36, 4);
    var headerlength := FIXED_LENGTH + sidlength + extralength;
    if sidlength >= SID_SIZE then GenError
    else if validate && CrcFrom(s[28..32]) != ZeroedCrc(s) then InvalidCrc
    else if headerlength > |s| || headerlength + datalength > |s| then OutOfRange
    else if Time2Nstime(StartParts(s)) == NSTERROR then GenError
    else Success(Parsed(|s|, s[3], Time2Nstime(StartParts(s)), s[15], s[16..24], Field(s, 24, 4), s[32],
                        s[40..40 + sidlength], s[40 + sidlength..headerlength],
                          s[headerlength..headerlength + datalength]))
  }

  /** msr3_parse on a buffer */
  function Parse(s: seq<bv8>, validate: bool): (res: ParseResult)
    ensures res.Success? ==> MINRECLEN <= res.r.reclen <= |s|
  {
    if |s| < MINRECLEN then NotSeed
    else if !ValidHeader(s) then NotVersion3
    else
      var reclen := DetectedLength(s);
      if reclen == 0 then NeedMore(MINRECLEN)
      else if reclen < MINRECLEN || reclen > MAXRECLEN then OutOfRange
      else if reclen > |s| then NeedMore(if reclen - |s| > MAXRECLEN then MAXRECLEN else reclen - |s|)
      else Unpack(s[..reclen], validate)
  }

  // ---------------------------------------------------------------- a written record is read back

  lemma TimeFields(p: Parts)
    requires IsParts(p) && 0 <= p.year < 0x1_0000
    ensures var t := TimeBytes(p);
            && Field(t, 0, 4) == p.nsec && Field(t, 4, 2) == p.year && Field(t, 6, 2) == p.yday
            && U8(t, 8) == p.hour && U8(t, 9) == p.min && U8(t, 10) == p.sec
  {
    hide Le, FromLe, Byte, Value, Pow256, Leap;
    Sizes();
    LeReads(p.nsec, 4);
    LeReads(p.year, 2);
    LeReads(p.yday, 2);
    var n, y, d, hms := Le(p.nsec, 4), Le(p.year, 2), Le(p.yday, 2), [Byte(p.hour), Byte(p.min), Byte(p.sec)];
    assert TimeBytes(p)[0..4] == n && TimeBytes(p)[4..6] == y && TimeBytes(p)[6..8] == d && TimeBytes(p)[8..] == hms;
  }

  lemma FrontFields(h: Header, count: int)
    requires FitsFormat(h) && 0 <= count < 0x1_0000_0000
    ensures var f := Front(h, count);
            && f[0] == 0x4D && f[1] == 0x53 && f[2] == 3 && f[3] == h.flags
            && Field(f, 4, 4) == h.start.nsec && Field(f, 8, 2) == h.start.year && Field(f, 10, 2) == h.start.yday
            && U8(f, 12) == h.start.hour && U8(f, 13) == h.start.min && U8(f, 14) == h.start.sec
            && f[15] == h.encoding && f[16..24] == h.rate && Field(f, 24, 4) == count
  {
    hide Le, FromLe, Value, Byte, TimeBytes, IsParts, Pow256;
    Sizes();
    TimeFields(h.start);
    LeReads(count, 4);
    var t, f := TimeBytes(h.start), Front(h, count);
    assert f[4..15] == t && f[24..28] == Le(count, 4);
    assert f[4..8] == t[0..4] && f[8..10] == t[4..6] && f[10..12] == t[6..8];
    assert f[12] == t[8] && f[13] == t[9] && f[14] == t[10];
    assert f[16..24] == h.rate;
  }

  lemma BackFields(h: Header, datalength: int)
    requires FitsFormat(h) && 0 <= datalength < 0x1_0000_0000
    ensures var b := Back(h, datalength); var n := |h.sid|;
            && b[0] == h.pubversion && U8(b, 1) == n && Field(b, 2, 2) == |h.extra| && Field(b, 4, 4) == datalength
            && b[8..8 + n] == h.sid && b[8 + n..8 + n + |h.extra|] == h.extra
  {
    hide Le, FromLe, Value, Byte, IsParts, Pow256;
    Sizes();
    LeReads(|h.extra|, 2);
    LeReads(datalength, 4);
    var b, n := Back(h, datalength), |h.sid|;
    assert b[2..4] == Le(|h.extra|, 2) && b[4..8] == Le(datalength, 4);
    assert b[8..8 + n] == h.sid && b[8 + n..8 + n + |h.extra|] == h.extra;
  }

  /** The parts of a record are where the reader looks for them, whatever follows the record. */
  lemma RecordParts(h: Header, count: int, crc: bv32, payload: seq<bv8>, rest: seq<bv8>)
    requires FitsFormat(h) && 0 <= count < 0x1_0000_0000 && |payload| < 0x1_0000_0000
    ensures var s := RecordBytes(h, count, crc, payload) + rest; var b := Back(h, |payload|);
            && s[0..28] == s[..28] == Front(h, count) && s[28..32] == CrcBytes(crc)
            && s[32..32 + |b|] == b && s[32 + |b|..32 + |b| + |payload|] == payload
            && s[..32 + |b| + |payload|] == RecordBytes(h, count, crc, payload)
  {
    hide Front, Back, CrcBytes, FitsFormat;
  }

  lemma SubField(s: seq<bv8>, i: nat, j: nat, t: seq<bv8>, k: nat, n: nat)
    requires i <= j <= |s| && s[i..j] == t && k + n <= |t|
    ensures Field(s, i + k, n) == Field(t, k, n) && s[i + k..i + k + n] == t[k..k + n]
  {
    var x, y := s[i + k..i + k + n], t[k..k + n];
    assert |x| == |y|;
    forall m | 0 <= m < n ensures x[m] == y[m] {
      assert t[k + m] == s[i + k + m];
    }
    assert x == y;
  }

  lemma SubByte(s: seq<bv8>, i: nat, j: nat, t: seq<bv8>, k: nat)
    requires i <= j <= |s| && s[i..j] == t && k < |t|
    ensures s[i + k] == t[k]
  {}

  lemma FrontReads(s: seq<bv8>, h: Header, count: int)
    requires FitsFormat(h) && 0 <= count < 0x1_0000_0000 && |s| >= MINRECLEN && s[0..28] == Front(h, count)
    ensures ValidHeader(s) && StartParts(s) == h.start && s[3] == h.flags && s[15] == h.encoding && s[16..24] == h.rate
    ensures Field(s, 24, 4) == count
  {
    hide Front, FromLe, Value, Field;
    var f := Front(h, count);
    FrontFields(h, count);
    SubField(s, 0, 28, f, 4, 4);
    SubField(s, 0, 28, f, 8, 2);
    SubField(s, 0, 28, f, 10, 2);
    SubField(s, 0, 28, f, 16, 8);
    SubField(s, 0, 28, f, 24, 4);
    SubByte(s, 0, 28, f, 0);
    SubByte(s, 0, 28, f, 1);
    SubByte(s, 0, 28, f, 2);
    SubByte(s, 0, 28, f, 3);
    SubByte(s, 0, 28, f, 12);
    SubByte(s, 0, 28, f, 13);
    SubByte(s, 0, 28, f, 14);
    SubByte(s, 0, 28, f, 15);
  }

  lemma BackReads(s: seq<bv8>, h: Header, datalength: int)
    requires FitsFormat(h) && 0 <= datalength < 0x1_0000_0000
    requires 32 + |Back(h, datalength)| <= |s| && s[32..32 + |Back(h, datalength)|] == Back(h, datalength)
    ensures var n, m := |h.sid|, |h.extra|;
            && s[32] == h.pubversion && U8(s, 33) == n && Field(s, 34, 2) == m && Field(s, 36, 4) == datalength
            && s[40..40 + n] == h.sid && s[40 + n..40 + n + m] == h.extra
  {
    hide Back, FromLe, Value, Field;
    var b, n := Back(h, datalength), |h.sid|;
    BackFields(h, datalength);
    SubByte(s, 32, 32 + |b|, b, 0);
    SubByte(s, 32, 32 + |b|, b, 1);
    SubField(s, 32, 32 + |b|, b, 2, 2);
    SubField(s, 32, 32 + |b|, b, 4, 4);
    SubField(s, 32, 32 + |b|, b, 8, n);
    SubField(s, 32, 32 + |b|, b, 8 + n, |h.extra|);
  }

  /** Every field of a record reads as it was written. */
  lemma RecordFields(h: Header, count: int, crc: bv32, payload: seq<bv8>, rest: seq<bv8>)
    requires FitsFormat(h) && 0 <= count < 0x1_0000_0000 && |payload| < 0x1_0000_0000
    ensures var s := RecordBytes(h, count, crc, payload) + rest; var n, m := |h.sid|, |h.extra|;
            && ValidHeader(s) && StartParts(s) == h.start && s[3] == h.flags && s[15] == h.encoding
            && s[16..24] == h.rate
            && Field(s, 24, 4) == count && CrcFrom(s[28..32]) == crc
            && s[32] == h.pubversion && U8(s, 33) == n && Field(s, 34, 2) == m && Field(s, 36, 4) == |payload|
            && s[40..40 + n] == h.sid && s[40 + n..40 + n + m] == h.extra
            && s[40 + n + m..40 + n + m + |payload|] == payload
  {
    hide Front, Back, CrcBytes, CrcFrom, RecordBytes, FromLe, Value, IsParts, ValidHeader, StartParts, Field, U8,
         FitsFormat;
    var s := RecordBytes(h, count, crc, payload) + rest;
    RecordParts(h, count, crc, payload, rest);
    FrontReads(s, h, count);
    BackReads(s, h, |payload|);
    CrcReads(crc);
  }

  lemma ZeroCrc()
    ensures CrcBytes(0) == [0, 0, 0, 0]
  {}

  /** Zeroing the CRC field of a record gives the record with a zero CRC. */
  lemma ZeroedRecord(h: Header, count: int, crc: bv32, payload: seq<bv8>)
    requires FitsFormat(h) && 0 <= count < 0x1_0000_0000 && |payload| < 0x1_0000_0000
    ensures var s := RecordBytes(h, count, crc, payload);
            s[..28] + [0, 0, 0, 0] + s[32..] == RecordBytes(h, count, 0, payload)
  {
    ZeroCrc();
    hide Front, Back, CrcBytes, FitsFormat;
  }

  /** The start times that the reader accepts. */
  predicate Readable(p: Parts) {
    1678 <= p.year <= 2262 && p != SENTINEL
  }

  lemma StartReads(p: Parts)
    requires IsParts(p)
    ensures Time2Nstime(p) == (if Readable(p) then Nanos(p) else NSTERROR)
    ensures Readable(p) ==> Nanos(p) != NSTERROR
  {
    hide Time2NstimeInt, Nanos, YearLength;
    Time2NstimeIsNanos(p);
    if 1678 <= p.year <= 2262 {
      InRangeParts(p);
      SentinelIs(p);
    }
  }

  lemma InRangeParts(p: Parts)
    requires IsParts(p) && 1678 <= p.year <= 2262
    ensures InRange(p)
  {}

  function ParsedRecord(h: Header, count: int, payload: seq<bv8>): Parsed {
    Parsed(FIXED_LENGTH + |h.sid| + |h.extra| + |payload|, h.flags, Nanos(h.start), h.encoding, h.rate, count,
           h.pubversion, h.sid, h.extra, payload)
  }

  lemma UnpackSealed(h: Header, count: int, payload: seq<bv8>, validate: bool)
    requires FitsFormat(h) && 0 <= count < 0x1_0000_0000 && |payload| < 0x1_0000_0000
    requires |Sealed(h, count, payload)| <= MAXRECLEN
    ensures ValidHeader(Sealed(h, count, payload))
    ensures Unpack(Sealed(h, count, payload), validate)
            == if Readable(h.start) then Success(ParsedRecord(h, count, payload)) else GenError
  {
    hide Front, Back, RecordBytes, CrcBytes, CrcFrom, ValidHeader, StartParts, Field, U8, Time2Nstime, Nanos, Readable;
    var s, crc := Sealed(h, count, payload), RecordCrc(h, count, payload);
    RecordFields(h, count, crc, payload, []);
    assert s + [] == s;
    ZeroedRecord(h, count, crc, payload);
    StartReads(h.start);
  }

  /** Whatever bytes follow a record, parsing consumes exactly that record and recovers its header, extra
      headers and payload, its CRC being right. It fails exactly when the record is longer than supported or
      its start time is one that the reader refuses. */
  lemma ReadsBack(h: Header, count: int, payload: seq<bv8>, rest: seq<bv8>, validate: bool)
    requires FitsFormat(h) && 0 <= count < 0x1_0000_0000 && |payload| < 0x1_0000_0000
    requires |Sealed(h, count, payload)| < 0x1_0000_0000
    ensures Parse(Sealed(h, count, payload) + rest, validate)
            == if |Sealed(h, count, payload)| > MAXRECLEN then OutOfRange
               else if Readable(h.start) then Success(ParsedRecord(h, count, payload)) else GenError
  {
    hide Front, Back, RecordBytes, CrcBytes, CrcFrom, ValidHeader, StartParts, Field, U8, Readable, Unpack;
    var s := Sealed(h, count, payload);
    RecordFields(h, count, RecordCrc(h, count, payload), payload, rest);
    assert (s + rest)[..|s|] == s;
    if |s| <= MAXRECLEN {
      UnpackSealed(h, count, payload, validate);
    }
  }

  // ---------------------------------------------------------------- the reader's code

  /** The CRC is calculated in three parts, the second being four zero bytes. */
  method ValidateCrc(s: seq<bv8>, alignment: nat, bigendian: bool) returns (valid: bool)
    requires MINRECLEN <= |s| <= MAXRECLEN && alignment < 4
    ensures valid == (CrcFrom(s[28..32]) == ZeroedCrc(s))
  {
    hide Crc.Checksum, CrcFrom, ZeroedCrc;
    var calculated := Crc.Crc32c(s, 28, 0, alignment, bigendian);
    calculated := Crc.Crc32c([0, 0, 0, 0], 4, calculated, 0, bigendian);
    calculated := Crc.Crc32c(s[32..], |s| - 32, calculated, alignment, bigendian);
    ChainedCrc(s);
    valid := CrcFrom(s[28..32]) == calculated;
  }

  /** msr3_unpack_mseed3 */
  method UnpackRecord(s: seq<bv8>, validate: bool, alignment: nat, bigendian: bool) returns (res: ParseResult)
    requires MINRECLEN <= |s| <= MAXRECLEN && ValidHeader(s) && alignment < 4
    ensures res == Unpack(s, validate)
  {
    hide Field, U8, FromLe, Time2Nstime, StartParts, CrcFrom, ZeroedCrc;
    var sidlength, extralength, datalength := U8(s, 33), Field(s, 34, 2), Field(s, 36, 4);
    if sidlength >= SID_SIZE {
      return GenError;
    }
    if validate {
      var valid := ValidateCrc(s, alignment, bigendian);
      if !valid {
        return InvalidCrc;
      }
    }
    var headerlength := FIXED_LENGTH + sidlength + extralength;
    if headerlength > |s| || headerlength + datalength > |s| {
      return OutOfRange;
    }
    var start := Time2Nstime(StartParts(s));
    if start == NSTERROR {
      return GenError;
    }
    return Success(Parsed(|s|, s[3], start, s[15], s[16..24], Field(s, 24, 4), s[32],
                          s[40..40 + sidlength], s[40 + sidlength..headerlength],
                            s[headerlength..headerlength + datalength]));
  }

  /** The CRC in three parts is that of the whole record with its CRC field zeroed. */
  lemma ChainedCrc(s: seq<bv8>)
    requires MINRECLEN <= |s|
    ensures var zeros: seq<bv8> := [0, 0, 0, 0];
            Crc.Checksum(s[32..][..|s| - 32], Crc.Checksum(zeros[..4], Crc.Checksum(s[..28], 0))) == ZeroedCrc(s)
  {
    var zeros: seq<bv8> := [0, 0, 0, 0];
    assert s[32..][..|s| - 32] == s[32..] && zeros[..4] == zeros;
    hide Crc.Checksum;
    Crc.Chained(s[..28], zeros, 0);
    Crc.Chained(s[..28] + zeros, s[32..], 0);
  }

  /** msr3_parse and the version 3 branch of ms3_detect */
  method ParseRecord(s: seq<bv8>, validate: bool, alignment: nat, bigendian: bool) returns (res: ParseResult)
    requires alignment < 4
    ensures res == Parse(s, validate)
  {
    hide Unpack, ValidHeader, Field, U8;
    if |s| < MINRECLEN {
      return NotSeed;
    }
    if !ValidHeader(s) {
      return NotVersion3;
    }
    var reclen := (FIXED_LENGTH + U8(s, 33) + Field(s, 34, 2) + Field(s, 36, 4)) % 0x1_0000_0000;
    if reclen == 0 {
      return NeedMore(MINRECLEN);
    }
    if reclen < MINRECLEN || reclen > MAXRECLEN {
      return OutOfRange;
    } else if reclen > |s| {
      var need := reclen - |s|;
      return NeedMore(if need > MAXRECLEN then MAXRECLEN else need);
    }
    assert ValidHeader(s[..reclen]) by {
      HeaderPrefix(s, reclen);
    }
    res := UnpackRecord(s[..reclen], validate, alignment, bigendian);
  }

  lemma HeaderPrefix(s: seq<bv8>, n: nat)
    requires MINRECLEN <= n <= |s|
    ensures ValidHeader(s[..n]) == ValidHeader(s)
  {}
}
