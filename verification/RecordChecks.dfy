/** What the reader makes of any record, right or wrong, whole or not, and where in a record its fields are. */
module RecordChecks {
  import opened Bytes
  import opened CrcErrors
  import opened Mseed
  import opened Record3
  import opened TimeValues
  import Crc

  // ---------------------------------------------------------------- right and wrong CRC fields

  lemma UnpackAny(h: Header, count: int, crc: bv32, payload: seq<bv8>, validate: bool)
    requires FitsFormat(h) && 0 <= count < 0x1_0000_0000 && |payload| < 0x1_0000_0000
    requires |RecordBytes(h, count, crc, payload)| <= MAXRECLEN
    ensures ValidHeader(RecordBytes(h, count, crc, payload))
    ensures Unpack(RecordBytes(h, count, crc, payload), validate)
            == if validate && crc != RecordCrc(h, count, payload) then InvalidCrc
               else if Readable(h.start) then Success(ParsedRecord(h, count, payload)) else GenError
  {
    hide Front, Back, RecordBytes, CrcBytes, CrcFrom, ValidHeader, StartParts, Field, U8, Time2Nstime, Nanos, Readable;
    var s := RecordBytes(h, count, crc, payload);
    RecordFields(h, count, crc, payload, []);
    assert s + [] == s;
    ZeroedRecord(h, count, crc, payload);
    StartReads(h.start);
  }

  /** Whatever its CRC field and whatever bytes follow it: a record of unsupported length is refused for that, one whose
      CRC field is not its CRC for that if asked, one with an unreadable start time for that; any other is read. */
  lemma AnyRecord(h: Header, count: int, crc: bv32, payload: seq<bv8>, rest: seq<bv8>, validate: bool)
    requires FitsFormat(h) && 0 <= count < 0x1_0000_0000 && |payload| < 0x1_0000_0000
    requires |RecordBytes(h, count, crc, payload)| < 0x1_0000_0000
    ensures var s := RecordBytes(h, count, crc, payload);
            Parse(s + rest, validate)
            == if |s| > MAXRECLEN then OutOfRange
               else if validate && crc != RecordCrc(h, count, payload) then InvalidCrc
               else if Readable(h.start) then Success(ParsedRecord(h, count, payload)) else GenError
  {
    hide Front, Back, RecordBytes, CrcBytes, CrcFrom, ValidHeader, StartParts, Field, U8, Readable, Unpack;
    var s := RecordBytes(h, count, crc, payload);
    RecordFields(h, count, crc, payload, rest);
    assert (s + rest)[..|s|] == s;
    if |s| <= MAXRECLEN {
      UnpackAny(h, count, crc, payload, validate);
    }
  }

  // ---------------------------------------------------------------- damage

  /** The strings differ, and only in the bytes from i on and before j. */
  ghost predicate DifferWithin(s: seq<bv8>, t: seq<bv8>, i: nat, j: nat) {
    && |s| == |t| && i < j <= |s| && s != t
    && (forall k :: 0 <= k < |s| && !(i <= k < j) ==> t[k] == s[k])
  }

  /** In three parts, of which the middle ones differ. */
  lemma Parts3(s: seq<bv8>, t: seq<bv8>, i: nat, j: nat)
    requires DifferWithin(s, t, i, j)
    ensures s == s[..i] + s[i..j] + s[j..] && t == s[..i] + t[i..j] + s[j..] && s[i..j] != t[i..j]
  {
    assert t[..i] == s[..i] && t[j..] == s[j..];
    assert t == t[..i] + t[i..j] + t[j..];
  }

  function Zeroed(s: seq<bv8>): (z: seq<bv8>)
    requires MINRECLEN <= |s|
    ensures |z| == |s|
  {
    s[..28] + [0, 0, 0, 0] + s[32..]
  }

  lemma ZeroedAt(s: seq<bv8>, k: nat)
    requires MINRECLEN <= |s| && k < |s|
    ensures Zeroed(s)[k] == if 28 <= k < 32 then 0 else s[k]
  {}

  lemma ZeroedDiffer(s: seq<bv8>, t: seq<bv8>, i: nat, j: nat)
    requires MINRECLEN <= |s| && DifferWithin(s, t, i, j) && (j <= 28 || 32 <= i)
    ensures DifferWithin(Zeroed(s), Zeroed(t), i, j)
  {
    forall k | 0 <= k < |s| ensures Zeroed(s)[k] == (if 28 <= k < 32 then 0 else s[k])
                                    && Zeroed(t)[k] == if 28 <= k < 32 then 0 else t[k]
    {
      ZeroedAt(s, k);
      ZeroedAt(t, k);
    }
    var k :| 0 <= k < |s| && s[k] != t[k];
    assert Zeroed(s)[k] != Zeroed(t)[k];
    hide Zeroed;
  }

  lemma ZeroedCrcIs(s: seq<bv8>)
    requires MINRECLEN <= |s|
    ensures ZeroedCrc(s) == Crc.Checksum(Zeroed(s), 0)
  {}

  /** Damage within four adjacent bytes, on one side of the CRC field, changes the CRC of a record but not its CRC
      field. */
  lemma DamageDetected(s: seq<bv8>, t: seq<bv8>, i: nat, j: nat)
    requires MINRECLEN <= |s| && DifferWithin(s, t, i, j) && j <= i + 4 && (j <= 28 || 32 <= i)
    requires CrcFrom(s[28..32]) == ZeroedCrc(s)
    ensures CrcFrom(t[28..32]) != ZeroedCrc(t)
  {
    ZeroedDiffer(s, t, i, j);
    assert s[28..32] == t[28..32];
    hide *;
    var z, y := Zeroed(s), Zeroed(t);
    WithinBounds(z, y, i, j);
    Parts3(z, y, i, j);
    BurstDetected(z[..i], z[i..j], y[i..j], z[j..], 0);
    ZeroedCrcIs(s);
    ZeroedCrcIs(t);
  }

  lemma WithinBounds(s: seq<bv8>, t: seq<bv8>, i: nat, j: nat)
    requires DifferWithin(s, t, i, j)
    ensures i < j <= |s| == |t|
  {}

  lemma SealedIsRight(h: Header, count: int, payload: seq<bv8>)
    requires FitsFormat(h) && 0 <= count < 0x1_0000_0000 && |payload| < 0x1_0000_0000
    ensures var s := Sealed(h, count, payload); |s| >= MINRECLEN && CrcFrom(s[28..32]) == ZeroedCrc(s)
  {
    var s, crc := Sealed(h, count, payload), RecordCrc(h, count, payload);
    hide Front, Back, RecordBytes, CrcBytes, CrcFrom, ValidHeader, StartParts, Field, U8;
    RecordFields(h, count, crc, payload, []);
    assert s + [] == s;
    ZeroedRecord(h, count, crc, payload);
  }

  /** So a record damaged within four adjacent bytes of its payload is always refused for its CRC, if that is asked. */
  lemma DamagedPayload(h: Header, count: int, payload: seq<bv8>, damaged: seq<bv8>, i: nat, j: nat, rest: seq<bv8>)
    requires FitsFormat(h) && 0 <= count < 0x1_0000_0000 && |payload| < 0x1_0000_0000
    requires DifferWithin(payload, damaged, i, j) && j <= i + 4 && |Sealed(h, count, payload)| <= MAXRECLEN
    ensures Parse(RecordBytes(h, count, RecordCrc(h, count, payload), damaged) + rest, true) == InvalidCrc
  {
    hide *;
    var crc := RecordCrc(h, count, payload);
    var n := 40 + |h.sid| + |h.extra|;
    SealedIs(h, count, payload);
    SealedIsRight(h, count, payload);
    WithinBounds(payload, damaged, i, j);
    var s, t := Sealed(h, count, payload), RecordBytes(h, count, crc, damaged);
    PayloadsDiffer(h, count, crc, payload, damaged, i, j);
    DamageDetected(s, t, n + i, n + j);
    CrcFieldIs(h, count, crc, damaged);
    LengthLimit();
    AnyRecord(h, count, crc, damaged, rest, true);
  }

  lemma LengthLimit()
    ensures MAXRECLEN < 0x1_0000_0000
  {}

  lemma SealedIs(h: Header, count: int, payload: seq<bv8>)
    requires FitsFormat(h) && 0 <= count < 0x1_0000_0000 && |payload| < 0x1_0000_0000
    ensures Sealed(h, count, payload) == RecordBytes(h, count, RecordCrc(h, count, payload), payload)
  {
    hide RecordBytes, RecordCrc;
  }

  lemma PayloadsDiffer(h: Header, count: int, crc: bv32, payload: seq<bv8>, damaged: seq<bv8>, i: nat, j: nat)
    requires FitsFormat(h) && 0 <= count < 0x1_0000_0000 && |payload| < 0x1_0000_0000
    requires DifferWithin(payload, damaged, i, j)
    ensures var n := 40 + |h.sid| + |h.extra|;
            DifferWithin(RecordBytes(h, count, crc, payload), RecordBytes(h, count, crc, damaged), n + i, n + j)
  {
    var n := 40 + |h.sid| + |h.extra|;
    var front := Front(h, count) + (CrcBytes(crc) + Back(h, |payload|));
    assert RecordBytes(h, count, crc, payload) == front + payload;
    assert RecordBytes(h, count, crc, damaged) == front + damaged;
    hide Front, Back, CrcBytes, RecordBytes, FitsFormat;
    var k :| 0 <= k < |payload| && payload[k] != damaged[k];
    assert (front + payload)[n + k] != (front + damaged)[n + k];
  }

  lemma CrcFieldIs(h: Header, count: int, crc: bv32, payload: seq<bv8>)
    requires FitsFormat(h) && 0 <= count < 0x1_0000_0000 && |payload| < 0x1_0000_0000
    ensures var s := RecordBytes(h, count, crc, payload);
            |s| >= MINRECLEN && CrcFrom(s[28..32]) == crc && ZeroedCrc(s) == RecordCrc(h, count, payload)
  {
    var s := RecordBytes(h, count, crc, payload);
    hide Front, Back, RecordBytes, CrcBytes, CrcFrom, ValidHeader, StartParts, Field, U8;
    RecordFields(h, count, crc, payload, []);
    assert s + [] == s;
    ZeroedRecord(h, count, crc, payload);
  }

  // ---------------------------------------------------------------- records that are not all there

  /** Of a record of supported length the reader asks for just the bytes that are missing, once it has the least
      length. */
  lemma Truncated(h: Header, count: int, crc: bv32, payload: seq<bv8>, n: nat, validate: bool)
    requires FitsFormat(h) && 0 <= count < 0x1_0000_0000 && |payload| < 0x1_0000_0000
    requires n < |RecordBytes(h, count, crc, payload)| <= MAXRECLEN
    ensures var s := RecordBytes(h, count, crc, payload);
            Parse(s[..n], validate) == if n < 40 then NotSeed else NeedMore(|s| - n)
  {
    hide Front, Back, RecordBytes, CrcBytes, CrcFrom, StartParts, FromLe, Value, Unpack;
    var s := RecordBytes(h, count, crc, payload);
    if n >= 40 {
      RecordFields(h, count, crc, payload, []);
      assert s + [] == s;
      HeaderPrefix(s, n);
      assert s[..n][34..36] == s[34..36] && s[..n][36..40] == s[36..40] && s[..n][33] == s[33];
    }
  }

  /** A record is only ever read whole: its length is the sum of its parts, although the lengths are added in 32
      bits. */
  lemma ReadWhole(s: seq<bv8>, validate: bool)
    requires Parse(s, validate).Success?
    ensures var r := Parse(s, validate).r;
            && 40 <= r.reclen == 40 + |r.sid| + |r.extra| + |r.payload| <= |s|
            && r.sid == s[40..40 + |r.sid|] && r.extra == s[40 + |r.sid|..40 + |r.sid| + |r.extra|]
            && r.payload == s[40 + |r.sid| + |r.extra|..r.reclen]
  {
    hide *;
    ParseSuccess(s, validate);
    var n := DetectedLength(s);
    UnpackSuccess(s[..n], validate);
    assert forall i, j :: 0 <= i <= j <= n ==> s[..n][i..j] == s[i..j];
    LengthFields(s, n);
  }

  lemma ParseSuccess(s: seq<bv8>, validate: bool)
    requires Parse(s, validate).Success?
    ensures var n := DetectedLength(s);
            && 40 <= n <= |s| && n <= MAXRECLEN == 10485760 && |s| >= 40 == MINRECLEN
            && ValidHeader(s) && ValidHeader(s[..n])
            && Parse(s, validate) == Unpack(s[..n], validate)
  {
    hide Unpack, ValidHeader, DetectedLength;
    HeaderPrefix(s, DetectedLength(s));
  }

  lemma UnpackSuccess(s: seq<bv8>, validate: bool)
    requires MINRECLEN <= |s| <= MAXRECLEN && ValidHeader(s) && Unpack(s, validate).Success?
    ensures var r, n, m, l := Unpack(s, validate).r, U8(s, 33), Field(s, 34, 2), Field(s, 36, 4);
            && 40 + n + m + l <= |s| == r.reclen
            && r.sid == s[40..40 + n] && r.extra == s[40 + n..40 + n + m] && r.payload == s[40 + n + m..40 + n + m + l]
  {
    hide ValidHeader, U8, Field, ZeroedCrc, CrcFrom, Time2Nstime, StartParts;
  }

  lemma LengthFields(s: seq<bv8>, n: nat)
    requires 40 <= n <= |s| && n == DetectedLength(s)
    ensures U8(s[..n], 33) == U8(s, 33) && Field(s[..n], 34, 2) == Field(s, 34, 2)
            && Field(s[..n], 36, 4) == Field(s, 36, 4)
    ensures 40 + U8(s, 33) + Field(s, 34, 2) + Field(s, 36, 4) <= n ==>
              40 + U8(s, 33) + Field(s, 34, 2) + Field(s, 36, 4) == n
  {
    assert s[..n][34..36] == s[34..36] && s[..n][36..40] == s[36..40] && s[..n][33] == s[33];
    hide FromLe, Value;
  }

  // ---------------------------------------------------------------- where the fields are

  /** The number that a byte stands for. */
  lemma ValueIs(b: bv8)
    ensures Value(b) == (if b & 0x80 != 0 then 128 else 0) + (if b & 0x40 != 0 then 64 else 0)
                        + (if b & 0x20 != 0 then 32 else 0) + (if b & 0x10 != 0 then 16 else 0)
                        + (if b & 8 != 0 then 8 else 0) + (if b & 4 != 0 then 4 else 0)
                        + (if b & 2 != 0 then 2 else 0) + (if b & 1 != 0 then 1 else 0)
  {
    hide *;
    var b1 := Half(b);
    var b2 := Half(b1);
    var b3 := Half(b2);
    var b4 := Half(b3);
    var b5 := Half(b4);
    var b6 := Half(b5);
    var b7 := Half(b6);
    ValueOfByte(b);
    ValueStep(b, 8);
    ValueStep(b1, 7);
    ValueStep(b2, 6);
    ValueStep(b3, 5);
    ValueStep(b4, 4);
    ValueStep(b5, 3);
    ValueStep(b6, 2);
    ValueStep(b7, 1);
    ValueStep(Half(b7), 0);
    OddBits(b);
  }

  function Half(b: bv8): bv8 { b >> 1 }

  function Odd(b: bv8): int { if b & 1 != 0 then 1 else 0 }

  lemma ValueOfByte(b: bv8)
    ensures Value(b) == ValueOf(b, 8)
  {}

  lemma ValueStep(b: bv8, k: nat)
    ensures ValueOf(b, k) == if k == 0 then 0 else Odd(b) + 2 * ValueOf(Half(b), k - 1)
  {}

  lemma OddBits(b: bv8)
    ensures Odd(b) == (if b & 1 != 0 then 1 else 0) && Odd(Half(b)) == (if b & 2 != 0 then 1 else 0)
    ensures Odd(Half(Half(b))) == (if b & 4 != 0 then 1 else 0)
            && Odd(Half(Half(Half(b)))) == (if b & 8 != 0 then 1 else 0)
    ensures Odd(Half(Half(Half(Half(b))))) == (if b & 0x10 != 0 then 1 else 0)
    ensures Odd(Half(Half(Half(Half(Half(b)))))) == (if b & 0x20 != 0 then 1 else 0)
    ensures Odd(Half(Half(Half(Half(Half(Half(b))))))) == (if b & 0x40 != 0 then 1 else 0)
    ensures Odd(Half(Half(Half(Half(Half(Half(Half(b)))))))) == (if b & 0x80 != 0 then 1 else 0)
  {}

  /** A little-endian number of two bytes, and of four. */
  function Two(s: seq<bv8>, i: nat): int
    requires i + 2 <= |s|
  {
    Value(s[i]) + 256 * Value(s[i + 1])
  }

  function Four(s: seq<bv8>, i: nat): int
    requires i + 4 <= |s|
  {
    Value(s[i]) + 256 * Value(s[i + 1]) + 65536 * Value(s[i + 2]) + 16777216 * Value(s[i + 3])
  }

  lemma FieldsAre(s: seq<bv8>, i: nat)
    ensures i + 2 <= |s| ==> Field(s, i, 2) == Two(s, i)
    ensures i + 4 <= |s| ==> Field(s, i, 4) == Four(s, i)
  {
    hide Value;
    if i + 2 <= |s| {
      TwoLe(s[i..i + 2]);
    }
    if i + 4 <= |s| {
      FourLe(s[i..i + 4]);
    }
  }

  lemma TwoLe(b: seq<bv8>)
    requires |b| == 2
    ensures FromLe(b) == Value(b[0]) + 256 * Value(b[1])
  {
    hide Value;
    assert b[1..][0] == b[1] && b[1..][1..] == [];
    assert FromLe(b[1..]) == Value(b[1]) + 256 * FromLe([]);
  }

  lemma FourLe(b: seq<bv8>)
    requires |b| == 4
    ensures FromLe(b) == Value(b[0]) + 256 * Value(b[1]) + 65536 * Value(b[2]) + 16777216 * Value(b[3])
  {
    hide Value;
    TwoLe(b[2..]);
    assert b[1..][1..] == b[2..] && b[1..][0] == b[1];
    assert FromLe(b[1..]) == Value(b[1]) + 256 * FromLe(b[2..]);
  }

  /** The layout of a record, byte by byte. */
  lemma Layout(h: Header, count: int, crc: bv32, payload: seq<bv8>)
    requires FitsFormat(h) && 0 <= count < 0x1_0000_0000 && |payload| < 0x1_0000_0000
    ensures var s, n, m := RecordBytes(h, count, crc, payload), |h.sid|, |h.extra|;
            && |s| == 40 + n + m + |payload|
            && s[0] == 0x4D && s[1] == 0x53 && s[2] == 3 && s[3] == h.flags
            && Four(s, 4) == h.start.nsec && Two(s, 8) == h.start.year && Two(s, 10) == h.start.yday
            && Value(s[12]) == h.start.hour && Value(s[13]) == h.start.min && Value(s[14]) == h.start.sec
            && s[15] == h.encoding && s[16..24] == h.rate && Four(s, 24) == count
            && Crc.Word(s[28], s[29], s[30], s[31]) == crc && s[32] == h.pubversion && Value(s[33]) == n
            && Two(s, 34) == m
            && Four(s, 36) == |payload| && s[40..40 + n] == h.sid && s[40 + n..40 + n + m] == h.extra
            && s[40 + n + m..] == payload
  {
    var s := RecordBytes(h, count, crc, payload);
    RecordFields(h, count, crc, payload, []);
    assert s + [] == s;
    FieldsAre(s, 4);
    FieldsAre(s, 8);
    FieldsAre(s, 10);
    FieldsAre(s, 24);
    FieldsAre(s, 34);
    FieldsAre(s, 36);
    hide RecordBytes, Field, Two, Four, FromLe, Value, FitsFormat;
  }

  /** And a buffer is taken for a version 3 record exactly when it begins like one and has a time of day. */
  lemma Detected(s: seq<bv8>, validate: bool)
    ensures Parse(s, validate) == NotSeed <==> |s| < 40
    ensures Parse(s, validate) == NotVersion3
            <==> |s| >= 40 && !(s[0] == 0x4D && s[1] == 0x53 && s[2] == 3 && Value(s[12]) <= 23 && Value(s[13]) <= 59
                                && Value(s[14]) <= 60)
  {
    hide Unpack, DetectedLength, Value;
    if |s| >= MINRECLEN && ValidHeader(s) && MINRECLEN <= DetectedLength(s) <= |s| && DetectedLength(s) <= MAXRECLEN {
      NeverOther(s[..DetectedLength(s)], validate);
    }
  }

  lemma NeverOther(s: seq<bv8>, validate: bool)
    requires MINRECLEN <= |s| <= MAXRECLEN && ValidHeader(s)
    ensures Unpack(s, validate) != NotSeed && Unpack(s, validate) != NotVersion3
  {}

  // ---------------------------------------------------------------- which buffers begin with a record

  /** The length of a record, and its start time, from its bytes. */
  function LengthOf(s: seq<bv8>): int
    requires |s| >= 40
  {
    40 + Value(s[33]) + Two(s, 34) + Four(s, 36)
  }

  function TimeOf(s: seq<bv8>): Parts
    requires |s| >= 40
  {
    Parts(Two(s, 8), Two(s, 10), Value(s[12]), Value(s[13]), Value(s[14]), Four(s, 4))
  }

  /** A buffer begins with a record that is read exactly when it begins like one, the record is all there and no longer
      than 10 MiB, its identifier has at most 63 bytes, its start time is one that the library can represent, and its
      CRC is right, if that is asked. */
  lemma AcceptedExactly(s: seq<bv8>, validate: bool)
    ensures Parse(s, validate).Success?
            <==> && |s| >= 40 && s[0] == 0x4D && s[1] == 0x53 && s[2] == 3
                 && Value(s[12]) <= 23 && Value(s[13]) <= 59 && Value(s[14]) <= 60
                 && LengthOf(s) <= |s| && LengthOf(s) <= 10485760 && Value(s[33]) <= 63
                 && Time2Nstime(TimeOf(s)) != NSTERROR
                 && (validate ==> Crc.Word(s[28], s[29], s[30], s[31])
                                  == Crc.Checksum(s[..28] + [0, 0, 0, 0] + s[32..LengthOf(s)], 0))
  {
    hide *;
    if |s| >= 40 {
      ParseIf(s, validate);
      BeginsLike(s);
      LengthIs(s);
      var n := DetectedLength(s);
      if n == LengthOf(s) && n <= |s| && n <= 10485760 && ValidHeader(s) {
        PrefixIs(s, n);
        UnpackIf(s[..n], validate);
      }
    } else {
      TooShort(s, validate);
    }
  }

  lemma TooShort(s: seq<bv8>, validate: bool)
    requires |s| < 40
    ensures !Parse(s, validate).Success?
  {}

  lemma BeginsLike(s: seq<bv8>)
    requires |s| >= 40
    ensures MINRECLEN == 40 && MAXRECLEN == 10485760
    ensures ValidHeader(s) <==> && s[0] == 0x4D && s[1] == 0x53 && s[2] == 3 && Value(s[12]) <= 23
                                && Value(s[13]) <= 59 && Value(s[14]) <= 60
  {
    hide Value;
  }

  lemma LengthIs(s: seq<bv8>)
    requires |s| >= 40
    ensures LengthOf(s) >= 40 && MINRECLEN == 40 && DetectedLength(s) == LengthOf(s) % 0x1_0000_0000
    ensures LengthOf(s) < 0x1_0000_0000 ==> DetectedLength(s) == LengthOf(s)
  {
    hide *;
    DetectedIs(s);
    LengthParts(s);
    FieldsAre(s, 34);
    FieldsAre(s, 36);
  }

  lemma DetectedIs(s: seq<bv8>)
    requires |s| >= 40
    ensures MINRECLEN == 40
    ensures DetectedLength(s) == (40 + U8(s, 33) + Field(s, 34, 2) + Field(s, 36, 4)) % 0x1_0000_0000
  {
    hide U8, Field;
  }

  lemma ParseIf(s: seq<bv8>, validate: bool)
    requires |s| >= 40
    ensures MINRECLEN == 40
    ensures Parse(s, validate).Success?
            ==> ValidHeader(s) && DetectedLength(s) == LengthOf(s) <= |s| && LengthOf(s) <= 10485760
    ensures ValidHeader(s) && DetectedLength(s) == LengthOf(s) <= |s| && LengthOf(s) <= 10485760 ==>
              LengthOf(s) >= 40 && ValidHeader(s[..LengthOf(s)])
              && Parse(s, validate) == Unpack(s[..LengthOf(s)], validate)
  {
    hide *;
    LengthIs(s);
    BeginsLike(s);
    if Parse(s, validate).Success? {
      WholeLength(s, validate);
    }
    if ValidHeader(s) && DetectedLength(s) == LengthOf(s) <= |s| && LengthOf(s) <= 10485760 {
      ParseWhole(s, validate);
    }
  }

  lemma ParseWhole(s: seq<bv8>, validate: bool)
    requires |s| >= MINRECLEN == 40 && ValidHeader(s) && 40 <= DetectedLength(s) <= |s| && DetectedLength(s) <= 10485760
    ensures ValidHeader(s[..DetectedLength(s)]) && Parse(s, validate) == Unpack(s[..DetectedLength(s)], validate)
  {
    HeaderPrefix(s, DetectedLength(s));
    hide Unpack, ValidHeader, DetectedLength;
  }

  lemma WholeLength(s: seq<bv8>, validate: bool)
    requires Parse(s, validate).Success?
    ensures |s| >= 40 == MINRECLEN && MAXRECLEN == 10485760
    ensures ValidHeader(s) && DetectedLength(s) == LengthOf(s) <= |s| && LengthOf(s) <= 10485760
  {
    hide *;
    ParseSuccess(s, validate);
    var n := DetectedLength(s);
    UnpackSuccess(s[..n], validate);
    LengthFields(s, n);
    FieldsAre(s, 34);
    FieldsAre(s, 36);
    LengthParts(s);
  }

  lemma LengthParts(s: seq<bv8>)
    requires |s| >= 40
    ensures LengthOf(s) == 40 + U8(s, 33) + Two(s, 34) + Four(s, 36)
  {
    hide Value;
  }

  /** What the length, the time and the CRC are calculated from is in the record. */
  lemma PrefixIs(s: seq<bv8>, n: nat)
    requires 40 <= n <= |s|
    ensures var r := s[..n];
            && LengthOf(r) == LengthOf(s) && TimeOf(r) == TimeOf(s) && r[33] == s[33]
            && r[28] == s[28] && r[29] == s[29] && r[30] == s[30] && r[31] == s[31]
            && r[..28] == s[..28] && r[32..] == s[32..n]
  {
    hide Value;
  }

  lemma UnpackIf(s: seq<bv8>, validate: bool)
    requires MINRECLEN == 40 <= |s| == LengthOf(s) <= MAXRECLEN && ValidHeader(s)
    ensures Unpack(s, validate).Success?
            <==> && Value(s[33]) <= 63 && Time2Nstime(TimeOf(s)) != NSTERROR
                 && (validate ==> Crc.Word(s[28], s[29], s[30], s[31])
                                  == Crc.Checksum(s[..28] + [0, 0, 0, 0] + s[32..], 0))
  {
    hide *;
    UnpackForm(s, validate);
    StartIs(s);
    LengthParts(s);
    FieldsAre(s, 34);
    FieldsAre(s, 36);
    CrcParts(s);
  }

  lemma UnpackForm(s: seq<bv8>, validate: bool)
    requires MINRECLEN == 40 <= |s| <= MAXRECLEN && ValidHeader(s)
    ensures Unpack(s, validate).Success?
            <==> && U8(s, 33) < 64 && (validate ==> CrcFrom(s[28..32]) == ZeroedCrc(s))
                 && 40 + U8(s, 33) + Field(s, 34, 2) + Field(s, 36, 4) <= |s| && Time2Nstime(StartParts(s)) != NSTERROR
  {
    hide U8, Field, CrcFrom, ZeroedCrc, Time2Nstime, StartParts, ValidHeader;
  }

  lemma CrcParts(s: seq<bv8>)
    requires |s| >= 40
    ensures MINRECLEN == 40 && CrcFrom(s[28..32]) == Crc.Word(s[28], s[29], s[30], s[31])
    ensures U8(s, 33) == Value(s[33])
    ensures ZeroedCrc(s) == Crc.Checksum(s[..28] + [0, 0, 0, 0] + s[32..], 0)
  {
    hide Crc.Word, Crc.Checksum, Value;
  }

  lemma StartIs(s: seq<bv8>)
    requires |s| >= 40
    ensures StartParts(s) == TimeOf(s)
  {
    FieldsAre(s, 4);
    FieldsAre(s, 8);
    FieldsAre(s, 10);
    hide Two, Four, Field, Value;
  }
}
