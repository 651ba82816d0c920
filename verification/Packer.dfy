/** Cutting a series of samples into version 3 records, one record at a time. */
module Packer {
  import opened Options
  import opened Mseed
  import opened SteimFormat
  import opened SteimShapes
  import opened SteimEncoder
  import SteimRoundTrip
  import opened Calendar
  import opened TimeValues
  import opened Bytes
  import opened Record3
  import Crc

  /** The series to pack. Its sample period is a whole number of nanoseconds; rate is the rate field as it
      is written. A record length or encoding of -1 asks for the default. */
  datatype Source = Source(sid: seq<bv8>, flags: bv8, start: int, period: nat, rate: seq<bv8>, encoding: int,
                           pubversion: bv8, extra: seq<bv8>, sampletype: char, samples: seq<bv32>, reclen: int)

  const DE_STEIM1: int := 10
  const DE_STEIM2: int := 11
  const DEFAULT_RECLEN: int := 4096

  predicate Packable(s: Source) {
    && |s.sid| < SID_SIZE && |s.extra| < 0x1_0000 && |s.rate| == 8
    && (s.encoding == -1 || s.encoding == DE_STEIM1 || s.encoding == DE_STEIM2)
  }

  /** No sample time overflows. */
  predicate TimesFit(s: Source) {
    IsInt64(s.start) && forall n :: 0 <= n < |s.samples| ==> IsInt64(SampleTime(s, n))
  }

  /** ms_sampletime with a whole period and no leap seconds. */
  function SampleTime(s: Source, n: int): int {
    s.start + n * s.period
  }

  function CodecOf(s: Source): Version {
    if s.encoding == DE_STEIM1 then Steim1 else Steim2
  }

  function HeaderOf(s: Source, start: Parts, encoding: int): Header
    requires 0 <= encoding < 256
  {
    Header(s.flags, start, Byte(encoding), s.rate, s.pubversion, s.sid, s.extra)
  }

  function EncodingOf(s: Source): (e: int)
    ensures 0 <= e < 256
  {
    if CodecOf(s).Steim1? then DE_STEIM1 else DE_STEIM2
  }

  /** The size of the header. */
  function HeaderLength(s: Source): nat {
    40 + |s.sid| + |s.extra|
  }

  // ---------------------------------------------------------------- words as bytes

  function BytesOf(ws: seq<bv32>): (s: seq<bv8>)
    ensures |s| == 4 * |ws|
  {
    if ws == [] then [] else CrcBytes(ws[0]) + BytesOf(ws[1..])
  }

  function WordsOf(s: seq<bv8>): (ws: seq<bv32>)
    ensures |ws| == |s| / 4
  {
    if |s| < 4 then [] else [CrcFrom(s[..4])] + WordsOf(s[4..])
  }

  lemma {:induction false} WordsBack(ws: seq<bv32>)
    ensures WordsOf(BytesOf(ws)) == ws
  {
    hide CrcBytes, CrcFrom;
    if ws != [] {
      CrcReads(ws[0]);
      WordsBack(ws[1..]);
      assert BytesOf(ws)[..4] == CrcBytes(ws[0]) && BytesOf(ws)[4..] == BytesOf(ws[1..]);
    }
  }

  /** The payload is whole frames that decode to exactly these samples. */
  predicate Carrying(v: Version, payload: seq<bv8>, xs: seq<bv32>) {
    && |payload| % 64 == 0 && xs != []
    && Decoded(v, WordsOf(payload), |payload| / 64, |xs|, true) == Some(xs)
  }

  /** The words of the frames written carry what the whole output does. */
  lemma PayloadCarries(v: Version, ws: seq<bv32>, n: nat, xs: seq<bv32>, k: nat)
    requires 16 * n <= |ws| && Carries(v, ws, n, true, xs, 0, k)
    ensures |BytesOf(ws[..16 * n])| == 64 * n && Carrying(v, BytesOf(ws[..16 * n]), xs[..k])
  {
    hide StreamDiffs, Differences, Decoded, Order, BytesOf, WordsOf, DiffsOfFrame, Carries;
    var ws' := ws[..16 * n];
    CarriesPrefix(v, ws, n, xs, k);
    DecodedCarried(v, ws', n, true, xs, 0, k, k);
    WordsBack(ws');
  }

  lemma CarriesPrefix(v: Version, ws: seq<bv32>, n: nat, xs: seq<bv32>, k: nat)
    requires 16 * n <= |ws| && Carries(v, ws, n, true, xs, 0, k)
    ensures Carries(v, ws[..16 * n], n, true, xs, 0, k) && 0 < k <= |xs|
  {
    hide StreamDiffs, Differences, Order, DiffsOfFrame;
    assert ws[..16 * n][..16 * n] == ws[..16 * n];
    StreamDiffsFrame(v, ws, ws[..16 * n], n, true);
    FirstFrame(v, ws, n);
  }

  lemma FirstFrame(v: Version, ws: seq<bv32>, n: nat)
    requires 0 < n && 16 * n <= |ws|
    ensures var ws' := ws[..16 * n];
            ws'[1] == ws[1] && ws'[2] == ws[2] && DiffsOfFrame(v, ws', 0, true) == DiffsOfFrame(v, ws, 0, true)
  {
    hide FrameDiffs, Order;
    assert ws[..16 * n][0..16] == ws[0..16];
  }

  // ---------------------------------------------------------------- header fields in place

  /** The values of a header in a record buffer. */
  datatype Fields = Fields(h: Header, count: int, crc: bv32, datalength: int)

  predicate FieldsFit(f: Fields) {
    FitsFormat(f.h) && 0 <= f.count < 0x1_0000_0000 && 0 <= f.datalength < 0x1_0000_0000
  }

  /** The buffer starts with this header. */
  ghost predicate Starts(s: seq<bv8>, f: Fields)
    requires FieldsFit(f)
  {
    var n := 40 + |f.h.sid| + |f.h.extra|;
    n <= |s| && s[..28] == Front(f.h, f.count) && s[28..32] == CrcBytes(f.crc) && s[32..n] == Back(f.h, f.datalength)
  }

  function Splice(s: seq<bv8>, at: nat, b: seq<bv8>): seq<bv8>
    requires at + |b| <= |s|
  {
    s[..at] + b + s[at + |b|..]
  }

  /** memcpy into the record buffer */
  method Put(a: array<bv8>, at: nat, b: seq<bv8>)
    requires at + |b| <= a.Length
    modifies a
    ensures a[..] == Splice(old(a[..]), at, b)
  {
    var i := 0;
    while i < |b|
      invariant i <= |b|
      invariant forall j :: 0 <= j < a.Length ==> a[j] == if at <= j < at + i then b[j - at] else old(a[j])
    {
      a[at + i] := b[i];
      i := i + 1;
    }
  }

  /** A splice replaces its range and nothing else. */
  lemma SpliceKeeps(s: seq<bv8>, at: nat, b: seq<bv8>, i: nat, j: nat)
    requires at + |b| <= |s| && i <= j <= |s| && (j <= at || at + |b| <= i)
    ensures |Splice(s, at, b)| == |s| && Splice(s, at, b)[i..j] == s[i..j] && Splice(s, at, b)[at..at + |b|] == b
  {
    var t := Splice(s, at, b);
    forall k | i <= k < j ensures t[k] == s[k] {
      if k >= at {
        assert t[k] == s[at + |b|..][k - (at + |b|)];
      }
    }
  }

  /** A range in three parts. */
  lemma Cut(s: seq<bv8>, i: nat, j: nat, k: nat, l: nat)
    requires i <= j <= k <= l <= |s|
    ensures s[i..l] == s[i..j] + s[j..k] + s[k..l]
    ensures s[i..l][..j - i] == s[i..j] && s[i..l][k - i..] == s[k..l]
  {}

  lemma PutCount(s: seq<bv8>, f: Fields, count: int)
    requires FieldsFit(f) && Starts(s, f) && 0 <= count < 0x1_0000_0000
    ensures Starts(Splice(s, 24, Le(count, 4)), f.(count := count))
  {
    hide Le, CrcBytes, Back, FitsFormat, TimeBytes;
    var t := Splice(s, 24, Le(count, 4));
    assert s[..28][..24] == s[..24] == t[..24];
    assert t[..28] == t[..24] + Le(count, 4);
    assert t[28..] == s[28..] && t[28..32] == t[28..][..4] == s[28..][..4];
    assert t[32..] == t[28..][4..] == s[28..][4..] == s[32..];
    var n := 40 + |f.h.sid| + |f.h.extra|;
    assert t[32..n] == t[32..][..n - 32] == s[32..][..n - 32] == s[32..n];
  }

  lemma PutCrc(s: seq<bv8>, f: Fields, crc: bv32)
    requires FieldsFit(f) && Starts(s, f)
    ensures Starts(Splice(s, 28, CrcBytes(crc)), f.(crc := crc))
  {
    hide CrcBytes, Back, Front, FitsFormat;
    var t, n := Splice(s, 28, CrcBytes(crc)), 40 + |f.h.sid| + |f.h.extra|;
    assert t[..28] == s[..28] && t[28..32] == CrcBytes(crc) && t[32..n] == s[32..n];
  }

  lemma BackParts(h: Header, datalength: int)
    requires FitsFormat(h) && 0 <= datalength < 0x1_0000_0000
    ensures Back(h, datalength) == ([h.pubversion, Byte(|h.sid|)] + Le(|h.extra|, 2)) + Le(datalength, 4)
            + (h.sid + h.extra)
  {
    hide Le, Byte, IsParts;
  }

  lemma PutLength(s: seq<bv8>, f: Fields, datalength: int)
    requires FieldsFit(f) && Starts(s, f) && 0 <= datalength < 0x1_0000_0000
    ensures Starts(Splice(s, 36, Le(datalength, 4)), f.(datalength := datalength))
  {
    hide Le, CrcBytes, Front, Back, FitsFormat, Byte, Splice;
    var b := Le(datalength, 4);
    var t, n := Splice(s, 36, b), 40 + |f.h.sid| + |f.h.extra|;
    BackParts(f.h, f.datalength);
    BackParts(f.h, datalength);
    SpliceKeeps(s, 36, b, 0, 28);
    SpliceKeeps(s, 36, b, 28, 32);
    SpliceKeeps(s, 36, b, 32, 36);
    SpliceKeeps(s, 36, b, 40, n);
    assert s[0..28] == s[..28] && t[0..28] == t[..28];
    Cut(s, 32, 36, 40, n);
    Cut(t, 32, 36, 40, n);
    Middle([f.h.pubversion, Byte(|f.h.sid|)] + Le(|f.h.extra|, 2), Le(f.datalength, 4), f.h.sid + f.h.extra);
  }

  lemma Middle(a: seq<bv8>, b: seq<bv8>, c: seq<bv8>)
    ensures (a + b + c)[..|a|] == a && (a + b + c)[|a| + |b|..] == c
  {}

  lemma FrontParts(h: Header, count: int)
    requires FitsFormat(h) && 0 <= count < 0x1_0000_0000
    ensures Front(h, count) == [0x4D, 0x53, 3, h.flags] + TimeBytes(h.start) + ([h.encoding] + h.rate + Le(count, 4))
    ensures Front(h, count) == ([0x4D, 0x53, 3, h.flags] + TimeBytes(h.start)) + [h.encoding] + (h.rate + Le(count, 4))
  {
    hide Le, TimeBytes, IsParts;
  }

  /** Replacing bytes before the CRC field leaves the rest of the header. */
  lemma PutFront(s: seq<bv8>, f: Fields, at: nat, b: seq<bv8>, h: Header, a: seq<bv8>, was: seq<bv8>, e: seq<bv8>)
    requires FieldsFit(f) && Starts(s, f) && FitsFormat(h) && Back(h, f.datalength) == Back(f.h, f.datalength)
             && h.sid == f.h.sid && h.extra == f.h.extra
    requires Front(f.h, f.count) == a + was + e && Front(h, f.count) == a + b + e && |a| == at && |was| == |b|
    ensures Starts(Splice(s, at, b), f.(h := h))
  {
    hide Le, CrcBytes, Front, Back, FitsFormat, Splice;
    var t, n := Splice(s, at, b), 40 + |f.h.sid| + |f.h.extra|;
    SpliceKeeps(s, at, b, 0, at);
    SpliceKeeps(s, at, b, at + |b|, 28);
    SpliceKeeps(s, at, b, 28, 32);
    SpliceKeeps(s, at, b, 32, n);
    assert s[0..28] == s[..28] && t[0..28] == t[..28];
    Cut(s, 0, at, at + |b|, 28);
    Cut(t, 0, at, at + |b|, 28);
    Middle(a, was, e);
  }

  lemma PutStart(s: seq<bv8>, f: Fields, p: Parts)
    requires FieldsFit(f) && Starts(s, f) && IsParts(p) && 0 <= p.year < 0x1_0000
    ensures Starts(Splice(s, 4, TimeBytes(p)), f.(h := f.h.(start := p)))
  {
    hide Le, CrcBytes, IsParts, TimeBytes, Byte, Front, Starts, Splice;
    var h := f.h.(start := p);
    FrontParts(f.h, f.count);
    FrontParts(h, f.count);
    PutFront(s, f, 4, TimeBytes(p), h, [0x4D, 0x53, 3, f.h.flags], TimeBytes(f.h.start),
             [f.h.encoding] + f.h.rate + Le(f.count, 4));
  }

  lemma PutEncoding(s: seq<bv8>, f: Fields, encoding: bv8)
    requires FieldsFit(f) && Starts(s, f)
    ensures Starts(Splice(s, 15, [encoding]), f.(h := f.h.(encoding := encoding)))
  {
    hide Le, CrcBytes, IsParts, TimeBytes, Byte, Front, Starts, Splice;
    var h := f.h.(encoding := encoding);
    FrontParts(f.h, f.count);
    FrontParts(h, f.count);
    PutFront(s, f, 15, [encoding], h, [0x4D, 0x53, 3, f.h.flags] + TimeBytes(f.h.start), [f.h.encoding],
             f.h.rate + Le(f.count, 4));
  }

  // ---------------------------------------------------------------- the packer

  predicate ReclenOk(s: Source) {
    s.reclen == -1 || MINRECLEN <= s.reclen <= MAXRECLEN
  }

  function MaxReclen(s: Source): int {
    if s.reclen < 0 then DEFAULT_RECLEN else s.reclen
  }

  /** What msr3_pack_init checks. */
  predicate Accepted(s: Source) {
    ReclenOk(s) && HeaderLength(s) <= MaxReclen(s) && (s.samples != [] ==> KnownType(s.sampletype))
  }

  /** The most samples that a frame could hold, by the packer's reckoning. */
  function FrameMax(v: Version): int {
    if v.Steim1? then 60 else 105
  }

  /** One of the records generated: the parts of its start time, its sample count and its payload. */
  datatype Piece = Piece(start: Parts, count: int, payload: seq<bv8>)

  predicate PieceFits(p: Piece) {
    IsParts(p.start) && 0 <= p.start.year < 0x1_0000 && 0 <= p.count < 0x1_0000_0000 && |p.payload| < 0x1_0000_0000
  }

  /** The record of a piece. */
  function RecordOf(s: Source, p: Piece): seq<bv8>
    requires Packable(s) && PieceFits(p)
  {
    Sealed(HeaderOf(s, p.start, if s.samples == [] then 0 else EncodingOf(s)), p.count, p.payload)
  }

  /** The piece holds the samples from the given one on, as many as it counts, starts at their time, and fits
      a record. */
  predicate Holds(s: Source, p: Piece, from: int) {
    && PieceFits(p) && Nanos(p.start) == SampleTime(s, from) && ReclenOk(s)
    && 0 <= from < from + p.count <= |s.samples| && HeaderLength(s) + |p.payload| <= MaxReclen(s)
    && Carrying(CodecOf(s), p.payload, s.samples[from..from + p.count])
  }

  lemma HeaderPut(s: seq<bv8>, h: Header)
    requires FitsFormat(h) && 40 + |h.sid| + |h.extra| <= |s|
    ensures Starts(Splice(s, 0, Front(h, 0) + (CrcBytes(0) + Back(h, 0))), Fields(h, 0, 0, 0))
  {
    hide Front, Back, CrcBytes, FitsFormat;
  }

  /** The packer stops: everything is packed, or less than the most samples of a record and no flush. */
  predicate StopsAt(s: Source, flush: bool, packed: nat) {
    packed == |s.samples| || (!flush
                              && |s.samples| - packed < (MaxReclen(s) - HeaderLength(s)) / 64 * FrameMax(CodecOf(s)))
  }

  /** The piece uses all frames that a record has room for. */
  predicate Full(s: Source, p: Piece) {
    |p.payload| / 64 == (MaxReclen(s) - HeaderLength(s)) / 64
  }

  /** What remains after n samples cannot be packed: wrong sample type, no room for a frame, or a difference
      that does not fit where it comes up. */
  ghost predicate StuckAt(s: Source, n: nat)
    requires HeaderLength(s) <= MaxReclen(s)
  {
    var room := (MaxReclen(s) - HeaderLength(s)) / 64;
    n < |s.samples| && (s.sampletype != 'i' || room == 0
                        || Stuck(CodecOf(s), Differences(s.samples[n..], 0), Slots(room) - 1))
  }

  /** What a call of msr3_pack_next does to the counters, and what it returns. */
  datatype Counters = Counters(packed: nat, records: nat, finished: bool)

  ghost predicate Did(s: Source, flush: bool, c: Counters, d: Counters, result: int, record: seq<bv8>, piece: Piece)
    requires Packable(s) && HeaderLength(s) <= MaxReclen(s)
  {
    && (result == 1 || result == 0 || result == -1)
    && (result != 1 ==> d.packed == c.packed && d.records == c.records)
    && (result == 0 <==> c.finished || (s.samples != [] && StopsAt(s, flush, c.packed)))
    && (result == -1 <==> !c.finished && s.samples != [] && !StopsAt(s, flush, c.packed) && StuckAt(s, c.packed))
    && (result == 0 ==> d.finished) && (result == -1 ==> !d.finished)
    && (result == 1 ==>
          && !c.finished && d.packed == c.packed + piece.count && d.records == c.records + 1
          && PieceFits(piece) && record == RecordOf(s, piece)
          && (if s.samples == [] then IsHeaderOnly(s, piece) && d.finished else Drew(s, flush, c, d, piece)))
  }

  /** A record of samples is given only when the packer need not stop. It ends the series exactly when it takes
      the last samples, which without flushing it never does; a record that does not end it is full. */
  ghost predicate Drew(s: Source, flush: bool, c: Counters, d: Counters, piece: Piece) {
    && !StopsAt(s, flush, c.packed) && piece.count > 0 && Holds(s, piece, c.packed)
    && (d.finished <==> d.packed == |s.samples|) && (!flush ==> d.packed < |s.samples|)
    && (!d.finished ==> Full(s, piece))
  }

  /** A piece without samples. */
  predicate IsHeaderOnly(s: Source, p: Piece) {
    p.count == 0 && p.payload == [] && Nanos(p.start) == s.start
  }

  /** MS3RecordPacker */
  class RecordPacker {
    const msr: Source
    var flush: bool
    const dataoffset: nat
    const maxdatabytes: nat
    const maxsamples: nat
    const rawrec: array<bv8>
    const encoded: array<bv32>
    var packedsamples: nat
    var recordcount: nat
    var nextstarttime: int
    var finished: bool
    ghost var fields: Fields   // the header in rawrec

    ghost predicate Valid()
      reads this, rawrec
    {
      && Packable(msr) && TimesFit(msr) && Accepted(msr)
      && dataoffset == HeaderLength(msr) && rawrec.Length == MaxReclen(msr)
      && dataoffset + maxdatabytes == rawrec.Length
      && maxsamples == maxdatabytes / 64 * FrameMax(CodecOf(msr)) && maxdatabytes <= 4 * encoded.Length
      && HeaderValid()
      && packedsamples <= |msr.samples| && (recordcount == 0 ==> packedsamples == 0)
      && (packedsamples < |msr.samples| ==> nextstarttime == SampleTime(msr, packedsamples))
    }

    /** The header in the buffer is that of the source, and at first has its start time. */
    ghost predicate HeaderValid()
      reads this, rawrec
    {
      && Packable(msr) && FieldsFit(fields) && Starts(rawrec[..], fields)
      && fields.h == HeaderOf(msr, fields.h.start, Value(fields.h.encoding))
      && (recordcount == 0 ==> Nanos(fields.h.start) == msr.start)
      && (msr.samples != [] ==> fields.h.encoding == Byte(EncodingOf(msr)))
    }

    /** The allocations of msr3_pack_init, and msr3_pack_header3 */
    constructor (s: Source, flush: bool, start: Parts)
      requires Packable(s) && TimesFit(s) && Accepted(s) && IsParts(start) && Nanos(start) == s.start
               && 0 <= start.year < 0x1_0000
      ensures Valid() && fresh(rawrec) && fresh(encoded) && msr == s && this.flush == flush
      ensures packedsamples == 0 && recordcount == 0 && !finished
    {
      hide Front, Back, CrcBytes, TimeBytes, Byte, Value, IsParts, KnownType;
      msr, this.flush := s, flush;
      dataoffset, maxdatabytes := HeaderLength(s), MaxReclen(s) - HeaderLength(s);
      maxsamples := (MaxReclen(s) - HeaderLength(s)) / 64 * FrameMax(CodecOf(s));
      var raw := new bv8[MaxReclen(s)](_ => 0);
      rawrec := raw;
      encoded := new bv32[(MaxReclen(s) - HeaderLength(s) + 3) / 4](_ => 0);
      packedsamples, recordcount, nextstarttime, finished := 0, 0, s.start, false;
      var h := HeaderOf(s, start, EncodingOf(s));
      fields := Fields(h, 0, 0, 0);
      new;
      HeaderPut(rawrec[..], h);
      Put(rawrec, 0, Front(h, 0) + (CrcBytes(0) + Back(h, 0)));
    }

    /** flags |= MSF_FLUSHDATA */
    method SetFlush()
      requires Valid()
      modifies this`flush
      ensures Valid() && flush
    {
      hide Starts, TimesFit, Packable, Byte, Value;
      flush := true;
    }

    method SetCount(n: int)
      requires HeaderValid() && dataoffset == HeaderLength(msr) <= rawrec.Length && 0 <= n < 0x1_0000_0000
      modifies rawrec, this`fields
      ensures HeaderValid() && fields == old(fields).(count := n) && rawrec[dataoffset..] == old(rawrec[dataoffset..])
    {
      hide Starts, Le, FitsFormat, Byte, Value;
      PutCount(rawrec[..], fields, n);
      SpliceTail(rawrec[..], 24, Le(n, 4), dataoffset);
      Put(rawrec, 24, Le(n, 4));
      fields := fields.(count := n);
    }

    method SetDataLength(n: int)
      requires HeaderValid() && dataoffset == HeaderLength(msr) <= rawrec.Length && 0 <= n < 0x1_0000_0000
      modifies rawrec, this`fields
      ensures HeaderValid() && fields == old(fields).(datalength := n)
              && rawrec[dataoffset..] == old(rawrec[dataoffset..])
    {
      hide Starts, Le, FitsFormat, Byte, Value;
      PutLength(rawrec[..], fields, n);
      SpliceTail(rawrec[..], 36, Le(n, 4), dataoffset);
      Put(rawrec, 36, Le(n, 4));
      fields := fields.(datalength := n);
    }

    method SetStart(p: Parts)
      requires HeaderValid() && dataoffset == HeaderLength(msr) <= rawrec.Length && IsParts(p) && 0 <= p.year < 0x1_0000
      requires recordcount > 0
      modifies rawrec, this`fields
      ensures HeaderValid() && fields == old(fields).(h := old(fields).h.(start := p))
              && rawrec[dataoffset..] == old(rawrec[dataoffset..])
    {
      hide Starts, TimeBytes, IsParts, Byte, Value;
      PutStart(rawrec[..], fields, p);
      SpliceTail(rawrec[..], 4, TimeBytes(p), dataoffset);
      Put(rawrec, 4, TimeBytes(p));
      fields := fields.(h := fields.h.(start := p));
    }

    method SetCrc(crc: bv32)
      requires HeaderValid() && dataoffset == HeaderLength(msr) <= rawrec.Length
      modifies rawrec, this`fields
      ensures HeaderValid() && fields == old(fields).(crc := crc) && rawrec[dataoffset..] == old(rawrec[dataoffset..])
    {
      hide Starts, CrcBytes, FitsFormat, Byte, Value;
      PutCrc(rawrec[..], fields, crc);
      SpliceTail(rawrec[..], 28, CrcBytes(crc), dataoffset);
      Put(rawrec, 28, CrcBytes(crc));
      fields := fields.(crc := crc);
    }

    /** Calculate the CRC of the record with its CRC field zeroed, and set it. */
    method Seal(payload: seq<bv8>) returns (record: seq<bv8>)
      requires HeaderValid() && dataoffset == HeaderLength(msr) && dataoffset + |payload| <= rawrec.Length <= MAXRECLEN
      requires fields.datalength == |payload| && rawrec[dataoffset..dataoffset + |payload|] == payload
      modifies rawrec, this`fields
      ensures HeaderValid() && fields == old(fields).(crc := fields.crc)
      ensures record == Sealed(fields.h, fields.count, payload)
    {
      hide Starts, RecordBytes, Front, Back, CrcBytes, FitsFormat, Byte, Value;
      var n := dataoffset + |payload|;
      TailPart(rawrec[..], dataoffset, payload);
      SetCrc(0);
      StartsRecord(rawrec[..], fields, payload);
      var crc := Crc.Crc32c(rawrec[..], n, 0, 0, false);
      SetCrc(crc);
      StartsRecord(rawrec[..], fields, payload);
      record := rawrec[..n];
    }

    /** What a packer finds when it packs data. */
    lemma Room()
      requires Valid() && packedsamples < |msr.samples|
      ensures maxdatabytes <= 4 * encoded.Length && maxdatabytes <= MAXRECLEN && HeaderLength(msr) <= MaxReclen(msr)
      ensures StuckAt(msr, packedsamples)
              <==> msr.sampletype != 'i' || maxdatabytes < 64
                   || Stuck(CodecOf(msr), Differences(msr.samples[packedsamples..], 0), Slots(maxdatabytes / 64) - 1)
    {
      hide Stuck, Differences, Slots, HeaderValid;
    }

    /** msr_pack_data for the Steim encodings */
    method PackData() returns (k: int, payload: seq<bv8>)
      requires Valid() && packedsamples < |msr.samples|
      modifies encoded
      ensures k == -1 <==> StuckAt(msr, packedsamples)
      ensures k != -1 ==>
                && 1 <= k <= |msr.samples| - packedsamples && |payload| <= maxdatabytes && k < 0x1_0000_0000
                && k < maxdatabytes / 64 * FrameMax(CodecOf(msr))
                && Carrying(CodecOf(msr), payload, msr.samples[packedsamples..packedsamples + k])
                && (k < |msr.samples| - packedsamples ==> |payload| / 64 == maxdatabytes / 64)
    {
      hide *;
      Room();
      payload := [];
      if msr.sampletype != 'i' || maxdatabytes < 64 {
        return -1, [];
      }
      var rest := msr.samples[packedsamples..];
      var v := CodecOf(msr);
      var byteswritten;
      k, byteswritten := EncodeSteim(v, rest, encoded, maxdatabytes, 0, true);
      if k == -1 {
        return;
      }
      var n := byteswritten / 64;
      PackedRange(v, encoded[..], n, rest, k, maxdatabytes);
      PayloadCarries(v, encoded[..], n, rest, k);
      payload := BytesOf(encoded[..16 * n]);
      assert rest[..k] == msr.samples[packedsamples..packedsamples + k];
    }

    /** The record of a series without samples: encoding and counts are zero. */
    method HeaderRecord() returns (record: seq<bv8>, ghost piece: Piece)
      requires Valid() && msr.samples == [] && recordcount == 0
      modifies rawrec, this`fields
      ensures Valid() && PieceFits(piece) && piece.count == 0 && piece.payload == [] && Nanos(piece.start) == msr.start
      ensures record == RecordOf(msr, piece)
    {
      hide Starts, Sealed, TimesFit, Byte, Value;
      PutEncoding(rawrec[..], fields, Byte(0));
      Put(rawrec, 15, [Byte(0)]);
      fields := fields.(h := fields.h.(encoding := Byte(0)));
      SetCount(0);
      SetDataLength(0);
      record := Seal([]);
      piece := Piece(fields.h.start, 0, []);
    }

    /** The record of the next k samples. */
    method DataRecord(k: int, payload: seq<bv8>) returns (record: seq<bv8>, ghost piece: Piece)
      requires Valid() && packedsamples < packedsamples + k <= |msr.samples| && k < 0x1_0000_0000
               && |payload| <= maxdatabytes
      requires Carrying(CodecOf(msr), payload, msr.samples[packedsamples..packedsamples + k])
      modifies rawrec, this`fields
      ensures Valid() && Holds(msr, piece, packedsamples) && piece.count == k && piece.payload == payload
      ensures record == RecordOf(msr, piece)
    {
      hide Starts, Sealed, Carrying, Byte, Value;
      ghost var was := rawrec[..];
      SpliceKeepsHeader(was, fields, dataoffset, payload);
      Put(rawrec, dataoffset, payload);
      SetCount(k);
      SetDataLength(|payload|);
      if recordcount > 0 {
        assert IsInt64(SampleTime(msr, packedsamples));
        var parts := Nstime2Time(nextstarttime);
        Int64Years(parts.value);
        SetStart(parts.value);
      }
      record := Seal(payload);
      piece := Piece(fields.h.start, k, payload);
    }

    ghost function Count(): Counters
      reads this
    {
      Counters(packedsamples, recordcount, finished)
    }

    /** msr3_pack_next: 1 and a record, 0 when finished, -1 on error. */
    method Next() returns (result: int, record: seq<bv8>, ghost piece: Piece)
      requires Valid() && (msr.samples == [] && recordcount > 0 ==> finished)
      modifies this`packedsamples, this`recordcount, this`nextstarttime, this`finished, this`fields, rawrec, encoded
      ensures Valid() && (msr.samples == [] && recordcount > 0 ==> finished)
      ensures Did(msr, flush, old(Count()), Count(), result, record, piece)
    {
      hide Starts, Sealed, RecordOf, Carrying, Stuck, Differences, Byte, Value;
      record := [];
      piece := Piece(fields.h.start, 0, []);
      if finished {
        return 0, [], piece;
      }
      if msr.samples == [] {
        record, piece := HeaderRecord();
        recordcount := recordcount + 1;
        finished := true;
        return 1, record, piece;
      }
      var remaining := |msr.samples| - packedsamples;
      if remaining == 0 || (remaining < maxsamples && !flush) {
        finished := true;
        return 0, [], piece;
      }
      var k, payload := PackData();
      if k < 0 {
        return -1, [], piece;
      } else if k == 0 {
        assert false;
      }
      record, piece := DataRecord(k, payload);
      packedsamples := packedsamples + k;
      recordcount := recordcount + 1;
      if packedsamples < |msr.samples| {
        nextstarttime := SampleTime(msr, packedsamples);
      } else {
        finished := true;
      }
      result := 1;
    }
  }

  lemma SpliceKeepsHeader(s: seq<bv8>, f: Fields, at: nat, b: seq<bv8>)
    requires FieldsFit(f) && Starts(s, f) && at == 40 + |f.h.sid| + |f.h.extra| && at + |b| <= |s|
    ensures Starts(Splice(s, at, b), f) && Splice(s, at, b)[at..at + |b|] == b && Splice(s, at, b)[at..][..|b|] == b
  {
    hide Front, Back, CrcBytes, FitsFormat;
    SpliceKeeps(s, at, b, 0, 28);
    SpliceKeeps(s, at, b, 28, 32);
    SpliceKeeps(s, at, b, 32, at);
    assert s[0..28] == s[..28] && Splice(s, at, b)[0..28] == Splice(s, at, b)[..28];
  }

  /** As many samples as a record can hold fit the field that counts them. */
  lemma PackedRange(v: Version, ws: seq<bv32>, n: nat, xs: seq<bv32>, k: int, maxdatabytes: nat)
    requires 0 <= k && 16 * n <= |ws| && Carries(v, ws, n, true, xs, 0, k) && 64 * n <= maxdatabytes <= MAXRECLEN
    ensures 1 <= k <= |xs| && k < maxdatabytes / 64 * FrameMax(v) && k < 0x1_0000_0000
  {
    hide StreamDiffs, Differences, DiffsOfFrame, Order;
    SteimRoundTrip.CapacityBelowMaximum(v, ws, n, true, xs, 0, k);
    FramesWithin(v, n, maxdatabytes);
  }

  lemma FramesWithin(v: Version, n: nat, maxdatabytes: nat)
    requires 64 * n <= maxdatabytes <= MAXRECLEN
    ensures n * FrameMax(v) <= maxdatabytes / 64 * FrameMax(v) < 0x1_0000_0000
    ensures FrameMax(v) == if v.Steim1? then 60 else 105
  {}

  lemma SpliceTail(s: seq<bv8>, at: nat, b: seq<bv8>, n: nat)
    requires at + |b| <= n <= |s|
    ensures Splice(s, at, b)[n..] == s[n..]
  {}

  lemma TailPart(s: seq<bv8>, n: nat, payload: seq<bv8>)
    requires n + |payload| <= |s| && s[n..n + |payload|] == payload
    ensures s[n..][..|payload|] == payload
  {}

  /** A header that declares the payload behind it makes a record. */
  lemma StartsRecord(s: seq<bv8>, f: Fields, payload: seq<bv8>)
    requires FieldsFit(f) && Starts(s, f) && f.datalength == |payload|
    requires var n := 40 + |f.h.sid| + |f.h.extra|; n + |payload| <= |s| && s[n..][..|payload|] == payload
    ensures s[..40 + |f.h.sid| + |f.h.extra| + |payload|] == RecordBytes(f.h, f.count, f.crc, payload)
  {
    hide Front, Back, CrcBytes, FitsFormat;
    var n := 40 + |f.h.sid| + |f.h.extra|;
    assert s[..n + |payload|] == s[..28] + (s[28..32] + (s[32..n] + s[n..n + |payload|]));
    assert s[n..n + |payload|] == payload;
  }

  // ---------------------------------------------------------------- whole runs

  /** The pieces hold the first n samples, one after the other. */
  ghost predicate Pieces(s: Source, ps: seq<Piece>, n: nat) {
    if ps == [] then n == 0
    else var p := ps[|ps| - 1]; p.count <= n && Pieces(s, ps[..|ps| - 1], n - p.count) && Holds(s, p, n - p.count)
  }

  ghost predicate AllFull(s: Source, ps: seq<Piece>) {
    forall i :: 0 <= i < |ps| ==> Full(s, ps[i])
  }

  ghost predicate AreRecords(s: Source, records: seq<seq<bv8>>, ps: seq<Piece>) {
    Packable(s) && |records| == |ps| && forall i :: 0 <= i < |ps| ==>
      PieceFits(ps[i]) && records[i] == RecordOf(s, ps[i])
  }

  lemma PiecesAppend(s: Source, ps: seq<Piece>, n: nat, p: Piece)
    requires Pieces(s, ps, n) && Holds(s, p, n)
    ensures Pieces(s, ps + [p], n + p.count)
  {
    hide Holds;
    assert (ps + [p])[..|ps|] == ps;
  }

  /** msr3_pack_init */
  method PackInit(s: Source, flush: bool) returns (packer: RecordPacker?)
    requires Packable(s) && TimesFit(s)
    ensures packer == null <==> !Accepted(s)
    ensures packer != null
            <==> && (s.reclen == -1 || 40 <= s.reclen <= 10485760)
                 && 40 + |s.sid| + |s.extra| <= (if s.reclen == -1 then 4096 else s.reclen)
                 && (s.samples == [] || s.sampletype == 't' || s.sampletype == 'a' || s.sampletype == 'i'
                     || s.sampletype == 'f' || s.sampletype == 'd')
    ensures packer != null ==>
              && packer.Valid() && fresh(packer) && fresh(packer.rawrec) && fresh(packer.encoded)
              && packer.msr == s && packer.flush == flush && packer.Count() == Counters(0, 0, false)
  {
    hide IsParts;
    if s.reclen != -1 && (s.reclen < MINRECLEN || s.reclen > MAXRECLEN) {
      return null;
    }
    if MaxReclen(s) < HeaderLength(s) || (s.samples != [] && !KnownType(s.sampletype)) {
      return null;
    }
    NothingYet(s);
    var parts := Nstime2Time(s.start);
    Int64Years(parts.value);
    packer := new RecordPacker(s, flush, parts.value);
  }

  /** What a run of calls has produced. */
  ghost predicate Produced(s: Source, flush: bool, records: seq<seq<bv8>>, ps: seq<Piece>, c: Counters, result: int)
    requires Packable(s) && HeaderLength(s) <= MaxReclen(s)
  {
    && (result == 1 || result == 0 || result == -1)
    && AreRecords(s, records, ps) && c.records == |records| == |ps| && c.packed <= |s.samples|
    && (if s.samples == [] then
          && |ps| <= 1 && result >= 0 && (result == 0 ==> |ps| == 1)
          && (|ps| == 1 ==> IsHeaderOnly(s, ps[0]) && c.finished)
          && (|ps| == 0 ==> !c.finished)
        else
          && Pieces(s, ps, c.packed) && (c.packed < |s.samples| ==> AllFull(s, ps))
          && (!flush ==> c.packed < |s.samples|)
          && (result == 1 ==> (c.finished <==> c.packed == |s.samples|))
          && (result == 0 ==> StopsAt(s, flush, c.packed)) && (result == -1 ==> StuckAt(s, c.packed)))
  }

  lemma ProducedMore(s: Source, flush: bool, records: seq<seq<bv8>>, ps: seq<Piece>, c: Counters, d: Counters,
                     result: int, record: seq<bv8>, piece: Piece)
    requires Packable(s) && HeaderLength(s) <= MaxReclen(s) && Produced(s, flush, records, ps, c, 1)
    requires Did(s, flush, c, d, result, record, piece) && d.packed <= |s.samples|
    ensures Produced(s, flush, if result == 1 then records + [record] else records, if result == 1 then ps + [piece]
                     else ps, d, result)
  {
    hide RecordOf, Holds, StuckAt, PieceFits, Packable;
    if result == 1 && s.samples != [] {
      PiecesAppend(s, ps, c.packed, piece);
    }
  }

  /** msr3_pack: the records of a series, their count or -1, and the number of samples packed. They hold the
      first of the samples in order, each starting at the time of its first sample; only a record that ends
      the series is not full, so without flushing all are. */
  method Pack(s: Source, flush: bool) returns (count: int, records: seq<seq<bv8>>, packed: nat, ghost ps: seq<Piece>)
    requires Packable(s) && TimesFit(s)
    ensures AreRecords(s, records, ps)
    ensures !Accepted(s) ==> count == -1 && records == []
    ensures Accepted(s) && s.samples == [] ==> count == 1 && packed == 0 && |ps| == 1 && IsHeaderOnly(s, ps[0])
    ensures Accepted(s) && s.samples != [] ==>
              && packed <= |s.samples| && Pieces(s, ps, packed)
              && (packed < |s.samples| ==> AllFull(s, ps)) && (!flush ==> packed < |s.samples| && AllFull(s, ps))
              && (if count == -1 then StuckAt(s, packed) else count == |records| && StopsAt(s, flush, packed))
              && (count != -1 && flush ==> packed == |s.samples|)
              && (count != -1 && !flush ==>
                    |s.samples| - packed < ((if s.reclen < 0 then 4096 else s.reclen) - 40 - |s.sid| - |s.extra|) / 64
                                           * if s.encoding == 10 then 60 else 105)
  {
    hide Holds, RecordOf, StuckAt, IsParts, StopsAt, AreRecords, AllFull, Pieces, IsHeaderOnly,
         RecordPacker.HeaderValid, TimesFit, PieceFits, Full;
    count, records, packed, ps := 0, [], 0, [];
    NothingYet(s);
    var packer := PackInit(s, flush);
    if packer == null {
      return -1, [], 0, [];
    }
    var result := 1;
    while result == 1
      invariant packer.Valid() && packer.msr == s && packer.flush == flush && fresh(packer) && fresh(packer.rawrec)
                && fresh(packer.encoded)
      invariant s.samples == [] && packer.recordcount > 0 ==> packer.finished
      invariant Produced(s, flush, records, ps, packer.Count(), result)
      decreases if result == 1 then 1 else 0, if packer.finished then 0 else 1, |s.samples| - packer.packedsamples
    {
      var record;
      ghost var piece;
      ghost var was := packer.Count();
      result, record, piece := packer.Next();
      ProducedMore(s, flush, records, ps, was, packer.Count(), result, record, piece);
      if result == 1 {
        records := records + [record];
        ps := ps + [piece];
      }
    }
    packed := packer.packedsamples;
    if result == 0 && s.samples != [] {
      StopsBelow(s, flush, packed);
    }
    count := if result == 0 then |records| else -1;
  }

  lemma StopsBelow(s: Source, flush: bool, n: nat)
    requires StopsAt(s, flush, n) && n <= |s.samples| && s.samples != [] && (!flush ==> n < |s.samples|)
    ensures if flush then n == |s.samples|
            else |s.samples| - n < ((if s.reclen < 0 then 4096 else s.reclen) - 40 - |s.sid| - |s.extra|) / 64
                                   * if s.encoding == 10 then 60 else 105
  {}

  lemma NothingYet(s: Source)
    requires Packable(s) && TimesFit(s)
    ensures IsInt64(s.start) && AreRecords(s, [], []) && Pieces(s, [], 0) && AllFull(s, [])
  {
    assert SampleTime(s, 0) == s.start;
  }
}
