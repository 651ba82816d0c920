/** What the reader finds in the records that the packer makes of a series. */
module PackedRecords {
  import opened Options
  import opened Bytes
  import opened Mseed
  import opened Record3
  import opened Calendar
  import opened TimeValues
  import P = Packer
  import S = SteimBytes
  import SteimFormat

  /** The start of 1678. */
  const FIRST_TIME: int := -9_214_560_000 * 1_000_000_000

  /** The times that the reader accepts: from then on, but for the one that is the error value. */
  predicate ReadableTime(time: int) {
    time >= FIRST_TIME && time != -2_145_916_800 * 1_000_000_000
  }

  lemma SentinelTime()
    ensures Nanos(SENTINEL) == NSTERROR == -2_145_916_800 * 1_000_000_000
  {
    hide Nanos, Time2NstimeInt;
    Time2NstimeIsNanos(SENTINEL);
    SentinelIs(SENTINEL);
  }

  lemma TimeReadable(p: Parts)
    requires IsParts(p) && IsInt64(Nanos(p))
    ensures Readable(p) <==> ReadableTime(Nanos(p))
  {
    Int64Years(p);
    YearBounds();
    SentinelTime();
    SentinelNanos();
    hide Nanos, YearStart;
    if ReadableTime(Nanos(p)) {
    } else if Nanos(p) == NSTERROR {
      OneParts(p, SENTINEL);
    }
  }

  /** What is read is a record of a series: it has the identifier, version, rate field and extra headers given,
      starts at this time, and its payload holds these samples in the bits of the format. */
  ghost predicate IsRecordOf(r: Parsed, sid: seq<bv8>, flags: bv8, pubversion: bv8, rate: seq<bv8>, extra: seq<bv8>,
                             steim1: bool, start: int, samples: seq<bv32>)
  {
    && r.sid == sid && r.flags == flags && r.pubversion == pubversion && r.rate == rate && r.extra == extra
    && r.start == start && r.count == |samples| && Value(r.encoding) == (if steim1 then 10 else 11)
    && |r.payload| % 64 == 0
    && S.Meaning(if steim1 then SteimFormat.Steim1 else SteimFormat.Steim2, r.payload, |r.payload| / 64, |samples|,
                 true)
       == Some(samples)
  }

  /** The record of a piece of a series is sealed, and what the reader makes of it is one of these. */
  lemma ParsedIs(s: P.Source, p: P.Piece, from: int)
    requires P.Packable(s) && P.Holds(s, p, from)
    ensures 0 <= from < from + p.count <= |s.samples|
    ensures var r := ParsedRecord(P.HeaderOf(s, p.start, P.EncodingOf(s)), p.count, p.payload);
            IsRecordOf(r, s.sid, s.flags, s.pubversion, s.rate, s.extra, s.encoding == 10, s.start + from * s.period,
                       s.samples[from..from + p.count])
  {
    hide *;
    PieceGives(s, p, from);
    HeaderIs(s, p.start);
    S.PayloadMeans(P.CodecOf(s), p.payload, s.samples[from..from + p.count]);
    ParsedOf(P.HeaderOf(s, p.start, P.EncodingOf(s)), p.count, p.payload, s.encoding == 10,
             s.samples[from..from + p.count]);
  }

  lemma ParsedOf(h: Header, count: int, payload: seq<bv8>, steim1: bool, xs: seq<bv32>)
    requires count == |xs| && Value(h.encoding) == (if steim1 then 10 else 11) && |payload| % 64 == 0
    requires S.Meaning(if steim1 then SteimFormat.Steim1 else SteimFormat.Steim2, payload, |payload| / 64, |xs|, true)
             == Some(xs)
    ensures IsRecordOf(ParsedRecord(h, count, payload), h.sid, h.flags, h.pubversion, h.rate, h.extra, steim1,
                       Nanos(h.start), xs)
  {
    hide S.Meaning, Nanos, Value;
  }

  /** The record of a piece of a series reads as one of these, whatever bytes follow it, if its start time is readable;
      otherwise it is refused. */
  lemma HeldReads(s: P.Source, p: P.Piece, from: int, rest: seq<bv8>, validate: bool)
    requires P.Packable(s) && P.Holds(s, p, from) && IsInt64(s.start + from * s.period)
    ensures 0 <= from < from + p.count <= |s.samples| && P.PieceFits(p)
    ensures var record := P.RecordOf(s, p);
            var parsed := Parse(record + rest, validate);
            && |record| <= (if s.reclen < 0 then 4096 else s.reclen)
            && (parsed.Success? <==> ReadableTime(s.start + from * s.period))
            && (parsed.Success? ==>
                  && parsed.r.reclen == |record|
                  && IsRecordOf(parsed.r, s.sid, s.flags, s.pubversion, s.rate, s.extra, s.encoding == 10,
                                s.start + from * s.period, s.samples[from..from + p.count]))
  {
    hide *;
    var h := P.HeaderOf(s, p.start, P.EncodingOf(s));
    PieceGives(s, p, from);
    TimeReadable(p.start);
    HeaderIs(s, p.start);
    RecordIs(s, p, from);
    ReadsBack(h, p.count, p.payload, rest, validate);
    ParsedIs(s, p, from);
    ParsedLength(h, p.count, p.payload);
  }

  lemma ParsedLength(h: Header, count: int, payload: seq<bv8>)
    ensures ParsedRecord(h, count, payload).reclen == 40 + |h.sid| + |h.extra| + |payload|
  {
    hide Nanos;
  }

  lemma RecordIs(s: P.Source, p: P.Piece, from: int)
    requires P.Packable(s) && P.Holds(s, p, from)
    ensures var h := P.HeaderOf(s, p.start, P.EncodingOf(s));
            && P.PieceFits(p) && FitsFormat(h) && P.RecordOf(s, p) == Sealed(h, p.count, p.payload)
            && |P.RecordOf(s, p)| == 40 + |s.sid| + |s.extra| + |p.payload|
            && |P.RecordOf(s, p)| <= (if s.reclen < 0 then 4096 else s.reclen)
            && |P.RecordOf(s, p)| <= MAXRECLEN && |P.RecordOf(s, p)| < 0x1_0000_0000
  {
    hide Nanos, P.Carrying, IsParts, Sealed;
  }

  lemma PieceGives(s: P.Source, p: P.Piece, from: int)
    requires P.Packable(s) && P.Holds(s, p, from)
    ensures P.PieceFits(p) && IsParts(p.start) && 0 <= p.start.year < 0x1_0000
    ensures Nanos(p.start) == s.start + from * s.period
    ensures 0 <= from < from + p.count <= |s.samples| && 0 <= p.count < 0x1_0000_0000 && |p.payload| < 0x1_0000_0000
    ensures 40 + |s.sid| + |s.extra| + |p.payload| <= (if s.reclen < 0 then 4096 else s.reclen) <= MAXRECLEN
    ensures P.Carrying(P.CodecOf(s), p.payload, s.samples[from..from + p.count])
  {
    hide Nanos, P.Carrying, IsParts;
  }

  lemma HeaderIs(s: P.Source, start: Parts)
    requires P.Packable(s) && IsParts(start) && 0 <= start.year < 0x1_0000
    ensures var h := P.HeaderOf(s, start, P.EncodingOf(s));
            && FitsFormat(h) && h.sid == s.sid && h.flags == s.flags && h.pubversion == s.pubversion && h.rate == s.rate
            && h.extra == s.extra && h.start == start
            && |h.sid| == |s.sid| && |h.extra| == |s.extra|
            && Value(h.encoding) == (if s.encoding == 10 then 10 else 11)
    ensures P.CodecOf(s) == if s.encoding == 10 then SteimFormat.Steim1 else SteimFormat.Steim2
  {
    hide Value, IsParts;
  }

  /** The records are those of the first n samples of the series, in order and one after the other. */
  ghost predicate RecordsOfSeries(s: P.Source, rs: seq<Parsed>, n: int) {
    if rs == [] then n == 0
    else
      var r := rs[|rs| - 1];
      && 0 <= n - r.count <= n <= |s.samples| && RecordsOfSeries(s, rs[..|rs| - 1], n - r.count)
      && IsRecordOf(r, s.sid, s.flags, s.pubversion, s.rate, s.extra, s.encoding == 10,
                    s.start + (n - r.count) * s.period, s.samples[n - r.count..n])
  }

  ghost function ParsedPieces(s: P.Source, ps: seq<P.Piece>): (rs: seq<Parsed>)
    ensures |rs| == |ps|
  {
    seq(|ps|, i requires 0 <= i < |ps| =>
      ParsedRecord(P.HeaderOf(s, ps[i].start, P.EncodingOf(s)), ps[i].count, ps[i].payload))
  }

  lemma {:induction false} PiecesAreRecords(s: P.Source, ps: seq<P.Piece>, n: nat)
    requires P.Packable(s) && P.Pieces(s, ps, n)
    ensures RecordsOfSeries(s, ParsedPieces(s, ps), n)
  {
    hide *;
    if ps == [] {
      NoPieces(s, n);
    } else {
      var front, p := ps[..|ps| - 1], ps[|ps| - 1];
      LastPiece(s, ps, n);
      PiecesAreRecords(s, front, n - p.count);
      ParsedIs(s, p, n - p.count);
      CountIs(P.HeaderOf(s, p.start, P.EncodingOf(s)), p.count, p.payload);
      MoreRecords(s, ParsedPieces(s, front), ParsedRecord(P.HeaderOf(s, p.start, P.EncodingOf(s)), p.count, p.payload),
                  n);
    }
  }

  lemma NoPieces(s: P.Source, n: nat)
    requires P.Pieces(s, [], n)
    ensures RecordsOfSeries(s, ParsedPieces(s, []), n)
  {}

  lemma LastPiece(s: P.Source, ps: seq<P.Piece>, n: nat)
    requires P.Pieces(s, ps, n) && ps != []
    ensures var front, p := ps[..|ps| - 1], ps[|ps| - 1];
            && 0 <= n - p.count && P.Pieces(s, front, n - p.count) && P.Holds(s, p, n - p.count)
            && ParsedPieces(s, ps) == ParsedPieces(s, front)
               + [ParsedRecord(P.HeaderOf(s, p.start, P.EncodingOf(s)), p.count, p.payload)]
  {
    hide P.Holds, ParsedRecord, P.HeaderOf;
  }

  lemma MoreRecords(s: P.Source, rs: seq<Parsed>, r: Parsed, n: int)
    requires 0 <= n - r.count <= n <= |s.samples| && RecordsOfSeries(s, rs, n - r.count)
    requires IsRecordOf(r, s.sid, s.flags, s.pubversion, s.rate, s.extra, s.encoding == 10,
                        s.start + (n - r.count) * s.period, s.samples[n - r.count..n])
    ensures RecordsOfSeries(s, rs + [r], n)
  {
    hide IsRecordOf;
    assert (rs + [r])[..|rs|] == rs;
  }

  lemma CountIs(h: Header, count: int, payload: seq<bv8>)
    ensures ParsedRecord(h, count, payload).count == count
  {
    hide Nanos;
  }
}
