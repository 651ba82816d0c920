/** Reading packed records back from a buffer, and building the trace list they came from. */
module Rebuild {
  import opened Options
  import opened Mseed
  import opened SteimFormat
  import opened TimeValues
  import opened Bytes
  import opened Record3
  import opened PackedRecords
  import P = Packer
  import T = TraceSpec
  import TC = TraceContents
  import G = TraceGrid

  // ---------------------------------------------------------------- the buffer reader

  /** The records read from a buffer, and the failure that ended the reading, if one did. */
  datatype BufferRead = BufferRead(records: seq<Parsed>, failure: Option<ParseResult>)

  /** The loop of mstl3_readbuffer_selection, which stops when no more than the shortest record is left. */
  function ReadAll(buffer: seq<bv8>, validate: bool): BufferRead
    decreases |buffer|
  {
    if |buffer| <= MINRECLEN then BufferRead([], None)
    else
      match Parse(buffer, validate)
      case Success(r) =>
        var later := ReadAll(buffer[r.reclen..], validate);
        BufferRead([r] + later.records, later.failure)
      case NeedMore(_) => BufferRead([], None)
      case failure => BufferRead([], Some(failure))
  }

  method ReadBuffer(buffer: seq<bv8>, validate: bool, alignment: nat, bigendian: bool) returns (res: BufferRead)
    requires alignment < 4
    ensures res == ReadAll(buffer, validate)
  {
    hide Parse;
    var offset, records := 0, [];
    assert buffer[0..] == buffer;
    while |buffer| - offset > MINRECLEN
      invariant offset <= |buffer|
      invariant var later := ReadAll(buffer[offset..], validate);
                ReadAll(buffer, validate) == BufferRead(records + later.records, later.failure)
    {
      var parsed := ParseRecord(buffer[offset..], validate, (alignment + offset) % 4, bigendian);
      match parsed
      case Success(r) =>
        assert buffer[offset..][r.reclen..] == buffer[offset + r.reclen..];
        records := records + [r];
        offset := offset + r.reclen;
      case NeedMore(_) =>
        return BufferRead(records, None);
      case failure =>
        return BufferRead(records, Some(failure));
    }
    return BufferRead(records, None);
  }

  /** A record as it was written. */
  datatype Item = Item(h: Header, count: int, payload: seq<bv8>)

  predicate Supported(i: Item) {
    && FitsFormat(i.h) && 0 <= i.count < 0x1_0000_0000 && |i.payload| < 0x1_0000_0000
    && FIXED_LENGTH + |i.h.sid| + |i.h.extra| + |i.payload| <= MAXRECLEN && Readable(i.h.start)
  }

  function ItemBytes(i: Item): seq<bv8>
    requires Supported(i)
  {
    Sealed(i.h, i.count, i.payload)
  }

  function ItemRead(i: Item): Parsed {
    ParsedRecord(i.h, i.count, i.payload)
  }

  ghost predicate AllSupported(items: seq<Item>) {
    forall i :: 0 <= i < |items| ==> Supported(items[i])
  }

  ghost function Concat(items: seq<Item>): seq<bv8>
    requires AllSupported(items)
  {
    if items == [] then [] else ItemBytes(items[0]) + Concat(items[1..])
  }

  ghost function ReadItems(items: seq<Item>): (read: seq<Parsed>)
    ensures |read| == |items|
  {
    seq(|items|, i requires 0 <= i < |items| => ItemRead(items[i]))
  }

  /** The length of a record that has neither identifier, extra headers nor payload. */
  predicate Bare(i: Item) {
    |i.h.sid| + |i.h.extra| + |i.payload| == 0
  }

  /** Concatenated records are read back one by one, but for a last record of the least length. */
  lemma {:induction false} ReadsAll(items: seq<Item>, validate: bool)
    requires AllSupported(items)
    ensures var read := if items != [] && Bare(items[|items| - 1]) then items[..|items| - 1] else items;
            ReadAll(Concat(items), validate) == BufferRead(ReadItems(read), None)
  {
    hide Sealed, Parse, Supported, ParsedRecord;
    if items != [] {
      ReadsFirst(items, validate);
      if |items| > 1 || !Bare(items[0]) {
        var rest := items[1..];
        ReadsAll(rest, validate);
        var read := if Bare(items[|items| - 1]) then items[..|items| - 1] else items;
        assert read[1..] == if rest != [] && Bare(rest[|rest| - 1]) then rest[..|rest| - 1] else rest;
        assert ReadItems(read) == [ItemRead(items[0])] + ReadItems(read[1..]);
      }
    }
  }

  lemma ReadsFirst(items: seq<Item>, validate: bool)
    requires AllSupported(items) && items != []
    ensures var s, i := Concat(items), items[0];
            && Parse(s, validate) == Success(ItemRead(i)) && ItemRead(i).reclen == |ItemBytes(i)| >= MINRECLEN
            && s[ItemRead(i).reclen..] == Concat(items[1..])
            && (|s| > MINRECLEN <==> |items| > 1 || !Bare(i))
  {
    assert Supported(items[0]);
    hide Sealed, Parse;
    ReadsBack(items[0].h, items[0].count, items[0].payload, Concat(items[1..]), validate);
    if |items| > 1 {
      assert Supported(items[1]);
    }
  }

  // ---------------------------------------------------------------- from records to a trace

  function CodecOf(encoding: bv8): Version {
    if encoding == Byte(P.DE_STEIM1) then Steim1 else Steim2
  }

  /** The MS3Record with its samples unpacked, the rate field standing for this period and rate. */
  function Unpacked(r: Parsed, period: nat, hz: real): Option<T.Record> {
    var d := if r.count < 0 then None
      else Decoded(CodecOf(r.encoding), P.WordsOf(r.payload), |r.payload| / 64, r.count, true);
    if d.None? then None
    else Some(T.Record(r.start, period, hz, r.count, Value(r.pubversion), 'i', d.value, 'i', d.value))
  }

  /** A piece of a series as a record of the series. */
  ghost function RecordOf(s: P.Source, p: P.Piece, from: int, hz: real): T.Record
    requires 0 <= from <= from + p.count <= |s.samples|
  {
    var xs := s.samples[from..from + p.count];
    T.Record(P.SampleTime(s, from), s.period, hz, |xs|, Value(s.pubversion), 'i', xs, 'i', xs)
  }

  /** Unpacking what is parsed from the record of a piece gives that. */
  lemma PieceUnpacks(s: P.Source, p: P.Piece, from: int, hz: real)
    requires P.Packable(s) && P.Holds(s, p, from)
    ensures Unpacked(ParsedRecord(P.HeaderOf(s, p.start, P.EncodingOf(s)), p.count, p.payload), s.period, hz)
            == Some(RecordOf(s, p, from, hz))
  {
    hide Decoded, P.WordsOf, Nanos, IsParts, Byte;
    assert Byte(P.DE_STEIM1) != Byte(P.DE_STEIM2);
    assert CodecOf(Byte(P.EncodingOf(s))) == P.CodecOf(s);
  }

  /** The records of the pieces that hold the first n samples. */
  ghost function RecordsOf(s: P.Source, ps: seq<P.Piece>, n: nat, hz: real): (rs: seq<T.Record>)
    requires n <= |s.samples| && P.Pieces(s, ps, n)
    ensures |rs| == |ps|
  {
    if ps == [] then []
    else
      var p := ps[|ps| - 1];
      RecordsOf(s, ps[..|ps| - 1], n - p.count, hz) + [RecordOf(s, p, n - p.count, hz)]
  }

  function GridOf(s: P.Source, hz: real): G.Grid {
    G.Grid(s.start, s.period, hz, 'i')
  }

  /** A series with a sample period and a rate. */
  ghost predicate Rebuildable(s: P.Source, hz: real) {
    s.period > 0 && hz != 0.0
  }

  /** Neither the first nor the last sample of the piece has the error value as its time. */
  predicate Timed(s: P.Source, p: P.Piece, from: int) {
    P.SampleTime(s, from) != NSTERROR && P.SampleTime(s, from + p.count - 1) != NSTERROR
  }

  /** So it is for all pieces that hold the first n samples. */
  predicate AllTimed(s: P.Source, ps: seq<P.Piece>, n: int) {
    ps == [] || (var p := ps[|ps| - 1]; AllTimed(s, ps[..|ps| - 1], n - p.count) && Timed(s, p, n - p.count))
  }

  lemma CellOf(base: int, p: int, k: int)
    requires p > 0
    ensures (base + k * p - base) / p == k && p * k == k * p
  {
    var q, r := k * p / p, k * p % p;
    assert p * (k - q) == r;
    G.Steps(p, k - q, p - 1);
  }

  lemma HoldsSome(s: P.Source, p: P.Piece, from: int)
    requires P.Holds(s, p, from)
    ensures 0 <= from < from + p.count <= |s.samples|
  {}

  lemma PieceOnGrid(s: P.Source, p: P.Piece, from: int, hz: real)
    requires Rebuildable(s, hz) && P.Holds(s, p, from) && Timed(s, p, from)
    ensures var g, r := GridOf(s, hz), RecordOf(s, p, from, hz);
            && G.OnGrid(g, r) && G.Cell(g, r) == from && G.Past(g, r) == from + p.count
            && T.End(r) == P.SampleTime(s, from + p.count - 1)
  {
    hide P.Carrying, Nanos, IsParts;
    var r, last := RecordOf(s, p, from, hz), from + p.count - 1;
    CellOf(s.start, s.period, from);
    assert T.End(r) == P.SampleTime(s, last) by {
      assert (r.samplecnt - 1) * s.period + from * s.period == last * s.period;
    }
    assert P.SampleTime(s, last) != NSTERROR;
    assert r.start == G.At(GridOf(s, hz), from);
  }

  /** The records form one chain that carries the first n samples. */
  lemma {:induction false} RecordsChain(s: P.Source, ps: seq<P.Piece>, n: nat, hz: real)
    requires Rebuildable(s, hz) && n <= |s.samples| && P.Pieces(s, ps, n) && AllTimed(s, ps, n)
    ensures var g, rs := GridOf(s, hz), RecordsOf(s, ps, n, hz);
            && TC.Payloads(rs) == s.samples[..n] && TC.Count(rs) == n
            && (ps != [] ==> G.Chain(g, rs) && G.Lo(g, rs) == 0 && G.Hi(g, rs) == n)
            && (ps == [] ==> n == 0)
  {
    hide P.Holds, G.OnGrid, G.Cell, G.Past, Rebuildable, Timed;
    if ps != [] {
      var p := ps[|ps| - 1];
      var m := n - p.count;
      HoldsSome(s, p, m);
      var front, r := ps[..|ps| - 1], RecordOf(s, p, m, hz);
      RecordsChain(s, front, m, hz);
      PieceOnGrid(s, p, m, hz);
      var g, rs := GridOf(s, hz), RecordsOf(s, front, m, hz);
      TC.PayloadsConcat(rs, [r]);
      G.OneChain(g, r);
      TC.OnePayload(r);
      assert s.samples[..m] + s.samples[m..n] == s.samples[..n];
      if front == [] {
        assert RecordsOf(s, ps, n, hz) == [r];
      } else {
        G.JoinedChain(g, rs, [r]);
      }
    }
  }

  /** The series as one segment. */
  ghost predicate IsSeries(s: P.Source, hz: real, seg: T.Seg) {
    && seg.start == s.start && seg.end == P.SampleTime(s, |s.samples| - 1) && seg.hz == hz
    && seg.samplecnt == |s.samples| && seg.sampletype == 'i' && seg.data == s.samples
  }

  /** Records that carry a whole series, added in order to an ID that is not in the list yet, give one segment
      with the start, end, count and samples of the series. */
  lemma RebuildsSeries(s: P.Source, ps: seq<P.Piece>, hz: real, o: T.Opts)
    requires s.samples != [] && Rebuildable(s, hz) && P.Pieces(s, ps, |s.samples|) && AllTimed(s, ps, |s.samples|)
    requires G.Usual(GridOf(s, hz), o)
    ensures var id := T.Run(G.Additions(RecordsOf(s, ps, |s.samples|, hz), o));
            && id.Some? && |id.value.segs| == 1 && IsSeries(s, hz, id.value.segs[0])
            && id.value.earliest == s.start && id.value.latest == P.SampleTime(s, |s.samples| - 1)
  {
    hide *;
    var g, n, rs := GridOf(s, hz), |s.samples|, RecordsOf(s, ps, |s.samples|, hz);
    RecordsChain(s, ps, n, hz);
    ChainSorted(g, rs);
    OneGroup(g, rs);
    G.RunIsGroups(g, rs, rs, o);
    SeriesSeg(s, rs, hz, o);
    OneSegs(g, rs, o);
  }

  lemma OneSegs(g: G.Grid, c: seq<T.Record>, o: T.Opts)
    requires c != [] && G.AllNonEmpty([c])
    ensures G.Segs(g, [c], o) == [G.SegOf(g, c, o)]
  {}

  lemma SeriesSeg(s: P.Source, rs: seq<T.Record>, hz: real, o: T.Opts)
    requires var g := GridOf(s, hz);
             G.Chain(g, rs) && G.Lo(g, rs) == 0 && G.Hi(g, rs) == |s.samples|
               && TC.Payloads(rs) == s.samples[..|s.samples|] && TC.Count(rs) == |s.samples|
    ensures rs != [] && IsSeries(s, hz, G.SegOf(GridOf(s, hz), rs, o))
    ensures var seg := G.SegOf(GridOf(s, hz), rs, o);
            seg.start == s.start && seg.end == P.SampleTime(s, |s.samples| - 1)
  {
    hide G.OnGrid, G.Cell, TC.Payloads, TC.Count, G.Lo, G.Hi;
    G.ChainTimes(GridOf(s, hz), rs, o);
    assert s.period * (|s.samples| - 1) == (|s.samples| - 1) * s.period && s.period * 0 == 0;
  }

  lemma ChainSorted(g: G.Grid, c: seq<T.Record>)
    requires G.Chain(g, c)
    ensures G.TimeSorted(g, c) && G.GridRecords(g, c)
  {
    assert G.Canon(g, [c]) by {
      hide G.Chain;
    }
    assert G.Flatten([c]) == c;
    hide G.OnGrid, G.Cell, G.Chain, G.Flatten;
    G.FlattenSorted(g, [c]);
  }

  lemma OneGroup(g: G.Grid, c: seq<T.Record>)
    requires G.Chain(g, c)
    ensures G.Group(g, c) == [c]
  {
    assert G.Canon(g, [c]) by {
      hide G.Chain;
    }
    assert G.Flatten([c]) == c;
    G.GroupOfFlatten(g, [c]);
  }

  // ---------------------------------------------------------------- pack, read, rebuild

  ghost function Flat(records: seq<seq<bv8>>): seq<bv8> {
    if records == [] then [] else records[0] + Flat(records[1..])
  }

  ghost function ItemOf(s: P.Source, p: P.Piece): Item {
    Item(P.HeaderOf(s, p.start, P.EncodingOf(s)), p.count, p.payload)
  }

  ghost function ItemsOf(s: P.Source, ps: seq<P.Piece>): (items: seq<Item>)
    ensures |items| == |ps|
  {
    seq(|ps|, i requires 0 <= i < |ps| => ItemOf(s, ps[i]))
  }

  lemma NotEmpty(s: P.Source, p: P.Piece, from: int)
    requires P.Holds(s, p, from)
    ensures p.payload != []
  {
    hide Nanos, IsParts, DiffsOfFrame;
  }

  lemma TimedReadable(s: P.Source, p: P.Piece, from: int)
    requires P.TimesFit(s) && 0 <= from < |s.samples| && s.start >= FIRST_TIME && Timed(s, p, from)
    ensures IsInt64(s.start + from * s.period) && ReadableTime(s.start + from * s.period)
  {
    var time := P.SampleTime(s, from);
    assert IsInt64(time);
    assert time >= s.start by {
      assert from * s.period >= 0;
    }
    SentinelTime();
    hide Nanos;
  }

  lemma StartReadable(s: P.Source, p: P.Piece, from: int)
    requires P.Packable(s) && P.TimesFit(s) && s.start >= FIRST_TIME && P.Holds(s, p, from) && Timed(s, p, from)
    ensures Readable(p.start)
  {
    hide *;
    PieceGives(s, p, from);
    TimedReadable(s, p, from);
    TimeReadable(p.start);
  }

  lemma PieceReadable(s: P.Source, p: P.Piece, from: int, hz: real)
    requires P.Packable(s) && P.TimesFit(s) && P.Accepted(s) && Rebuildable(s, hz) && s.start >= FIRST_TIME
             && P.Holds(s, p, from) && Timed(s, p, from)
    ensures Supported(ItemOf(s, p)) && !Bare(ItemOf(s, p))
  {
    StartReadable(s, p, from);
    NotEmpty(s, p, from);
    hide Nanos, IsParts, Readable, P.Carrying, P.TimesFit, Rebuildable;
  }

  /** A series that the reader can read back, record by record. */
  ghost predicate ReadableSeries(s: P.Source, hz: real) {
    P.Packable(s) && P.TimesFit(s) && P.Accepted(s) && Rebuildable(s, hz) && s.start >= FIRST_TIME && s.samples != []
  }

  /** The piece's record is supported and unpacks to this one. */
  ghost predicate PieceGood(s: P.Source, p: P.Piece, r: T.Record, hz: real) {
    && P.Packable(s) && P.PieceFits(p) && Supported(ItemOf(s, p)) && !Bare(ItemOf(s, p))
    && Unpacked(ItemRead(ItemOf(s, p)), s.period, hz) == Some(r)
  }

  lemma OnePieceGood(s: P.Source, p: P.Piece, from: int, hz: real)
    requires ReadableSeries(s, hz) && P.Holds(s, p, from) && Timed(s, p, from)
    ensures 0 <= from < from + p.count <= |s.samples| && PieceGood(s, p, RecordOf(s, p, from, hz), hz)
  {
    hide Nanos, IsParts, P.Carrying, P.TimesFit, Rebuildable, Unpacked, P.WordsOf, Decoded, Supported, Bare;
    PieceReadable(s, p, from, hz);
    PieceUnpacks(s, p, from, hz);
  }

  /** The pieces of a series are records that the reader supports, and unpack to the records of the series. */
  lemma {:induction false} PiecesReadable(s: P.Source, ps: seq<P.Piece>, n: nat, hz: real)
    requires ReadableSeries(s, hz) && n <= |s.samples| && P.Pieces(s, ps, n) && AllTimed(s, ps, n)
    ensures forall i :: 0 <= i < |ps| ==> PieceGood(s, ps[i], RecordsOf(s, ps, n, hz)[i], hz)
  {
    hide P.Holds, ReadableSeries, PieceGood, RecordOf, Timed;
    if ps != [] {
      var front, p := ps[..|ps| - 1], ps[|ps| - 1];
      var m := n - p.count;
      OnePieceGood(s, p, m, hz);
      PiecesReadable(s, front, m, hz);
      var rs := RecordsOf(s, ps, n, hz);
      assert rs == RecordsOf(s, front, m, hz) + [RecordOf(s, p, m, hz)];
      forall i | 0 <= i < |front| ensures PieceGood(s, ps[i], rs[i], hz) {
        assert ps[i] == front[i];
      }
    }
  }

  lemma {:induction false} FlatIsConcat(records: seq<seq<bv8>>, items: seq<Item>)
    requires |records| == |items| && AllSupported(items) && forall i :: 0 <= i < |items| ==>
             records[i] == ItemBytes(items[i])
    ensures Flat(records) == Concat(items)
  {
    hide Supported, Sealed;
    if items != [] {
      FlatIsConcat(records[1..], items[1..]);
    }
  }

  /** Reading the buffer finds exactly the records of the pieces, and they unpack to these. */
  ghost predicate ReadAs(buffer: seq<bv8>, rs: seq<T.Record>, period: nat, hz: real, validate: bool) {
    var read := ReadAll(buffer, validate);
    && read.failure == None && |read.records| == |rs|
    && forall i :: 0 <= i < |rs| ==> Unpacked(read.records[i], period, hz) == Some(rs[i])
  }

  lemma PackedReads(s: P.Source, records: seq<seq<bv8>>, ps: seq<P.Piece>, hz: real, validate: bool)
    requires ReadableSeries(s, hz) && P.AreRecords(s, records, ps) && P.Pieces(s, ps, |s.samples|)
    requires AllTimed(s, ps, |s.samples|)
    ensures ReadAs(Flat(records), RecordsOf(s, ps, |s.samples|, hz), s.period, hz, validate)
    ensures ReadAll(Flat(records), validate).records == ParsedPieces(s, ps)
  {
    hide *;
    ItemsParsed(s, ps);
    SameCount(s, records, ps);
    SomeSamples(s, hz);
    var items, rs := ItemsOf(s, ps), RecordsOf(s, ps, |s.samples|, hz);
    PiecesReadable(s, ps, |s.samples|, hz);
    forall i | 0 <= i < |ps| ensures Supported(items[i]) && !Bare(items[i]) && records[i] == ItemBytes(items[i]) {
      GoodGives(s, ps, rs, hz, i);
      RecordIsItem(s, records, ps, i);
    }
    ItemsSupported(items);
    FlatIsConcat(records, items);
    ReadsAll(items, validate);
    forall i | 0 <= i < |rs| ensures Unpacked(ReadItems(items)[i], s.period, hz) == Some(rs[i]) {
      GoodGives(s, ps, rs, hz, i);
    }
    ReadAsIs(Flat(records), rs, s.period, hz, validate);
  }

  lemma ItemsParsed(s: P.Source, ps: seq<P.Piece>)
    ensures ReadItems(ItemsOf(s, ps)) == ParsedPieces(s, ps)
  {
    hide ParsedRecord, P.HeaderOf;
  }

  lemma SameCount(s: P.Source, records: seq<seq<bv8>>, ps: seq<P.Piece>)
    requires P.AreRecords(s, records, ps)
    ensures |records| == |ps|
  {}

  lemma GoodGives(s: P.Source, ps: seq<P.Piece>, rs: seq<T.Record>, hz: real, i: nat)
    requires i < |ps| == |rs| && PieceGood(s, ps[i], rs[i], hz)
    ensures var items := ItemsOf(s, ps);
            && Supported(items[i]) && !Bare(items[i])
            && Unpacked(ReadItems(items)[i], s.period, hz) == Some(rs[i])
  {
    hide Supported, Bare, Unpacked, P.Packable, P.PieceFits;
  }

  lemma ItemsSupported(items: seq<Item>)
    requires forall i :: 0 <= i < |items| ==> Supported(items[i])
    ensures AllSupported(items)
  {
    hide Supported;
  }

  lemma ReadAsIs(buffer: seq<bv8>, rs: seq<T.Record>, period: nat, hz: real, validate: bool)
    requires var read := ReadAll(buffer, validate);
             && read.failure == None && |read.records| == |rs|
             && forall i :: 0 <= i < |rs| ==> Unpacked(read.records[i], period, hz) == Some(rs[i])
    ensures ReadAs(buffer, rs, period, hz, validate)
  {
    hide ReadAll, Unpacked;
  }

  lemma SomeSamples(s: P.Source, hz: real)
    requires ReadableSeries(s, hz)
    ensures s.samples != [] && Rebuildable(s, hz) && P.Packable(s)
  {}

  lemma RecordIsItem(s: P.Source, records: seq<seq<bv8>>, ps: seq<P.Piece>, i: nat)
    requires P.AreRecords(s, records, ps) && s.samples != [] && i < |ps| && Supported(ItemsOf(s, ps)[i])
    ensures |records| == |ps| && records[i] == ItemBytes(ItemsOf(s, ps)[i])
  {
    hide Sealed;
    assert records[i] == P.RecordOf(s, ps[i]);
  }

  /** Pack, read, rebuild: when a series was packed whole into these records, reading their concatenation
      finds exactly them, their CRCs being right, and adding what they unpack to, in order, to an ID that is
      not in the list yet gives one segment with the start, end, sample count and samples of the series. */
  lemma PackReadRebuild(s: P.Source, records: seq<seq<bv8>>, ps: seq<P.Piece>, hz: real, o: T.Opts, validate: bool)
    requires ReadableSeries(s, hz) && P.AreRecords(s, records, ps) && P.Pieces(s, ps, |s.samples|)
    requires AllTimed(s, ps, |s.samples|)
    requires G.Usual(GridOf(s, hz), o)
    ensures var rs := RecordsOf(s, ps, |s.samples|, hz);
            && ReadAs(Flat(records), rs, s.period, hz, validate)
            && RecordsOfSeries(s, ReadAll(Flat(records), validate).records, |s.samples|)
            && var id := T.Run(G.Additions(rs, o));
               id.Some? && |id.value.segs| == 1 && IsSeries(s, hz, id.value.segs[0])
  {
    hide *;
    SomeSamples(s, hz);
    PackedReads(s, records, ps, hz, validate);
    PiecesAreRecords(s, ps, |s.samples|);
    RebuildsSeries(s, ps, hz, o);
  }

  method Concatenate(records: seq<seq<bv8>>) returns (buffer: seq<bv8>)
    ensures buffer == Flat(records)
  {
    buffer := [];
    var i := |records|;
    while i > 0
      invariant 0 <= i <= |records| && buffer == Flat(records[i..])
    {
      i := i - 1;
      buffer := records[i] + buffer;
      assert records[i..][1..] == records[i + 1..];
    }
    assert records[0..] == records;
  }

  /** The whole way: a series is packed with flushing and its records are read back from one buffer. Unless the
      packer gets stuck, or a record starts or ends at the time that is the error value, what is read is the series:
      unpacked and added in order to an ID that is not in the list yet, the records give it back as one segment. */
  method PackAndRead(s: P.Source, validate: bool, alignment: nat, bigendian: bool, ghost hz: real, ghost o: T.Opts)
    returns (count: int, packed: nat, read: BufferRead, ghost ps: seq<P.Piece>, ghost rs: seq<T.Record>)
    requires ReadableSeries(s, hz) && G.Usual(GridOf(s, hz), o) && alignment < 4
    ensures packed <= |s.samples| && P.Pieces(s, ps, packed)
    ensures count == -1 ==> packed < |s.samples| && P.HeaderLength(s) <= P.MaxReclen(s) && P.StuckAt(s, packed)
    ensures count != -1 ==> packed == |s.samples| && |ps| == count
    ensures count != -1 && AllTimed(s, ps, packed) ==>
              && read.failure == None && |read.records| == |rs| == count > 0
              && RecordsOfSeries(s, read.records, |s.samples|)
              && (forall i :: 0 <= i < count ==> Unpacked(read.records[i], s.period, hz) == Some(rs[i]))
              && var id := T.Run(G.Additions(rs, o));
                 id.Some? && |id.value.segs| == 1 && IsSeries(s, hz, id.value.segs[0])
  {
    assert P.Packable(s) && P.TimesFit(s) && P.Accepted(s) && s.samples != [];
    hide ReadableSeries, P.Pieces, P.AreRecords, P.TimesFit, P.Packable, P.StuckAt, IsSeries, Unpacked, ReadAll,
         G.Usual, RecordsOf, GridOf, Flat, P.AllFull, AllTimed, RecordsOfSeries;
    var records;
    count, records, packed, ps := P.Pack(s, true);
    read, rs := BufferRead([], None), [];
    if count != -1 {
      RecordCount(s, records, ps);
      var buffer := Concatenate(records);
      read := ReadBuffer(buffer, validate, alignment, bigendian);
      if AllTimed(s, ps, |s.samples|) {
        rs := RecordsOf(s, ps, |s.samples|, hz);
        PackReadRebuild(s, records, ps, hz, o, validate);
      }
    }
  }

  lemma RecordCount(s: P.Source, records: seq<seq<bv8>>, ps: seq<P.Piece>)
    requires P.AreRecords(s, records, ps)
    ensures |records| == |ps|
  {}
}
