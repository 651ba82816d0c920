/** What the reader finds in the records that are drawn from the segments of a trace list. */
module DrawnRecords {
  import opened Record3
  import opened TimeValues
  import opened PackedRecords
  import P = Packer
  import SteimFormat
  import R = Rolling

  /** Samples of a segment in the records of the entries. */
  ghost function Given(log: seq<R.Entry>, key: nat): int {
    if log == [] then 0
    else
      var e := log[|log| - 1];
      Given(log[..|log| - 1], key) + if e.key == key then e.piece.count else 0
  }

  /** Each entry is the next piece of its segment. */
  lemma {:induction false} LoggedInOrder(originals: seq<R.Segment>, t: R.Settings, log: seq<R.Entry>,
                                         emitted: seq<nat>, i: nat)
    requires R.Logged(originals, t, log, emitted) && i < |log|
    ensures log[i].key < |originals|
    ensures P.Holds(R.SourceOf(originals[log[i].key], t), log[i].piece, Given(log[..i], log[i].key))
    decreases |log|
  {
    hide *;
    var n := |log| - 1;
    var e, front := log[n], log[..n];
    LastEntry(originals, t, log, emitted);
    if i < n {
      assert front[..i] == log[..i] && front[i] == log[i];
      LoggedInOrder(originals, t, front, emitted[e.key := emitted[e.key] - e.piece.count], i);
    } else {
      EmittedIsGiven(originals, t, front, emitted[e.key := emitted[e.key] - e.piece.count], e.key);
    }
  }

  lemma LastEntry(originals: seq<R.Segment>, t: R.Settings, log: seq<R.Entry>, emitted: seq<nat>)
    requires R.Logged(originals, t, log, emitted) && log != []
    ensures var e := log[|log| - 1];
            && e.key < |originals| == |emitted| && e.piece.count <= emitted[e.key]
            && P.Holds(R.SourceOf(originals[e.key], t), e.piece, emitted[e.key] - e.piece.count)
            && R.Logged(originals, t, log[..|log| - 1], emitted[e.key := emitted[e.key] - e.piece.count])
  {
    hide P.Holds, R.SourceOf;
  }

  /** What was emitted of a segment is what the entries hold. */
  lemma {:induction false} EmittedIsGiven(originals: seq<R.Segment>, t: R.Settings, log: seq<R.Entry>,
                                          emitted: seq<nat>, key: nat)
    requires R.Logged(originals, t, log, emitted) && key < |originals|
    ensures |emitted| == |originals| && emitted[key] == Given(log, key)
    decreases |log|
  {
    hide P.Holds, R.SourceOf;
    if log != [] {
      var e := log[|log| - 1];
      EmittedIsGiven(originals, t, log[..|log| - 1], emitted[e.key := emitted[e.key] - e.piece.count], key);
    }
  }

  /** Any record of a run: it follows the records drawn before it from the same segment, and reads, whatever bytes
      follow it, as a record with that segment's identifier, version and rate field, the extra headers that all get, no
      flags, and the start time of its first sample, if that is readable. Otherwise it is refused. */
  lemma DrawnReads(originals: seq<R.Segment>, t: R.Settings, records: seq<seq<bv8>>, log: seq<R.Entry>,
                   emitted: seq<nat>, i: nat, rest: seq<bv8>, validate: bool)
    requires R.Logged(originals, t, log, emitted) && R.AreRecords(originals, t, records, log) && i < |log|
    ensures |records| == |log| && log[i].key < |originals|
    ensures var g := originals[log[i].key];
            var from := Given(log[..i], log[i].key);
            var past := from + log[i].piece.count;
            var parsed := Parse(records[i] + rest, validate);
            && 0 <= from < past <= |g.samples| && |records[i]| <= (if t.reclen < 0 then 4096 else t.reclen)
            && (parsed.Success? <==> ReadableTime(g.start + from * g.period))
            && (parsed.Success? ==>
                  && parsed.r.reclen == |records[i]|
                  && IsRecordOf(parsed.r, g.sid, 0, g.pubversion, g.rate, t.extra, t.encoding == 10,
                                g.start + from * g.period, g.samples[from..past]))
  {
    hide *;
    LoggedInOrder(originals, t, log, emitted, i);
    var g, p, from := originals[log[i].key], log[i].piece, Given(log[..i], log[i].key);
    RecordAt(originals, t, records, log, i);
    TemplateOf(g, t, p, from);
    HeldReads(R.SourceOf(g, t), p, from, rest, validate);
  }

  lemma RecordAt(originals: seq<R.Segment>, t: R.Settings, records: seq<seq<bv8>>, log: seq<R.Entry>, i: nat)
    requires R.AreRecords(originals, t, records, log) && i < |log|
    ensures |records| == |log| && log[i].key < |originals| && P.PieceFits(log[i].piece)
    ensures var s := R.SourceOf(originals[log[i].key], t);
            P.Packable(s) && P.TimesFit(s) && records[i] == P.RecordOf(s, log[i].piece)
  {
    hide R.SourceOf, P.Packable, P.TimesFit, P.RecordOf, P.PieceFits;
  }

  /** The template for the records of a segment. */
  lemma TemplateOf(g: R.Segment, t: R.Settings, p: P.Piece, from: int)
    requires var s := R.SourceOf(g, t); P.TimesFit(s) && P.Holds(s, p, from)
    ensures 0 <= from < from + p.count <= |g.samples| && IsInt64(g.start + from * g.period)
    ensures var s := R.SourceOf(g, t);
            && s.sid == g.sid && s.flags == 0 && s.pubversion == g.pubversion && s.rate == g.rate && s.extra == t.extra
            && s.encoding == t.encoding && s.start == g.start && s.period == g.period && s.samples == g.samples
            && s.reclen == t.reclen
  {
    hide P.Carrying, P.PieceFits, Nanos;
    assert IsInt64(P.SampleTime(R.SourceOf(g, t), from));
  }

  /** The bytes that a record has room for, in whole frames. */
  function Room(g: R.Segment, t: R.Settings): int {
    ((if t.reclen < 0 then 4096 else t.reclen) - 40 - |g.sid| - |t.extra|) / 64
  }

  /** What is left of each segment after a run that did not fail: with flushing nothing, otherwise the samples that were
      not drawn, and fewer of them than the packer takes a record to hold. */
  lemma LeftOver(originals: seq<R.Segment>, t: R.Settings, log: seq<R.Entry>, emitted: seq<nat>, segs: seq<R.Segment>,
                 i: nat, flush: bool)
    requires R.Logged(originals, t, log, emitted) && R.AllRest(originals, emitted, segs)
    requires i < |segs| && R.Drained(segs[i], t, flush)
    ensures segs[i].key < |originals|
    ensures var g := originals[segs[i].key];
            var from := Given(log, segs[i].key);
            && 0 <= from <= |g.samples|
            && segs[i] == g.(start := g.start + from * g.period, samples := g.samples[from..])
            && (segs[i].samples == []
                || (!flush && |segs[i].samples| < Room(g, t) * if t.encoding == 10 then 60 else 105))
  {
    hide *;
    RestAt(originals, emitted, segs, i);
    EmittedIsGiven(originals, t, log, emitted, segs[i].key);
    DrainedIs(segs[i], t, flush);
    RoomIs(originals[segs[i].key], segs[i], t);
  }

  lemma RestAt(originals: seq<R.Segment>, emitted: seq<nat>, segs: seq<R.Segment>, i: nat)
    requires R.AllRest(originals, emitted, segs) && i < |segs|
    ensures var k := segs[i].key;
            && k < |originals| == |emitted| && 0 <= emitted[k] <= |originals[k].samples|
            && segs[i] == originals[k].(start := originals[k].start + emitted[k] * originals[k].period,
                                        samples := originals[k].samples[emitted[k]..])
  {}

  lemma DrainedIs(g: R.Segment, t: R.Settings, flush: bool)
    requires R.Drained(g, t, flush)
    ensures g.samples == [] || (!flush && |g.samples| < Room(g, t) * if t.encoding == 10 then 60 else 105)
  {}

  lemma RoomIs(g: R.Segment, h: R.Segment, t: R.Settings)
    requires |g.sid| == |h.sid|
    ensures Room(g, t) == Room(h, t)
  {}

  /** Without flushing every record is filled: its payload takes all the frames there is room for. */
  lemma DrawnFull(originals: seq<R.Segment>, t: R.Settings, log: seq<R.Entry>, emitted: seq<nat>, i: nat)
    requires R.Logged(originals, t, log, emitted) && R.AllFull(originals, t, log) && i < |log|
    ensures log[i].key < |originals| && |log[i].piece.payload| == 64 * Room(originals[log[i].key], t)
  {
    LoggedInOrder(originals, t, log, emitted, i);
    FullIs(originals[log[i].key], t, log[i].piece, Given(log[..i], log[i].key));
    hide P.Full, P.Holds, R.SourceOf;
  }

  lemma FullIs(g: R.Segment, t: R.Settings, p: P.Piece, from: int)
    requires P.Holds(R.SourceOf(g, t), p, from)
    ensures P.Full(R.SourceOf(g, t), p) ==> |p.payload| == 64 * Room(g, t)
  {
    hide *;
    PayloadFrames(R.SourceOf(g, t), p, from);
    FullRoom(g, t, p);
  }

  lemma FullRoom(g: R.Segment, t: R.Settings, p: P.Piece)
    ensures P.Full(R.SourceOf(g, t), p) ==> |p.payload| / 64 == Room(g, t)
  {}

  lemma PayloadFrames(s: P.Source, p: P.Piece, from: int)
    requires P.Holds(s, p, from)
    ensures |p.payload| == 64 * (|p.payload| / 64)
  {
    hide P.PieceFits, SteimFormat.Decoded, Nanos, P.WordsOf;
  }
}
