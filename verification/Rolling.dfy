/** A trace list as a rolling buffer: drawing records from its segments, which give up what was packed. */
module Rolling {
  import opened Sequences
  import opened TimeValues
  import opened Bytes
  import opened Record3
  import P = Packer

  /** A segment of integer samples and what its trace ID adds to its records. key tells segments apart. */
  datatype Segment = Segment(key: nat, sid: seq<bv8>, pubversion: bv8, rate: seq<bv8>, period: nat, start: int,
                             end: int, samples: seq<bv32>)

  /** What is the same for all records. */
  datatype Settings = Settings(reclen: int, encoding: int, extra: seq<bv8>)

  /** The MS3Record template made from a segment. */
  function SourceOf(g: Segment, t: Settings): P.Source {
    P.Source(g.sid, 0, g.start, g.period, g.rate, t.encoding, g.pubversion, t.extra, 'i', g.samples, t.reclen)
  }

  /** A segment without its first n samples: its start is the time of the next one. */
  function Rest(g: Segment, n: nat): Segment
    requires n <= |g.samples|
  {
    g.(start := g.start + n * g.period, samples := g.samples[n..])
  }

  lemma RestOfRest(g: Segment, n: nat, m: nat)
    requires n + m <= |g.samples|
    ensures Rest(Rest(g, n), m) == Rest(g, n + m)
  {
    assert g.samples[n..][m..] == g.samples[n + m..];
    assert n * g.period + m * g.period == (n + m) * g.period;
  }

  lemma RestTime(g: Segment, t: Settings, n: nat, m: nat)
    requires n <= |g.samples|
    ensures P.SampleTime(SourceOf(Rest(g, n), t), m) == P.SampleTime(SourceOf(g, t), n + m)
  {
    assert n * g.period + m * g.period == (n + m) * g.period;
  }

  ghost predicate Usable(g: Segment, t: Settings) {
    P.Packable(SourceOf(g, t)) && P.TimesFit(SourceOf(g, t))
  }

  lemma RestUsable(g: Segment, t: Settings, n: nat)
    requires n < |g.samples| && Usable(g, t)
    ensures Usable(Rest(g, n), t)
  {
    RestTime(g, t, n, 0);
    forall m | 0 <= m < |g.samples| - n ensures IsInt64(P.SampleTime(SourceOf(Rest(g, n), t), m)) {
      RestTime(g, t, n, m);
      assert IsInt64(P.SampleTime(SourceOf(g, t), n + m));
    }
  }

  /** A piece of what remains of a segment is a piece of the segment, and so is its record. */
  lemma RestHolds(g: Segment, t: Settings, n: nat, piece: P.Piece, from: nat)
    requires n <= |g.samples| && P.Holds(SourceOf(Rest(g, n), t), piece, from) && P.Packable(SourceOf(g, t))
    ensures P.Holds(SourceOf(g, t), piece, n + from)
    ensures P.RecordOf(SourceOf(Rest(g, n), t), piece) == P.RecordOf(SourceOf(g, t), piece)
    ensures P.Full(SourceOf(Rest(g, n), t), piece) == P.Full(SourceOf(g, t), piece)
  {
    hide P.Carrying, Sealed, Nanos;
    RestTime(g, t, n, from);
    assert g.samples[n..][from..from + piece.count] == g.samples[n + from..n + from + piece.count];
  }

  // ---------------------------------------------------------------- conservation

  /** The segment being packed and how many of its samples are in records already, or none. */
  datatype Activity = Idle | Packing(at: nat, pending: nat)

  function Pending(a: Activity, i: nat): nat {
    if a.Packing? && a.at == i then a.pending else 0
  }

  /** A segment holds what was not emitted of the original, and what is pending. */
  ghost predicate Conserved(originals: seq<Segment>, emitted: seq<nat>, g: Segment, pending: nat) {
    && g.key < |originals| == |emitted| && pending <= emitted[g.key] <= |originals[g.key].samples|
    && g == Rest(originals[g.key], emitted[g.key] - pending) && pending <= |g.samples|
    && (g.samples == [] ==> originals[g.key].samples == [])
  }

  /** Every segment conserves its original's samples; of those that are gone, all samples were emitted. */
  ghost predicate Conserves(originals: seq<Segment>, emitted: seq<nat>, segs: seq<Segment>, a: Activity) {
    && |emitted| == |originals|
    && (forall i :: 0 <= i < |segs| ==> Conserved(originals, emitted, segs[i], Pending(a, i)))
    && (forall i, j :: 0 <= i < j < |segs| ==> segs[i].key < segs[j].key)
    && (forall k :: 0 <= k < |originals| ==>
          originals[k].key == k && (emitted[k] == |originals[k].samples| || IsHeld(segs, k)))
    && (a.Packing? ==> a.at < |segs| && segs[a.at].samples != [])
  }

  ghost predicate IsHeld(segs: seq<Segment>, k: nat) {
    exists i :: 0 <= i < |segs| && segs[i].key == k
  }

  lemma ConservesEmit(originals: seq<Segment>, emitted: seq<nat>, segs: seq<Segment>, at: nat, pending: nat, n: nat)
    requires Conserves(originals, emitted, segs, Packing(at, pending)) && pending + n <= |segs[at].samples|
    ensures Conserved(originals, emitted, segs[at], pending)
    ensures Conserves(originals, emitted[segs[at].key := emitted[segs[at].key] + n], segs, Packing(at, pending + n))
  {
    hide Rest;
    var k := segs[at].key;
    var now := emitted[k := emitted[k] + n];
    assert Conserved(originals, emitted, segs[at], Pending(Packing(at, pending), at));
    RestSize(originals[k], emitted[k] - pending);
    forall i | 0 <= i < |segs| ensures Conserved(originals, now, segs[i], Pending(Packing(at, pending + n), i)) {
      assert Conserved(originals, emitted, segs[i], Pending(Packing(at, pending), i));
    }
    assert IsHeld(segs, k);
  }

  lemma ConservesStart(originals: seq<Segment>, emitted: seq<nat>, segs: seq<Segment>, at: nat)
    requires Conserves(originals, emitted, segs, Idle) && at < |segs| && segs[at].samples != []
    ensures Conserves(originals, emitted, segs, Packing(at, 0))
  {
    forall i | 0 <= i < |segs| ensures Conserved(originals, emitted, segs[i], Pending(Packing(at, 0), i)) {
      assert Conserved(originals, emitted, segs[i], Pending(Idle, i));
    }
  }

  /** What a segment gives up when its packing has finished. */
  function GivenUp(segs: seq<Segment>, at: nat, n: nat): seq<Segment>
    requires at < |segs| && n <= |segs[at].samples|
  {
    if n == |segs[at].samples| then RemoveAt(segs, at) else segs[at := Rest(segs[at], n)]
  }

  /** Each segment that is left holds what it should. */
  lemma FinishEach(originals: seq<Segment>, emitted: seq<nat>, segs: seq<Segment>, at: nat, n: nat, i: nat)
    requires Conserves(originals, emitted, segs, Packing(at, n)) && n <= |segs[at].samples|
             && i < |GivenUp(segs, at, n)|
    ensures Conserved(originals, emitted, GivenUp(segs, at, n)[i], 0)
  {
    hide *;
    ConservesGives(originals, emitted, segs, Packing(at, n));
    var j := if n == |segs[at].samples| && i >= at then i + 1 else i;
    GivenUpAt(segs, at, n, i);
    ConservedAt(originals, emitted, segs, at, n, j);
    if j == at {
      RestConserved(originals, emitted, segs[at], n);
    }
  }

  lemma GivenUpAt(segs: seq<Segment>, at: nat, n: nat, i: nat)
    requires at < |segs| && n <= |segs[at].samples| && i < |GivenUp(segs, at, n)|
    ensures var j := if n == |segs[at].samples| && i >= at then i + 1 else i;
            && j < |segs| && (j == at ==> n < |segs[at].samples|)
            && GivenUp(segs, at, n)[i] == if j == at then Rest(segs[at], n) else segs[j]
  {
    hide Rest;
  }

  lemma ConservedAt(originals: seq<Segment>, emitted: seq<nat>, segs: seq<Segment>, at: nat, n: nat, j: nat)
    requires Conserves(originals, emitted, segs, Packing(at, n)) && j < |segs|
    ensures Conserved(originals, emitted, segs[j], if j == at then n else 0)
  {
    hide Conserved;
    assert Conserved(originals, emitted, segs[j], Pending(Packing(at, n), j));
  }

  lemma RestConserved(originals: seq<Segment>, emitted: seq<nat>, g: Segment, n: nat)
    requires Conserved(originals, emitted, g, n) && n < |g.samples|
    ensures Conserved(originals, emitted, Rest(g, n), 0)
  {
    var original := originals[g.key];
    RestSize(original, emitted[g.key] - n);
    RestOfRest(original, emitted[g.key] - n, n);
    RestSize(g, n);
    hide Rest;
  }

  /** What a conserving state is made of. */
  lemma ConservesGives(originals: seq<Segment>, emitted: seq<nat>, segs: seq<Segment>, a: Activity)
    requires Conserves(originals, emitted, segs, a)
    ensures |emitted| == |originals|
    ensures (forall i, j :: 0 <= i < j < |segs| ==> segs[i].key < segs[j].key)
    ensures forall k :: 0 <= k < |originals| ==> originals[k].key == k
    ensures a.Packing? ==> a.at < |segs| && segs[a.at].samples != []
  {
    hide Conserved, IsHeld;
  }

  lemma MakeConserves(originals: seq<Segment>, emitted: seq<nat>, segs: seq<Segment>)
    requires |emitted| == |originals|
    requires forall i :: 0 <= i < |segs| ==> Conserved(originals, emitted, segs[i], 0)
    requires forall i, j :: 0 <= i < j < |segs| ==> segs[i].key < segs[j].key
    requires forall k :: 0 <= k < |originals| ==>
               originals[k].key == k && (emitted[k] == |originals[k].samples| || IsHeld(segs, k))
    ensures Conserves(originals, emitted, segs, Idle)
  {
    hide Conserved, IsHeld;
  }

  /** A segment that keeps some samples, or is another one, is still held. */
  lemma HeldAfter(segs: seq<Segment>, at: nat, n: nat, k: nat)
    requires at < |segs| && n <= |segs[at].samples| && IsHeld(segs, k) && (segs[at].key != k || n < |segs[at].samples|)
    ensures IsHeld(GivenUp(segs, at, n), k)
  {
    var i :| 0 <= i < |segs| && segs[i].key == k;
    var now, j := GivenUp(segs, at, n), if n == |segs[at].samples| && i > at then i - 1 else i;
    RestSize(segs[at], n);
    hide Rest;
    assert now[j].key == k;
  }

  /** Of a segment that gives up everything, everything was emitted. */
  lemma AllGivenUp(originals: seq<Segment>, emitted: seq<nat>, g: Segment)
    requires Conserved(originals, emitted, g, |g.samples|)
    ensures g.key < |originals| == |emitted| && emitted[g.key] == |originals[g.key].samples|
  {
    RestSize(originals[g.key], emitted[g.key] - |g.samples|);
    hide Rest;
  }

  /** Each original whose samples are not all emitted is still held. */
  lemma FinishHeld(originals: seq<Segment>, emitted: seq<nat>, segs: seq<Segment>, at: nat, n: nat, k: nat)
    requires Conserves(originals, emitted, segs, Packing(at, n)) && n <= |segs[at].samples| && k < |originals|
    ensures emitted[k] == |originals[k].samples| || IsHeld(GivenUp(segs, at, n), k)
  {
    hide Conserved, IsHeld, GivenUp;
    if k == segs[at].key && n == |segs[at].samples| {
      assert Conserved(originals, emitted, segs[at], Pending(Packing(at, n), at));
      AllGivenUp(originals, emitted, segs[at]);
    } else if emitted[k] != |originals[k].samples| {
      HeldAfter(segs, at, n, k);
    }
  }

  lemma ConservesFinish(originals: seq<Segment>, emitted: seq<nat>, segs: seq<Segment>, at: nat, n: nat)
    requires Conserves(originals, emitted, segs, Packing(at, n))
    ensures at < |segs| && n <= |segs[at].samples| && Conserves(originals, emitted, GivenUp(segs, at, n), Idle)
  {
    hide *;
    ConservesGives(originals, emitted, segs, Packing(at, n));
    ConservedAt(originals, emitted, segs, at, n, at);
    PendingWithin(originals, emitted, segs[at], n);
    var now := GivenUp(segs, at, n);
    forall i | 0 <= i < |now| ensures Conserved(originals, emitted, now[i], 0) {
      FinishEach(originals, emitted, segs, at, n, i);
    }
    forall k | 0 <= k < |originals| ensures emitted[k] == |originals[k].samples| || IsHeld(now, k) {
      FinishHeld(originals, emitted, segs, at, n, k);
    }
    KeysKept(segs, at, n);
    MakeConserves(originals, emitted, now);
  }

  lemma PendingWithin(originals: seq<Segment>, emitted: seq<nat>, g: Segment, n: nat)
    requires Conserved(originals, emitted, g, n)
    ensures n <= |g.samples|
  {
    hide Rest;
  }

  lemma RestSize(g: Segment, n: nat)
    requires n <= |g.samples|
    ensures |Rest(g, n).samples| == |g.samples| - n && Rest(g, n).key == g.key
  {}

  lemma KeysKept(segs: seq<Segment>, at: nat, n: nat)
    requires at < |segs| && n <= |segs[at].samples| && forall i, j :: 0 <= i < j < |segs| ==> segs[i].key < segs[j].key
    ensures var now := GivenUp(segs, at, n); forall i, j :: 0 <= i < j < |now| ==> now[i].key < now[j].key
  {
    RestSize(segs[at], n);
    hide Rest;
  }

  // ---------------------------------------------------------------- the packer

  /** The segment has nothing left that could be packed. */
  ghost predicate Drained(g: Segment, t: Settings, flush: bool) {
    P.StopsAt(SourceOf(g, t), flush, 0)
  }

  /** A record was generated: the samples of this piece, next after those emitted before. */
  ghost predicate Generated(originals: seq<Segment>, t: Settings, was: seq<nat>, now: seq<nat>, record: seq<bv8>,
                            key: nat, piece: P.Piece) {
    && key < |originals| == |was| && Usable(originals[key], t) && P.PieceFits(piece)
    && record == P.RecordOf(SourceOf(originals[key], t), piece)
    && P.Holds(SourceOf(originals[key], t), piece, was[key])
    && now == was[key := was[key] + piece.count] && piece.count > 0
  }

  /** MS3TraceListPacker without MSF_MAINTAINMSTL, and the segments of its trace list in the order of the scan */
  class TraceListPacker {
    const settings: Settings
    const flush: bool
    const originals: seq<Segment>     // as they were
    var segs: seq<Segment>
    var active: P.RecordPacker?       // the segment packing state
    var current: nat                  // the segment it packs
    ghost var emitted: seq<nat>       // samples of each original that are in records

    ghost predicate Sound()
      reads this, Footprint()
    {
      (forall k :: 0 <= k < |originals| ==> Usable(originals[k], settings))
        && Conserves(originals, emitted, segs, State())
    }

    ghost function State(): Activity
      reads this, active
    {
      if active == null then Idle else Packing(current, active.packedsamples)
    }

    /** The segment packing state is that of the current segment. */
    ghost predicate ActiveIs()
      reads this, Footprint()
    {
      active != null && current < |segs| && segs[current].samples != []
        && active.msr == SourceOf(segs[current], settings) && active.Valid()
    }

    /** Between calls it has finished only if it packed all. */
    ghost predicate ActiveOk()
      reads this, Footprint()
    {
      active != null ==> ActiveIs() && (active.finished ==> active.packedsamples == |segs[current].samples|)
    }

    ghost predicate Valid()
      reads this, Footprint()
    {
      Sound() && ActiveOk()
    }

    /** The segment being packed, if there is one, is not flushed. */
    ghost predicate Unflushed()
      reads this, active
    {
      active != null ==> !active.flush
    }

    ghost function Footprint(): set<object>
      reads this
    {
      if active == null then {} else {active, active.rawrec, active.encoded}
    }

    constructor (segs: seq<Segment>, settings: Settings, flush: bool)
      requires forall k :: 0 <= k < |segs| ==> segs[k].key == k && Usable(segs[k], settings)
      ensures Valid() && this.segs == segs == originals && this.settings == settings && this.flush == flush
              && active == null
      ensures emitted == seq(|segs|, _ => 0)
    {
      this.settings, this.flush, originals, this.segs, active, current := settings, flush, segs, segs, null, 0;
      emitted := seq(|segs|, _ => 0);
      new;
      NothingEmitted(segs);
    }

    /** Take the next record of the current segment, if it gives one. */
    method Draw() returns (result: int, record: seq<bv8>, ghost key: nat, ghost piece: P.Piece)
      requires Valid() && active != null
      modifies this`emitted, Footprint()
      ensures Sound() && ActiveIs() && active.flush == old(active.flush)
      ensures result == 1 || result == 0 || result == -1
      ensures result == 1 ==> ActiveOk() && Generated(originals, settings, old(emitted), emitted, record, key, piece)
      ensures result == 1 && !active.flush ==> P.Full(SourceOf(originals[key], settings), piece)
      ensures result != 1 ==> emitted == old(emitted) && active.packedsamples == old(active.packedsamples)
      ensures result == 0 ==> P.StopsAt(active.msr, active.flush, active.packedsamples)
      ensures result == -1 ==> ActiveOk() && P.StuckAt(active.msr, active.packedsamples)
    {
      hide P.RecordOf, P.Holds, P.StuckAt, P.StopsAt, P.PieceFits, Conserves, Usable, P.RecordPacker.HeaderValid,
           P.Full, Rest, Byte, Value;
      key := segs[current].key;
      ghost var source, pending := active.msr, active.packedsamples;
      AllPacked(source, active.flush);
      result, record, piece := active.Next();
      if result == 1 {
        Drawn(originals, emitted, segs, settings, current, pending, piece);
        emitted := emitted[key := emitted[key] + piece.count];
      }
    }

    /** Packing of the current segment has finished: it gives up what was packed, and goes when nothing is left. */
    method Finish()
      requires Sound() && ActiveIs()
      modifies this`segs, this`active
      ensures Valid() && active == null
    {
      hide Conserves, Usable, Rest, Byte, Value;
      var n, g := active.packedsamples, segs[current];
      ConservesFinish(originals, emitted, segs, current, n);
      GivenUpIs(segs, current, n);
      active := null;
      if n > 0 {
        var start := if n == |g.samples| then g.end else P.SampleTime(SourceOf(g, settings), n);
        var rest := g.(start := start, samples := g.samples[n..]);
        if |g.samples| - n > 0 {
          segs := segs[current := rest];
        } else {
          segs := RemoveAt(segs, current);
        }
      }
    }

    /** A segment that the packer was started on, or could not be, and that cannot be packed. */
    ghost predicate Failing()
      reads this, Footprint()
    {
      if active == null then exists i :: 0 <= i < |segs| && !P.Accepted(SourceOf(segs[i], settings))
      else HeaderFits(active.msr) && P.StuckAt(active.msr, active.packedsamples)
    }

    /** Start packing a segment, and take its first record, if it gives one. */
    method Begin(i: nat, flushSeg: bool) returns (result: int, record: seq<bv8>, ghost key: nat, ghost piece: P.Piece)
      requires Valid() && active == null && i < |segs| && segs[i].samples != []
      modifies this`active, this`current, this`emitted
      ensures Valid() && fresh(Footprint()) && segs == old(segs)
      ensures result == 1 || result == 0 || result == -1
      ensures result == 1 ==> Generated(originals, settings, old(emitted), emitted, record, key, piece)
      ensures !flushSeg ==> Unflushed() && (result == 1 ==> P.Full(SourceOf(originals[key], settings), piece))
      ensures result != 1 ==> emitted == old(emitted)
      ensures result == 0 ==> active == null && Drained(segs[i], settings, flushSeg)
      ensures result == -1 ==> Failing()
    {
      hide Conserves, Usable, Rest, P.RecordOf, P.Holds, P.StuckAt, P.StopsAt, P.PieceFits, P.RecordPacker.HeaderValid,
           P.Accepted, Byte, Value;
      record, piece, key := [], P.Piece(SENTINEL, 0, []), 0;
      ConservesStart(originals, emitted, segs, i);
      UsableNow(originals, emitted, segs, settings, i);
      var packer := P.PackInit(SourceOf(segs[i], settings), flushSeg);
      if packer == null {
        return -1, [], 0, piece;
      }
      active, current := packer, i;
      result, record, key, piece := Draw();
      if result == 0 {
        active := null;
      }
    }

    /** mstl3_pack_next: 1 and a record, 0 when no segment gives one, -1 on error. Segments that were not
        updated for too long are flushed. */
    method Next(callFlush: bool, idle: set<nat>)
      returns (result: int, record: seq<bv8>, ghost key: nat, ghost piece: P.Piece)
      requires Valid()
      modifies this`active, this`current, this`emitted, this`segs, Footprint()
      ensures Valid() && fresh(Footprint() - old(Footprint()))
      ensures result == 1 || result == 0 || result == -1
      ensures result == 1 ==> Generated(originals, settings, old(emitted), emitted, record, key, piece)
      ensures old(Unflushed()) && !flush && !callFlush && idle == {}
              ==> Unflushed() && (result == 1 ==> P.Full(SourceOf(originals[key], settings), piece))
      ensures result != 1 ==> emitted == old(emitted)
      ensures result == 0 ==> active == null && forall i :: 0 <= i < |segs| ==>
              Drained(segs[i], settings, flush || callFlush || segs[i].key in idle)
      ensures result == -1 ==> Failing()
    {
      hide Conserves, Usable, Rest, P.RecordOf, P.Holds, P.StuckAt, P.StopsAt, P.PieceFits, P.RecordPacker.HeaderValid,
           P.Accepted, Byte, Value;
      if active != null {
        if callFlush {
          active.SetFlush();
        }
        result, record, key, piece := Draw();
        if result != 0 {
          return;
        }
        Finish();
      }
      var i := 0;
      while i < |segs|
        modifies this`active, this`current, this`emitted
        invariant i <= |segs| && Valid() && active == null && emitted == old(emitted)
        invariant old(Unflushed()) && !flush && !callFlush && idle == {} ==> Unflushed()
        invariant forall j :: 0 <= j < i ==> Drained(segs[j], settings, flush || callFlush || segs[j].key in idle)
      {
        if segs[i].samples == [] {
          AllPacked(SourceOf(segs[i], settings), flush || callFlush || segs[i].key in idle);
        } else {
          result, record, key, piece := Begin(i, flush || callFlush || segs[i].key in idle);
          if result != 0 {
            return;
          }
        }
        i := i + 1;
      }
      result, record, key, piece := 0, [], 0, P.Piece(SENTINEL, 0, []);
    }

    /** Draw records until there are none or one fails. The records hold the samples of each segment in order. At
        the end each segment that is left is its original less what was emitted; with flushing that is nothing,
        and without it all records are full. */
    method Drain(callFlush: bool) returns (result: int, records: seq<seq<bv8>>, ghost log: seq<Entry>)
      requires Valid() && emitted == seq(|originals|, _ => 0)
      modifies this`active, this`current, this`emitted, this`segs, Footprint()
      ensures Valid() && Logged(originals, settings, log, emitted) && AreRecords(originals, settings, records, log)
      ensures result == 0 || result == -1
      ensures result == 0 ==> active == null && forall i :: 0 <= i < |segs| ==>
              Drained(segs[i], settings, flush || callFlush)
      ensures result == 0 ==>
                AllRest(originals, emitted, segs) && (flush || callFlush ==> AllEmitted(originals, emitted, segs))
      ensures old(Unflushed()) && !flush && !callFlush ==> AllFull(originals, settings, log)
      ensures result == -1 ==> Failing()
    {
      hide Conserves, Drained, Generated, Logged, AreRecords, AllFull, P.RecordPacker.Valid, Byte, Value;
      result, records, log := 1, [], [];
      EmittedWithin(originals, emitted, segs, State());
      NoRecords(originals, settings);
      NoneFull(originals, settings);
      while result == 1
        modifies this`active, this`current, this`emitted, this`segs, Footprint()
        invariant Valid() && fresh(Footprint() - old(Footprint())) && (result == 1 || result == 0 || result == -1)
        invariant Within(originals, emitted)
        invariant Logged(originals, settings, log, emitted) && AreRecords(originals, settings, records, log)
        invariant result == 0 ==> active == null && forall i :: 0 <= i < |segs| ==>
                  Drained(segs[i], settings, flush || callFlush)
        invariant result == -1 ==> Failing()
        invariant old(Unflushed()) && !flush && !callFlush ==> Unflushed() && AllFull(originals, settings, log)
        decreases if result == 1 then 1 else 0, Left(originals, emitted)
      {
        var record;
        ghost var key, piece;
        ghost var was := emitted;
        result, record, key, piece := Next(callFlush, {});
        if result == 1 {
          EmittedWithin(originals, emitted, segs, State());
          LoggedMore(originals, settings, records, log, was, emitted, record, key, piece);
          records := records + [record];
          log := log + [Entry(key, piece)];
        }
      }
      if result == 0 {
        AllIdleHold(originals, emitted, segs);
        if flush || callFlush {
          FlushEmpties(originals, emitted, segs, settings);
        }
      }
    }
  }

  /** A record of an original segment. */
  datatype Entry = Entry(key: nat, piece: P.Piece)

  /** The entries, in order, hold the first samples of each original, as many as were emitted of it, each
      starting at the time of its first sample. */
  ghost predicate Logged(originals: seq<Segment>, t: Settings, log: seq<Entry>, emitted: seq<nat>) {
    && |emitted| == |originals|
    && if log == [] then emitted == seq(|originals|, _ => 0)
       else
         var e := log[|log| - 1];
         && e.key < |originals| && e.piece.count <= emitted[e.key]
         && P.Holds(SourceOf(originals[e.key], t), e.piece, emitted[e.key] - e.piece.count)
         && Logged(originals, t, log[..|log| - 1], emitted[e.key := emitted[e.key] - e.piece.count])
  }

  ghost predicate AreRecords(originals: seq<Segment>, t: Settings, records: seq<seq<bv8>>, log: seq<Entry>) {
    && |records| == |log|
    && forall i :: 0 <= i < |log| ==>
         log[i].key < |originals| && Usable(originals[log[i].key], t) && P.PieceFits(log[i].piece)
         && records[i] == P.RecordOf(SourceOf(originals[log[i].key], t), log[i].piece)
  }

  /** The records of the entries use all the frames there is room for. */
  ghost predicate AllFull(originals: seq<Segment>, t: Settings, log: seq<Entry>) {
    forall i :: 0 <= i < |log| ==> log[i].key < |originals| && P.Full(SourceOf(originals[log[i].key], t), log[i].piece)
  }

  /** Each segment is what was not emitted of its original. */
  ghost predicate AllRest(originals: seq<Segment>, emitted: seq<nat>, segs: seq<Segment>) {
    |emitted| == |originals| && forall i :: 0 <= i < |segs| ==>
      var k := segs[i].key;
      k < |originals| && emitted[k] <= |originals[k].samples| && segs[i] == Rest(originals[k], emitted[k])
  }

  /** Everything was emitted, and the only segments are those that never had samples. */
  ghost predicate AllEmitted(originals: seq<Segment>, emitted: seq<nat>, segs: seq<Segment>) {
    && |emitted| == |originals| && (forall k :: 0 <= k < |originals| ==> emitted[k] == |originals[k].samples|)
    && (forall i :: 0 <= i < |segs| ==> segs[i].key < |originals| && originals[segs[i].key].samples == [])
    && ((forall k :: 0 <= k < |originals| ==> originals[k].samples != []) ==> segs == [])
  }

  lemma NoneFull(originals: seq<Segment>, t: Settings)
    ensures AllFull(originals, t, [])
  {}

  lemma NoRecords(originals: seq<Segment>, t: Settings)
    ensures Logged(originals, t, [], seq(|originals|, _ => 0)) && AreRecords(originals, t, [], [])
  {}

  lemma LoggedMore(originals: seq<Segment>, t: Settings, records: seq<seq<bv8>>, log: seq<Entry>, was: seq<nat>,
                   now: seq<nat>,
                   record: seq<bv8>, key: nat, piece: P.Piece)
    requires Logged(originals, t, log, was) && AreRecords(originals, t, records, log)
    requires Generated(originals, t, was, now, record, key, piece) && Within(originals, was) && Within(originals, now)
    ensures Logged(originals, t, log + [Entry(key, piece)], now)
            && AreRecords(originals, t, records + [record], log + [Entry(key, piece)])
    ensures Left(originals, now) < Left(originals, was)
    ensures AllFull(originals, t, log) && P.Full(SourceOf(originals[key], t), piece) ==>
            AllFull(originals, t, log + [Entry(key, piece)])
  {
    hide P.Holds, P.RecordOf, Usable, P.PieceFits;
    assert (log + [Entry(key, piece)])[..|log|] == log && now[key := was[key]] == was;
    LeftLess(originals, was, now, key, piece.count);
  }

  ghost predicate Within(originals: seq<Segment>, emitted: seq<nat>) {
    |emitted| == |originals| && forall k :: 0 <= k < |originals| ==> emitted[k] <= |originals[k].samples|
  }

  /** Samples that are not in a record yet. */
  ghost function Left(originals: seq<Segment>, emitted: seq<nat>): nat
    requires Within(originals, emitted)
  {
    if originals == [] then 0 else |originals[0].samples| - emitted[0] + Left(originals[1..], emitted[1..])
  }

  lemma {:induction false} LeftLess(originals: seq<Segment>, was: seq<nat>, now: seq<nat>, key: nat, n: int)
    requires Within(originals, was) && Within(originals, now) && key < |originals| && n > 0
             && now == was[key := was[key] + n]
    ensures Left(originals, now) < Left(originals, was)
  {
    if key > 0 {
      assert now[1..] == was[1..][key - 1 := was[1..][key - 1] + n];
      LeftLess(originals[1..], was[1..], now[1..], key - 1, n);
    } else {
      assert now[1..] == was[1..];
    }
  }

  lemma EmittedWithin(originals: seq<Segment>, emitted: seq<nat>, segs: seq<Segment>, a: Activity)
    requires Conserves(originals, emitted, segs, a)
    ensures Within(originals, emitted)
  {
    hide Rest;
    forall k | 0 <= k < |originals| ensures emitted[k] <= |originals[k].samples| {
      if IsHeld(segs, k) {
        var i :| 0 <= i < |segs| && segs[i].key == k;
        assert Conserved(originals, emitted, segs[i], Pending(a, i));
      }
    }
  }

  /** Between segments, what is left of each is exactly what was not emitted. */
  lemma IdleHolds(originals: seq<Segment>, emitted: seq<nat>, segs: seq<Segment>, i: nat)
    requires Conserves(originals, emitted, segs, Idle) && i < |segs|
    ensures segs[i].key < |originals| && emitted[segs[i].key] <= |originals[segs[i].key].samples|
    ensures segs[i] == Rest(originals[segs[i].key], emitted[segs[i].key])
  {
    hide Rest;
    assert Conserved(originals, emitted, segs[i], Pending(Idle, i));
  }

  lemma AllIdleHold(originals: seq<Segment>, emitted: seq<nat>, segs: seq<Segment>)
    requires Conserves(originals, emitted, segs, Idle)
    ensures AllRest(originals, emitted, segs)
  {
    forall i | 0 <= i < |segs|
      ensures segs[i].key < |originals| && emitted[segs[i].key] <= |originals[segs[i].key].samples|
      ensures segs[i] == Rest(originals[segs[i].key], emitted[segs[i].key])
    {
      IdleHolds(originals, emitted, segs, i);
    }
  }

  /** A segment with nothing left to flush never had samples. */
  lemma EmptyLeft(originals: seq<Segment>, emitted: seq<nat>, segs: seq<Segment>, t: Settings, i: nat)
    requires Conserves(originals, emitted, segs, Idle) && i < |segs| && Drained(segs[i], t, true)
    ensures segs[i].key < |originals| == |emitted| && originals[segs[i].key].samples == [] && emitted[segs[i].key] == 0
  {
    assert Conserved(originals, emitted, segs[i], Pending(Idle, i));
    hide Rest;
  }

  lemma HeldOrOut(originals: seq<Segment>, emitted: seq<nat>, segs: seq<Segment>, a: Activity)
    requires Conserves(originals, emitted, segs, a)
    ensures |emitted| == |originals|
    ensures forall k :: 0 <= k < |originals| ==> emitted[k] == |originals[k].samples| || IsHeld(segs, k)
  {
    hide Conserved, IsHeld;
  }

  lemma HeldAt(segs: seq<Segment>, k: nat) returns (i: nat)
    requires IsHeld(segs, k)
    ensures i < |segs| && segs[i].key == k
  {
    i :| 0 <= i < |segs| && segs[i].key == k;
  }

  lemma MakeEmitted(originals: seq<Segment>, emitted: seq<nat>, segs: seq<Segment>)
    requires |emitted| == |originals| && forall k :: 0 <= k < |originals| ==> emitted[k] == |originals[k].samples|
    requires forall i :: 0 <= i < |segs| ==> segs[i].key < |originals| && originals[segs[i].key].samples == []
    ensures AllEmitted(originals, emitted, segs)
  {
    if segs != [] {
      assert originals[segs[0].key].samples == [];
    }
  }

  /** Flushing packs everything: all samples of every original are emitted, and the only segments left are those
      that never had any. */
  lemma FlushEmpties(originals: seq<Segment>, emitted: seq<nat>, segs: seq<Segment>, t: Settings)
    requires Conserves(originals, emitted, segs, Idle) && forall i :: 0 <= i < |segs| ==> Drained(segs[i], t, true)
    ensures AllEmitted(originals, emitted, segs)
  {
    hide *;
    HeldOrOut(originals, emitted, segs, Idle);
    forall i | 0 <= i < |segs| ensures segs[i].key < |originals| && originals[segs[i].key].samples == [] {
      EmptyLeft(originals, emitted, segs, t, i);
    }
    forall k | 0 <= k < |originals| ensures emitted[k] == |originals[k].samples| {
      if emitted[k] != |originals[k].samples| {
        var i := HeldAt(segs, k);
        EmptyLeft(originals, emitted, segs, t, i);
      }
    }
    MakeEmitted(originals, emitted, segs);
  }

  predicate HeaderFits(s: P.Source) {
    P.HeaderLength(s) <= P.MaxReclen(s)
  }

  lemma GivenUpIs(segs: seq<Segment>, at: nat, n: nat)
    requires at < |segs| && n <= |segs[at].samples| && segs[at].samples != []
    ensures var g := segs[at];
            && (n == 0 ==> GivenUp(segs, at, n) == segs)
            && (0 < n < |g.samples| ==>
                  GivenUp(segs, at, n) == segs[at := g.(start := g.start + n * g.period, samples := g.samples[n..])])
            && (n == |g.samples| ==> GivenUp(segs, at, n) == RemoveAt(segs, at))
  {
    var g := segs[at];
    assert n == 0 ==> Rest(g, n) == g by {
      assert n == 0 ==> n * g.period == 0 && g.samples[n..] == g.samples;
    }
  }

  lemma UsableNow(originals: seq<Segment>, emitted: seq<nat>, segs: seq<Segment>, t: Settings, i: nat)
    requires Conserves(originals, emitted, segs, Packing(i, 0))
    requires forall k :: 0 <= k < |originals| ==> Usable(originals[k], t)
    ensures i < |segs| && P.Packable(SourceOf(segs[i], t)) && P.TimesFit(SourceOf(segs[i], t))
  {
    OriginalOf(originals, emitted, segs, t, i, 0);
    RestUsable(originals[segs[i].key], t, emitted[segs[i].key]);
    hide P.Packable, P.TimesFit, Conserves, Rest;
    assert Usable(segs[i], t);
  }

  lemma Drawn(originals: seq<Segment>, emitted: seq<nat>, segs: seq<Segment>, t: Settings, at: nat, pending: nat,
              piece: P.Piece)
    requires Conserves(originals, emitted, segs, Packing(at, pending)) && P.Holds(SourceOf(segs[at], t), piece, pending)
    requires forall k :: 0 <= k < |originals| ==> Usable(originals[k], t)
    ensures var key := segs[at].key;
            && key < |originals| == |emitted| && Usable(originals[key], t) && P.PieceFits(piece) && piece.count > 0
            && P.Holds(SourceOf(originals[key], t), piece, emitted[key])
            && P.RecordOf(SourceOf(segs[at], t), piece) == P.RecordOf(SourceOf(originals[key], t), piece)
            && P.Full(SourceOf(segs[at], t), piece) == P.Full(SourceOf(originals[key], t), piece)
            && Conserves(originals, emitted[key := emitted[key] + piece.count], segs,
                         Packing(at, pending + piece.count))
  {
    hide *;
    OriginalOf(originals, emitted, segs, t, at, pending);
    var key := segs[at].key;
    PieceSize(SourceOf(segs[at], t), piece, pending);
    ConservesEmit(originals, emitted, segs, at, pending, piece.count);
    RestHolds(originals[key], t, emitted[key] - pending, piece, pending);
  }

  lemma OriginalOf(originals: seq<Segment>, emitted: seq<nat>, segs: seq<Segment>, t: Settings, at: nat, pending: nat)
    requires Conserves(originals, emitted, segs, Packing(at, pending))
    requires forall k :: 0 <= k < |originals| ==> Usable(originals[k], t)
    ensures at < |segs| && segs[at].key < |originals| == |emitted| && pending <= |segs[at].samples|
    ensures var key := segs[at].key;
            && Usable(originals[key], t) && P.Packable(SourceOf(originals[key], t))
            && pending <= emitted[key] <= |originals[key].samples|
            && segs[at] == Rest(originals[key], emitted[key] - pending)
            && SourceOf(segs[at], t).samples == segs[at].samples
  {
    assert Conserved(originals, emitted, segs[at], Pending(Packing(at, pending), at));
    hide P.TimesFit, P.Packable;
    assert Usable(originals[segs[at].key], t);
  }

  lemma PieceSize(s: P.Source, piece: P.Piece, from: int)
    requires P.Holds(s, piece, from)
    ensures P.PieceFits(piece) && piece.count > 0 && from + piece.count <= |s.samples|
  {
    hide P.Carrying;
  }

  lemma AllPacked(s: P.Source, flush: bool)
    ensures P.StopsAt(s, flush, |s.samples|)
  {}

  lemma NothingEmitted(segs: seq<Segment>)
    requires forall k :: 0 <= k < |segs| ==> segs[k].key == k
    ensures Conserves(segs, seq(|segs|, _ => 0), segs, Idle)
  {
    var none := seq(|segs|, _ => 0);
    forall i | 0 <= i < |segs| ensures Conserved(segs, none, segs[i], 0) && IsHeld(segs, i) {
      assert 0 * segs[i].period == 0 && segs[i].samples[0..] == segs[i].samples;
    }
  }
}