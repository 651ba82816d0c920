/** The doubly linked segment list of one trace ID, and adding a record to it in place. */
module TraceList {
  import opened Options
  import opened Mseed
  import opened Sequences
  import opened TraceSpec
  import TraceRuns
  import opened TraceTwoPass

  /** MS3TraceSeg */
  class TraceSeg {
    var starttime: int
    var endtime: int
    var samprate: real
    var samplecnt: nat
    var sampletype: char
    var datasamples: seq<Sample>
    var recordlist: seq<Record>
    var prev: TraceSeg?
    var next: TraceSeg?

    function Value(): Seg
      reads this`starttime, this`endtime, this`samprate, this`samplecnt, this`sampletype, this`datasamples,
            this`recordlist
    {
      Seg(starttime, endtime, samprate, samplecnt, sampletype, datasamples, recordlist)
    }

    /** lm_msr2seg and, when record lists are kept, lm_add_recordptr on the new segment */
    constructor (r: Record, o: Opts)
      ensures Value() == NewSeg(r, o) && prev == null && next == null
    {
      starttime, endtime, samprate := r.start, End(r), r.hz;
      samplecnt, sampletype, datasamples := r.samplecnt, r.sampletype, r.samples;
      recordlist := if o.keeprecs then [Bare(r)] else [];
      prev, next := null, null;
    }

    /** The record fits at the end of the segment: postgap and lastgap in the source. */
    predicate FitsAtEnd(r: Record, o: Opts)
      reads this`endtime, this`samprate
      ensures FitsAtEnd(r, o) == FitsAfter(Value(), r, o)
    {
      var gap, nstimetol := r.start - endtime - r.period, TimeTol(r, o);
      gap <= nstimetol && gap >= -nstimetol && Similar(r.hz, samprate, o.ratetol)
    }

    /** The record fits at the start of the segment: pregap and firstgap in the source. */
    predicate FitsAtStart(r: Record, o: Opts)
      reads this`starttime, this`samprate
      ensures FitsAtStart(r, o) == FitsBefore(Value(), r, o)
    {
      var gap, nstimetol := starttime - End(r) - r.period, TimeTol(r, o);
      gap <= nstimetol && gap >= -nstimetol && Similar(r.hz, samprate, o.ratetol)
    }

    /** SEGMENT_HAS_TIME_COVERAGE */
    predicate HasCoverage()
      reads this`samplecnt, this`samprate
      ensures HasCoverage() == Covers(Value())
    {
      samplecnt > 0 && samprate != 0.0
    }

    /** lm_addmsrtoseg and lm_add_recordptr with whence 1 (atEnd) or 2 */
    method AddMsr(r: Record, o: Opts, atEnd: bool) returns (ok: bool)
      modifies this`starttime, this`endtime, this`samplecnt, this`datasamples, this`recordlist
      ensures ok == !Clashes(old(Value()), r)
      ensures Value() == if !ok then old(Value())
                         else if atEnd then Extended(old(Value()), r, o) else Prepended(old(Value()), r, o)
    {
      if r.samples != [] {
        if r.sampletype != sampletype || !KnownType(r.sampletype) {
          return false;
        }
      }
      if atEnd {
        endtime := End(r);
        samplecnt := samplecnt + r.samplecnt;
        datasamples := datasamples + r.samples;
        if o.keeprecs {
          recordlist := recordlist + [Bare(r)];
        }
      } else {
        starttime := r.start;
        samplecnt := samplecnt + r.samplecnt;
        datasamples := r.samples + datasamples;
        if o.keeprecs {
          recordlist := [Bare(r)] + recordlist;
        }
      }
      return true;
    }

    /** lm_addsegtoseg */
    method AddSeg(other: TraceSeg) returns (ok: bool)
      requires other != this
      modifies this`endtime, this`samplecnt, this`datasamples, this`recordlist
      ensures ok == !SegsClash(old(Value()), old(other.Value()))
      ensures Value() == if ok then Merged(old(Value()), old(other.Value())) else old(Value())
    {
      if other.datasamples != [] {
        if other.sampletype != sampletype || !KnownType(sampletype) {
          return false;
        }
      }
      endtime := other.endtime;
      samplecnt := samplecnt + other.samplecnt;
      datasamples := datasamples + other.datasamples;
      recordlist := recordlist + other.recordlist;
      return true;
    }

    /** mstl3_unpack_recordlist without an output buffer: decode the record list into the segment's buffer.
        Returns the number of samples, or -1. */
    method UnpackRecordList() returns (total: int)
      modifies this`datasamples, this`sampletype
      ensures total == if Unpackable(recordlist) && old(datasamples) == [] then |Unpacked(recordlist)| else -1
      ensures datasamples == if total >= 0 then Unpacked(recordlist) else old(datasamples)
      ensures sampletype == if total > 0 then recordlist[0].paytype else old(sampletype)
    {
      if recordlist == [] || !DecodedType(recordlist[0].paytype) || datasamples != [] {
        return -1;
      }
      var type0, output, i := recordlist[0].paytype, [], 0;
      assert recordlist[..|recordlist|] == recordlist;
      while i < |recordlist|
        modifies {}
        invariant i <= |recordlist| && output == Unpacked(recordlist[..i])
        invariant forall j :: 0 <= j < i && recordlist[j].samplecnt > 0 ==> recordlist[j].paytype == type0
      {
        var r := recordlist[i];
        assert recordlist[..i + 1] == recordlist[..i] + [r];
        UnpackedSnoc(recordlist[..i], r);
        if r.samplecnt != 0 {
          if !DecodedType(r.paytype) || r.paytype != type0 {
            return -1;
          }
          output := output + r.payload;
        }
        i := i + 1;
      }
      datasamples, total := output, |output|;
      if total > 0 {
        sampletype := type0;
      }
    }
  }

  ghost function Values(list: seq<TraceSeg>): (v: seq<Seg>)
    reads list`starttime, list`endtime, list`samprate, list`samplecnt, list`sampletype, list`datasamples,
          list`recordlist
    ensures |v| == |list| && forall i {:trigger v[i]} :: 0 <= i < |list| ==> v[i] == list[i].Value()
  {
    if list == [] then [] else [list[0].Value()] + Values(list[1..])
  }

  /** MS3TraceID: the segments and the extent of one source. */
  class TraceID {
    var pubversion: nat
    var earliest: int
    var latest: int
    var numsegments: nat
    var first: TraceSeg?
    var last: TraceSeg?
    ghost var list: seq<TraceSeg>   // the nodes from first to last

    ghost predicate Linked(l: seq<TraceSeg>)
      reads l`prev, l`next
    {
      && (forall i, j :: 0 <= i < j < |l| ==> l[i] != l[j])
      && (forall i {:trigger l[i].prev} :: 0 <= i < |l| ==> l[i].prev == if i == 0 then null else l[i - 1])
      && (forall i {:trigger l[i].next} :: 0 <= i < |l| ==> l[i].next == if i == |l| - 1 then null else l[i + 1])
    }

    /** first and last are the ends of a well-formed doubly linked list of numsegments nodes. */
    ghost predicate Valid()
      reads this`first, this`last, this`numsegments, this`list, list`prev, list`next
    {
      && 0 < |list| == numsegments
      && first == list[0] && last == list[|list| - 1]
      && Linked(list)
    }

    ghost function State(): IdState
      reads this, list
    {
      IdState(Values(list), earliest, latest, pubversion)
    }

    /** The links of nodes of which the ones at i and i + 1 have changed places. */
    ghost predicate SwappedLinks(l: seq<TraceSeg>, i: nat)
      requires i + 1 < |l|
      reads l`prev, l`next
    {
      && (forall j, k :: 0 <= j < k < |l| ==> l[j] != l[k])
      && (forall k {:trigger l[k].prev} :: 0 <= k < |l| ==>
            l[k].prev == if k == i then l[i + 1] else if k == i + 1 then (if i == 0 then null else l[i - 1])
                         else if k == i + 2 then l[i] else if k == 0 then null else l[k - 1])
      && (forall k {:trigger l[k].next} :: 0 <= k < |l| ==>
            l[k].next == if k == i + 1 then l[i] else if k == i then (if i + 2 == |l| then null else l[i + 2])
                         else if k + 1 == i then l[i + 1] else if k == |l| - 1 then null else l[k + 1])
    }

    lemma SwappedLinked(l: seq<TraceSeg>, i: nat)
      requires i + 1 < |l| && SwappedLinks(l, i)
      ensures Linked(Swap(l, i))
    {
      SwapFacts(l, i);
      hide Swap;
    }

    /** What a swap of the nodes at i and i + 1 starts from. */
    lemma BeforeSwap(i: nat)
      requires Valid() && i + 1 < |list|
      ensures Linked(list) && numsegments == |list| && (first == list[i] <==> i == 0)
              && (last == list[i + 1] <==> i + 2 == |list|)
      ensures first == list[0] && last == list[|list| - 1] && list[i].next == list[i + 1] && list[i + 1].prev == list[i]
    {}

    /** The relinked nodes are well-formed in their new order. */
    lemma AfterSwap(l: seq<TraceSeg>, i: nat)
      requires i + 1 < |l| && SwappedLinks(l, i) && list == Swap(l, i) && numsegments == |l|
      requires first == (if i == 0 then l[1] else l[0]) && last == if i + 2 == |l| then l[i] else l[|l| - 1]
      ensures Valid()
    {
      SwappedLinked(l, i);
      SwapFacts(l, i);
      hide Swap, Linked, SwappedLinks;
    }

    /** Relink a segment and its successor, and their neighbours. */
    method RelinkNext(seg: TraceSeg, segafter: TraceSeg, ghost i: nat)
      requires Linked(list) && i + 1 < |list| && list[i] == seg && list[i + 1] == segafter
      modifies list`prev, list`next
      ensures SwappedLinks(list, i)
    {
      ghost var p, n := if i == 0 then null else list[i - 1], if i + 2 == |list| then null else list[i + 2];
      assert segafter.next == n && seg.prev == p && seg.next == segafter;
      if seg.prev != null {
        seg.prev.next := segafter;
      }
      if segafter.next != null {
        segafter.next.prev := seg;
      }
      segafter.prev := seg.prev;
      seg.prev := segafter;
      seg.next := segafter.next;
      segafter.next := seg;
    }

    /** One step of the first re-sorting loop: swap a segment with its successor. */
    method SwapNext(seg: TraceSeg, ghost i: nat)
      requires Valid() && i + 1 < |list| && list[i] == seg
      modifies this`first, this`last, this`list, list`prev, list`next
      ensures Valid() && list == Swap(old(list), i)
    {
      hide *;
      BeforeSwap(i);
      var segafter := seg.next;
      RelinkNext(seg, segafter, i);
      if first == seg {
        first := segafter;
      }
      if last == segafter {
        last := seg;
      }
      ghost var l := list;
      list := Swap(list, i);
      AfterSwap(l, i);
    }

    /** Relink a segment and its predecessor, and their neighbours. */
    method RelinkPrev(seg: TraceSeg, segbefore: TraceSeg, ghost i: nat)
      requires Linked(list) && i + 1 < |list| && list[i + 1] == seg && list[i] == segbefore
      modifies list`prev, list`next
      ensures SwappedLinks(list, i)
    {
      ghost var p, n := if i == 0 then null else list[i - 1], if i + 2 == |list| then null else list[i + 2];
      assert segbefore.prev == p && seg.next == n && seg.prev == segbefore;
      if seg.next != null {
        seg.next.prev := segbefore;
      }
      if segbefore.prev != null {
        segbefore.prev.next := seg;
      }
      segbefore.next := seg.next;
      seg.next := segbefore;
      seg.prev := segbefore.prev;
      segbefore.prev := seg;
    }

    /** One step of the second re-sorting loop: swap a segment with its predecessor. */
    method SwapPrev(seg: TraceSeg, ghost i: nat)
      requires Valid() && i + 1 < |list| && list[i + 1] == seg
      modifies this`first, this`last, this`list, list`prev, list`next
      ensures Valid() && list == Swap(old(list), i)
    {
      hide *;
      BeforeSwap(i);
      var segbefore := seg.prev;
      RelinkPrev(seg, segbefore, i);
      if first == segbefore {
        first := seg;
      }
      if last == seg {
        last := segbefore;
      }
      ghost var l := list;
      list := Swap(list, i);
      AfterSwap(l, i);
    }

    ghost function Nodes(l: seq<TraceSeg>): set<TraceSeg> {
      set s | s in l
    }

    lemma SwapFacts<T>(s: seq<T>, i: nat)
      requires i + 1 < |s|
      ensures var t := Swap(s, i);
              |t| == |s| && t[i] == s[i + 1] && t[i + 1] == s[i] && forall j :: 0 <= j < |s| && j != i && j != i + 1 ==>
                t[j] == s[j]
    {}

    lemma SwapNodes(l: seq<TraceSeg>, i: nat)
      requires i + 1 < |l|
      ensures Nodes(Swap(l, i)) == Nodes(l)
    {
      SwapFacts(l, i);
      hide Swap;
      var t := Swap(l, i);
      forall s | s in l ensures s in t {
        var j :| 0 <= j < |l| && l[j] == s;
        assert t[if j == i then i + 1 else if j == i + 1 then i else j] == s;
      }
      forall s | s in t ensures s in l {
        var j :| 0 <= j < |l| && t[j] == s;
        assert l[if j == i then i + 1 else if j == i + 1 then i else j] == s;
      }
    }

    lemma SwapValues(l: seq<TraceSeg>, i: nat)
      requires i + 1 < |l|
      ensures Values(Swap(l, i)) == Swap(Values(l), i)
    {
      SwapFacts(l, i);
      SwapFacts(Values(l), i);
      hide Swap, TraceSeg.Value;
    }

    method StepDown(seg: TraceSeg, ghost i: nat)
      requires Valid() && i + 1 < |list| && list[i] == seg
      modifies this`first, this`last, this`list, Nodes(list)`prev, Nodes(list)`next
      ensures Valid() && |list| == |old(list)| && list[i + 1] == seg && Nodes(list) == Nodes(old(list))
      ensures Values(list) == Swap(old(Values(list)), i)
    {
      hide Values;
      SwapFacts(list, i);
      SwapNodes(list, i);
      SwapValues(list, i);
      hide Swap;
      SwapNext(seg, i);
    }

    method StepUp(seg: TraceSeg, ghost i: nat)
      requires Valid() && i + 1 < |list| && list[i + 1] == seg
      modifies this`first, this`last, this`list, Nodes(list)`prev, Nodes(list)`next
      ensures Valid() && |list| == |old(list)| && list[i] == seg && Nodes(list) == Nodes(old(list))
      ensures Values(list) == Swap(old(Values(list)), i)
    {
      hide Values;
      SwapFacts(list, i);
      SwapNodes(list, i);
      SwapValues(list, i);
      hide Swap;
      SwapPrev(seg, i);
    }

    /** A segment's neighbours in the list, and the test both loops make on them. */
    lemma Neighbours(seg: TraceSeg, i: nat)
      requires Valid() && i < |list| && list[i] == seg
      ensures seg.next == (if i + 1 == |list| then null else list[i + 1])
              && seg.prev == (if i == 0 then null else list[i - 1])
      ensures seg.next != null ==>
                (seg.starttime > seg.next.starttime
                 || (seg.starttime == seg.next.starttime && seg.endtime < seg.next.endtime)
                 <==> Precedes(Values(list)[i + 1], Values(list)[i]))
      ensures seg.prev != null ==>
                (seg.starttime < seg.prev.starttime
                 || (seg.starttime == seg.prev.starttime && seg.endtime > seg.prev.endtime)
                 <==> Precedes(Values(list)[i], Values(list)[i - 1]))
    {}

    /** Move a changed segment towards the end of the list. */
    method MoveDown(seg: TraceSeg, ghost i: nat) returns (ghost at: nat)
      requires Valid() && i < |list| && list[i] == seg
      modifies this`first, this`last, this`list, Nodes(list)`prev, Nodes(list)`next
      ensures Valid() && at < |list| && list[at] == seg && Nodes(list) == Nodes(old(list))
      ensures (Values(list), at) == SortDown(old(Values(list)), i)
    {
      hide Values, Precedes, Linked, Swap, Nodes;
      at := i;
      Neighbours(seg, at);
      while seg.next != null &&
            (seg.starttime > seg.next.starttime
             || (seg.starttime == seg.next.starttime && seg.endtime < seg.next.endtime))
        invariant Valid() && at < |list| && list[at] == seg && Nodes(list) == Nodes(old(list))
        invariant SortDown(Values(list), at) == SortDown(old(Values(list)), i)
        decreases |list| - at
      {
        Neighbours(seg, at);
        StepDown(seg, at);
        at := at + 1;
      }
      Neighbours(seg, at);
    }

    /** Move a changed segment towards the start of the list. */
    method MoveUp(seg: TraceSeg, ghost i: nat) returns (ghost at: nat)
      requires Valid() && i < |list| && list[i] == seg
      modifies this`first, this`last, this`list, Nodes(list)`prev, Nodes(list)`next
      ensures Valid() && at < |list| && list[at] == seg && Nodes(list) == Nodes(old(list))
      ensures (Values(list), at) == SortUp(old(Values(list)), i)
    {
      hide Values, Precedes, Linked, Swap, Nodes;
      at := i;
      while seg.prev != null &&
            (seg.starttime < seg.prev.starttime
             || (seg.starttime == seg.prev.starttime && seg.endtime > seg.prev.endtime))
        invariant Valid() && at < |list| && list[at] == seg && Nodes(list) == Nodes(old(list))
        invariant SortUp(Values(list), at) == SortUp(old(Values(list)), i)
        decreases at
      {
        Neighbours(seg, at);
        StepUp(seg, at - 1);
        at := at - 1;
      }
      Neighbours(seg, at);
    }

    /** Track the largest version and the earliest and latest times. */
    method Track(r: Record)
      modifies this`earliest, this`latest, this`pubversion
      ensures pubversion == if AsInt8(r.version) > old(pubversion) then AsInt8(r.version) else old(pubversion)
      ensures earliest == if r.start < old(earliest) then r.start else old(earliest)
      ensures latest == if End(r) > old(latest) then End(r) else old(latest)
    {
      if AsInt8(r.version) > pubversion {
        pubversion := AsInt8(r.version);
      }
      if r.start < earliest {
        earliest := r.start;
      }
      if End(r) > latest {
        latest := End(r);
      }
    }

    /** The end of every successful addition: track the extent, then sort the changed segment into place. */
    method FinishAdd(seg: TraceSeg, ghost i: nat, r: Record) returns (ghost at: nat)
      requires Valid() && i < |list| && list[i] == seg
      modifies this`first, this`last, this`list, this`earliest, this`latest, this`pubversion, Nodes(list)`prev,
               Nodes(list)`next
      ensures Valid() && Nodes(list) == Nodes(old(list))
      ensures var a := Finish(old(State()), old(Values(list)), i, r);
              State() == a.id && at == a.at && at < |list| && list[at] == seg
    {
      hide Values, Precedes, Linked, Nodes, SortUp, SortDown;
      Track(r);
      at := MoveDown(seg, i);
      at := MoveUp(seg, at);
    }

    // ------------------------------------------------------------ linking and unlinking

    /** Append a new segment. */
    method LinkLast(seg: TraceSeg)
      requires Valid() && seg !in list && seg.prev == null && seg.next == null
      modifies this`last, this`numsegments, this`list, list`next, seg`prev
      ensures Valid() && list == InsertAt(old(list), |old(list)|, seg)
    {
      last.next := seg;
      seg.prev := last;
      last := seg;
      numsegments := numsegments + 1;
      list := list + [seg];
    }

    /** Put a new segment before all others. */
    method LinkFirst(seg: TraceSeg)
      requires Valid() && seg !in list && seg.prev == null && seg.next == null
      modifies this`first, this`numsegments, this`list, list`prev, seg`next
      ensures Valid() && list == InsertAt(old(list), 0, seg)
    {
      first.prev := seg;
      seg.next := first;
      first := seg;
      numsegments := numsegments + 1;
      list := [seg] + list;
    }

    /** The links of nodes when s has been put after the one at i. */
    ghost predicate InsertedLinks(l: seq<TraceSeg>, i: nat, s: TraceSeg)
      requires i < |l|
      reads l`prev, l`next, s`prev, s`next
    {
      && (forall j, k :: 0 <= j < k < |l| ==> l[j] != l[k]) && s !in l
      && s.prev == l[i] && s.next == (if i + 1 == |l| then null else l[i + 1])
      && (forall k {:trigger l[k].prev} :: 0 <= k < |l| ==>
            l[k].prev == if k == i + 1 then s else if k == 0 then null else l[k - 1])
      && (forall k {:trigger l[k].next} :: 0 <= k < |l| ==>
            l[k].next == if k == i then s else if k == |l| - 1 then null else l[k + 1])
    }

    lemma InsertedLinked(l: seq<TraceSeg>, i: nat, s: TraceSeg)
      requires i < |l| && InsertedLinks(l, i, s)
      ensures Linked(InsertAt(l, i + 1, s))
    {
      InsertFacts(l, i + 1, s);
      hide InsertAt;
    }

    lemma AfterInsert(l: seq<TraceSeg>, i: nat, s: TraceSeg)
      requires i < |l| && InsertedLinks(l, i, s) && list == InsertAt(l, i + 1, s) && numsegments == |l| + 1
      requires first == l[0] && last == if i + 1 == |l| then s else l[|l| - 1]
      ensures Valid()
    {
      InsertedLinked(l, i, s);
      InsertFacts(l, i + 1, s);
      hide InsertAt, Linked, InsertedLinks;
    }

    method RelinkAfter(seg: TraceSeg, followseg: TraceSeg, ghost i: nat)
      requires Linked(list) && seg !in list && i < |list| && list[i] == followseg
      modifies list`prev, list`next, seg`prev, seg`next
      ensures InsertedLinks(list, i, seg)
    {
      assert followseg.next == if i + 1 == |list| then null else list[i + 1];
      seg.next := followseg.next;
      seg.prev := followseg;
      if followseg.next != null {
        followseg.next.prev := seg;
      }
      followseg.next := seg;
    }

    /** Put a new segment after the one at i. */
    method LinkAfter(seg: TraceSeg, followseg: TraceSeg, ghost i: nat)
      requires Valid() && seg !in list && seg.prev == null && seg.next == null && i < |list| && list[i] == followseg
      modifies this`last, this`numsegments, this`list, list`prev, list`next, seg`prev, seg`next
      ensures Valid() && list == InsertAt(old(list), i + 1, seg)
    {
      hide *;
      Links(i);
      RelinkAfter(seg, followseg, i);
      if followseg == last {
        last := seg;
      }
      numsegments := numsegments + 1;
      ghost var l := list;
      list := InsertAt(l, i + 1, seg);
      AfterInsert(l, i, seg);
    }

    /** The links of nodes when those around the one at i have been linked to each other. */
    ghost predicate RemovedLinks(l: seq<TraceSeg>, i: nat)
      requires i < |l|
      reads l`prev, l`next
    {
      && (forall j, k :: 0 <= j < k < |l| ==> l[j] != l[k])
      && (forall k {:trigger l[k].prev} :: 0 <= k < |l| && k != i ==>
            l[k].prev == if k == 0 || (k == 1 && i == 0) then null else if k == i + 1 then l[i - 1] else l[k - 1])
      && (forall k {:trigger l[k].next} :: 0 <= k < |l| && k != i ==>
            l[k].next == if k == |l| - 1 || (k == |l| - 2 && i == |l| - 1) then null
                         else if k + 1 == i then l[i + 1] else l[k + 1])
    }

    lemma RemovedLinked(l: seq<TraceSeg>, i: nat)
      requires i < |l| && RemovedLinks(l, i)
      ensures Linked(RemoveAt(l, i))
    {
      RemoveFacts(l, i);
      hide RemoveAt;
    }

    /** A node's neighbours in the list. */
    lemma Links(i: nat)
      requires Valid() && i < |list|
      ensures Linked(list) && numsegments == |list| && first == list[0] && last == list[|list| - 1]
      ensures last == list[i] <==> i + 1 == |list|
      ensures list[i].prev == if i == 0 then null else list[i - 1]
      ensures list[i].next == if i + 1 == |list| then null else list[i + 1]
    {}

    lemma AfterRemoval(l: seq<TraceSeg>, i: nat)
      requires i < |l| && 1 < |l| && RemovedLinks(l, i) && list == RemoveAt(l, i) && numsegments == |l| - 1
      requires first == (if i == 0 then l[1] else l[0]) && last == if i + 1 == |l| then l[i - 1] else l[|l| - 1]
      ensures Valid()
    {
      RemovedLinked(l, i);
      RemoveFacts(l, i);
      hide RemoveAt, Linked, RemovedLinks;
    }

    /** Link the neighbours of a node to each other. */
    method Bypass(seg: TraceSeg, ghost i: nat)
      requires Linked(list) && i < |list| && list[i] == seg
      modifies list`prev, list`next
      ensures RemovedLinks(list, i)
      ensures seg.prev == old(seg.prev) && seg.next == old(seg.next)
    {
      ghost var p, n := if i == 0 then null else list[i - 1], if i + 1 == |list| then null else list[i + 1];
      assert seg.prev == p && seg.next == n;
      if seg.prev != null {
        seg.prev.next := seg.next;
      }
      if seg.next != null {
        seg.next.prev := seg.prev;
      }
    }

    /** Unlink a healed segment. first is not updated, so it must not be the first. */
    method Unlink(seg: TraceSeg, ghost i: nat)
      requires Valid() && 0 < i < |list| && list[i] == seg
      modifies this`last, this`numsegments, this`list, list`prev, list`next
      ensures Valid() && list == RemoveAt(old(list), i)
    {
      hide *;
      Links(i);
      if seg == last {
        last := last.prev;
      }
      Bypass(seg, i);
      numsegments := numsegments - 1;
      ghost var l := list;
      list := RemoveAt(l, i);
      RemoveFacts(l, i);
      AfterRemoval(l, i);
    }

    /** The part of lm_remove_segment that removes a segment, the first and the last included. The extent is left as
        it was. */
    method RemoveSeg(seg: TraceSeg, ghost i: nat)
      requires Valid() && i < |list| && list[i] == seg
      modifies this`first, this`last, this`numsegments, this`list, list`prev, list`next
      ensures list == RemoveAt(old(list), i) && numsegments == |list|
      ensures if list == [] then first == null && last == null else Valid()
      ensures State() == old(State()).(segs := RemoveAt(old(Values(list)), i))
    {
      ValuesRemoved(list, i);
      UnlinkAny(seg, i);
    }

    method BypassAny(seg: TraceSeg, ghost i: nat)
      requires Linked(list) && i < |list| && list[i] == seg && first == list[0] && last == list[|list| - 1]
      modifies this`first, this`last, list`prev, list`next
      ensures RemovedLinks(list, i)
      ensures first == if i > 0 then list[0] else if |list| == 1 then null else list[1]
      ensures last == if i + 1 < |list| then list[|list| - 1] else if i == 0 then null else list[i - 1]
    {
      ghost var p, n := if i == 0 then null else list[i - 1], if i + 1 == |list| then null else list[i + 1];
      assert seg.prev == p && seg.next == n;
      if seg.prev != null {
        seg.prev.next := seg.next;
      } else {
        first := seg.next;
      }
      if seg.next != null {
        seg.next.prev := seg.prev;
      } else {
        last := seg.prev;
      }
    }

    method UnlinkAny(seg: TraceSeg, ghost i: nat)
      requires Valid() && i < |list| && list[i] == seg
      modifies this`first, this`last, this`numsegments, this`list, list`prev, list`next
      ensures list == RemoveAt(old(list), i) && numsegments == |list|
      ensures if list == [] then first == null && last == null else Valid()
    {
      hide *;
      Links(i);
      BypassAny(seg, i);
      numsegments := numsegments - 1;
      ghost var l := list;
      list := RemoveAt(l, i);
      RemoveFacts(l, i);
      if 1 < |l| {
        AfterRemoval(l, i);
      }
    }

    // ------------------------------------------------------------ the outcomes of an addition

    /** The ID and the segment returned are those of the outcome. */
    ghost predicate Realizes(a: Outcome, seg: TraceSeg?)
      reads this, list
    {
      && Valid() && State() == a.id
      && (if a.Added? then a.at < |list| && seg == list[a.at] else seg == null)
    }

    lemma ValuesConcat(l: seq<TraceSeg>, m: seq<TraceSeg>)
      ensures Values(l + m) == Values(l) + Values(m)
    {
      hide TraceSeg.Value, Values;
    }

    lemma ValuesInserted(l: seq<TraceSeg>, i: nat, s: TraceSeg)
      requires i <= |l|
      ensures Values(InsertAt(l, i, s)) == InsertAt(Values(l), i, s.Value())
    {
      assert InsertAt(l, i, s) == l[..i] + [s] + l[i..];
      hide *;
      ValuesSplit(l, i);
      var v, w := Values(l[..i]), Values(l[i..]);
      ValuesConcat(l[..i] + [s], l[i..]);
      ValuesConcat(l[..i], [s]);
      ValuesOne(s);
      InsertBetween(v, s.Value(), w);
      assert Values(InsertAt(l, i, s)) == v + [s.Value()] + w;
    }

    lemma ValuesSplit(l: seq<TraceSeg>, i: nat)
      requires i <= |l|
      ensures Values(l) == Values(l[..i]) + Values(l[i..]) && |Values(l[..i])| == i
    {
      hide *;
      assert l == l[..i] + l[i..];
      ValuesConcat(l[..i], l[i..]);
    }

    lemma ValuesOne(s: TraceSeg)
      ensures Values([s]) == [s.Value()]
    {
      hide TraceSeg.Value, Values;
    }

    lemma InsertBetween<T>(a: seq<T>, x: T, b: seq<T>)
      ensures InsertAt(a + b, |a|, x) == a + [x] + b
    {}

    lemma NodesInserted(l: seq<TraceSeg>, i: nat, s: TraceSeg)
      requires i <= |l|
      ensures Nodes(InsertAt(l, i, s)) == Nodes(l) + {s}
    {
      InsertFacts(l, i, s);
      hide InsertAt;
      var t := InsertAt(l, i, s);
      forall n | n in l ensures n in t {
        var j :| 0 <= j < |l| && l[j] == n;
        assert t[if j < i then j else j + 1] == n;
      }
    }

    lemma ValuesRemoved(l: seq<TraceSeg>, i: nat)
      requires i < |l|
      ensures Values(RemoveAt(l, i)) == RemoveAt(Values(l), i)
    {
      hide TraceSeg.Value;
    }

    /** Link a new segment in at position i: at the end, at the start, or after followseg. */
    method LinkNew(seg: TraceSeg, followseg: TraceSeg?, atEnd: bool, ghost i: nat)
      requires Valid() && i <= |list| && seg !in list && seg.prev == null && seg.next == null
      requires if atEnd then i == |list| else if followseg == null then i == 0 else 0 < i && list[i - 1] == followseg
      modifies this`first, this`last, this`numsegments, this`list, Nodes(list)`prev, Nodes(list)`next, seg`prev,
               seg`next
      ensures Valid() && list == InsertAt(old(list), i, seg)
    {
      hide Linked, InsertAt;
      if atEnd {
        LinkLast(seg);
      } else if followseg == null {
        LinkFirst(seg);
      } else {
        LinkAfter(seg, followseg, i - 1);
      }
    }

    /** Create a segment for the record at position i. */
    method InsertNew(r: Record, o: Opts, followseg: TraceSeg?, atEnd: bool, ghost i: nat) returns (seg: TraceSeg)
      requires Valid() && i <= |list|
      requires if atEnd then i == |list| else if followseg == null then i == 0 else 0 < i && list[i - 1] == followseg
      modifies this`first, this`last, this`numsegments, this`list, Nodes(list)`prev, Nodes(list)`next
      ensures Valid() && fresh(Nodes(list) - old(Nodes(list))) && i < |list| && list[i] == seg
      ensures Values(list) == InsertAt(old(Values(list)), i, NewSeg(r, o))
    {
      hide Values, Linked, InsertAt, NewSeg, Nodes;
      seg := new TraceSeg(r, o);
      InsertFacts(list, i, seg);
      ValuesInserted(list, i, seg);
      NodesInserted(list, i, seg);
      LinkNew(seg, followseg, atEnd, i);
    }

    method AddNewSeg(r: Record, o: Opts, followseg: TraceSeg?, atEnd: bool, ghost i: nat) returns (res: TraceSeg?)
      requires Valid() && i <= |list|
      requires if atEnd then i == |list| else if followseg == null then i == 0 else 0 < i && list[i - 1] == followseg
      modifies this, Nodes(list)`prev, Nodes(list)`next
      ensures Realizes(AddNew(old(State()), i, r, o), res)
      ensures fresh(Nodes(list) - old(Nodes(list)))
    {
      hide Values, Linked, Resort, InsertAt, NewSeg, Nodes;
      if r.samples != [] && !KnownType(r.sampletype) {
        return null;
      }
      var seg := InsertNew(r, o, followseg, atEnd, i);
      ghost var at := FinishAdd(seg, i, r);
      res := seg;
    }

    /** Changing one segment changes one value. */
    lemma ValuesUpdated(l: seq<TraceSeg>, was: seq<Seg>, i: nat)
      requires i < |l| == |was| && forall j :: 0 <= j < |l| && j != i ==> l[j].Value() == was[j]
      ensures Values(l) == was[i := l[i].Value()]
    {
      hide TraceSeg.Value, Values;
    }

    /** Add the record's coverage to the end or the start of the segment at i. */
    method ExtendSeg(seg: TraceSeg, r: Record, o: Opts, atEnd: bool, ghost i: nat) returns (ok: bool)
      requires Valid() && i < |list| && list[i] == seg
      modifies seg`starttime, seg`endtime, seg`samplecnt, seg`datasamples, seg`recordlist
      ensures Valid()
      ensures ok == !Clashes(old(Values(list)[i]), r)
      ensures Values(list) == if !ok then old(Values(list))
                              else old(Values(list))[i := if atEnd then Extended(old(Values(list)[i]), r, o)
                                                          else Prepended(old(Values(list)[i]), r, o)]
    {
      hide Values, Extended, Prepended, Clashes;
      ok := seg.AddMsr(r, o, atEnd);
      ValuesUpdated(list, old(Values(list)), i);
    }

    /** Finish looks only at the extents of the ID it is given. */
    lemma FinishAgrees(id: IdState, was: IdState, segs: seq<Seg>, i: nat, r: Record)
      requires i < |segs| && id == was.(segs := id.segs)
      ensures Finish(id, segs, i, r) == Finish(was, segs, i, r)
    {}

    /** Add the record's coverage to the end or the start of the segment at i, and finish. */
    method AddToSeg(seg: TraceSeg, r: Record, o: Opts, atEnd: bool, ghost i: nat) returns (res: TraceSeg?)
      requires Valid() && i < |list| && list[i] == seg
      modifies this, Nodes(list)
      ensures Realizes(if atEnd then AddToEnd(old(State()), i, r, o) else AddToStart(old(State()), i, r, o), res)
      ensures fresh(Nodes(list) - old(Nodes(list)))
    {
      assert seg in Nodes(list);
      hide Values, Linked, Resort, Nodes, Extended, Prepended, Clashes, Finish, TraceSeg.Value;
      var ok := ExtendSeg(seg, r, o, atEnd, i);
      if !ok {
        return null;
      }
      FinishAgrees(State(), old(State()), Values(list), i, r);
      ghost var at := FinishAdd(seg, i, r);
      res := seg;
    }

    /** Add the coverage of the segment at a to the one at b. */
    method MergeSegs(segbefore: TraceSeg, segafter: TraceSeg, ghost b: nat, ghost a: nat) returns (ok: bool)
      requires Valid() && b < |list| && list[b] == segbefore && a < |list| && list[a] == segafter && a != b
      modifies segbefore`endtime, segbefore`samplecnt, segbefore`datasamples, segbefore`recordlist
      ensures Valid()
      ensures ok == !SegsClash(old(Values(list)[b]), old(Values(list)[a]))
      ensures Values(list) == if !ok then old(Values(list))
                              else old(Values(list))[b := Merged(old(Values(list)[b]), old(Values(list)[a]))]
    {
      hide Values, Merged, SegsClash;
      ok := segbefore.AddSeg(segafter);
      ValuesUpdated(list, old(Values(list)), b);
    }

    /** Add the record to the segment at b and then the coverage of the one at a. */
    method FillGap(segbefore: TraceSeg, segafter: TraceSeg, r: Record, o: Opts, ghost b: nat, ghost a: nat)
      returns (ok: bool)
      requires Valid() && b < |list| && list[b] == segbefore && a < |list| && list[a] == segafter && a != b
      modifies segbefore`starttime, segbefore`endtime, segbefore`samplecnt, segbefore`datasamples, segbefore`recordlist
      ensures Valid()
      ensures (ok, Values(list)) == CloseGap(old(Values(list)), b, a, r, o)
    {
      hide Values, Extended, Merged, Clashes, SegsClash, Linked;
      ok := ExtendSeg(segbefore, r, o, true, b);
      if !ok {
        return false;
      }
      ok := MergeSegs(segbefore, segafter, b, a);
    }

    /** Unlink the merged segment; the other one moves with it when it follows. */
    method DropSeg(segafter: TraceSeg, segbefore: TraceSeg, ghost a: nat, ghost b: nat) returns (ghost at: nat)
      requires Valid() && 0 < a < |list| && list[a] == segafter && b < |list| && list[b] == segbefore && a != b
      modifies this`last, this`numsegments, this`list, Nodes(list)`prev, Nodes(list)`next
      ensures Valid() && Nodes(list) <= Nodes(old(list)) && at == (if a < b then b - 1 else b)
      ensures at < |list| && list[at] == segbefore && Values(list) == RemoveAt(old(Values(list)), a)
    {
      hide Values;
      ValuesRemoved(list, a);
      at := if a < b then b - 1 else b;
      Unlink(segafter, a);
    }

    method DropAndFinish(segafter: TraceSeg, segbefore: TraceSeg, r: Record, ghost a: nat, ghost b: nat)
      returns (ghost at: nat)
      requires Valid() && 0 < a < |list| && list[a] == segafter && b < |list| && list[b] == segbefore && a != b
      modifies this, Nodes(list)`prev, Nodes(list)`next
      ensures Valid() && Nodes(list) <= Nodes(old(list))
      ensures var f := Finish(old(State()), RemoveAt(old(Values(list)), a), if a < b then b - 1 else b, r);
              State() == f.id && at == f.at && at < |list| && list[at] == segbefore
    {
      hide Values, Linked, Nodes, Finish, RemoveAt;
      at := DropSeg(segafter, segbefore, a, b);
      FinishAgrees(State(), old(State()), Values(list), at, r);
      at := FinishAdd(segbefore, at, r);
    }

    /** The record closes the gap between two segments. */
    method HealSegs(segbefore: TraceSeg, segafter: TraceSeg, r: Record, o: Opts, ghost b: nat, ghost a: nat)
      returns (res: TraceSeg?)
      requires Valid() && b < |list| && list[b] == segbefore && 0 < a < |list| && list[a] == segafter && a != b
      modifies this, Nodes(list)
      ensures Realizes(Heal(old(State()), b, a, r, o), res)
      ensures fresh(Nodes(list) - old(Nodes(list)))
    {
      assert segbefore in Nodes(list);
      hide Values, Linked, Nodes, CloseGap, Finish, RemoveAt, Heal;
      var ok := FillGap(segbefore, segafter, r, o, b, a);
      ghost var id := State();
      HealCases(old(State()), id, ok, b, a, r, o);
      if !ok {
        return null;
      }
      ghost var at := DropAndFinish(segafter, segbefore, r, a, b);
      res := segbefore;
    }

    lemma HealCases(was: IdState, id: IdState, ok: bool, b: nat, a: nat, r: Record, o: Opts)
      requires b < |was.segs| && a < |was.segs| && b != a
      requires (ok, id.segs) == CloseGap(was.segs, b, a, r, o) && id == was.(segs := id.segs)
      ensures Heal(was, b, a, r, o) == if ok then Finish(id, RemoveAt(id.segs, a), if a < b then b - 1 else b, r)
              else Refused(id)
    {
      hide CloseGap, RemoveAt;
    }

    // ------------------------------------------------------------ adding a record

    /** A pointer to the segment at an index the search found, or NULL. */
    ghost predicate Names(seg: TraceSeg?, i: Option<nat>)
      reads this`list
    {
      if i.Some? then i.value < |list| && seg == list[i.value] else seg == null
    }

    /** What one segment contributes to the search, on the pointers. */
    method Inspect(seg: TraceSeg, r: Record, o: Opts, before: TraceSeg?, after: TraceSeg?, follow: TraceSeg?,
                   ghost i: nat, ghost f: Found)
      returns (segbefore: TraceSeg?, segafter: TraceSeg?, followseg: TraceSeg?)
      requires i < |list| && list[i] == seg && Names(before, f.before) && Names(after, f.after)
               && Names(follow, f.follow)
      ensures var g := Look(Values(list), i, r, o, f);
              Names(segbefore, g.before) && Names(segafter, g.after) && Names(followseg, g.follow)
    {
      hide Values, FitsAfter, FitsBefore, TraceSeg.FitsAtEnd, TraceSeg.FitsAtStart;
      segbefore, segafter, followseg := before, after, follow;
      if r.start > seg.starttime {
        followseg := seg;
      }
      if segbefore == null && seg.FitsAtEnd(r, o) {
        segbefore := seg;
      }
      if segafter == null && seg.FitsAtStart(r, o) {
        segafter := seg;
      }
    }

    /** Search the whole list for segments the record fits and the one to follow. */
    method FindSegs(r: Record, o: Opts)
      returns (segbefore: TraceSeg?, segafter: TraceSeg?, followseg: TraceSeg?, ghost f: Found)
      requires Valid()
      ensures f == FullSearch(Values(list), r, o)
      ensures Names(segbefore, f.before) && Names(segafter, f.after) && Names(followseg, f.follow)
    {
      hide Values, Look;
      segbefore, segafter, followseg := null, null, null;
      f := Found(None, None, None);
      var searchseg := first;
      ghost var i := 0;
      while searchseg != null
        invariant i <= |list| && searchseg == (if i < |list| then list[i] else null)
        invariant Names(segbefore, f.before) && Names(segafter, f.after) && Names(followseg, f.follow)
        invariant Search(Values(list), i, r, o, f) == FullSearch(Values(list), r, o)
        decreases |list| - i
      {
        assert list[i].next == if i == |list| - 1 then null else list[i + 1];
        if searchseg.HasCoverage() {
          if o.autoheal && r.start == searchseg.starttime && End(r) == searchseg.endtime {
            followseg := searchseg;
            f := f.(follow := Some(i));
            return;
          }
          segbefore, segafter, followseg := Inspect(searchseg, r, o, segbefore, segafter, followseg, i, f);
          f := Look(Values(list), i, r, o, f);
          if segbefore != null && segafter != null {
            return;
          } else if !o.autoheal && (segbefore != null || segafter != null) {
            return;
          }
        }
        searchseg := searchseg.next;
        i := i + 1;
      }
    }

    lemma EndValues()
      requires Valid()
      ensures 0 < |list| == |State().segs| && State().segs == Values(list) && first == list[0]
              && last == list[|list| - 1]
      ensures first.Value() == State().segs[0] && last.Value() == State().segs[|list| - 1]
      ensures earliest == State().earliest && latest == State().latest
    {}

    lemma RefusedAsIs()
      requires Valid()
      ensures Realizes(Refused(State()), null)
    {}

    lemma NamesUnique(s: TraceSeg?, x: Option<nat>, t: TraceSeg?, y: Option<nat>)
      requires Valid() && Names(s, x) && Names(t, y)
      ensures s == t <==> x == y
    {}

    /** Add the record where the search says it belongs. */
    method AddWhereFound(r: Record, o: Opts, segbefore: TraceSeg?, segafter: TraceSeg?, followseg: TraceSeg?,
                         ghost f: Found)
      returns (seg: TraceSeg?)
      requires Valid() && Names(segbefore, f.before) && Names(segafter, f.after) && Names(followseg, f.follow)
      requires f.after.Some? ==> 0 < f.after.value
      modifies this, Nodes(list)
      ensures Realizes(AddWhere(old(State()), f, r, o), seg)
      ensures fresh(Nodes(list) - old(Nodes(list)))
    {
      EndValues();
      NamesUnique(segbefore, f.before, segafter, f.after);
      hide Values, Linked, Nodes, AddToEnd, AddToStart, AddNew, Heal, Realizes, TraceSeg.Value, State, Valid;
      if segbefore != null {
        if o.autoheal && segafter != null && segbefore != segafter {
          seg := HealSegs(segbefore, segafter, r, o, f.before.value, f.after.value);
        } else {
          seg := AddToSeg(segbefore, r, o, true, f.before.value);
        }
      } else if segafter != null {
        seg := AddToSeg(segafter, r, o, false, f.after.value);
      } else {
        seg := AddNewSeg(r, o, followseg, false, if f.follow.Some? then f.follow.value + 1 else 0);
      }
    }

    /** Search the whole list for where the record belongs, and add it there. */
    method AddBySearching(r: Record, o: Opts) returns (seg: TraceSeg?)
      requires Valid()
      requires !(FitsAfter(last.Value(), r, o) && Covers(last.Value()))
               && !(FitsBefore(first.Value(), r, o) && Covers(first.Value()))
      modifies this, Nodes(list)
      ensures Realizes(AddBySearch(old(State()), r, o), seg)
      ensures fresh(Nodes(list) - old(Nodes(list)))
    {
      EndValues();
      TraceRuns.HealIsInside(State(), r, o);
      hide Values, Linked, Nodes, FullSearch, FitsAfter, FitsBefore, Covers, Realizes, AddWhere, TraceSeg.Value, Valid;
      var segbefore, segafter, followseg, f := FindSegs(r, o);
      seg := AddWhereFound(r, o, segbefore, segafter, followseg, f);
    }

    /** _mstl3_addmsr_impl for an ID that is in the list already */
    method AddMsr(r: Record, o: Opts) returns (seg: TraceSeg?)
      requires Valid()
      modifies this, Nodes(list)
      ensures Realizes(AddRecord(old(State()), r, o), seg)
      ensures fresh(Nodes(list) - old(Nodes(list)))
    {
      EndValues();
      hide Values, Linked, Nodes, AddToEnd, AddToStart, AddNew, AddBySearch, FitsAfter, FitsBefore, Covers;
      hide TraceSeg.FitsAtEnd, TraceSeg.FitsAtStart, TraceSeg.HasCoverage, TraceSeg.Value, Realizes, State, Valid,
           TimeTol, End;
      if End(r) == NSTERROR {
        RefusedAsIs();
        return null;
      }
      var nsperiod, nstimetol := r.period, TimeTol(r, o);
      if last.FitsAtEnd(r, o) && last.HasCoverage() {
        seg := AddToSeg(last, r, o, true, |list| - 1);
      } else if r.start - nsperiod - nstimetol > latest {
        seg := AddNewSeg(r, o, null, true, |list|);
      } else if End(r) + nsperiod + nstimetol < earliest {
        seg := AddNewSeg(r, o, null, false, 0);
      } else if first.FitsAtStart(r, o) && first.HasCoverage() {
        seg := AddToSeg(first, r, o, false, 0);
      } else {
        seg := AddBySearching(r, o);
      }
    }

    /** A new ID holds one segment and takes its extent and version from the record. */
    constructor (r: Record, seg: TraceSeg)
      requires seg.prev == null && seg.next == null
      ensures Valid() && list == [seg] && State() == IdState([seg.Value()], r.start, End(r), r.version % 256)
    {
      pubversion, earliest, latest, numsegments := r.version % 256, r.start, End(r), 1;
      first, last := seg, seg;
      list := [seg];
    }

    /** _mstl3_addmsr_impl for an ID that is not in the list yet */
    static method Create(r: Record, o: Opts) returns (id: TraceID?, seg: TraceSeg?)
      ensures FirstRecord(r, o).None? <==> id == null
      ensures id == null
              <==> End(r) == NSTERROR
                   || (r.samples != [] && r.sampletype != 't' && r.sampletype != 'a' && r.sampletype != 'i'
                       && r.sampletype != 'f' && r.sampletype != 'd')
      ensures id == null ==> seg == null
      ensures id != null ==> fresh(id) && fresh(id.list) && id.Realizes(Added(FirstRecord(r, o).value, 0), seg)
      ensures id != null ==>
                var first := FirstRecord(r, o).value;
                && first.earliest == r.start && first.latest == End(r) && |first.segs| == 1
                && var s := first.segs[0];
                   && s.start == r.start && s.end == End(r) && s.hz == r.hz && s.samplecnt == r.samplecnt
                   && s.sampletype == r.sampletype && s.data == r.samples
    {
      if End(r) == NSTERROR || (r.samples != [] && !KnownType(r.sampletype)) {
        return null, null;
      }
      seg := new TraceSeg(r, o);
      id := new TraceID(r, seg);
    }
  }
}
