/** What adding one record to a trace ID does to its segments, as a function on values: the reference
    that the linked-list code in TraceList is proved against. */
module TraceSpec {
  import opened Options
  import opened Mseed
  import opened Sequences

  /** A decoded sample; the trace list only moves samples about. */
  type Sample = bv32

  /** An MS3Record: times in nanoseconds, a sample period of a whole number of nanoseconds, samples present
      only when the record was unpacked. payload and paytype are what its data payload decodes to. */
  datatype Record = Record(start: int, period: nat, hz: real, samplecnt: nat, version: nat,
                           sampletype: char, samples: seq<Sample>, paytype: char, payload: seq<Sample>)

  /** An MS3TraceSeg, recs being its record list. */
  datatype Seg = Seg(start: int, end: int, hz: real, samplecnt: nat, sampletype: char, data: seq<Sample>,
                     recs: seq<Record>)

  /** An MS3TraceID's segments in list order, and its extent and largest version. */
  datatype IdState = IdState(segs: seq<Seg>, earliest: int, latest: int, version: nat)

  /** Flags and tolerances of one addition; None is the default time tolerance, 0.0 the default rate tolerance. */
  datatype Opts = Opts(autoheal: bool, keeprecs: bool, timetol: Option<int>, ratetol: real)

  /** The updated ID and the index of the segment returned, or NULL and the ID as it was left. */
  datatype Outcome = Added(id: IdState, at: nat) | Refused(id: IdState)

  // ---------------------------------------------------------------- records

  /** msr3_endtime: the time of the last sample. */
  function End(r: Record): int {
    if r.samplecnt > 0 then r.start + (r.samplecnt - 1) * r.period else r.start
  }

  /** The copy of a record that a record list keeps carries no samples. */
  function Bare(r: Record): Record {
    r.(samples := [])
  }

  /** IS_SAMPRATE_SIMILAR. A zero second rate gives an infinite or undefined quotient, which is not similar. */
  predicate Similar(a: real, b: real, tol: real) {
    if tol > 0.0 then Abs(a - b) > tol else b != 0.0 && Abs(1.0 - a / b) < 0.0001
  }

  function Abs(x: real): real {
    if x < 0.0 then -x else x
  }

  /** SEGMENT_HAS_TIME_COVERAGE */
  predicate Covers(s: Seg) {
    s.samplecnt > 0 && s.hz != 0.0
  }

  /** Half a sample period unless the caller gives a tolerance. */
  function TimeTol(r: Record, o: Opts): int {
    if o.timetol.Some? then o.timetol.value else r.period / 2
  }

  predicate Within(gap: int, tol: int) {
    -tol <= gap <= tol
  }

  /** The record continues the segment after its end. */
  predicate FitsAfter(s: Seg, r: Record, o: Opts) {
    Within(r.start - s.end - r.period, TimeTol(r, o)) && Similar(r.hz, s.hz, o.ratetol)
  }

  /** The record leads up to the segment's start. */
  predicate FitsBefore(s: Seg, r: Record, o: Opts) {
    Within(s.start - End(r) - r.period, TimeTol(r, o)) && Similar(r.hz, s.hz, o.ratetol)
  }

  // ---------------------------------------------------------------- segments

  /** lm_msr2seg and the record pointer */
  function NewSeg(r: Record, o: Opts): Seg {
    Seg(r.start, End(r), r.hz, r.samplecnt, r.sampletype, r.samples, if o.keeprecs then [Bare(r)] else [])
  }

  /** lm_msr2seg fails on samples of an unknown type. */
  predicate Unusable(r: Record) {
    r.samples != [] && !KnownType(r.sampletype)
  }

  /** lm_addmsrtoseg fails on samples of another or an unknown type. */
  predicate Clashes(s: Seg, r: Record) {
    r.samples != [] && (r.sampletype != s.sampletype || !KnownType(r.sampletype))
  }

  predicate SegsClash(a: Seg, b: Seg) {
    b.data != [] && (b.sampletype != a.sampletype || !KnownType(a.sampletype))
  }

  function Extended(s: Seg, r: Record, o: Opts): Seg {
    s.(end := End(r), samplecnt := s.samplecnt + r.samplecnt, data := s.data + r.samples,
       recs := if o.keeprecs then s.recs + [Bare(r)] else s.recs)
  }

  function Prepended(s: Seg, r: Record, o: Opts): Seg {
    s.(start := r.start, samplecnt := s.samplecnt + r.samplecnt, data := r.samples + s.data,
       recs := if o.keeprecs then [Bare(r)] + s.recs else s.recs)
  }

  function Merged(a: Seg, b: Seg): Seg {
    a.(end := b.end, samplecnt := a.samplecnt + b.samplecnt, data := a.data + b.data, recs := a.recs + b.recs)
  }

  // ---------------------------------------------------------------- order

  /** List order: earlier start first, and of equal starts the later end first. */
  predicate Precedes(a: Seg, b: Seg) {
    a.start < b.start || (a.start == b.start && a.end > b.end)
  }

  predicate Sorted(segs: seq<Seg>) {
    forall i, j :: 0 <= i < j < |segs| ==> !Precedes(segs[j], segs[i])
  }

  function Swap<T>(s: seq<T>, i: nat): seq<T>
    requires i + 1 < |s|
  {
    s[i := s[i + 1]][i + 1 := s[i]]
  }

  /** The first re-sorting loop: move the segment at i towards the end. */
  function SortDown(segs: seq<Seg>, i: nat): (r: (seq<Seg>, nat))
    requires i < |segs|
    ensures |r.0| == |segs| && r.1 < |segs|
    decreases |segs| - i
  {
    if i + 1 < |segs| && Precedes(segs[i + 1], segs[i]) then SortDown(Swap(segs, i), i + 1) else (segs, i)
  }

  /** The second re-sorting loop: move the segment at i towards the start. */
  function SortUp(segs: seq<Seg>, i: nat): (r: (seq<Seg>, nat))
    requires i < |segs|
    ensures |r.0| == |segs| && r.1 < |segs|
    decreases i
  {
    if i > 0 && Precedes(segs[i], segs[i - 1]) then SortUp(Swap(segs, i - 1), i - 1) else (segs, i)
  }

  function Resort(segs: seq<Seg>, i: nat): (r: (seq<Seg>, nat))
    requires i < |segs|
    ensures |r.0| == |segs| && r.1 < |segs|
  {
    SortUp(SortDown(segs, i).0, SortDown(segs, i).1)
  }

  // ---------------------------------------------------------------- the search of the whole list

  datatype Found = Found(before: Option<nat>, after: Option<nat>, follow: Option<nat>)

  predicate SameSpan(s: Seg, r: Record) {
    s.start == r.start && s.end == End(r)
  }

  /** What one covered segment contributes to the search. */
  function Look(segs: seq<Seg>, i: nat, r: Record, o: Opts, f: Found): Found
    requires i < |segs|
  {
    Found(if f.before.None? && FitsAfter(segs[i], r, o) then Some(i) else f.before,
          if f.after.None? && FitsBefore(segs[i], r, o) then Some(i) else f.after,
          if r.start > segs[i].start then Some(i) else f.follow)
  }

  predicate Enough(f: Found, o: Opts) {
    (f.before.Some? && f.after.Some?) || (!o.autoheal && (f.before.Some? || f.after.Some?))
  }

  function Search(segs: seq<Seg>, i: nat, r: Record, o: Opts, f: Found): Found
    requires i <= |segs|
    decreases |segs| - i
  {
    if i == |segs| then f
    else if !Covers(segs[i]) then Search(segs, i + 1, r, o, f)
    else if o.autoheal && SameSpan(segs[i], r) then f.(follow := Some(i))
    else
      var g := Look(segs, i, r, o, f);
      if Enough(g, o) then g else Search(segs, i + 1, r, o, g)
  }

  /** Every index the search reports is in range. */
  predicate InRange(f: Found, n: nat) {
    (f.before.Some? ==> f.before.value < n) && (f.after.Some? ==> f.after.value < n)
      && (f.follow.Some? ==> f.follow.value < n)
  }

  lemma {:induction false} SearchInRange(segs: seq<Seg>, i: nat, r: Record, o: Opts, f: Found)
    requires i <= |segs| && InRange(f, |segs|)
    ensures InRange(Search(segs, i, r, o, f), |segs|)
    decreases |segs| - i
  {
    if i < |segs| {
      SearchInRange(segs, i + 1, r, o, f);
      SearchInRange(segs, i + 1, r, o, Look(segs, i, r, o, f));
    }
  }

  function FullSearch(segs: seq<Seg>, r: Record, o: Opts): (f: Found)
    ensures InRange(f, |segs|)
  {
    SearchInRange(segs, 0, r, o, Found(None, None, None));
    Search(segs, 0, r, o, Found(None, None, None))
  }

  // ---------------------------------------------------------------- adding a record

  /** int8_t holds a publication version above 127 as a negative number. */
  function AsInt8(v: nat): int {
    if v % 256 >= 128 then v % 256 - 256 else v % 256
  }

  /** Track the extent and the largest version, then sort the changed segment into place. */
  function Finish(id: IdState, segs: seq<Seg>, at: nat, r: Record): (a: Outcome)
    requires at < |segs|
    ensures a.Added? && |a.id.segs| == |segs| && a.at < |segs|
  {
    var (sorted, i) := Resort(segs, at);
    Added(IdState(sorted,
                  if r.start < id.earliest then r.start else id.earliest,
                  if End(r) > id.latest then End(r) else id.latest,
                  if AsInt8(r.version) > id.version then AsInt8(r.version) else id.version), i)
  }

  function AddToEnd(id: IdState, i: nat, r: Record, o: Opts): Outcome
    requires i < |id.segs|
  {
    if Clashes(id.segs[i], r) then Refused(id)
    else Finish(id, id.segs[i := Extended(id.segs[i], r, o)], i, r)
  }

  function AddToStart(id: IdState, i: nat, r: Record, o: Opts): Outcome
    requires i < |id.segs|
  {
    if Clashes(id.segs[i], r) then Refused(id)
    else Finish(id, id.segs[i := Prepended(id.segs[i], r, o)], i, r)
  }

  function AddNew(id: IdState, i: nat, r: Record, o: Opts): Outcome
    requires i <= |id.segs|
  {
    if Unusable(r) then Refused(id)
    else Finish(id, InsertAt(id.segs, i, NewSeg(r, o)), i, r)
  }

  /** Add the record and then the segment at a to the segment at b, as far as the sample types allow. */
  function CloseGap(segs: seq<Seg>, b: nat, a: nat, r: Record, o: Opts): (res: (bool, seq<Seg>))
    requires b < |segs| && a < |segs| && b != a
    ensures |res.1| == |segs|
  {
    var w := segs[b := Extended(segs[b], r, o)];
    if Clashes(segs[b], r) then (false, segs)
    else if SegsClash(w[b], w[a]) then (false, w)
    else (true, w[b := Merged(w[b], w[a])])
  }

  /** The record closes the gap between two segments. */
  function Heal(id: IdState, b: nat, a: nat, r: Record, o: Opts): Outcome
    requires b < |id.segs| && a < |id.segs| && b != a
  {
    var (ok, segs) := CloseGap(id.segs, b, a, r, o);
    if ok then Finish(id, RemoveAt(segs, a), if a < b then b - 1 else b, r) else Refused(id.(segs := segs))
  }

  /** Add the record where the search says it belongs. */
  function AddWhere(id: IdState, f: Found, r: Record, o: Opts): Outcome
    requires InRange(f, |id.segs|)
  {
    if f.before.Some? then
      if o.autoheal && f.after.Some? && f.before != f.after then Heal(id, f.before.value, f.after.value, r, o)
      else AddToEnd(id, f.before.value, r, o)
    else if f.after.Some? then AddToStart(id, f.after.value, r, o)
    else AddNew(id, if f.follow.Some? then f.follow.value + 1 else 0, r, o)
  }

  /** Search the whole list for where the record belongs. */
  function AddBySearch(id: IdState, r: Record, o: Opts): Outcome {
    AddWhere(id, FullSearch(id.segs, r, o), r, o)
  }

  /** _mstl3_addmsr_impl for an ID that is already in the list. */
  function AddRecord(id: IdState, r: Record, o: Opts): (a: Outcome)
    requires id.segs != []
    ensures a.id.segs != [] && (a.Added? ==> a.at < |a.id.segs|)
  {
    var first, last, n := id.segs[0], id.segs[|id.segs| - 1], |id.segs|;
    if End(r) == NSTERROR then Refused(id)
    else if FitsAfter(last, r, o) && Covers(last) then AddToEnd(id, n - 1, r, o)
    else if r.start - r.period - TimeTol(r, o) > id.latest then AddNew(id, n, r, o)
    else if End(r) + r.period + TimeTol(r, o) < id.earliest then AddNew(id, 0, r, o)
    else if FitsBefore(first, r, o) && Covers(first) then AddToStart(id, 0, r, o)
    else AddBySearch(id, r, o)
  }

  /** _mstl3_addmsr_impl for an ID that is not in the list yet. */
  function FirstRecord(r: Record, o: Opts): Option<IdState> {
    if End(r) == NSTERROR || Unusable(r) then None
    else Some(IdState([NewSeg(r, o)], r.start, End(r), r.version % 256))
  }

  // ---------------------------------------------------------------- runs

  datatype Addition = Addition(r: Record, o: Opts)

  /** The ID after a run of successful additions, or None when one of them is refused. */
  function Run(adds: seq<Addition>): (s: Option<IdState>)
    requires adds != []
    ensures s.Some? ==> s.value.segs != []
  {
    var a := adds[|adds| - 1];
    if |adds| == 1 then FirstRecord(a.r, a.o)
    else
      var before := Run(adds[..|adds| - 1]);
      if before.None? then None
      else
        var outcome := AddRecord(before.value, a.r, a.o);
        if outcome.Added? then Some(outcome.id) else None
  }
}
