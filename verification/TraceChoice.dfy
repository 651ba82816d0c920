/** Which segments a record is added to, for arbitrary records, segments and options. */
module TraceChoice {
  import opened Mseed
  import opened Options
  import opened Sequences
  import opened TraceRefusals
  import opened TraceRuns
  import opened TraceSpec

  // ---------------------------------------------------------------- what is promised

  /** The rates agree within one part in ten thousand; but with a given tolerance, when they differ by more than it. */
  predicate RatesAgree(hz: real, other: real, ratetol: real) {
    if ratetol > 0.0 then hz - other > ratetol || other - hz > ratetol
    else other != 0.0 && -0.0001 < 1.0 - hz / other < 0.0001
  }

  /** The gap is within the tolerance, which is half a sample period unless one is given. */
  predicate Close(gap: int, r: Record, o: Opts) {
    match o.timetol
    case None => -(r.period / 2) <= gap <= r.period / 2
    case Some(tol) => -tol <= gap <= tol
  }

  /** The segment has samples at a rate that agrees, and the record starts about one period after its end. */
  predicate CanFollow(s: Seg, r: Record, o: Opts) {
    s.samplecnt > 0 && s.hz != 0.0 && Close(r.start - s.end - r.period, r, o) && RatesAgree(r.hz, s.hz, o.ratetol)
  }

  /** The same, and the record ends about one period before its start. */
  predicate CanPrecede(s: Seg, r: Record, o: Opts) {
    s.samplecnt > 0 && s.hz != 0.0 && Close(s.start - End(r) - r.period, r, o) && RatesAgree(r.hz, s.hz, o.ratetol)
  }

  /** When gaps are healed, a segment with just the times of the record ends the search. */
  predicate Duplicate(s: Seg, r: Record, o: Opts) {
    o.autoheal && s.samplecnt > 0 && s.hz != 0.0 && s.start == r.start && s.end == End(r)
  }

  /** How many of the segments are looked at: those before the first of these. */
  function Seen(segs: seq<Seg>, i: nat, r: Record, o: Opts): (n: nat)
    requires i <= |segs|
    ensures i <= n <= |segs| && (n < |segs| ==> Duplicate(segs[n], r, o))
    ensures forall m :: i <= m < n ==> !Duplicate(segs[m], r, o)
    decreases |segs| - i
  {
    if i == |segs| || Duplicate(segs[i], r, o) then i else Seen(segs, i + 1, r, o)
  }

  /** The first segment from i on and before n that the record can follow. */
  function FirstFollow(segs: seq<Seg>, i: nat, n: nat, r: Record, o: Opts): (k: Option<nat>)
    requires i <= n <= |segs|
    ensures k.Some? ==> i <= k.value < n && CanFollow(segs[k.value], r, o)
    ensures forall m :: i <= m < (if k.Some? then k.value else n) ==> !CanFollow(segs[m], r, o)
    decreases n - i
  {
    if i == n then None else if CanFollow(segs[i], r, o) then Some(i) else FirstFollow(segs, i + 1, n, r, o)
  }

  /** The first such segment that the record can precede. */
  function FirstPrecede(segs: seq<Seg>, i: nat, n: nat, r: Record, o: Opts): (k: Option<nat>)
    requires i <= n <= |segs|
    ensures k.Some? ==> i <= k.value < n && CanPrecede(segs[k.value], r, o)
    ensures forall m :: i <= m < (if k.Some? then k.value else n) ==> !CanPrecede(segs[m], r, o)
    decreases n - i
  {
    if i == n then None else if CanPrecede(segs[i], r, o) then Some(i) else FirstPrecede(segs, i + 1, n, r, o)
  }

  /** The segment has the record at its end, or at its start, and is otherwise the same. */
  predicate GrewAtEnd(s: Seg, t: Seg, r: Record) {
    && t.start == s.start && t.end == End(r) && t.hz == s.hz && t.sampletype == s.sampletype
    && t.samplecnt == s.samplecnt + r.samplecnt && t.data == s.data + r.samples
  }

  predicate GrewAtStart(s: Seg, t: Seg, r: Record) {
    && t.start == r.start && t.end == s.end && t.hz == s.hz && t.sampletype == s.sampletype
    && t.samplecnt == s.samplecnt + r.samplecnt && t.data == r.samples + s.data
  }

  predicate IsOf(t: Seg, r: Record) {
    && t.start == r.start && t.end == End(r) && t.hz == r.hz && t.sampletype == r.sampletype
    && t.samplecnt == r.samplecnt && t.data == r.samples
  }

  /** The segment has the record and then the other segment at its end. */
  predicate GrewByBoth(s: Seg, a: Seg, t: Seg, r: Record) {
    && t.start == s.start && t.end == a.end && t.hz == s.hz && t.sampletype == s.sampletype
    && t.samplecnt == s.samplecnt + r.samplecnt + a.samplecnt && t.data == s.data + r.samples + a.data
  }

  /** Outcomes, but for where the changed segment is sorted to. */
  ghost predicate GrewEnd(segs: seq<Seg>, a: Outcome, k: nat, r: Record) {
    && k < |segs| == |a.id.segs| && a.Added? && a.at < |segs|
    && GrewAtEnd(segs[k], a.id.segs[a.at], r) && RemoveAt(a.id.segs, a.at) == RemoveAt(segs, k)
  }

  ghost predicate GrewStart(segs: seq<Seg>, a: Outcome, k: nat, r: Record) {
    && k < |segs| == |a.id.segs| && a.Added? && a.at < |segs|
    && GrewAtStart(segs[k], a.id.segs[a.at], r) && RemoveAt(a.id.segs, a.at) == RemoveAt(segs, k)
  }

  ghost predicate Closed(segs: seq<Seg>, a: Outcome, k: nat, l: nat, r: Record) {
    && k < |segs| && l < |segs| && k != l && |segs| == |a.id.segs| + 1 && a.Added? && a.at < |a.id.segs|
    && GrewByBoth(segs[k], segs[l], a.id.segs[a.at], r)
    && RemoveAt(a.id.segs, a.at) == RemoveAt(RemoveAt(segs, k), if l < k then l else l - 1)
  }

  ghost predicate Made(segs: seq<Seg>, a: Outcome, r: Record) {
    && |a.id.segs| == |segs| + 1 && a.Added? && a.at < |a.id.segs|
    && IsOf(a.id.segs[a.at], r) && RemoveAt(a.id.segs, a.at) == segs
  }

  // ---------------------------------------------------------------- the search finds the first candidates

  lemma SimilarIs(a: real, b: real, tol: real)
    ensures Similar(a, b, tol) == RatesAgree(a, b, tol)
  {}

  lemma TestsAre(s: Seg, r: Record, o: Opts)
    ensures CanFollow(s, r, o) == (FitsAfter(s, r, o) && Covers(s))
            && CanPrecede(s, r, o) == (FitsBefore(s, r, o) && Covers(s))
    ensures Duplicate(s, r, o) == (o.autoheal && Covers(s) && SameSpan(s, r))
  {
    SimilarIs(r.hz, s.hz, o.ratetol);
    hide Similar, RatesAgree, End;
  }

  lemma LookStep(segs: seq<Seg>, i: nat, r: Record, o: Opts, f: Found)
    requires i < |segs|
    ensures var s, g := segs[i], Look(segs, i, r, o, f);
            && Search(segs, i, r, o, f)
               == (if !Covers(s) then Search(segs, i + 1, r, o, f)
                   else if Duplicate(s, r, o) then f.(follow := Some(i))
                   else if Enough(g, o) then g else Search(segs, i + 1, r, o, g))
            && (CanFollow(s, r, o) || CanPrecede(s, r, o) || Duplicate(s, r, o) ==> Covers(s))
            && (Covers(s) ==>
                  && g.before == (if f.before.None? && CanFollow(s, r, o) then Some(i) else f.before)
                  && g.after == (if f.after.None? && CanPrecede(s, r, o) then Some(i) else f.after))
  {
    TestsAre(segs[i], r, o);
    hide FitsAfter, FitsBefore, CanFollow, CanPrecede, SameSpan, Duplicate, Covers;
  }

  lemma SeenStep(segs: seq<Seg>, i: nat, r: Record, o: Opts)
    requires i < |segs|
    ensures var n := Seen(segs, i, r, o);
            if Duplicate(segs[i], r, o) then n == i && FirstFollow(segs, i, n, r, o) == FirstPrecede(segs, i, n, r, o)
              == None
            else
              && n == Seen(segs, i + 1, r, o) >= i + 1
              && FirstFollow(segs, i, n, r, o)
                 == (if CanFollow(segs[i], r, o) then Some(i) else FirstFollow(segs, i + 1, n, r, o))
              && FirstPrecede(segs, i, n, r, o)
                 == if CanPrecede(segs[i], r, o) then Some(i) else FirstPrecede(segs, i + 1, n, r, o)
  {
    hide CanFollow, CanPrecede, Duplicate;
  }

  /** Healing, the search finds the first segment that the record can follow and the first that it can precede. */
  lemma {:induction false} HealingSearch(segs: seq<Seg>, i: nat, r: Record, o: Opts, f: Found)
    requires i <= |segs| && o.autoheal && !(f.before.Some? && f.after.Some?)
    ensures var h, n := Search(segs, i, r, o, f), Seen(segs, i, r, o);
            && h.before == (if f.before.Some? then f.before else FirstFollow(segs, i, n, r, o))
            && h.after == (if f.after.Some? then f.after else FirstPrecede(segs, i, n, r, o))
    decreases |segs| - i
  {
    hide CanFollow, CanPrecede, Duplicate, Covers, FitsAfter, FitsBefore, SameSpan, Search, Look, Seen, FirstFollow,
         FirstPrecede;
    if i == |segs| {
      SearchEnd(segs, r, o, f);
    } else {
      var s, g := segs[i], Look(segs, i, r, o, f);
      LookStep(segs, i, r, o, f);
      SeenStep(segs, i, r, o);
      if !Covers(s) {
        HealingSearch(segs, i + 1, r, o, f);
      } else if !Duplicate(s, r, o) && !Enough(g, o) {
        HealingSearch(segs, i + 1, r, o, g);
      }
    }
  }

  lemma SearchEnd(segs: seq<Seg>, r: Record, o: Opts, f: Found)
    ensures var n := |segs|;
            && Search(segs, n, r, o, f) == f && Seen(segs, n, r, o) == n
            && FirstFollow(segs, n, n, r, o) == FirstPrecede(segs, n, n, r, o) == None
  {}

  /** The first of two places. */
  function Earlier(a: Option<nat>, b: Option<nat>): Option<nat> {
    if a.None? then b else if b.None? || a.value <= b.value then a else b
  }

  /** Not healing, it finds the first segment that the record can follow or precede, whichever comes first. */
  lemma {:induction false} FirstSearch(segs: seq<Seg>, i: nat, r: Record, o: Opts, f: Found)
    requires i <= |segs| && !o.autoheal && f.before.None? && f.after.None?
    ensures var h, n := Search(segs, i, r, o, f), |segs|;
            var b, a := FirstFollow(segs, i, n, r, o), FirstPrecede(segs, i, n, r, o);
            && h.before == (if b.Some? && b == Earlier(b, a) then b else None)
            && h.after == (if a.Some? && a == Earlier(a, b) then a else None)
    decreases |segs| - i
  {
    hide CanFollow, CanPrecede, Duplicate, Covers, FitsAfter, FitsBefore, SameSpan, Search, Look, Seen, FirstFollow,
         FirstPrecede;
    if i == |segs| {
      SearchEnd(segs, r, o, f);
    } else {
      var s, g := segs[i], Look(segs, i, r, o, f);
      LookStep(segs, i, r, o, f);
      SeesAll(segs, i, r, o);
      SeesAll(segs, i + 1, r, o);
      SeenStep(segs, i, r, o);
      if !Covers(s) {
        FirstSearch(segs, i + 1, r, o, f);
      } else if !Enough(g, o) {
        FirstSearch(segs, i + 1, r, o, g);
      }
    }
  }

  lemma SeesAll(segs: seq<Seg>, i: nat, r: Record, o: Opts)
    requires i <= |segs| && !o.autoheal
    ensures Seen(segs, i, r, o) == |segs| && (i < |segs| ==> !Duplicate(segs[i], r, o))
  {}

  // ---------------------------------------------------------------- one addition

  /** No segment ends before it starts, and the extent includes all. */
  ghost predicate Spans(id: IdState) {
    forall k :: 0 <= k < |id.segs| ==> id.earliest <= id.segs[k].start <= id.segs[k].end <= id.latest
  }

  datatype Choice = AtEnd(k: nat) | AtStart(k: nat) | Between(b: nat, c: nat) | Alone

  /** Where a record belongs: at the end of the last segment if it can follow that, else at the start of the first if it
      can precede that. Else, when gaps are healed, between the first segment that it can follow and the first that it
      can precede, if there are both; else at the one found, or at the earlier one when gaps are not healed. */
  function Chosen(segs: seq<Seg>, r: Record, o: Opts): (w: Choice)
    requires segs != []
    ensures match w case AtEnd(k) => k < |segs| && CanFollow(segs[k], r, o)
                    case AtStart(k) => k < |segs| && CanPrecede(segs[k], r, o)
                    case Between(b, c) => b < |segs| && c < |segs| && b != c && o.autoheal && CanFollow(segs[b], r, o)
                                          && CanPrecede(segs[c], r, o)
                    case Alone => true
  {
    if CanFollow(segs[|segs| - 1], r, o) then AtEnd(|segs| - 1)
    else if CanPrecede(segs[0], r, o) then AtStart(0)
    else
      var m := Seen(segs, 0, r, o);
      var b, c := FirstFollow(segs, 0, m, r, o), FirstPrecede(segs, 0, m, r, o);
      if b.None? && c.None? then Alone
      else if o.autoheal && b.Some? && c.Some? && b != c then Between(b.value, c.value)
      else if b.Some? && (o.autoheal || b == Earlier(b, c)) then AtEnd(b.value)
      else AtStart(c.value)
  }

  /** What an addition that is not refused does there. */
  ghost predicate Adds(segs: seq<Seg>, a: Outcome, r: Record, w: Choice) {
    match w
    case AtEnd(k) => GrewEnd(segs, a, k, r)
    case AtStart(k) => GrewStart(segs, a, k, r)
    case Between(b, c) => Closed(segs, a, b, c, r)
    case Alone => Made(segs, a, r)
  }

  predicate Typed(c: char) {
    c == 't' || c == 'a' || c == 'i' || c == 'f' || c == 'd'
  }

  /** Why it is refused there: for samples of another type than those of the segment, or of an unknown type. */
  predicate Bars(segs: seq<Seg>, r: Record, w: Choice) {
    match w
    case AtEnd(k) => k < |segs| && r.samples != [] && (r.sampletype != segs[k].sampletype || !Typed(r.sampletype))
    case AtStart(k) => k < |segs| && r.samples != [] && (r.sampletype != segs[k].sampletype || !Typed(r.sampletype))
    case Between(b, c) =>
      && b < |segs| && c < |segs|
      && ((r.samples != [] && (r.sampletype != segs[b].sampletype || !Typed(r.sampletype)))
          || (segs[c].data != [] && (segs[c].sampletype != segs[b].sampletype || !Typed(segs[b].sampletype))))
    case Alone => r.samples != [] && !Typed(r.sampletype)
  }

  ghost predicate Does(segs: seq<Seg>, a: Outcome, r: Record, w: Choice) {
    if Bars(segs, r, w) then a.Refused? else Adds(segs, a, r, w)
  }

  lemma EndGrows(id: IdState, k: nat, r: Record, o: Opts)
    requires k < |id.segs|
    ensures Does(id.segs, AddToEnd(id, k, r, o), r, AtEnd(k)) && Does(id.segs, AddToStart(id, k, r, o), r, AtStart(k))
  {
    var x, y := Extended(id.segs[k], r, o), Prepended(id.segs[k], r, o);
    FinishMoves(id, id.segs[k := x], k, r);
    FinishMoves(id, id.segs[k := y], k, r);
    RemoveUpdated(id.segs, k, x);
    RemoveUpdated(id.segs, k, y);
    hide Finish, RemoveAt, End;
  }

  lemma NewMade(id: IdState, k: nat, r: Record, o: Opts)
    requires k <= |id.segs|
    ensures Does(id.segs, AddNew(id, k, r, o), r, Alone)
  {
    var x := NewSeg(r, o);
    FinishMoves(id, InsertAt(id.segs, k, x), k, r);
    RemoveInserted(id.segs, k, x);
    hide Finish, RemoveAt, InsertAt, End;
  }

  lemma HealCloses(id: IdState, b: nat, c: nat, r: Record, o: Opts)
    requires b < |id.segs| && c < |id.segs| && b != c
    ensures Does(id.segs, Heal(id, b, c, r, o), r, Between(b, c))
  {
    var y, at := Merged(Extended(id.segs[b], r, o), id.segs[c]), if c < b then b - 1 else b;
    HealIs(id, b, c, r, o);
    RemoveTwice(id.segs, b, c, y);
    FinishMoves(id, RemoveAt(id.segs[b := y], c), at, r);
    hide Finish, RemoveAt, Heal, End;
  }

  /** Nothing can be joined by a record that is beyond the extent, by more than a period and the tolerance. */
  lemma NothingNear(id: IdState, r: Record, o: Opts)
    requires Spans(id)
    requires r.start - r.period - TimeTol(r, o) > id.latest || End(r) + r.period + TimeTol(r, o) < id.earliest
    ensures forall k :: 0 <= k < |id.segs| ==> !CanFollow(id.segs[k], r, o) && !CanPrecede(id.segs[k], r, o)
  {
    EndAfterStart(r);
    hide RatesAgree, End;
  }

  lemma EndAfterStart(r: Record)
    ensures End(r) >= r.start
  {
    if r.samplecnt > 0 {
      assert (r.samplecnt - 1) * r.period >= 0;
    }
  }

  lemma NoneChosen(segs: seq<Seg>, r: Record, o: Opts)
    requires segs != [] && forall k :: 0 <= k < |segs| ==> !CanFollow(segs[k], r, o) && !CanPrecede(segs[k], r, o)
    ensures Chosen(segs, r, o) == Alone
  {
    hide CanFollow, CanPrecede, Duplicate;
  }

  lemma BySearchOf(id: IdState, r: Record, o: Opts, f: Found)
    requires f == FullSearch(id.segs, r, o)
    ensures InRange(f, |id.segs|) && f == Search(id.segs, 0, r, o, Found(None, None, None))
    ensures AddBySearch(id, r, o)
            == if f.before.Some? then
                 if o.autoheal && f.after.Some? && f.before != f.after
                   then Heal(id, f.before.value, f.after.value, r, o)
                 else AddToEnd(id, f.before.value, r, o)
               else if f.after.Some? then AddToStart(id, f.after.value, r, o)
               else AddNew(id, if f.follow.Some? then f.follow.value + 1 else 0, r, o)
  {
    hide Search, Heal, AddToEnd, AddToStart, AddNew;
  }

  /** What the search finds is what is chosen. */
  lemma SearchChooses(id: IdState, r: Record, o: Opts)
    requires id.segs != [] && !CanFollow(id.segs[|id.segs| - 1], r, o) && !CanPrecede(id.segs[0], r, o)
    ensures var f, w := FullSearch(id.segs, r, o), Chosen(id.segs, r, o);
            if f.before.Some? then
              if o.autoheal && f.after.Some? && f.before != f.after then w == Between(f.before.value, f.after.value)
              else w == AtEnd(f.before.value)
            else if f.after.Some? then w == AtStart(f.after.value) else w == Alone
  {
    BySearchOf(id, r, o, FullSearch(id.segs, r, o));
    if o.autoheal {
      HealingSearch(id.segs, 0, r, o, Found(None, None, None));
    } else {
      FirstSearch(id.segs, 0, r, o, Found(None, None, None));
      SeesAll(id.segs, 0, r, o);
    }
    hide CanFollow, CanPrecede, Seen, FirstFollow, FirstPrecede, FullSearch, Search, AddBySearch;
  }

  lemma AddsFound(id: IdState, r: Record, o: Opts)
    requires id.segs != [] && !CanFollow(id.segs[|id.segs| - 1], r, o) && !CanPrecede(id.segs[0], r, o)
    ensures Does(id.segs, AddBySearch(id, r, o), r, Chosen(id.segs, r, o))
  {
    hide *;
    var f := FullSearch(id.segs, r, o);
    SearchChooses(id, r, o);
    BySearchOf(id, r, o, f);
    RangeOf(f, |id.segs|);
    if f.before.Some? {
      EndGrows(id, f.before.value, r, o);
      if o.autoheal && f.after.Some? && f.before != f.after {
        HealCloses(id, f.before.value, f.after.value, r, o);
      }
    } else if f.after.Some? {
      EndGrows(id, f.after.value, r, o);
    } else {
      NewMade(id, if f.follow.Some? then f.follow.value + 1 else 0, r, o);
    }
  }

  lemma EndsChosen(segs: seq<Seg>, r: Record, o: Opts)
    requires segs != []
    ensures CanFollow(segs[|segs| - 1], r, o) ==> Chosen(segs, r, o) == AtEnd(|segs| - 1)
    ensures !CanFollow(segs[|segs| - 1], r, o) && CanPrecede(segs[0], r, o) ==> Chosen(segs, r, o) == AtStart(0)
  {
    hide CanFollow, CanPrecede, Seen, FirstFollow, FirstPrecede;
  }

  /** Any addition, whatever the record, the segments and the options: the record goes where it belongs, unless its end
      is the error value or the sample types there bar it. */
  lemma AdditionIs(id: IdState, r: Record, o: Opts)
    requires id.segs != [] && Spans(id)
    ensures End(r) == NSTERROR ==> AddRecord(id, r, o).Refused?
    ensures End(r) != NSTERROR ==> Does(id.segs, AddRecord(id, r, o), r, Chosen(id.segs, r, o))
  {
    hide *;
    var n := |id.segs|;
    Branches(id, r, o);
    TestsAre(id.segs[n - 1], r, o);
    TestsAre(id.segs[0], r, o);
    EndGrows(id, n - 1, r, o);
    EndGrows(id, 0, r, o);
    EndsChosen(id.segs, r, o);
    if End(r) != NSTERROR && !CanFollow(id.segs[n - 1], r, o) {
      if r.start - r.period - TimeTol(r, o) > id.latest {
        NewMade(id, n, r, o);
        NothingNear(id, r, o);
        NoneChosen(id.segs, r, o);
      } else if End(r) + r.period + TimeTol(r, o) < id.earliest {
        NewMade(id, 0, r, o);
        NothingNear(id, r, o);
        NoneChosen(id.segs, r, o);
      } else if !CanPrecede(id.segs[0], r, o) {
        AddsFound(id, r, o);
      }
    }
  }

  // ---------------------------------------------------------------- what additions keep

  predicate Spanned(s: Seg, earliest: int, latest: int) {
    earliest <= s.start <= s.end <= latest
  }

  /** The tolerance is at most one period. */
  predicate Narrow(r: Record, o: Opts) {
    o.timetol.Some? ==> o.timetol.value <= r.period
  }

  /** The changed segment is spanned by the old extent and the record. */
  lemma ChangedSpanned(segs: seq<Seg>, a: Outcome, r: Record, o: Opts, lo: int, hi: int)
    requires segs != [] && a.Added? && Adds(segs, a, r, Chosen(segs, r, o)) && Narrow(r, o)
    requires forall k :: 0 <= k < |segs| ==> Spanned(segs[k], lo, hi)
    ensures a.at < |a.id.segs| && Spanned(a.id.segs[a.at], Min(lo, r.start), Max(hi, End(r)))
  {
    EndAfterStart(r);
    hide End, RatesAgree, Seen, FirstFollow, FirstPrecede, RemoveAt;
    var w := Chosen(segs, r, o);
    hide Chosen;
  }

  lemma OldOrChanged<T>(now: seq<T>, at: nat, rest: seq<T>)
    requires at < |now| && RemoveAt(now, at) == rest
    ensures forall i :: 0 <= i < |now| && i != at ==> now[i] in rest
  {
    RemoveFacts(now, at);
    hide RemoveAt;
    forall i | 0 <= i < |now| && i != at ensures now[i] in rest {
      assert rest[if i < at then i else i - 1] == now[i];
    }
  }

  lemma RestIn<T>(s: seq<T>, k: nat)
    requires k < |s|
    ensures forall x :: x in RemoveAt(s, k) ==> x in s
  {
    RemoveFacts(s, k);
    hide RemoveAt;
  }

  /** The other segments are old ones. */
  lemma OthersOld(segs: seq<Seg>, a: Outcome, r: Record, w: Choice)
    requires a.Added? && Adds(segs, a, r, w)
    ensures a.at < |a.id.segs| && forall i :: 0 <= i < |a.id.segs| && i != a.at ==> a.id.segs[i] in segs
  {
    hide GrewAtEnd, GrewAtStart, GrewByBoth, IsOf, RemoveAt;
    match w
    case AtEnd(k) =>
      OldOrChanged(a.id.segs, a.at, RemoveAt(segs, k));
      RestIn(segs, k);
    case AtStart(k) =>
      OldOrChanged(a.id.segs, a.at, RemoveAt(segs, k));
      RestIn(segs, k);
    case Between(b, c) =>
      var c' := if c < b then c else c - 1;
      OldOrChanged(a.id.segs, a.at, RemoveAt(RemoveAt(segs, b), c'));
      RestIn(RemoveAt(segs, b), c');
      RestIn(segs, b);
    case Alone =>
      OldOrChanged(a.id.segs, a.at, segs);
  }

  /** With a tolerance of at most a period no segment comes to end before it starts. */
  lemma SpansStays(id: IdState, r: Record, o: Opts)
    requires id.segs != [] && Spans(id) && Narrow(r, o) && AddRecord(id, r, o).Added?
    ensures Spans(AddRecord(id, r, o).id)
  {
    var a, w := AddRecord(id, r, o), Chosen(id.segs, r, o);
    AdditionIs(id, r, o);
    ErrorRefused(id, r, o);
    assert Adds(id.segs, a, r, w);
    assert forall k :: 0 <= k < |id.segs| ==> Spanned(id.segs[k], id.earliest, id.latest);
    ExtentStep(id, r, o);
    ChangedSpanned(id.segs, a, r, o, id.earliest, id.latest);
    OthersOld(id.segs, a, r, w);
    hide AddRecord, Chosen, Adds, End;
    forall k | 0 <= k < |a.id.segs| ensures Spanned(a.id.segs[k], a.id.earliest, a.id.latest) {
      if k != a.at {
        var i :| 0 <= i < |id.segs| && id.segs[i] == a.id.segs[k];
        assert Spanned(id.segs[i], id.earliest, id.latest);
      }
    }
  }

  lemma ErrorRefused(id: IdState, r: Record, o: Opts)
    requires id.segs != [] && AddRecord(id, r, o).Added?
    ensures End(r) != NSTERROR
  {
    Branches(id, r, o);
    hide AddRecord, FitsAfter, FitsBefore, Covers, AddToEnd, AddToStart, AddNew, AddBySearch;
  }

  lemma FirstSpans(r: Record, o: Opts)
    requires FirstRecord(r, o).Some?
    ensures Spans(FirstRecord(r, o).value)
  {
    EndAfterStart(r);
  }

  /** So the condition of the additions holds throughout a run of such additions. */
  lemma {:induction false} RunSpans(adds: seq<Addition>)
    requires adds != [] && Run(adds).Some? && forall i :: 0 <= i < |adds| ==> Narrow(adds[i].r, adds[i].o)
    ensures Spans(Run(adds).value)
  {
    hide AddRecord, FirstRecord, Spans, Narrow;
    var front, a := adds[..|adds| - 1], adds[|adds| - 1];
    if |adds| == 1 {
      FirstSpans(a.r, a.o);
    } else {
      assert forall i :: 0 <= i < |front| ==> front[i] == adds[i];
      RunSpans(front);
      SpansStays(Run(front).value, a.r, a.o);
    }
  }
}
