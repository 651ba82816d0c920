/** For which options adding disjoint records of one grid gives the maximal runs of the covered samples, and for
    which the order of addition makes no difference: both exactly. */
module TraceTolerance {
  import opened Options
  import opened Mseed
  import opened Sequences
  import opened TraceSpec
  import opened TraceRuns
  import opened TraceGrid

  /** A grid on which there are records. */
  predicate IsGrid(g: Grid) {
    g.p > 0 && g.hz != 0.0 && KnownType(g.sampletype)
  }

  /** The time tolerance for the records of a grid. */
  function Tolerance(g: Grid, o: Opts): int {
    if o.timetol.Some? then o.timetol.value else g.p / 2
  }

  /** The records end as segments of chains in time order, no two of which adjoin. */
  ghost predicate EndsAsRuns(g: Grid, rs: seq<Record>, o: Opts)
    requires rs != []
  {
    var id := Run(Additions(rs, o));
    id.Some? && exists cs ::
      Canon(g, cs) && AllNonEmpty(cs) && Held(cs) == multiset(rs) && id.value.segs == Segs(g, cs, o)
  }

  ghost predicate AllEndAsRuns(g: Grid, o: Opts) {
    forall rs: seq<Record> :: rs != [] && GridRecords(g, rs) ==> EndsAsRuns(g, rs, o)
  }

  /** Both orders end, and with the same segments and extent. */
  ghost predicate SameEnd(rs: seq<Record>, qs: seq<Record>, o: Opts)
    requires rs != [] && qs != []
  {
    var a, b := Run(Additions(rs, o)), Run(Additions(qs, o));
    a.Some? && b.Some? && a.value.segs == b.value.segs && a.value.earliest == b.value.earliest
      && a.value.latest == b.value.latest
  }

  ghost predicate IsOrder(g: Grid, rs: seq<Record>, qs: seq<Record>) {
    rs != [] && qs != [] && GridRecords(g, rs) && GridRecords(g, qs) && multiset(qs) == multiset(rs)
  }

  ghost predicate OrderFree(g: Grid, o: Opts) {
    forall rs, qs :: IsOrder(g, rs, qs) ==> SameEnd(rs, qs, o)
  }

  // ---------------------------------------------------------------- records that are never joined

  /** No record fits any segment of its rate. */
  predicate Lone(g: Grid, o: Opts) {
    o.ratetol > 0.0 || Tolerance(g, o) < 0
  }

  ghost predicate FitsNone(segs: seq<Seg>, r: Record, o: Opts) {
    forall i :: 0 <= i < |segs| ==> !FitsAfter(segs[i], r, o) && !FitsBefore(segs[i], r, o)
  }

  /** The segments are in order of their starts, no two of which are the same. */
  ghost predicate Increasing(segs: seq<Seg>) {
    forall i, j :: 0 <= i < j < |segs| ==> segs[i].start < segs[j].start
  }

  lemma SearchFindsNone(segs: seq<Seg>, r: Record, o: Opts)
    requires FitsNone(segs, r, o)
    ensures FullSearch(segs, r, o).before.None? && FullSearch(segs, r, o).after.None?
  {
    SearchFinds(segs, 0, r, o, Found(None, None, None));
    hide Search, FitsAfter, FitsBefore;
  }

  /** Such a record gets a segment of its own. */
  lemma LoneAdds(id: IdState, r: Record, o: Opts) returns (i: nat)
    requires id.segs != [] && FitsNone(id.segs, r, o) && End(r) != NSTERROR
    ensures i <= |id.segs| && AddRecord(id, r, o) == AddNew(id, i, r, o)
  {
    SearchFindsNone(id.segs, r, o);
    hide FitsAfter, FitsBefore, FullSearch, AddNew, AddToEnd, AddToStart, Heal, End, TimeTol, Covers;
    var f := FullSearch(id.segs, r, o);
    if r.start - r.period - TimeTol(r, o) > id.latest {
      i := |id.segs|;
    } else if End(r) + r.period + TimeTol(r, o) < id.earliest {
      i := 0;
    } else {
      i := if f.follow.Some? then f.follow.value + 1 else 0;
    }
  }

  lemma InsertIncreasing(segs: seq<Seg>, now: seq<Seg>, at: nat)
    requires Increasing(segs) && Sorted(now) && at < |now| && RemoveAt(now, at) == segs
    requires forall i :: 0 <= i < |segs| ==> segs[i].start != now[at].start
    ensures Increasing(now)
    ensures forall s :: s in now <==> s in segs || s == now[at]
  {
    forall i, j | 0 <= i < j < |now| ensures now[i].start < now[j].start {
      assert !Precedes(now[j], now[i]);
      assert i != at ==> now[i] == segs[if i < at then i else i - 1];
      assert j != at ==> now[j] == segs[if j < at then j else j - 1];
    }
    forall s ensures s in now <==> s in segs || s == now[at] {
      assert now == segs[..at] + [now[at]] + segs[at..];
      assert segs == segs[..at] + segs[at..];
    }
  }

  lemma LoneStep(id: IdState, r: Record, o: Opts)
    requires id.segs != [] && Sorted(id.segs) && Increasing(id.segs) && FitsNone(id.segs, r, o)
    requires End(r) != NSTERROR && !Unusable(r) && forall i :: 0 <= i < |id.segs| ==> id.segs[i].start != r.start
    ensures var a := AddRecord(id, r, o);
            && a.Added? && Sorted(a.id.segs) && Increasing(a.id.segs) && |a.id.segs| == |id.segs| + 1
            && (forall s :: s in a.id.segs <==> s in id.segs || s == NewSeg(r, o))
  {
    var i := LoneAdds(id, r, o);
    hide Sorted, Increasing, FitsNone, Finish, NewSeg, AddRecord;
    RemoveInserted(id.segs, i, NewSeg(r, o));
    FinishKeeps(id, InsertAt(id.segs, i, NewSeg(r, o)), i, r);
    var a := AddRecord(id, r, o);
    NewStart(r, o);
    InsertIncreasing(id.segs, a.id.segs, a.at);
  }

  lemma NewStart(r: Record, o: Opts)
    ensures NewSeg(r, o).start == r.start && NewSeg(r, o).hz == r.hz
  {}

  ghost predicate AreSegs(segs: seq<Seg>, rs: seq<Record>, o: Opts) {
    && Sorted(segs) && Increasing(segs) && |segs| == |rs|
    && (forall s :: s in segs <==> exists r :: r in rs && s == NewSeg(r, o))
  }

  lemma LoneFits(g: Grid, segs: seq<Seg>, rs: seq<Record>, r: Record, o: Opts)
    requires Lone(g, o) && AreSegs(segs, rs, o) && (forall q :: q in rs ==> OnGrid(g, q) && Disjoint(g, q, r))
             && OnGrid(g, r)
    ensures FitsNone(segs, r, o) && End(r) != NSTERROR && !Unusable(r)
    ensures forall i :: 0 <= i < |segs| ==> segs[i].start != r.start
  {
    forall i | 0 <= i < |segs|
      ensures !FitsAfter(segs[i], r, o) && !FitsBefore(segs[i], r, o) && segs[i].start != r.start
    {
      assert segs[i] in segs;
      var q :| q in rs && segs[i] == NewSeg(q, o);
      assert OnGrid(g, q) && Disjoint(g, q, r);
      hide Cell, At, Sorted, Increasing, AreSegs;
      CellsApart(g, q, r);
    }
  }

  lemma CellsApart(g: Grid, q: Record, r: Record)
    requires OnGrid(g, q) && OnGrid(g, r) && Disjoint(g, q, r)
    ensures q.start != r.start
  {
    RecordSpan(g, q);
    RecordSpan(g, r);
  }

  lemma AreSegsMore(segs: seq<Seg>, now: seq<Seg>, rs: seq<Record>, n: nat, o: Opts)
    requires n + 1 == |rs| && AreSegs(segs, rs[..n], o) && Sorted(now) && Increasing(now) && |now| == |segs| + 1
    requires forall s :: s in now <==> s in segs || s == NewSeg(rs[n], o)
    ensures AreSegs(now, rs, o)
  {
    hide Sorted, Increasing, NewSeg;
    forall s ensures s in now <==> exists r :: r in rs && s == NewSeg(r, o) {
      assert forall r :: r in rs <==> r in rs[..n] || r == rs[n];
      if s in segs {
        var r :| r in rs[..n] && s == NewSeg(r, o);
      }
    }
  }

  /** So each record ends as a segment of its own. */
  lemma {:induction false} LoneRun(g: Grid, rs: seq<Record>, o: Opts)
    requires rs != [] && GridRecords(g, rs) && Lone(g, o)
    ensures Run(Additions(rs, o)).Some? && AreSegs(Run(Additions(rs, o)).value.segs, rs, o)
  {
    var n := |rs| - 1;
    GridPrefix(g, rs, n);
    RunOfAdditions(rs, o, n);
    hide Run, AddRecord, GridRecords, Lone, Disjoint, Additions, AreSegs, OnGrid;
    if n == 0 {
      LoneFirst(g, rs, o);
    } else {
      LoneRun(g, rs[..n], o);
      var id := Run(Additions(rs[..n], o)).value;
      PrefixOn(g, rs, n);
      LoneFits(g, id.segs, rs[..n], rs[n], o);
      AreSegsGives(id.segs, rs[..n], o);
      LoneStep(id, rs[n], o);
      AreSegsMore(id.segs, AddRecord(id, rs[n], o).id.segs, rs, n, o);
    }
  }

  lemma PrefixOn(g: Grid, rs: seq<Record>, n: nat)
    requires GridRecords(g, rs) && n + 1 == |rs|
    ensures forall q :: q in rs[..n] ==> OnGrid(g, q) && Disjoint(g, q, rs[n])
  {
    hide OnGrid, Disjoint;
  }

  lemma AreSegsGives(segs: seq<Seg>, rs: seq<Record>, o: Opts)
    requires AreSegs(segs, rs, o)
    ensures Sorted(segs) && Increasing(segs) && |segs| == |rs|
  {}

  lemma LoneFirst(g: Grid, rs: seq<Record>, o: Opts)
    requires |rs| == 1 && GridRecords(g, rs)
    ensures FirstRecord(rs[0], o).Some? && AreSegs(FirstRecord(rs[0], o).value.segs, rs, o)
  {
    assert OnGrid(g, rs[0]);
    hide OnGrid, NewSeg;
    forall s ensures s in [NewSeg(rs[0], o)] <==> exists r :: r in rs && s == NewSeg(r, o) {
      assert rs[0] in rs;
    }
  }

  lemma HeadOut(a: seq<Seg>)
    requires Increasing(a) && a != []
    ensures a[0] !in a[1..] && Increasing(a[1..]) && a == [a[0]] + a[1..]
  {}

  /** Increasing segments are determined by which segments they are. */
  lemma {:induction false} IncreasingUnique(a: seq<Seg>, b: seq<Seg>)
    requires Increasing(a) && Increasing(b) && forall s :: s in a <==> s in b
    ensures a == b
  {
    if b != [] {
      assert b[0] in a;
    }
    if a != [] {
      assert a[0] in b;
      assert a[0] == b[0];
      HeadOut(a);
      HeadOut(b);
      hide Increasing;
      forall s ensures s in a[1..] <==> s in b[1..] {
        assert s in a <==> s == a[0] || s in a[1..];
        assert s in b <==> s == b[0] || s in b[1..];
      }
      IncreasingUnique(a[1..], b[1..]);
    }
  }

  lemma LoneSame(rs: seq<Record>, qs: seq<Record>, o: Opts, a: seq<Seg>, b: seq<Seg>)
    requires AreSegs(a, rs, o) && AreSegs(b, qs, o) && multiset(qs) == multiset(rs)
    ensures a == b
  {
    hide Sorted, Increasing, NewSeg;
    forall s ensures s in a <==> s in b {
      assert forall r :: r in rs <==> r in multiset(rs);
      assert forall r :: r in qs <==> r in multiset(qs);
    }
    IncreasingUnique(a, b);
  }

  /** The same records have the same extent. */
  lemma SameExtent(rs: seq<Record>, qs: seq<Record>, o: Opts)
    requires rs != [] && qs != [] && multiset(qs) == multiset(rs) && Run(Additions(rs, o)).Some?
             && Run(Additions(qs, o)).Some?
    ensures Run(Additions(rs, o)).value.earliest >= Run(Additions(qs, o)).value.earliest
    ensures Run(Additions(rs, o)).value.latest <= Run(Additions(qs, o)).value.latest
  {
    var a, b := Additions(rs, o), Additions(qs, o);
    RunKeepsOrder(a);
    RunKeepsOrder(b);
    hide Run, End, Sorted;
    var i :| 0 <= i < |a| && a[i].r.start == Run(a).value.earliest;
    var j :| 0 <= j < |a| && End(a[j].r) == Run(a).value.latest;
    assert rs[i] in multiset(qs) && rs[j] in multiset(qs);
    var k :| 0 <= k < |qs| && qs[k] == rs[i];
    var l :| 0 <= l < |qs| && qs[l] == rs[j];
    assert b[k].r == rs[i] && b[l].r == rs[j];
  }

  lemma LoneOrderFree(g: Grid, rs: seq<Record>, qs: seq<Record>, o: Opts)
    requires IsOrder(g, rs, qs) && Lone(g, o)
    ensures SameEnd(rs, qs, o)
  {
    hide Run, GridRecords, Lone, AreSegs, Additions;
    LoneRun(g, rs, o);
    LoneRun(g, qs, o);
    LoneSame(rs, qs, o, Run(Additions(rs, o)).value.segs, Run(Additions(qs, o)).value.segs);
    SameExtent(rs, qs, o);
    SameExtent(qs, rs, o);
  }

  // ---------------------------------------------------------------- three records of one sample

  function One(g: Grid, k: int): Record {
    Record(At(g, k), g.p, g.hz, 1, 0, g.sampletype, [0], g.sampletype, [0])
  }

  lemma OneOnGrid(g: Grid, k: int)
    requires IsGrid(g) && At(g, k) != NSTERROR
    ensures OnGrid(g, One(g, k)) && Cell(g, One(g, k)) == k && Past(g, One(g, k)) == k + 1
  {
    var q, r := g.p * k / g.p, g.p * k % g.p;
    assert g.p * (k - q) == r;
    Steps(g.p, k - q, g.p - 1);
  }

  /** Three cells in a row, none at the error value. */
  lemma FreeCells(g: Grid) returns (k: int)
    requires IsGrid(g)
    ensures At(g, k) != NSTERROR && At(g, k + 1) != NSTERROR && At(g, k + 2) != NSTERROR
  {
    k := if g.base > NSTERROR then 0 else -3;
  }

  lemma OneTimes(g: Grid, k: int)
    ensures One(g, k).start == End(One(g, k)) == At(g, k) && One(g, k).period == g.p && One(g, k).hz == g.hz
    ensures At(g, k + 1) == At(g, k) + g.p && At(g, k + 2) == At(g, k) + 2 * g.p
  {
    assert 0 * g.p == 0;
  }

  /** The three records, all of them on the grid and apart. */
  lemma OnesAreRecords(g: Grid, k: int)
    requires IsGrid(g) && At(g, k) != NSTERROR && At(g, k + 1) != NSTERROR && At(g, k + 2) != NSTERROR
    ensures var a, b, c := One(g, k), One(g, k + 1), One(g, k + 2);
            && GridRecords(g, [a, b]) && GridRecords(g, [a, c]) && GridRecords(g, [a, b, c])
            && GridRecords(g, [a, c, b])
            && TimeSorted(g, [a, b]) && TimeSorted(g, [a, c]) && TimeSorted(g, [a, b, c])
            && |Group(g, [a, b])| == 1 && |Group(g, [a, c])| == 2 && |Group(g, [a, b, c])| == 1
            && multiset([a, c, b]) == multiset([a, b, c])
  {
    OneOnGrid(g, k);
    OneOnGrid(g, k + 1);
    OneOnGrid(g, k + 2);
    var a, b, c := One(g, k), One(g, k + 1), One(g, k + 2);
    hide OnGrid, Cell, Past, One, Group;
    OnesGroups(g, a, b, c);
  }

  lemma OnesGroups(g: Grid, a: Record, b: Record, c: Record)
    requires Cell(g, b) == Past(g, a) && Cell(g, c) == Past(g, b) > Past(g, a)
    ensures |Group(g, [a, b])| == 1 && |Group(g, [a, c])| == 2 && |Group(g, [a, b, c])| == 1
  {
    hide Cell, Past;
    GroupTwo(g, a, b);
    GroupTwo(g, a, c);
    GroupTwo(g, b, c);
    assert [a, b, c][1..] == [b, c];
  }

  lemma GroupTwo(g: Grid, a: Record, b: Record)
    ensures Group(g, [a, b]) == if Cell(g, b) == Past(g, a) then [[a, b]] else [[a], [b]]
  {
    assert [a, b][1..] == [b] && [b][1..] == [] && Group(g, []) == [];
    assert Group(g, [b]) == [[b]];
    assert [a] + [b] == [a, b] && [[b]][1..] == [];
  }

  /** Records that end as runs end as so many. */
  lemma RunsCount(g: Grid, rs: seq<Record>, sorted: seq<Record>, o: Opts)
    requires rs != [] && EndsAsRuns(g, rs, o) && TimeSorted(g, sorted) && multiset(sorted) == multiset(rs)
    ensures |Run(Additions(rs, o)).value.segs| == |Group(g, sorted)|
  {
    hide Canon, TimeSorted, Group, Run, Additions;
    var id := Run(Additions(rs, o));
    var cs :| Canon(g, cs) && AllNonEmpty(cs) && Held(cs) == multiset(rs) && id.value.segs == Segs(g, cs, o);
    FlattenSorted(g, cs);
    SortedUnique(g, sorted, Flatten(cs));
    GroupOfFlatten(g, cs);
  }

  /** A segment and a record of the grid's rate, by their times. */
  lemma FitsByTime(g: Grid, s: Seg, r: Record, o: Opts)
    requires IsGrid(g) && s.hz == r.hz == g.hz && r.period == g.p && o.ratetol <= 0.0
    ensures FitsAfter(s, r, o) == Within(r.start - s.end - g.p, Tolerance(g, o))
    ensures FitsBefore(s, r, o) == Within(s.start - End(r) - g.p, Tolerance(g, o))
    ensures TimeTol(r, o) == Tolerance(g, o)
  {
    SameRate(g.hz, o);
  }

  /** One segment that a record continues. */
  lemma AddsToEnd(id: IdState, r: Record, o: Opts)
    requires |id.segs| == 1 && End(r) != NSTERROR && FitsAfter(id.segs[0], r, o) && Covers(id.segs[0])
             && !Clashes(id.segs[0], r)
    ensures var a := AddRecord(id, r, o); a.Added? && a.id.segs == [Extended(id.segs[0], r, o)]
  {
    var x := Extended(id.segs[0], r, o);
    assert id.segs[0 := x] == [x];
    hide FitsAfter, Covers;
  }

  /** One sample segment or more on the grid. */
  ghost predicate Of(g: Grid, s: Seg, start: int, end: int, n: nat) {
    s.start == start && s.end == end && s.samplecnt == n > 0 && s.hz == g.hz && s.sampletype == g.sampletype
  }

  lemma StartsWith(g: Grid, k: int, o: Opts)
    requires IsGrid(g) && At(g, k) != NSTERROR
    ensures var id := Run(Additions([One(g, k)], o));
            && id.Some? && |id.value.segs| == 1 && Of(g, id.value.segs[0], At(g, k), At(g, k), 1)
            && id.value.earliest == At(g, k) == id.value.latest
  {
    RunOfAdditions([One(g, k)], o, 0);
    OneTimes(g, k);
    hide Run, At;
  }

  /** The next record fits the one segment there is. */
  lemma ThenJoins(g: Grid, rs: seq<Record>, k: int, o: Opts, start: int, end: int, n: nat)
    requires IsGrid(g) && rs != [] && At(g, k) != NSTERROR && o.ratetol <= 0.0
    requires var id := Run(Additions(rs, o)); id.Some? && |id.value.segs| == 1 && Of(g, id.value.segs[0], start, end, n)
    requires Within(At(g, k) - end - g.p, Tolerance(g, o))
    ensures var id := Run(Additions(rs + [One(g, k)], o));
            && id.Some? && |id.value.segs| == 1 && Of(g, id.value.segs[0], start, At(g, k), n + 1)
  {
    var qs, r := rs + [One(g, k)], One(g, k);
    assert qs[..|rs|] == rs;
    RunOfAdditions(qs, o, |rs|);
    OneTimes(g, k);
    var id := Run(Additions(rs, o)).value;
    FitsByTime(g, id.segs[0], r, o);
    hide Run, Additions, FitsAfter, AddRecord, At, Within, Tolerance;
    AddsToEnd(id, r, o);
  }

  /** In time order the three are joined. */
  lemma InOrder(g: Grid, k: int, o: Opts)
    requires IsGrid(g) && At(g, k) != NSTERROR && At(g, k + 1) != NSTERROR && At(g, k + 2) != NSTERROR
    requires o.ratetol <= 0.0 && Tolerance(g, o) >= 0
    ensures var id := Run(Additions([One(g, k), One(g, k + 1), One(g, k + 2)], o));
            id.Some? && |id.value.segs| == 1 && Of(g, id.value.segs[0], At(g, k), At(g, k + 2), 3)
  {
    var a, b, c := One(g, k), One(g, k + 1), One(g, k + 2);
    OneTimes(g, k);
    OneTimes(g, k + 1);
    hide At, Run, Additions, One, Tolerance;
    StartsWith(g, k, o);
    ThenJoins(g, [a], k + 1, o, At(g, k), At(g, k), 1);
    assert [a] + [b] == [a, b];
    ThenJoins(g, [a, b], k + 2, o, At(g, k), At(g, k + 1), 2);
    assert [a, b] + [c] == [a, b, c];
  }

  // ---------------------------------------------------------------- a tolerance of a period or more

  /** A record is joined over a missing sample. */
  lemma JoinsOverGap(g: Grid, k: int, o: Opts)
    requires IsGrid(g) && At(g, k) != NSTERROR && At(g, k + 2) != NSTERROR && o.ratetol <= 0.0 && Tolerance(g, o) >= g.p
    ensures var id := Run(Additions([One(g, k), One(g, k + 2)], o));
            id.Some? && |id.value.segs| == 1 && Of(g, id.value.segs[0], At(g, k), At(g, k + 2), 2)
  {
    OneTimes(g, k);
    hide At, Run, Additions, One, Tolerance;
    StartsWith(g, k, o);
    ThenJoins(g, [One(g, k)], k + 2, o, At(g, k), At(g, k), 1);
    assert [One(g, k)] + [One(g, k + 2)] == [One(g, k), One(g, k + 2)];
  }

  /** A record within the span of the one segment there is makes it end or start early, or gets a segment of
      its own. */
  lemma AddedWithin(id: IdState, r: Record, o: Opts)
    requires |id.segs| == 1 && id.segs[0].start < r.start == End(r) < id.segs[0].end && Covers(id.segs[0])
    ensures var a := AddRecord(id, r, o);
            a.Added? && |a.id.segs| == 1 ==>
              a.id.segs[0].end != id.segs[0].end || a.id.segs[0].start != id.segs[0].start
  {
    var s := id.segs[0];
    var x, y := Extended(s, r, o), Prepended(s, r, o);
    assert id.segs[0 := x] == [x] && id.segs[0 := y] == [y];
    SearchFinds(id.segs, 0, r, o, Found(None, None, None));
    hide Search, FitsAfter, FitsBefore, Covers;
  }

  /** Out of order they do not end as they do in order. */
  lemma OutOfOrderOverGap(g: Grid, k: int, o: Opts)
    requires IsGrid(g) && At(g, k) != NSTERROR && At(g, k + 1) != NSTERROR && At(g, k + 2) != NSTERROR
    requires o.ratetol <= 0.0 && Tolerance(g, o) >= g.p
    ensures !SameEnd([One(g, k), One(g, k + 1), One(g, k + 2)], [One(g, k), One(g, k + 2), One(g, k + 1)], o)
  {
    var a, b, c := One(g, k), One(g, k + 1), One(g, k + 2);
    OneTimes(g, k);
    OneTimes(g, k + 1);
    hide At, Additions, One, Tolerance, AddRecord, Run;
    InOrder(g, k, o);
    JoinsOverGap(g, k, o);
    assert [a, c, b][..2] == [a, c];
    RunOfAdditions([a, c, b], o, 2);
    AddedWithin(Run(Additions([a, c], o)).value, b, o);
  }

  // ---------------------------------------------------------------- without autohealing

  /** Two records with a gap between them get a segment each. */
  lemma KeepsGap(g: Grid, k: int, o: Opts)
    requires IsGrid(g) && At(g, k) != NSTERROR && At(g, k + 2) != NSTERROR && o.ratetol <= 0.0
             && 0 <= Tolerance(g, o) < g.p
    ensures var id := Run(Additions([One(g, k), One(g, k + 2)], o));
            && id.Some? && |id.value.segs| == 2 && id.value.earliest == At(g, k) && id.value.latest == At(g, k + 2)
            && Of(g, id.value.segs[0], At(g, k), At(g, k), 1) && Of(g, id.value.segs[1], At(g, k + 2), At(g, k + 2), 1)
  {
    var a, c := One(g, k), One(g, k + 2);
    OneTimes(g, k);
    OneTimes(g, k + 2);
    StartsWith(g, k, o);
    assert [a, c][..1] == [a];
    RunOfAdditions([a, c], o, 1);
    var id := Run(Additions([a], o)).value;
    FitsByTime(g, id.segs[0], c, o);
    hide At, Additions, Run, Tolerance, FitsAfter, FitsBefore, End;
    assert AddRecord(id, c, o) == AddNew(id, 1, c, o);
    assert InsertAt(id.segs, 1, NewSeg(c, o)) == [id.segs[0], NewSeg(c, o)];
  }

  /** The record that closes the gap is joined to the first of them only. */
  lemma LeavesGap(id: IdState, r: Record, o: Opts)
    requires |id.segs| == 2 && !o.autoheal && End(r) != NSTERROR && Covers(id.segs[0])
    requires FitsAfter(id.segs[0], r, o) && !FitsBefore(id.segs[0], r, o) && !FitsAfter(id.segs[1], r, o)
    requires r.start - r.period - TimeTol(r, o) <= id.latest && End(r) + r.period + TimeTol(r, o) >= id.earliest
    ensures var a := AddRecord(id, r, o); a.Added? ==> |a.id.segs| == 2
  {
    hide FitsAfter, FitsBefore, End, TimeTol, Covers, Resort;
    var f := FullSearch(id.segs, r, o);
    assert f.before == Some(0) && f.after == None;
  }

  lemma OutOfOrderUnhealed(g: Grid, k: int, o: Opts)
    requires IsGrid(g) && At(g, k) != NSTERROR && At(g, k + 1) != NSTERROR && At(g, k + 2) != NSTERROR
    requires o.ratetol <= 0.0 && 0 <= Tolerance(g, o) < g.p && !o.autoheal
    ensures var id := Run(Additions([One(g, k), One(g, k + 2), One(g, k + 1)], o));
            id.Some? ==> |id.value.segs| == 2
  {
    var a, b, c := One(g, k), One(g, k + 1), One(g, k + 2);
    OneTimes(g, k);
    OneTimes(g, k + 1);
    KeepsGap(g, k, o);
    assert [a, c, b][..2] == [a, c];
    RunOfAdditions([a, c, b], o, 2);
    var id := Run(Additions([a, c], o)).value;
    FitsByTime(g, id.segs[0], b, o);
    FitsByTime(g, id.segs[1], b, o);
    hide At, Additions, One, Tolerance, AddRecord, Run, FitsAfter, FitsBefore, End, TimeTol;
    LeavesGap(id, b, o);
  }

  // ---------------------------------------------------------------- exactly

  lemma UsualIs(g: Grid, o: Opts)
    requires IsGrid(g)
    ensures Usual(g, o) <==> o.autoheal && o.ratetol <= 0.0 && 0 <= Tolerance(g, o) < g.p
  {}

  lemma UsualEndsAsRuns(g: Grid, rs: seq<Record>, o: Opts)
    requires rs != [] && GridRecords(g, rs) && Usual(g, o)
    ensures EndsAsRuns(g, rs, o)
  {
    hide Run, GridRecords, Usual, Canon, Additions;
    var cs := RunOnGrid(g, rs, o);
    assert Holds(Run(Additions(rs, o)).value, g, cs, o);
    assert Canon(g, cs) && AllNonEmpty(cs) && Held(cs) == multiset(rs);
  }

  /** Records that do not end so. */
  lemma NotAsRuns(g: Grid, o: Opts) returns (rs: seq<Record>)
    requires IsGrid(g) && !Usual(g, o)
    ensures rs != [] && GridRecords(g, rs) && !EndsAsRuns(g, rs, o)
  {
    UsualIs(g, o);
    var k := FreeCells(g);
    var a, b, c := One(g, k), One(g, k + 1), One(g, k + 2);
    OnesAreRecords(g, k);
    hide At, One, GridRecords, TimeSorted, Group, Run, EndsAsRuns, Tolerance, Usual, AreSegs, Additions;
    if Lone(g, o) {
      rs := [a, b];
      LoneRun(g, rs, o);
      AreSegsGives(Run(Additions(rs, o)).value.segs, rs, o);
      if EndsAsRuns(g, rs, o) {
        RunsCount(g, rs, rs, o);
      }
    } else if Tolerance(g, o) >= g.p {
      rs := [a, c];
      JoinsOverGap(g, k, o);
      if EndsAsRuns(g, rs, o) {
        RunsCount(g, rs, rs, o);
      }
    } else {
      rs := [a, c, b];
      OutOfOrderUnhealed(g, k, o);
      if EndsAsRuns(g, rs, o) {
        RunsCount(g, rs, [a, b, c], o);
        RunIsSome(g, rs, o);
      }
    }
  }

  /** Disjoint records of one grid end as the maximal contiguous runs of the covered samples, whatever the records
      and their order, exactly with autohealing, the default rate tolerance, and a time tolerance that is not
      negative and below one sample period. */
  lemma RunsExactly(g: Grid, o: Opts)
    requires IsGrid(g)
    ensures AllEndAsRuns(g, o) <==> Usual(g, o)
  {
    UsualIs(g, o);
    if Usual(g, o) {
      hide *;
      forall rs: seq<Record> | rs != [] && GridRecords(g, rs) ensures EndsAsRuns(g, rs, o) {
        UsualEndsAsRuns(g, rs, o);
      }
      AllOf(g, o);
    } else {
      var rs := NotAsRuns(g, o);
    }
  }

  lemma RunIsSome(g: Grid, rs: seq<Record>, o: Opts)
    requires rs != [] && EndsAsRuns(g, rs, o)
    ensures Run(Additions(rs, o)).Some?
  {}

  lemma AllOf(g: Grid, o: Opts)
    requires forall rs: seq<Record> :: rs != [] && GridRecords(g, rs) ==> EndsAsRuns(g, rs, o)
    ensures AllEndAsRuns(g, o)
  {}

  /** The records that tell the two orders apart. */
  lemma OrderMatters(g: Grid, o: Opts) returns (rs: seq<Record>, qs: seq<Record>)
    requires IsGrid(g) && !Lone(g, o) && !Usual(g, o)
    ensures IsOrder(g, rs, qs) && !SameEnd(rs, qs, o)
  {
    UsualIs(g, o);
    var k := FreeCells(g);
    OnesAreRecords(g, k);
    hide At, One, GridRecords, TimeSorted, Group, Run, Tolerance, Usual;
    rs, qs := [One(g, k), One(g, k + 1), One(g, k + 2)], [One(g, k), One(g, k + 2), One(g, k + 1)];
    if Tolerance(g, o) >= g.p {
      OutOfOrderOverGap(g, k, o);
    } else {
      OutOfOrderUnhealed(g, k, o);
      InOrder(g, k, o);
    }
  }

  lemma OrderDoesNot(g: Grid, rs: seq<Record>, qs: seq<Record>, o: Opts)
    requires IsOrder(g, rs, qs) && (Lone(g, o) || Usual(g, o))
    ensures SameEnd(rs, qs, o)
  {
    hide GridRecords, Run, Usual, Lone, Additions;
    if Lone(g, o) {
      LoneOrderFree(g, rs, qs, o);
    } else {
      Confluence(g, rs, qs, o);
    }
  }

  /** The order of addition makes no difference exactly when nothing is ever joined (an explicit rate tolerance or
      a negative time tolerance), or when gaps are healed and the time tolerance is below one sample period. */
  lemma OrderFreeExactly(g: Grid, o: Opts)
    requires IsGrid(g)
    ensures OrderFree(g, o) <==> o.ratetol > 0.0 || Tolerance(g, o) < 0 || (o.autoheal && Tolerance(g, o) < g.p)
  {
    UsualIs(g, o);
    hide IsOrder, SameEnd, Usual, Tolerance;
    if Lone(g, o) || Usual(g, o) {
      forall rs, qs | IsOrder(g, rs, qs) ensures rs != [] && qs != [] && SameEnd(rs, qs, o) {
        OrdersSome(g, rs, qs);
        OrderDoesNot(g, rs, qs, o);
      }
    } else {
      var rs, qs := OrderMatters(g, o);
    }
  }

  lemma OrdersSome(g: Grid, rs: seq<Record>, qs: seq<Record>)
    requires IsOrder(g, rs, qs)
    ensures rs != [] && qs != []
  {}
}
