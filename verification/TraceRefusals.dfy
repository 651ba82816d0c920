/** Runs that go on after a refused addition. A refusal leaves the ID as it was, but for one case: where a record
    closes the gap between two segments of different sample types, it has already been added to the earlier one
    when the merge fails, and neither the order nor the extent is brought up to date. */
module TraceRefusals {
  import opened Mseed
  import opened Options
  import opened Sequences
  import opened TraceContents
  import opened TraceRuns
  import opened TraceSpec

  // ---------------------------------------------------------------- one addition

  /** None of the tests before the search of the whole list applies. */
  predicate Searches(id: IdState, r: Record, o: Opts)
    requires id.segs != []
  {
    var first, last := id.segs[0], id.segs[|id.segs| - 1];
    && End(r) != NSTERROR
    && !(FitsAfter(last, r, o) && Covers(last)) && r.start - r.period - TimeTol(r, o) <= id.latest
    && End(r) + r.period + TimeTol(r, o) >= id.earliest && !(FitsBefore(first, r, o) && Covers(first))
  }

  /** The segment that the record is added to although the addition is refused, if there is one. */
  function HalfMerge(id: IdState, r: Record, o: Opts): (b: Option<nat>)
    requires id.segs != []
    ensures b.Some? ==> b.value < |id.segs|
  {
    var f := FullSearch(id.segs, r, o);
    if Searches(id, r, o) && o.autoheal && f.before.Some? && f.after.Some? && f.before != f.after
       && !Clashes(id.segs[f.before.value], r)
       && SegsClash(Extended(id.segs[f.before.value], r, o), id.segs[f.after.value])
    then f.before else None
  }

  /** A refusal leaves the ID as it was, or with the record in one segment and nothing else changed. */
  lemma RefusalLeaves(id: IdState, r: Record, o: Opts)
    requires id.segs != []
    ensures var a, b := AddRecord(id, r, o), HalfMerge(id, r, o);
            && (b.Some? ==> a == Refused(id.(segs := id.segs[b.value := Extended(id.segs[b.value], r, o)])))
            && (b.None? && a.Refused? ==> a.id == id)
  {
    hide FitsAfter, FitsBefore, Covers, FullSearch, Finish, Extended, Prepended, NewSeg, Merged, Clashes, SegsClash,
         Unusable, End, TimeTol;
  }

  /** The changed segment at b belongs before its predecessor or after its successor. */
  predicate Passes(segs: seq<Seg>, b: nat, x: Seg)
    requires b < |segs|
  {
    (b > 0 && Precedes(x, segs[b - 1])) || (b + 1 < |segs| && Precedes(segs[b + 1], x))
  }

  /** The record is left in a segment that with it is out of order. */
  predicate Misplaces(id: IdState, r: Record, o: Opts)
    requires id.segs != []
  {
    var b := HalfMerge(id, r, o);
    b.Some? && Passes(id.segs, b.value, Extended(id.segs[b.value], r, o))
  }

  /** Changing one segment of a sorted list leaves it sorted exactly when the segment passes no neighbour. */
  lemma ChangedOrder(segs: seq<Seg>, b: nat, x: Seg)
    requires b < |segs| && Sorted(segs)
    ensures Sorted(segs[b := x]) <==> !Passes(segs, b, x)
  {
    if Passes(segs, b, x) {
      var now := segs[b := x];
      if b > 0 && Precedes(x, segs[b - 1]) {
        assert Precedes(now[b], now[b - 1]);
      } else {
        assert Precedes(now[b + 1], now[b]);
      }
    } else {
      SortedRemove(segs, b);
      InsertSorted(RemoveAt(segs, b), b, x);
      assert InsertAt(RemoveAt(segs, b), b, x) == segs[b := x];
    }
  }

  /** An addition, refused or not, leaves a sorted list sorted exactly when it does not misplace a segment. */
  lemma AddOrderExactly(id: IdState, r: Record, o: Opts)
    requires id.segs != [] && Sorted(id.segs)
    ensures Sorted(AddRecord(id, r, o).id.segs) <==> !Misplaces(id, r, o)
  {
    RefusalLeaves(id, r, o);
    AddKeepsOrder(id, r, o);
    hide Sorted, AddRecord, HalfMerge, Extended;
    var b := HalfMerge(id, r, o);
    if b.Some? {
      ChangedOrder(id.segs, b.value, Extended(id.segs[b.value], r, o));
    }
  }

  // ---------------------------------------------------------------- whole runs

  /** The ID after a run of additions whose refusals are ignored, or None when there is none yet. */
  function RunOn(adds: seq<Addition>): (s: Option<IdState>)
    ensures s.Some? ==> s.value.segs != []
  {
    if adds == [] then None
    else
      var before, a := RunOn(adds[..|adds| - 1]), adds[|adds| - 1];
      if before.None? then FirstRecord(a.r, a.o) else Some(AddRecord(before.value, a.r, a.o).id)
  }

  /** The addition returns a segment. */
  predicate Accepts(before: Option<IdState>, a: Addition)
    requires before.Some? ==> before.value.segs != []
  {
    if before.None? then FirstRecord(a.r, a.o).Some? else AddRecord(before.value, a.r, a.o).Added?
  }

  /** The addition puts the record into a segment, whether or not it returns one. */
  predicate Keeps(before: Option<IdState>, a: Addition)
    requires before.Some? ==> before.value.segs != []
  {
    Accepts(before, a) || (before.Some? && HalfMerge(before.value, a.r, a.o).Some?)
  }

  /** The additions of a run that returned a segment. */
  function Accepted(adds: seq<Addition>): seq<Addition> {
    if adds == [] then []
    else
      var front, a := adds[..|adds| - 1], adds[|adds| - 1];
      Accepted(front) + if Accepts(RunOn(front), a) then [a] else []
  }

  /** The additions of a run whose records are in segments. */
  function Kept(adds: seq<Addition>): seq<Addition> {
    if adds == [] then []
    else
      var front, a := adds[..|adds| - 1], adds[|adds| - 1];
      Kept(front) + if Keeps(RunOn(front), a) then [a] else []
  }

  /** A run without refusals. */
  lemma {:induction false} RunIsRunOn(adds: seq<Addition>)
    requires adds != [] && Run(adds).Some?
    ensures RunOn(adds) == Run(adds) && Accepted(adds) == adds && Kept(adds) == adds
  {
    hide AddRecord, FirstRecord, HalfMerge;
    var front, a := adds[..|adds| - 1], adds[|adds| - 1];
    assert adds == front + [a];
    if |adds| == 1 {
      assert front == [] && RunOn(front) == None;
    } else {
      RunIsRunOn(front);
    }
  }

  ghost predicate SortedAfter(adds: seq<Addition>, n: nat)
    requires n <= |adds|
  {
    RunOn(adds[..n]).Some? ==> Sorted(RunOn(adds[..n]).value.segs)
  }

  predicate MisplacesAt(adds: seq<Addition>, n: nat)
    requires n < |adds|
  {
    RunOn(adds[..n]).Some? && Misplaces(RunOn(adds[..n]).value, adds[n].r, adds[n].o)
  }

  /** The list stays sorted, and does not when the addition misplaces a segment. */
  lemma OrderStep(adds: seq<Addition>, n: nat)
    requires n < |adds| && SortedAfter(adds, n)
    ensures SortedAfter(adds, n + 1) <==> !MisplacesAt(adds, n)
  {
    hide AddRecord, Misplaces;
    var front, a := adds[..n], adds[n];
    assert adds[..n + 1][..n] == front && adds[..n + 1][n] == a;
    if RunOn(front).Some? {
      AddOrderExactly(RunOn(front).value, a.r, a.o);
    }
  }

  /** Over any run of additions, refused ones included, the segments are sorted throughout exactly when no
      addition misplaces one. */
  lemma {:induction false} RunOrderExactly(adds: seq<Addition>, n: nat)
    requires n <= |adds|
    ensures (forall m :: 0 <= m <= n ==> SortedAfter(adds, m)) <==> (forall m :: 0 <= m < n ==> !MisplacesAt(adds, m))
  {
    hide *;
    if n == 0 {
      NothingToSort(adds);
    } else {
      RunOrderExactly(adds, n - 1);
      if SortedAfter(adds, n - 1) {
        OrderStep(adds, n - 1);
      }
    }
  }

  lemma NothingToSort(adds: seq<Addition>)
    ensures SortedAfter(adds, 0)
  {
    assert adds[..0] == [];
  }

  lemma ExtentStep(id: IdState, r: Record, o: Opts)
    requires id.segs != []
    ensures var a := AddRecord(id, r, o);
            && a.id.earliest == (if a.Added? then Min(id.earliest, r.start) else id.earliest)
            && a.id.latest == (if a.Added? then Max(id.latest, End(r)) else id.latest)
  {
    hide FitsAfter, FitsBefore, FullSearch, Resort, Covers;
  }

  lemma IsMinMore(m: int, k: int, adds: seq<Addition>, a: Addition)
    requires IsMin(m, adds) && IsMax(k, adds)
    ensures IsMin(Min(m, a.r.start), adds + [a]) && IsMax(Max(k, End(a.r)), adds + [a])
  {
    hide End;
    var now := adds + [a];
    assert now[|adds|] == a && forall i :: 0 <= i < |adds| ==> now[i] == adds[i];
  }

  /** Over any run, the extent is that of the records whose additions were accepted. A half-merged record is not
      among them. */
  lemma {:induction false} RunExtent(adds: seq<Addition>)
    requires RunOn(adds).Some?
    ensures var id := RunOn(adds).value;
            IsMin(id.earliest, Accepted(adds)) && IsMax(id.latest, Accepted(adds))
  {
    hide AddRecord, FirstRecord, IsMin, IsMax, End;
    var front, a := adds[..|adds| - 1], adds[|adds| - 1];
    if RunOn(front).None? {
      NoneAccepted(front);
      FirstExtent(a);
      assert [] + [a] == [a];
    } else {
      RunExtent(front);
      var id := RunOn(front).value;
      ExtentStep(id, a.r, a.o);
      IsMinMore(id.earliest, id.latest, Accepted(front), a);
      assert Accepted(front) + [] == Accepted(front);
    }
  }

  lemma FirstExtent(a: Addition)
    requires FirstRecord(a.r, a.o).Some?
    ensures var id := FirstRecord(a.r, a.o).value; IsMin(id.earliest, [a]) && IsMax(id.latest, [a])
  {
    assert [a][0] == a;
    hide End;
  }

  /** The version is between that of the first record and the largest, and the first's or below 128. */
  ghost predicate VersionOf(version: nat, acc: seq<Addition>) {
    && acc != [] && version <= LargestVersion(acc) && acc[0].r.version <= version
    && (version == acc[0].r.version || version < 128)
    && forall i :: 0 <= i < |acc| && acc[i].r.version < 128 ==> acc[i].r.version <= version
  }

  lemma VersionFirst(a: Addition)
    requires FirstRecord(a.r, a.o).Some? && a.r.version < 256
    ensures VersionOf(FirstRecord(a.r, a.o).value.version, [a])
  {}

  lemma VersionNext(version: nat, acc: seq<Addition>, a: Addition)
    requires VersionOf(version, acc) && a.r.version < 256
    ensures VersionOf(if AsInt8(a.r.version) > version then AsInt8(a.r.version) else version, acc + [a])
  {
    var now := acc + [a];
    assert now[..|acc|] == acc && now[|acc|] == a && forall i :: 0 <= i < |acc| ==> now[i] == acc[i];
  }

  /** What the version of an ID is: versions above 127 after the first are stored in an int8_t and never raise it,
      and those of refused records, half-merged ones included, do not count. */
  lemma {:induction false} RunVersion(adds: seq<Addition>)
    requires RunOn(adds).Some? && forall i :: 0 <= i < |adds| ==> adds[i].r.version < 256
    ensures VersionOf(RunOn(adds).value.version, Accepted(adds))
  {
    assert adds != [];
    hide AddRecord, FirstRecord, VersionOf;
    var front, a := adds[..|adds| - 1], adds[|adds| - 1];
    if RunOn(front).None? {
      NoneAccepted(front);
      VersionFirst(a);
      assert [] + [a] == [a];
    } else {
      RunVersion(front);
      VersionStep(RunOn(front).value, a.r, a.o);
      VersionNext(RunOn(front).value.version, Accepted(front), a);
      assert Accepted(front) + [] == Accepted(front);
    }
  }

  /** So it is the largest version accepted exactly when that is below 128 or the first accepted record had it. */
  lemma VersionIsLargest(adds: seq<Addition>)
    requires RunOn(adds).Some? && forall i :: 0 <= i < |adds| ==> adds[i].r.version < 256
    ensures var acc := Accepted(adds);
            && acc != []
            && (RunOn(adds).value.version == LargestVersion(acc)
                <==> LargestVersion(acc) < 128 || acc[0].r.version == LargestVersion(acc))
  {
    RunVersion(adds);
    var i := LargestIsOne(Accepted(adds));
    hide RunOn, Accepted, LargestVersion;
  }

  lemma {:induction false} NoneAccepted(adds: seq<Addition>)
    requires RunOn(adds).None?
    ensures Accepted(adds) == [] && Kept(adds) == []
  {
    hide AddRecord, FirstRecord;
    if adds != [] {
      NoneAccepted(adds[..|adds| - 1]);
    }
  }

  /** Whatever the outcome, the buffers stay accounted for, and the record is in one more list if it was kept. */
  lemma AccountStep(id: IdState, r: Record, o: Opts)
    requires id.segs != [] && AllAccount(id.segs) && Loaded(r) && o.keeprecs
    ensures var a := AddRecord(id, r, o);
            && AllAccount(a.id.segs)
            && Tally(a.id.segs)
               == Tally(id.segs) + if a.Added? || HalfMerge(id, r, o).Some? then multiset{Bare(r)} else multiset{}
  {
    RefusalLeaves(id, r, o);
    AddKeepsAccount(id, r, o);
    HalfMergeFits(id, r, o);
    hide AddRecord, HalfMerge, Accounts, Tally, Extended, Loaded, Clashes, Bare;
    var b := HalfMerge(id, r, o);
    if b.Some? {
      var s, x := id.segs[b.value], Extended(id.segs[b.value], r, o);
      AccountsExtended(s, r, o);
      RemoveUpdated(id.segs, b.value, x);
      TallyRemove(id.segs, b.value);
      TallyRemove(id.segs[b.value := x], b.value);
    }
  }

  lemma HalfMergeFits(id: IdState, r: Record, o: Opts)
    requires id.segs != []
    ensures var b := HalfMerge(id, r, o); b.Some? ==> !Clashes(id.segs[b.value], r)
  {
    hide FullSearch, Clashes, SegsClash, Searches;
  }

  lemma BaresMore(adds: seq<Addition>, a: Addition)
    ensures Bares(adds + [a]) == Bares(adds) + multiset{Bare(a.r)} && adds + [] == adds
  {
    assert (adds + [a])[..|adds|] == adds;
  }

  /** What the last addition of a run does. */
  lemma LastOf(adds: seq<Addition>)
    requires adds != [] && RunOn(adds).Some? && LoadedRun(adds)
    ensures var front, a := adds[..|adds| - 1], adds[|adds| - 1];
            && LoadedRun(front) && Loaded(a.r) && a.o.keeprecs
            && (RunOn(front).None? ==> FirstRecord(a.r, a.o) == RunOn(adds) && Bares(Kept(adds)) == multiset{Bare(a.r)})
            && (RunOn(front).Some? ==>
                  var id := RunOn(front).value;
                  && RunOn(adds) == Some(AddRecord(id, a.r, a.o).id)
                  && Bares(Kept(adds)) == Bares(Kept(front))
                     + if AddRecord(id, a.r, a.o).Added? || HalfMerge(id, a.r, a.o).Some? then multiset{Bare(a.r)}
                       else multiset{})
  {
    var front, a := adds[..|adds| - 1], adds[|adds| - 1];
    LoadedParts(adds);
    BaresMore(Kept(front), a);
    NoBares();
    hide AddRecord, FirstRecord, HalfMerge, LoadedRun, Loaded, Bare, Bares;
    if RunOn(front).None? {
      NoneAccepted(front);
    }
  }

  /** Over any run of unpacked records, refused ones included, every buffer is the concatenation of its record
      list, and the lists hold exactly the records that were kept, each once: those accepted, and those left
      behind by a merge that failed although their addition returned NULL. */
  lemma {:induction false} RunAccount(adds: seq<Addition>)
    requires RunOn(adds).Some? && LoadedRun(adds)
    ensures AllAccount(RunOn(adds).value.segs) && Tally(RunOn(adds).value.segs) == Bares(Kept(adds))
  {
    assert adds != [];
    hide *;
    LastOf(adds);
    var front, a := adds[..|adds| - 1], adds[|adds| - 1];
    if RunOn(front).None? {
      RunStartsAccount(a.r, a.o);
    } else {
      RunAccount(front);
      AccountStep(RunOn(front).value, a.r, a.o);
    }
  }

  lemma NoBares()
    ensures Bares([]) == multiset{}
  {}

  lemma LoadedParts(adds: seq<Addition>)
    requires adds != [] && LoadedRun(adds)
    ensures var n := |adds| - 1; LoadedRun(adds[..n]) && Loaded(adds[n].r) && adds[n].o.keeprecs
  {
    hide Loaded;
  }

  // ---------------------------------------------------------------- a run that ends out of order

  /** n samples of one type. */
  function Sampled(start: int, n: nat, hz: real, sampletype: char): Record {
    var xs := seq(n, _ => 0);
    Record(start, 10, hz, n, 0, sampletype, xs, sampletype, xs)
  }

  lemma FirstAdded(a: Record, o: Opts)
    requires a == Sampled(0, 2, 2.0, 'i')
    ensures RunOn([]) == None && FirstRecord(a, o) == Some(IdState([NewSeg(a, o)], 0, 10, 0))
  {}

  lemma SecondAdded(s: Seg, b: Record, o: Opts)
    requires b == Sampled(0, 1, 1.0, 'i') && o == Opts(true, true, None, 0.0) && s == NewSeg(Sampled(0, 2, 2.0, 'i'), o)
    ensures AddRecord(IdState([s], 0, 10, 0), b, o) == Added(IdState([s, NewSeg(b, o)], 0, 10, 0), 1)
  {
    var t := NewSeg(b, o);
    assert !FitsAfter(s, b, o) && !FitsBefore(s, b, o) && s.end == 10 && t.end == 0;
    var f := Found(None, None, None);
    assert Covers(s) && !SameSpan(s, b) && Look([s], 0, b, o, f) == f;
    assert Search([s], 1, b, o, f) == f == Search([s], 0, b, o, f) == FullSearch([s], b, o);
    assert InsertAt([s], 0, t) == [t, s] && Swap([t, s], 0) == [s, t];
    assert Precedes(s, t) && !Precedes(t, s);
    assert SortDown([s, t], 1) == ([s, t], 1) == SortDown([t, s], 0) && SortUp([s, t], 1) == ([s, t], 1);
  }

  lemma ThirdAdded(s: Seg, t: Seg, c: Record, o: Opts)
    requires o == Opts(true, true, None, 0.0) && s == NewSeg(Sampled(0, 2, 2.0, 'i'), o)
    requires t == NewSeg(Sampled(0, 1, 1.0, 'i'), o) && c == Sampled(30, 1, 1.0, 'f')
    ensures AddRecord(IdState([s, t], 0, 10, 0), c, o) == Added(IdState([s, t, NewSeg(c, o)], 0, 30, 0), 2)
  {
    var u := NewSeg(c, o);
    assert !FitsAfter(t, c, o) && End(c) == 30;
    assert InsertAt([s, t], 2, u) == [s, t, u];
  }

  lemma FourthRefused(s: Seg, t: Seg, u: Seg, r: Record, o: Opts)
    requires o == Opts(true, true, None, 0.0) && s == NewSeg(Sampled(0, 2, 2.0, 'i'), o)
    requires t == NewSeg(Sampled(0, 1, 1.0, 'i'), o) && u == NewSeg(Sampled(30, 1, 1.0, 'f'), o)
    requires r == Sampled(10, 2, 1.0, 'i')
    ensures var a := AddRecord(IdState([s, t, u], 0, 30, 0), r, o);
            && a == Refused(IdState([s, Extended(t, r, o), u], 0, 30, 0))
            && Sorted([s, t, u]) && !Sorted(a.id.segs) && Bare(r) in a.id.segs[1].recs
  {
    var x := Extended(t, r, o);
    var id := IdState([s, t, u], 0, 30, 0);
    assert End(r) == 20 && s.end == 10 && t.end == 0 && x.end == 20;
    assert !FitsAfter(s, r, o) && !FitsBefore(s, r, o) && FitsAfter(t, r, o) && !FitsBefore(t, r, o);
    assert !FitsAfter(u, r, o) && FitsBefore(u, r, o);
    assert Covers(s) && Covers(t) && Covers(u);
    var f, g, h := Found(None, None, Some(0)), Found(Some(1), None, Some(1)), Found(Some(1), Some(2), Some(1));
    assert Search(id.segs, 2, r, o, g) == h;
    assert Search(id.segs, 1, r, o, f) == h;
    assert FullSearch(id.segs, r, o) == Search(id.segs, 0, r, o, Found(None, None, None)) == h;
    assert id.segs[1 := x] == [s, x, u];
    assert Precedes([s, x, u][1], [s, x, u][0]);
    assert !Precedes(t, s) && !Precedes(u, s) && !Precedes(u, t);
    assert x.recs[1] == Bare(r);
  }

  lemma RunOnMore(adds: seq<Addition>, a: Addition)
    ensures RunOn(adds + [a]) == if RunOn(adds).None? then FirstRecord(a.r, a.o)
                                 else Some(AddRecord(RunOn(adds).value, a.r, a.o).id)
  {
    hide AddRecord, FirstRecord;
    assert (adds + [a])[..|adds|] == adds;
  }

  /** A record from 10 to 20 closes the gap between a segment at 0 and one at 30. As the types of these differ, it
      is refused; but it is in the list of the first of them, which now ends later than a segment of another rate
      that starts at the same time and stands before it. */
  lemma RefusedOutOfOrder()
    ensures var o := Opts(true, true, None, 0.0);
            var r := Sampled(10, 2, 1.0, 'i');
            var adds := [Addition(Sampled(0, 2, 2.0, 'i'), o), Addition(Sampled(0, 1, 1.0, 'i'), o),
                         Addition(Sampled(30, 1, 1.0, 'f'), o)];
            && RunOn(adds).Some? && RunOn(adds + [Addition(r, o)]).Some?
            && AddRecord(RunOn(adds).value, r, o).Refused?
            && var segs := RunOn(adds + [Addition(r, o)]).value.segs;
               Sorted(RunOn(adds).value.segs) && !Sorted(segs) && |segs| == 3 && Bare(r) in segs[1].recs
  {
    var o := Opts(true, true, None, 0.0);
    var a, b, c := Sampled(0, 2, 2.0, 'i'), Sampled(0, 1, 1.0, 'i'), Sampled(30, 1, 1.0, 'f');
    var s, t, u, r := NewSeg(a, o), NewSeg(b, o), NewSeg(c, o), Sampled(10, 2, 1.0, 'i');
    var x, y, z := Addition(a, o), Addition(b, o), Addition(c, o);
    hide *;
    FirstAdded(a, o);
    RunOnMore([], x);
    RunOnMore([x], y);
    RunOnMore([x, y], z);
    RunOnMore([x, y, z], Addition(r, o));
    assert [] + [x] == [x] && [x] + [y] == [x, y] && [x, y] + [z] == [x, y, z];
    SecondAdded(s, b, o);
    ThirdAdded(s, t, c, o);
    FourthRefused(s, t, u, r, o);
  }
}
