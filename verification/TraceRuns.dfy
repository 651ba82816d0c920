/** What every run of additions keeps, whatever the records: overlapping, header-only, out of order. */
module TraceRuns {
  import opened Mseed
  import opened Options
  import opened Sequences
  import opened TraceSpec

  // ---------------------------------------------------------------- re-sorting one segment

  /** One segment inserted into a sorted list where its neighbours allow it leaves the list sorted. */
  lemma InsertSorted(rest: seq<Seg>, p: nat, x: Seg)
    requires Sorted(rest) && p <= |rest|
    requires p > 0 ==> !Precedes(x, rest[p - 1])
    requires p < |rest| ==> !Precedes(rest[p], x)
    ensures Sorted(InsertAt(rest, p, x))
  {
    var s := InsertAt(rest, p, x);
    forall i, j | 0 <= i < j < |s| ensures !Precedes(s[j], s[i]) {
      assert p > 0 && i < p ==> !Precedes(rest[p - 1], rest[i]);
      assert p < |rest| && p < j ==> !Precedes(rest[j - 1], rest[p]);
    }
  }

  lemma SwapRemoves(segs: seq<Seg>, i: nat)
    requires i + 1 < |segs|
    ensures RemoveAt(Swap(segs, i), i + 1) == RemoveAt(segs, i) && Swap(segs, i)[i + 1] == segs[i]
    ensures RemoveAt(Swap(segs, i), i) == RemoveAt(segs, i + 1) && Swap(segs, i)[i] == segs[i + 1]
  {}

  lemma {:induction false} SortDownStops(segs: seq<Seg>, i: nat)
    requires i < |segs|
    ensures var (s, p) := SortDown(segs, i); var rest := RemoveAt(segs, i);
            && RemoveAt(s, p) == rest && s[p] == segs[i] && i <= p
            && (p < |rest| ==> !Precedes(rest[p], segs[i]))
            && (i < p ==> Precedes(rest[p - 1], segs[i]))
    decreases |segs| - i
  {
    hide *;
    RemoveFacts(segs, i);
    SortDownStep(segs, i);
    if i + 1 < |segs| && Precedes(segs[i + 1], segs[i]) {
      SwapRemoves(segs, i);
      SortDownStops(Swap(segs, i), i + 1);
    }
  }

  lemma SortDownStep(segs: seq<Seg>, i: nat)
    requires i < |segs|
    ensures SortDown(segs, i) == if i + 1 < |segs| && Precedes(segs[i + 1], segs[i]) then SortDown(Swap(segs, i), i + 1)
                                 else (segs, i)
  {
    hide Precedes, Swap;
  }

  lemma SortUpStep(segs: seq<Seg>, i: nat)
    requires i < |segs|
    ensures SortUp(segs, i) == if i > 0 && Precedes(segs[i], segs[i - 1]) then SortUp(Swap(segs, i - 1), i - 1)
                               else (segs, i)
  {
    hide Precedes, Swap;
  }

  lemma {:induction false} SortUpStops(segs: seq<Seg>, i: nat)
    requires i < |segs|
    ensures var (s, p) := SortUp(segs, i); var rest := RemoveAt(segs, i);
            && RemoveAt(s, p) == rest && s[p] == segs[i] && p <= i
            && (p > 0 ==> !Precedes(segs[i], rest[p - 1]))
            && (p < i ==> Precedes(segs[i], rest[p]))
    decreases i
  {
    hide *;
    RemoveFacts(segs, i);
    SortUpStep(segs, i);
    if i > 0 && Precedes(segs[i], segs[i - 1]) {
      SwapRemoves(segs, i - 1);
      SortUpStops(Swap(segs, i - 1), i - 1);
    }
  }

  lemma RemoveInserts<T>(s: seq<T>, p: nat)
    requires p < |s|
    ensures s == InsertAt(RemoveAt(s, p), p, s[p])
  {}

  /** The two loops move the changed segment and touch no other. */
  lemma ResortMoves(segs: seq<Seg>, i: nat)
    requires i < |segs|
    ensures var (s, p) := Resort(segs, i);
            p < |s| && |s| == |segs| && RemoveAt(s, p) == RemoveAt(segs, i) && s[p] == segs[i]
  {
    hide SortDown, SortUp;
    SortDownStops(segs, i);
    var (d, m) := SortDown(segs, i);
    SortUpStops(d, m);
  }

  lemma OneWay(a: Seg, b: Seg)
    ensures Precedes(a, b) ==> !Precedes(b, a)
  {}

  lemma ResortIs(segs: seq<Seg>, i: nat)
    requires i < |segs|
    ensures var (d, m) := SortDown(segs, i); Resort(segs, i) == SortUp(d, m)
  {
    hide SortDown, SortUp;
  }

  /** The two loops put the changed segment back into an otherwise sorted list and touch no other. */
  lemma ResortSorts(segs: seq<Seg>, i: nat)
    requires i < |segs| && Sorted(RemoveAt(segs, i))
    ensures var (s, p) := Resort(segs, i);
            Sorted(s) && RemoveAt(s, p) == RemoveAt(segs, i) && s[p] == segs[i]
  {
    hide *;
    ResortIs(segs, i);
    SortDownStops(segs, i);
    var (d, m) := SortDown(segs, i);
    SortUpStops(d, m);
    var (s, p) := SortUp(d, m);
    RemoveInserts(s, p);
    var rest := RemoveAt(segs, i);
    if p < m {
      OneWay(segs[i], rest[p]);
    }
    InsertSorted(rest, p, segs[i]);
  }

  /** A sorted list is left as it is. */
  lemma ResortKeeps(segs: seq<Seg>, i: nat)
    requires i < |segs| && Sorted(segs)
    ensures Resort(segs, i) == (segs, i)
  {}

  lemma SortedRemove(segs: seq<Seg>, i: nat)
    requires i < |segs| && Sorted(segs)
    ensures Sorted(RemoveAt(segs, i))
  {}

  // ---------------------------------------------------------------- one addition

  /** The search never reports as following a segment that the first tests already looked at: the first
      segment of the list does not follow the record, the last does not precede it. So healing never
      unlinks the first segment. */
  lemma HealIsInside(id: IdState, r: Record, o: Opts)
    requires id.segs != []
    requires !(FitsAfter(id.segs[|id.segs| - 1], r, o) && Covers(id.segs[|id.segs| - 1]))
    requires !(FitsBefore(id.segs[0], r, o) && Covers(id.segs[0]))
    ensures var f := FullSearch(id.segs, r, o);
            && (f.after.Some? ==> 0 < f.after.value && FitsBefore(id.segs[f.after.value], r, o))
            && (f.before.Some? ==> f.before.value < |id.segs| - 1 && FitsAfter(id.segs[f.before.value], r, o))
  {
    SearchFinds(id.segs, 0, r, o, Found(None, None, None));
  }

  ghost predicate Genuine(segs: seq<Seg>, r: Record, o: Opts, f: Found) {
    && InRange(f, |segs|)
    && (f.before.Some? ==> Covers(segs[f.before.value]) && FitsAfter(segs[f.before.value], r, o))
    && (f.after.Some? ==> Covers(segs[f.after.value]) && FitsBefore(segs[f.after.value], r, o))
  }

  /** What the search reports does cover time and does fit. */
  lemma {:induction false} SearchFinds(segs: seq<Seg>, i: nat, r: Record, o: Opts, f: Found)
    requires i <= |segs| && Genuine(segs, r, o, f)
    ensures Genuine(segs, r, o, Search(segs, i, r, o, f))
    decreases |segs| - i
  {
    hide FitsAfter, FitsBefore;
    if i < |segs| {
      SearchFinds(segs, i + 1, r, o, f);
      if Covers(segs[i]) {
        SearchFinds(segs, i + 1, r, o, Look(segs, i, r, o, f));
      }
    }
  }

  function Min(a: int, b: int): int { if a < b then a else b }
  function Max(a: int, b: int): int { if a > b then a else b }

  /** The end of an addition moves the changed segment, and takes the record into the extent. */
  lemma FinishMoves(id: IdState, segs: seq<Seg>, at: nat, r: Record)
    requires at < |segs|
    ensures var a := Finish(id, segs, at, r);
            && |a.id.segs| == |segs| && a.at < |segs| && a.id.segs[a.at] == segs[at]
            && RemoveAt(a.id.segs, a.at) == RemoveAt(segs, at)
            && a.id.earliest == Min(id.earliest, r.start) && a.id.latest == Max(id.latest, End(r))
  {
    ResortMoves(segs, at);
    hide Resort;
  }

  /** The segments before sorting: all but the changed one are an ordered part of the old list. */
  lemma FinishKeeps(id: IdState, segs: seq<Seg>, at: nat, r: Record)
    requires at < |segs| && Sorted(RemoveAt(segs, at))
    ensures var a := Finish(id, segs, at, r);
            && Sorted(a.id.segs) && |a.id.segs| == |segs| && a.at < |segs| && a.id.segs[a.at] == segs[at]
            && RemoveAt(a.id.segs, a.at) == RemoveAt(segs, at)
            && a.id.earliest == Min(id.earliest, r.start) && a.id.latest == Max(id.latest, End(r))
  {
    ResortSorts(segs, at);
    hide Sorted, Resort;
  }

  lemma RemoveUpdated(segs: seq<Seg>, i: nat, x: Seg)
    requires i < |segs|
    ensures RemoveAt(segs[i := x], i) == RemoveAt(segs, i)
  {}

  lemma RemoveInserted(segs: seq<Seg>, i: nat, x: Seg)
    requires i <= |segs|
    ensures InsertAt(segs, i, x)[i] == x && RemoveAt(InsertAt(segs, i, x), i) == segs
  {}

  lemma RemoveTwice(segs: seq<Seg>, b: nat, a: nat, x: Seg)
    requires a < |segs| && b < |segs| && a != b
    ensures var b' := if a < b then b - 1 else b; var a' := if a < b then a else a - 1;
            && RemoveAt(segs[b := x], a)[b'] == x
            && RemoveAt(RemoveAt(segs[b := x], a), b') == RemoveAt(RemoveAt(segs, b), a')
  {
    if a < b {
      var rest := segs[..a] + segs[a + 1..b] + segs[b + 1..];
      assert RemoveAt(RemoveAt(segs[b := x], a), b - 1) == rest;
      assert RemoveAt(RemoveAt(segs, b), a) == rest;
    } else {
      var rest := segs[..b] + segs[b + 1..a] + segs[a + 1..];
      assert RemoveAt(RemoveAt(segs[b := x], a), b) == rest;
      assert RemoveAt(RemoveAt(segs, b), a - 1) == rest;
    }
  }

  /** The IdState that an outcome leaves is sorted, and spans what it spanned and the record. */
  ghost predicate KeepsOrder(id: IdState, r: Record, a: Outcome) {
    a.Added? ==>
      && a.at < |a.id.segs| && Sorted(a.id.segs)
      && a.id.earliest == Min(id.earliest, r.start) && a.id.latest == Max(id.latest, End(r))
  }

  lemma AddToKeepsOrder(id: IdState, i: nat, r: Record, o: Opts)
    requires i < |id.segs| && Sorted(id.segs)
    ensures KeepsOrder(id, r, AddToEnd(id, i, r, o)) && KeepsOrder(id, r, AddToStart(id, i, r, o))
  {
    SortedRemove(id.segs, i);
    hide Sorted, Finish;
    var x, y := Extended(id.segs[i], r, o), Prepended(id.segs[i], r, o);
    RemoveUpdated(id.segs, i, x);
    RemoveUpdated(id.segs, i, y);
    FinishKeeps(id, id.segs[i := x], i, r);
    FinishKeeps(id, id.segs[i := y], i, r);
  }

  lemma AddNewKeepsOrder(id: IdState, i: nat, r: Record, o: Opts)
    requires i <= |id.segs| && Sorted(id.segs)
    ensures KeepsOrder(id, r, AddNew(id, i, r, o))
  {
    hide Sorted, Finish;
    RemoveInserted(id.segs, i, NewSeg(r, o));
    FinishKeeps(id, InsertAt(id.segs, i, NewSeg(r, o)), i, r);
  }

  lemma HealKeepsOrder(id: IdState, b: nat, a: nat, r: Record, o: Opts)
    requires a < |id.segs| && b < |id.segs| && a != b && Sorted(id.segs)
    ensures KeepsOrder(id, r, Heal(id, b, a, r, o))
  {
    SortedRemove(id.segs, b);
    SortedRemove(RemoveAt(id.segs, b), if a < b then a else a - 1);
    hide Sorted, Finish;
    var x := Extended(id.segs[b], r, o);
    var y := Merged(x, id.segs[a]);
    RemoveTwice(id.segs, b, a, y);
    assert id.segs[b := x][b := y] == id.segs[b := y];
    FinishKeeps(id, RemoveAt(id.segs[b := y], a), if a < b then b - 1 else b, r);
  }

  /** The branches of an addition. */
  lemma AddIsOneOf(id: IdState, r: Record, o: Opts)
    requires id.segs != []
    ensures var a, n := AddRecord(id, r, o), |id.segs|;
            || a == Refused(id) || a == AddToEnd(id, n - 1, r, o) || a == AddToStart(id, 0, r, o)
            || a == AddNew(id, n, r, o) || a == AddNew(id, 0, r, o) || a == AddBySearch(id, r, o)
  {
    hide FitsAfter, FitsBefore, Covers, AddToEnd, AddToStart, AddNew, AddBySearch, End, TimeTol;
  }

  /** The branches of an addition where the search says. */
  lemma BySearchIsOneOf(id: IdState, r: Record, o: Opts)
    ensures var a, f := AddBySearch(id, r, o), FullSearch(id.segs, r, o);
            || (f.before.Some? && f.after.Some? && f.before != f.after && InRange(f, |id.segs|)
                && a == Heal(id, f.before.value, f.after.value, r, o))
            || (f.before.Some? && InRange(f, |id.segs|) && a == AddToEnd(id, f.before.value, r, o))
            || (f.after.Some? && InRange(f, |id.segs|) && a == AddToStart(id, f.after.value, r, o))
            || (InRange(f, |id.segs|) && a == AddNew(id, if f.follow.Some? then f.follow.value + 1 else 0, r, o))
  {
    hide Heal, AddToEnd, AddToStart, AddNew, FullSearch;
  }

  /** The branches of an addition and their tests. */
  lemma Branches(id: IdState, r: Record, o: Opts)
    requires id.segs != []
    ensures var first, last, n := id.segs[0], id.segs[|id.segs| - 1], |id.segs|;
            AddRecord(id, r, o)
            == if End(r) == NSTERROR then Refused(id)
               else if FitsAfter(last, r, o) && Covers(last) then AddToEnd(id, n - 1, r, o)
               else if r.start - r.period - TimeTol(r, o) > id.latest then AddNew(id, n, r, o)
               else if End(r) + r.period + TimeTol(r, o) < id.earliest then AddNew(id, 0, r, o)
               else if FitsBefore(first, r, o) && Covers(first) then AddToStart(id, 0, r, o)
               else AddBySearch(id, r, o)
  {
    hide FitsAfter, FitsBefore, Covers, AddToEnd, AddToStart, AddNew, AddBySearch, End, TimeTol;
  }

  /** What closing a gap leaves. */
  lemma HealIs(id: IdState, b: nat, a: nat, r: Record, o: Opts)
    requires b < |id.segs| && a < |id.segs| && b != a
    ensures var x, y, at := Extended(id.segs[b], r, o), Merged(Extended(id.segs[b], r, o), id.segs[a]),
            if a < b then b - 1 else b;
            Heal(id, b, a, r, o) == if Clashes(id.segs[b], r) then Refused(id)
                                    else if SegsClash(x, id.segs[a]) then Refused(id.(segs := id.segs[b := x]))
                                    else Finish(id, RemoveAt(id.segs[b := y], a), at, r)
  {
    var x, y := Extended(id.segs[b], r, o), Merged(Extended(id.segs[b], r, o), id.segs[a]);
    assert id.segs[b := x][b := y] == id.segs[b := y];
    hide Finish, Extended, Merged, Clashes, SegsClash, RemoveAt;
  }

  lemma RefusedKeepsOrder(id: IdState, r: Record)
    ensures KeepsOrder(id, r, Refused(id))
  {}

  /** Adding a record keeps the list sorted and the extent exact. */
  lemma AddKeepsOrder(id: IdState, r: Record, o: Opts)
    requires id.segs != [] && Sorted(id.segs)
    ensures KeepsOrder(id, r, AddRecord(id, r, o))
  {
    hide *;
    AddIsOneOf(id, r, o);
    BySearchIsOneOf(id, r, o);
    RefusedKeepsOrder(id, r);
    forall i | 0 <= i < |id.segs|
      ensures KeepsOrder(id, r, AddToEnd(id, i, r, o)) && KeepsOrder(id, r, AddToStart(id, i, r, o))
    {
      AddToKeepsOrder(id, i, r, o);
    }
    forall i | 0 <= i <= |id.segs| ensures KeepsOrder(id, r, AddNew(id, i, r, o)) {
      AddNewKeepsOrder(id, i, r, o);
    }
    forall a, b | 0 <= a < |id.segs| && 0 <= b < |id.segs| && a != b ensures KeepsOrder(id, r, Heal(id, b, a, r, o)) {
      HealKeepsOrder(id, b, a, r, o);
    }
    RangeOf(FullSearch(id.segs, r, o), |id.segs|);
  }

  lemma RangeOf(f: Found, n: nat)
    requires InRange(f, n)
    ensures f.before.Some? ==> f.before.value < n
    ensures f.after.Some? ==> f.after.value < n
    ensures f.follow.Some? ==> f.follow.value < n
  {}

  // ---------------------------------------------------------------- whole runs

  ghost predicate IsMin(m: int, adds: seq<Addition>) {
    (exists i :: 0 <= i < |adds| && adds[i].r.start == m) && forall i :: 0 <= i < |adds| ==> m <= adds[i].r.start
  }

  ghost predicate IsMax(m: int, adds: seq<Addition>) {
    (exists i :: 0 <= i < |adds| && End(adds[i].r) == m) && forall i :: 0 <= i < |adds| ==> End(adds[i].r) <= m
  }

  lemma SortedIs(segs: seq<Seg>)
    requires Sorted(segs)
    ensures forall i, j :: 0 <= i < j < |segs| ==>
              segs[i].start < segs[j].start || (segs[i].start == segs[j].start && segs[i].end >= segs[j].end)
  {
    forall i, j | 0 <= i < j < |segs|
      ensures segs[i].start < segs[j].start || (segs[i].start == segs[j].start && segs[i].end >= segs[j].end)
    {
      assert !Precedes(segs[j], segs[i]);
    }
  }

  /** After any run of additions the segments are in the order of their starts, the longer first where these are equal,
      and the extent is that of the records. */
  lemma {:induction false} RunKeepsOrder(adds: seq<Addition>)
    requires adds != [] && Run(adds).Some?
    ensures var id := Run(adds).value;
            && Sorted(id.segs) && IsMin(id.earliest, adds) && IsMax(id.latest, adds)
            && forall i, j :: 0 <= i < j < |id.segs| ==>
                 id.segs[i].start < id.segs[j].start
                 || (id.segs[i].start == id.segs[j].start && id.segs[i].end >= id.segs[j].end)
  {
    hide AddRecord;
    var front, a := adds[..|adds| - 1], adds[|adds| - 1];
    if |adds| == 1 {
      assert adds[0] == a;
    } else {
      RunKeepsOrder(front);
      var id := Run(front).value;
      AddKeepsOrder(id, a.r, a.o);
      assert forall i :: 0 <= i < |front| ==> adds[i] == front[i];
    }
    SortedIs(Run(adds).value.segs);
  }

  // ---------------------------------------------------------------- the largest version

  /** What the version field of an ID must be: the largest of the versions added. */
  function LargestVersion(adds: seq<Addition>): nat
    requires adds != []
  {
    var v := adds[|adds| - 1].r.version;
    if |adds| == 1 then v
    else if v > LargestVersion(adds[..|adds| - 1]) then v else LargestVersion(adds[..|adds| - 1])
  }

  lemma VersionStep(id: IdState, r: Record, o: Opts)
    requires id.segs != []
    ensures var a := AddRecord(id, r, o);
            a.id.version == if a.Added? && AsInt8(r.version) > id.version then AsInt8(r.version) else id.version
  {
    hide FitsAfter, FitsBefore, FullSearch, Resort;
  }

  lemma {:induction false} LargestIsOne(adds: seq<Addition>) returns (i: nat)
    requires adds != []
    ensures i < |adds| && adds[i].r.version == LargestVersion(adds)
    ensures forall j :: 0 <= j < |adds| ==> adds[j].r.version <= LargestVersion(adds)
  {
    var front := adds[..|adds| - 1];
    if |adds| == 1 || adds[|adds| - 1].r.version > LargestVersion(front) {
      i := |adds| - 1;
      if |adds| > 1 {
        var k := LargestIsOne(front);
        assert forall j :: 0 <= j < |front| ==> adds[j] == front[j];
      }
    } else {
      i := LargestIsOne(front);
      assert forall j :: 0 <= j < |front| ==> adds[j] == front[j];
    }
  }

  // ---------------------------------------------------------------- an explicit rate tolerance

  /** The test with a given tolerance accepts exactly the rates that differ by more than it. So records whose rate
      is within the tolerance of that of every segment are never joined to one: each gets a segment of its own. */
  lemma CloseRatesNeverJoin(id: IdState, r: Record, o: Opts)
    requires id.segs != [] && o.ratetol > 0.0
    requires forall i :: 0 <= i < |id.segs| ==> Abs(r.hz - id.segs[i].hz) <= o.ratetol
    ensures var a := AddRecord(id, r, o);
            a.Added? ==> |a.id.segs| == |id.segs| + 1
  {
    SearchFinds(id.segs, 0, r, o, Found(None, None, None));
    hide Search, Resort;
  }
}
