/** What a trace ID is when records are added without their samples, and what unpacking its record lists later gives. */
module TraceTwoPass {
  import opened Options
  import opened Sequences
  import opened TraceSpec
  import opened TraceContents

  /** A record that was parsed without unpacking its samples. */
  function Unload(r: Record): Record {
    r.(samples := [], sampletype := '\0')
  }

  function UnloadAll(rs: seq<Record>): (u: seq<Record>)
    ensures |u| == |rs|
  {
    seq(|rs|, i requires 0 <= i < |rs| => Unload(rs[i]))
  }

  /** A segment without its samples. */
  function Strip(s: Seg): Seg {
    s.(sampletype := '\0', data := [], recs := UnloadAll(s.recs))
  }

  function StripAll(segs: seq<Seg>): (t: seq<Seg>)
    ensures |t| == |segs| && forall i :: 0 <= i < |segs| ==> t[i] == Strip(segs[i])
  {
    seq(|segs|, i requires 0 <= i < |segs| => Strip(segs[i]))
  }

  function StripId(id: IdState): IdState {
    id.(segs := StripAll(id.segs))
  }

  lemma StripExtended(s: Seg, r: Record, o: Opts)
    ensures Strip(Extended(s, r, o)) == Extended(Strip(s), Unload(r), o)
    ensures Strip(Prepended(s, r, o)) == Prepended(Strip(s), Unload(r), o)
    ensures Strip(NewSeg(r, o)) == NewSeg(Unload(r), o)
  {
    var b := [Bare(r)];
    assert UnloadAll(s.recs + b) == UnloadAll(s.recs) + [Unload(r)];
    assert UnloadAll(b + s.recs) == [Unload(r)] + UnloadAll(s.recs);
    assert UnloadAll(b) == [Unload(r)] && UnloadAll([]) == [];
  }

  lemma StripMerged(a: Seg, b: Seg)
    ensures Strip(Merged(a, b)) == Merged(Strip(a), Strip(b))
  {
    assert UnloadAll(a.recs + b.recs) == UnloadAll(a.recs) + UnloadAll(b.recs);
  }

  lemma StripFits(s: Seg, r: Record, o: Opts)
    ensures FitsAfter(Strip(s), Unload(r), o) == FitsAfter(s, r, o)
            && FitsBefore(Strip(s), Unload(r), o) == FitsBefore(s, r, o)
    ensures Covers(Strip(s)) == Covers(s) && SameSpan(Strip(s), Unload(r)) == SameSpan(s, r)
  {}

  /** The search looks at times, rates and counts only. */
  lemma {:induction false} StripSearch(segs: seq<Seg>, i: nat, r: Record, o: Opts, f: Found)
    requires i <= |segs|
    ensures Search(StripAll(segs), i, Unload(r), o, f) == Search(segs, i, r, o, f)
    decreases |segs| - i
  {
    hide FitsAfter, FitsBefore, Covers, SameSpan, Unload;
    if i < |segs| {
      StripFits(segs[i], r, o);
      StripStart(segs[i], r);
      StripSearch(segs, i + 1, r, o, f);
      StripSearch(segs, i + 1, r, o, Look(segs, i, r, o, f));
    }
  }

  lemma StripStart(s: Seg, r: Record)
    ensures Strip(s).start == s.start && Unload(r).start == r.start
  {}

  lemma {:induction false} StripSortDown(segs: seq<Seg>, i: nat)
    requires i < |segs|
    ensures SortDown(StripAll(segs), i) == (StripAll(SortDown(segs, i).0), SortDown(segs, i).1)
    decreases |segs| - i
  {
    if i + 1 < |segs| && Precedes(segs[i + 1], segs[i]) {
      assert Swap(StripAll(segs), i) == StripAll(Swap(segs, i));
      StripSortDown(Swap(segs, i), i + 1);
    }
  }

  lemma {:induction false} StripSortUp(segs: seq<Seg>, i: nat)
    requires i < |segs|
    ensures SortUp(StripAll(segs), i) == (StripAll(SortUp(segs, i).0), SortUp(segs, i).1)
    decreases i
  {
    if i > 0 && Precedes(segs[i], segs[i - 1]) {
      assert Swap(StripAll(segs), i - 1) == StripAll(Swap(segs, i - 1));
      StripSortUp(Swap(segs, i - 1), i - 1);
    }
  }

  function StripOutcome(a: Outcome): Outcome {
    a.(id := StripId(a.id))
  }

  lemma StripFinish(id: IdState, segs: seq<Seg>, at: nat, r: Record)
    requires at < |segs|
    ensures Finish(StripId(id), StripAll(segs), at, Unload(r)) == StripOutcome(Finish(id, segs, at, r))
  {
    hide SortDown, SortUp;
    StripSortDown(segs, at);
    StripSortUp(SortDown(segs, at).0, SortDown(segs, at).1);
  }

  /** The outcome on stripped data, when the addition is not refused. */
  ghost predicate Commutes(a: Outcome, b: Outcome) {
    a.Added? ==> b == StripOutcome(a)
  }

  lemma StripAddTo(id: IdState, i: nat, r: Record, o: Opts)
    requires i < |id.segs|
    ensures Commutes(AddToEnd(id, i, r, o), AddToEnd(StripId(id), i, Unload(r), o))
    ensures Commutes(AddToStart(id, i, r, o), AddToStart(StripId(id), i, Unload(r), o))
  {
    StripExtended(id.segs[i], r, o);
    hide Finish, Extended, Prepended, Strip, StripOutcome;
    var x, y := Extended(id.segs[i], r, o), Prepended(id.segs[i], r, o);
    assert StripAll(id.segs[i := x]) == StripAll(id.segs)[i := Strip(x)];
    assert StripAll(id.segs[i := y]) == StripAll(id.segs)[i := Strip(y)];
    StripFinish(id, id.segs[i := x], i, r);
    StripFinish(id, id.segs[i := y], i, r);
  }

  lemma StripAddNew(id: IdState, i: nat, r: Record, o: Opts)
    requires i <= |id.segs|
    ensures Commutes(AddNew(id, i, r, o), AddNew(StripId(id), i, Unload(r), o))
  {
    StripExtended(NewSeg(r, o), r, o);
    hide Finish, NewSeg, Strip, StripOutcome;
    assert StripAll(InsertAt(id.segs, i, NewSeg(r, o))) == InsertAt(StripAll(id.segs), i, Strip(NewSeg(r, o)));
    StripFinish(id, InsertAt(id.segs, i, NewSeg(r, o)), i, r);
  }

  lemma StripRemove(segs: seq<Seg>, a: nat)
    requires a < |segs|
    ensures StripAll(RemoveAt(segs, a)) == RemoveAt(StripAll(segs), a)
  {
    hide Strip;
  }

  lemma StripUpdate(segs: seq<Seg>, i: nat, x: Seg)
    requires i < |segs|
    ensures StripAll(segs[i := x]) == StripAll(segs)[i := Strip(x)]
  {
    hide Strip;
  }

  lemma StripCloseGap(segs: seq<Seg>, b: nat, a: nat, r: Record, o: Opts)
    requires b < |segs| && a < |segs| && b != a
    requires CloseGap(segs, b, a, r, o).0
    ensures CloseGap(StripAll(segs), b, a, Unload(r), o) == (true, StripAll(CloseGap(segs, b, a, r, o).1))
  {
    var x := Extended(segs[b], r, o);
    StripExtended(segs[b], r, o);
    StripMerged(x, segs[a]);
    assert !SegsClash(Strip(x), Strip(segs[a])) && !Clashes(Strip(segs[b]), Unload(r));
    hide Extended, Merged, Strip, StripAll, Clashes, SegsClash, Unload;
    StripUpdate(segs, b, x);
    StripUpdate(segs[b := x], b, Merged(x, segs[a]));
  }

  lemma StripHeal(id: IdState, b: nat, a: nat, r: Record, o: Opts)
    requires b < |id.segs| && a < |id.segs| && b != a
    ensures Commutes(Heal(id, b, a, r, o), Heal(StripId(id), b, a, Unload(r), o))
  {
    if CloseGap(id.segs, b, a, r, o).0 {
      StripCloseGap(id.segs, b, a, r, o);
      hide Finish, CloseGap, StripAll, RemoveAt, StripOutcome;
      var segs := CloseGap(id.segs, b, a, r, o).1;
      StripRemove(segs, a);
      StripFinish(id, RemoveAt(segs, a), if a < b then b - 1 else b, r);
    }
  }

  lemma StripBySearch(id: IdState, r: Record, o: Opts)
    ensures Commutes(AddBySearch(id, r, o), AddBySearch(StripId(id), Unload(r), o))
  {
    StripSearch(id.segs, 0, r, o, Found(None, None, None));
    var f := FullSearch(id.segs, r, o);
    assert f == FullSearch(StripId(id).segs, Unload(r), o);
    hide Heal, AddToEnd, AddToStart, AddNew, FullSearch, Unload, StripOutcome;
    if f.before.Some? {
      StripAddTo(id, f.before.value, r, o);
      if f.after.Some? && f.before != f.after {
        StripHeal(id, f.before.value, f.after.value, r, o);
      }
    } else if f.after.Some? {
      StripAddTo(id, f.after.value, r, o);
    } else {
      StripAddNew(id, if f.follow.Some? then f.follow.value + 1 else 0, r, o);
    }
  }

  /** The tests that choose a branch have the same outcomes. */
  lemma StripTests(id: IdState, r: Record, o: Opts)
    requires id.segs != []
    ensures var n, u, t := |id.segs|, Unload(r), StripId(id);
            && |t.segs| == n && End(u) == End(r) && u.start == r.start && u.period == r.period
            && TimeTol(u, o) == TimeTol(r, o)
            && t.earliest == id.earliest && t.latest == id.latest
            && FitsAfter(t.segs[n - 1], u, o) == FitsAfter(id.segs[n - 1], r, o)
            && Covers(t.segs[n - 1]) == Covers(id.segs[n - 1])
            && FitsBefore(t.segs[0], u, o) == FitsBefore(id.segs[0], r, o) && Covers(t.segs[0]) == Covers(id.segs[0])
            && Commutes(Refused(id), Refused(t))
  {
    StripFits(id.segs[0], r, o);
    StripFits(id.segs[|id.segs| - 1], r, o);
    hide FitsAfter, FitsBefore, Covers, Strip;
  }

  lemma StripAdd(id: IdState, r: Record, o: Opts)
    requires id.segs != []
    ensures Commutes(AddRecord(id, r, o), AddRecord(StripId(id), Unload(r), o))
  {
    hide FitsAfter, FitsBefore, Covers, AddToEnd, AddToStart, AddNew, AddBySearch, End, TimeTol, StripId, Unload,
         Commutes;
    StripTests(id, r, o);
    StripAddTo(id, 0, r, o);
    StripAddTo(id, |id.segs| - 1, r, o);
    StripAddNew(id, 0, r, o);
    StripAddNew(id, |id.segs|, r, o);
    StripBySearch(id, r, o);
  }

  function UnloadRun(adds: seq<Addition>): (u: seq<Addition>)
    ensures |u| == |adds|
  {
    seq(|adds|, i requires 0 <= i < |adds| => adds[i].(r := Unload(adds[i].r)))
  }

  /** Without unpacking, records that are all accepted give the same segments, lists and extents, only without
      samples. */
  lemma {:induction false} StripRun(adds: seq<Addition>)
    requires adds != [] && Run(adds).Some?
    ensures Run(UnloadRun(adds)) == Some(StripId(Run(adds).value))
  {
    hide AddRecord, StripId;
    var n, a := |adds| - 1, adds[|adds| - 1];
    var u := UnloadRun(adds);
    assert u[..n] == UnloadRun(adds[..n]);
    if n == 0 {
      StripFirst(a.r, a.o);
    } else {
      StripRun(adds[..n]);
      StripAdd(Run(adds[..n]).value, a.r, a.o);
    }
  }

  lemma StripFirst(r: Record, o: Opts)
    requires FirstRecord(r, o).Some?
    ensures FirstRecord(Unload(r), o) == Some(StripId(FirstRecord(r, o).value))
  {
    StripExtended(NewSeg(r, o), r, o);
    assert StripAll([NewSeg(r, o)]) == [Strip(NewSeg(r, o))];
  }

  // ---------------------------------------------------------------- unpacking a record list

  /** The sample types that an encoding can decode to. */
  predicate DecodedType(c: char) {
    c == 't' || c == 'i' || c == 'f' || c == 'd'
  }

  /** A record list can be decoded into one buffer: its first record gives the type, and every record with
      samples has that type. */
  predicate Unpackable(rs: seq<Record>) {
    rs != [] && DecodedType(rs[0].paytype) && forall i :: 0 <= i < |rs| && rs[i].samplecnt > 0 ==>
      rs[i].paytype == rs[0].paytype
  }

  /** What decoding the list gives: records that declare no samples are skipped. */
  function Unpacked(rs: seq<Record>): seq<Sample> {
    if rs == [] then [] else (if rs[0].samplecnt == 0 then [] else rs[0].payload) + Unpacked(rs[1..])
  }

  lemma {:induction false} UnpackedSnoc(rs: seq<Record>, r: Record)
    ensures Unpacked(rs + [r]) == Unpacked(rs) + (if r.samplecnt == 0 then [] else r.payload)
  {
    var x := if r.samplecnt == 0 then [] else r.payload;
    if rs == [] {
      assert [r][1..] == [] && x + [] == x;
    } else {
      assert (rs + [r])[1..] == rs[1..] + [r];
      UnpackedSnoc(rs[1..], r);
    }
  }

  ghost predicate PayloadsCounted(rs: seq<Record>) {
    forall i :: 0 <= i < |rs| ==> |rs[i].payload| == rs[i].samplecnt
  }

  lemma {:induction false} UnpackedIsPayloads(rs: seq<Record>)
    requires PayloadsCounted(rs)
    ensures Unpacked(UnloadAll(rs)) == Payloads(rs)
  {
    if rs != [] {
      assert UnloadAll(rs)[1..] == UnloadAll(rs[1..]);
      assert forall i :: 0 <= i < |rs| - 1 ==> rs[1..][i] == rs[i + 1];
      UnpackedIsPayloads(rs[1..]);
      assert rs[0].samplecnt == 0 ==> rs[0].payload == [];
    }
  }

  lemma {:induction false} SomeSamples(rs: seq<Record>) returns (j: nat)
    requires Count(rs) > 0
    ensures j < |rs| && rs[j].samplecnt > 0
  {
    if rs[0].samplecnt > 0 {
      j := 0;
    } else {
      j := SomeSamples(rs[1..]);
      j := j + 1;
    }
  }

  lemma {:induction false} NoSamples(rs: seq<Record>)
    requires Count(rs) == 0
    ensures forall i :: 0 <= i < |rs| ==> rs[i].samplecnt == 0
  {
    if rs != [] {
      NoSamples(rs[1..]);
      assert forall i :: 1 <= i < |rs| ==> rs[i] == rs[1..][i - 1];
    }
  }
}
