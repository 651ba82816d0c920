/** Record lists make no difference to the rest of a trace ID. */
module TraceUnlisted {
  import opened Options
  import opened Sequences
  import opened TraceRuns
  import opened TraceSpec

  /** A segment without its record list. */
  function Unlisted(s: Seg): Seg {
    s.(recs := [])
  }

  function UnlistedAll(segs: seq<Seg>): (t: seq<Seg>)
    ensures |t| == |segs| && forall i :: 0 <= i < |segs| ==> t[i] == Unlisted(segs[i])
  {
    seq(|segs|, i requires 0 <= i < |segs| => Unlisted(segs[i]))
  }

  function UnlistedId(id: IdState): (u: IdState)
    ensures |u.segs| == |id.segs|
  {
    id.(segs := UnlistedAll(id.segs))
  }

  function UnlistedOutcome(a: Outcome): Outcome {
    a.(id := UnlistedId(a.id))
  }

  /** The same addition, keeping no record lists. */
  function NoLists(o: Opts): Opts {
    o.(keeprecs := false)
  }

  lemma UnlistedSegs(s: Seg, b: Seg, r: Record, o: Opts)
    ensures Unlisted(Extended(s, r, o)) == Extended(Unlisted(s), r, NoLists(o))
    ensures Unlisted(Prepended(s, r, o)) == Prepended(Unlisted(s), r, NoLists(o))
    ensures Unlisted(NewSeg(r, o)) == NewSeg(r, NoLists(o)) && Unlisted(Merged(s, b))
            == Merged(Unlisted(s), Unlisted(b))
    ensures Clashes(Unlisted(s), r) == Clashes(s, r) && SegsClash(Unlisted(s), Unlisted(b)) == SegsClash(s, b)
  {}

  lemma UnlistedFits(s: Seg, r: Record, o: Opts)
    ensures FitsAfter(Unlisted(s), r, NoLists(o)) == FitsAfter(s, r, o)
            && FitsBefore(Unlisted(s), r, NoLists(o)) == FitsBefore(s, r, o)
    ensures Covers(Unlisted(s)) == Covers(s) && SameSpan(Unlisted(s), r) == SameSpan(s, r)
    ensures Unlisted(s).start == s.start && TimeTol(r, NoLists(o)) == TimeTol(r, o)
  {}

  lemma {:induction false} UnlistedSearch(segs: seq<Seg>, i: nat, r: Record, o: Opts, f: Found)
    requires i <= |segs|
    ensures Search(UnlistedAll(segs), i, r, NoLists(o), f) == Search(segs, i, r, o, f)
    decreases |segs| - i
  {
    hide FitsAfter, FitsBefore, Covers, SameSpan, Unlisted;
    if i < |segs| {
      UnlistedFits(segs[i], r, o);
      UnlistedSearch(segs, i + 1, r, o, f);
      UnlistedSearch(segs, i + 1, r, o, Look(segs, i, r, o, f));
    }
  }

  lemma UnlistedSwap(segs: seq<Seg>, i: nat)
    requires i + 1 < |segs|
    ensures Swap(UnlistedAll(segs), i) == UnlistedAll(Swap(segs, i))
    ensures Precedes(UnlistedAll(segs)[i + 1], UnlistedAll(segs)[i]) == Precedes(segs[i + 1], segs[i])
  {}

  lemma {:induction false} UnlistedSortDown(segs: seq<Seg>, i: nat)
    requires i < |segs|
    ensures SortDown(UnlistedAll(segs), i) == (UnlistedAll(SortDown(segs, i).0), SortDown(segs, i).1)
    decreases |segs| - i
  {
    hide *;
    SortDownStep(segs, i);
    SortDownStep(UnlistedAll(segs), i);
    if i + 1 < |segs| {
      UnlistedSwap(segs, i);
      if Precedes(segs[i + 1], segs[i]) {
        UnlistedSortDown(Swap(segs, i), i + 1);
      }
    }
  }

  lemma {:induction false} UnlistedSortUp(segs: seq<Seg>, i: nat)
    requires i < |segs|
    ensures SortUp(UnlistedAll(segs), i) == (UnlistedAll(SortUp(segs, i).0), SortUp(segs, i).1)
    decreases i
  {
    hide *;
    SortUpStep(segs, i);
    SortUpStep(UnlistedAll(segs), i);
    if i > 0 {
      UnlistedSwap(segs, i - 1);
      if Precedes(segs[i], segs[i - 1]) {
        UnlistedSortUp(Swap(segs, i - 1), i - 1);
      }
    }
  }

  lemma UnlistedFinish(id: IdState, segs: seq<Seg>, at: nat, r: Record)
    requires at < |segs|
    ensures Finish(UnlistedId(id), UnlistedAll(segs), at, r) == UnlistedOutcome(Finish(id, segs, at, r))
  {
    hide SortDown, SortUp;
    UnlistedSortDown(segs, at);
    UnlistedSortUp(SortDown(segs, at).0, SortDown(segs, at).1);
  }

  lemma UnlistedLists(segs: seq<Seg>, i: nat, x: Seg)
    ensures i < |segs| ==> UnlistedAll(segs[i := x]) == UnlistedAll(segs)[i := Unlisted(x)]
    ensures i < |segs| ==> UnlistedAll(RemoveAt(segs, i)) == RemoveAt(UnlistedAll(segs), i)
    ensures i <= |segs| ==> UnlistedAll(InsertAt(segs, i, x)) == InsertAt(UnlistedAll(segs), i, Unlisted(x))
  {
    hide Unlisted;
  }

  lemma UnlistedAddTo(id: IdState, i: nat, r: Record, o: Opts)
    requires i < |id.segs|
    ensures AddToEnd(UnlistedId(id), i, r, NoLists(o)) == UnlistedOutcome(AddToEnd(id, i, r, o))
    ensures AddToStart(UnlistedId(id), i, r, NoLists(o)) == UnlistedOutcome(AddToStart(id, i, r, o))
  {
    var s, x, y := id.segs[i], Extended(id.segs[i], r, o), Prepended(id.segs[i], r, o);
    UnlistedSegs(s, s, r, o);
    UnlistedLists(id.segs, i, x);
    UnlistedLists(id.segs, i, y);
    UnlistedFinish(id, id.segs[i := x], i, r);
    UnlistedFinish(id, id.segs[i := y], i, r);
    hide Finish, Extended, Prepended, Unlisted, NoLists, UnlistedAll, Clashes;
  }

  lemma UnlistedAddNew(id: IdState, i: nat, r: Record, o: Opts)
    requires i <= |id.segs|
    ensures AddNew(UnlistedId(id), i, r, NoLists(o)) == UnlistedOutcome(AddNew(id, i, r, o))
  {
    UnlistedSegs(NewSeg(r, o), NewSeg(r, o), r, o);
    UnlistedLists(id.segs, i, NewSeg(r, o));
    UnlistedFinish(id, InsertAt(id.segs, i, NewSeg(r, o)), i, r);
    hide Finish, NewSeg, Unlisted, NoLists, UnlistedAll, InsertAt;
  }

  lemma UnlistedHeal(id: IdState, b: nat, a: nat, r: Record, o: Opts)
    requires b < |id.segs| && a < |id.segs| && b != a
    ensures Heal(UnlistedId(id), b, a, r, NoLists(o)) == UnlistedOutcome(Heal(id, b, a, r, o))
  {
    hide *;
    var x := Extended(id.segs[b], r, o);
    var y := Merged(x, id.segs[a]);
    var now, at := RemoveAt(id.segs[b := y], a), if a < b then b - 1 else b;
    HealIs(id, b, a, r, o);
    HealIs(UnlistedId(id), b, a, r, NoLists(o));
    UnlistedSegs(id.segs[b], id.segs[a], r, o);
    UnlistedSegs(x, id.segs[a], r, o);
    UnlistedAt(id, a);
    UnlistedAt(id, b);
    UnlistedLists(id.segs, b, x);
    UnlistedLists(id.segs, b, y);
    UnlistedLists(id.segs[b := y], a, y);
    UnlistedFinish(id, now, at, r);
    UnlistedRefused(id, id.segs[b := x]);
  }

  lemma UnlistedAt(id: IdState, i: nat)
    requires i < |id.segs|
    ensures UnlistedId(id).segs == UnlistedAll(id.segs) && UnlistedId(id).segs[i] == Unlisted(id.segs[i])
  {
    hide Unlisted;
  }

  lemma UnlistedRefused(id: IdState, segs: seq<Seg>)
    ensures UnlistedOutcome(Refused(id)) == Refused(UnlistedId(id))
    ensures UnlistedOutcome(Refused(id.(segs := segs))) == Refused(UnlistedId(id).(segs := UnlistedAll(segs)))
  {
    hide UnlistedAll;
  }

  lemma UnlistedBySearch(id: IdState, r: Record, o: Opts)
    ensures AddBySearch(UnlistedId(id), r, NoLists(o)) == UnlistedOutcome(AddBySearch(id, r, o))
  {
    UnlistedSearch(id.segs, 0, r, o, Found(None, None, None));
    var f := FullSearch(id.segs, r, o);
    assert f == FullSearch(UnlistedId(id).segs, r, NoLists(o));
    hide Heal, AddToEnd, AddToStart, AddNew, FullSearch, UnlistedOutcome, UnlistedId;
    if f.before.Some? {
      UnlistedAddTo(id, f.before.value, r, o);
      if f.after.Some? && f.before != f.after {
        UnlistedHeal(id, f.before.value, f.after.value, r, o);
      }
    } else if f.after.Some? {
      UnlistedAddTo(id, f.after.value, r, o);
    } else {
      UnlistedAddNew(id, if f.follow.Some? then f.follow.value + 1 else 0, r, o);
    }
  }

  lemma UnlistedTests(id: IdState, r: Record, o: Opts)
    requires id.segs != []
    ensures var n, t, u := |id.segs|, UnlistedId(id), NoLists(o);
            && t.earliest == id.earliest && t.latest == id.latest && TimeTol(r, u) == TimeTol(r, o)
            && FitsAfter(t.segs[n - 1], r, u) == FitsAfter(id.segs[n - 1], r, o)
            && Covers(t.segs[n - 1]) == Covers(id.segs[n - 1])
            && FitsBefore(t.segs[0], r, u) == FitsBefore(id.segs[0], r, o) && Covers(t.segs[0]) == Covers(id.segs[0])
  {
    UnlistedFits(id.segs[0], r, o);
    UnlistedFits(id.segs[|id.segs| - 1], r, o);
    hide FitsAfter, FitsBefore, Covers, Unlisted, TimeTol;
  }

  /** Whether record lists are kept makes no difference to anything else, whatever the outcome. */
  lemma UnlistedAdd(id: IdState, r: Record, o: Opts)
    requires id.segs != []
    ensures AddRecord(UnlistedId(id), r, NoLists(o)) == UnlistedOutcome(AddRecord(id, r, o))
  {
    hide *;
    UnlistedTests(id, r, o);
    UnlistedRefused(id, id.segs);
    Branches(id, r, o);
    Branches(UnlistedId(id), r, NoLists(o));
    UnlistedAddTo(id, 0, r, o);
    UnlistedAddTo(id, |id.segs| - 1, r, o);
    UnlistedAddNew(id, 0, r, o);
    UnlistedAddNew(id, |id.segs|, r, o);
    UnlistedBySearch(id, r, o);
  }

  lemma UnlistedFirst(r: Record, o: Opts)
    ensures FirstRecord(r, o).Some? == FirstRecord(r, NoLists(o)).Some?
    ensures FirstRecord(r, o).Some? ==> FirstRecord(r, NoLists(o)).value == UnlistedId(FirstRecord(r, o).value)
  {
    UnlistedSegs(NewSeg(r, o), NewSeg(r, o), r, o);
    assert UnlistedAll([NewSeg(r, o)]) == [Unlisted(NewSeg(r, o))];
    hide NewSeg, Unlisted, End;
  }
}
