/** Additions without autohealing: a record extends the run that it adjoins, the one on its left if there are two, and
    runs are never merged. */
module TraceUnhealed {
  import opened Mseed
  import opened Options
  import opened Sequences
  import opened TraceChoice
  import opened TraceContents
  import opened TraceGrid
  import opened TraceRuns
  import opened TraceSpec

  ghost predicate Unhealed(g: Grid, o: Opts) {
    !o.autoheal && Tolerable(g, o)
  }

  /** The ID holds the segments of these chains, which may adjoin, and spans them. */
  ghost predicate HoldsOrdered(id: IdState, g: Grid, cs: seq<seq<Record>>, o: Opts) {
    && cs != [] && Ordered(g, cs) && AllNonEmpty(cs) && id.segs == Segs(g, cs, o)
    && id.earliest == At(g, Lo(g, cs[0])) && id.latest == At(g, Hi(g, cs[|cs| - 1]) - 1)
  }

  lemma OrderedGives(id: IdState, g: Grid, cs: seq<seq<Record>>, o: Opts)
    requires HoldsOrdered(id, g, cs, o)
    ensures cs != [] && Ordered(g, cs) && AllNonEmpty(cs) && id.segs == Segs(g, cs, o)
    ensures id.earliest == id.segs[0].start && id.latest == id.segs[|cs| - 1].end
  {
    ChainTimes(g, cs[0], o);
    ChainTimes(g, cs[|cs| - 1], o);
    hide Chain, Lo, Hi, At, SegOf;
  }

  /** The chains with the record added to the one on its left, else to the one on its right, else on its own. */
  ghost function AddedTo(g: Grid, cs: seq<seq<Record>>, r: Record, j: nat): seq<seq<Record>>
    requires Place(g, cs, r, j)
  {
    if AdjoinsLeft(g, cs, r, j) then cs[j - 1 := cs[j - 1] + [r]]
    else if AdjoinsRight(g, cs, r, j) then cs[j := [r] + cs[j]]
    else InsertAt(cs, j, [r])
  }

  // ---------------------------------------------------------------- the search

  /** It stops at the first segment that the record adjoins. */
  lemma {:induction false} FirstFound(segs: seq<Seg>, r: Record, o: Opts, left: bool, right: bool, j: nat, i: nat,
                                      f: Found)
    requires AllAnswer(segs, r, o, left, right, j) && !o.autoheal && i <= |segs|
    requires (left ==> i <= j - 1) && (right ==> i <= j) && f.before == None && f.after == None
    requires f.follow == (if i == 0 || j == 0 then None else Some(if i < j then i - 1 else j - 1))
    ensures var h := Search(segs, i, r, o, f);
            && h.before == (if left then Some(j - 1) else None)
            && h.after == (if right && !left then Some(j) else None)
            && (!left && !right ==> h.follow == if j == 0 then None else Some(j - 1))
    decreases |segs| - i
  {
    hide FitsAfter, FitsBefore, Covers, SameSpan;
    if i < |segs| {
      assert Answers(segs[i], r, o, left && i == j - 1, right && i == j, i < j);
      var h := Look(segs, i, r, o, f);
      if !Enough(h, o) {
        FirstFound(segs, r, o, left, right, j, i + 1, h);
      }
    }
  }

  /** The branch that an addition takes. */
  ghost function Branch(id: IdState, r: Record, o: Opts, left: bool, right: bool, j: nat): Outcome
    requires j <= |id.segs| && (left ==> j > 0) && (right ==> j < |id.segs|)
  {
    if left then AddToEnd(id, j - 1, r, o) else if right then AddToStart(id, j, r, o) else AddNew(id, j, r, o)
  }

  lemma FoundBranch(id: IdState, r: Record, o: Opts, left: bool, right: bool, j: nat, f: Found)
    requires j <= |id.segs| && (left ==> j > 0) && (right ==> j < |id.segs|) && InRange(f, |id.segs|) && !o.autoheal
    requires f.before == (if left then Some(j - 1) else None) && f.after == (if right && !left then Some(j) else None)
    requires !left && !right ==> f.follow == if j == 0 then None else Some(j - 1)
    ensures AddWhere(id, f, r, o) == Branch(id, r, o, left, right, j)
  {
    hide AddToEnd, AddToStart, AddNew;
  }

  lemma BySearchIs(id: IdState, r: Record, o: Opts)
    ensures InRange(FullSearch(id.segs, r, o), |id.segs|)
    ensures FullSearch(id.segs, r, o) == Search(id.segs, 0, r, o, Found(None, None, None))
    ensures AddBySearch(id, r, o) == AddWhere(id, FullSearch(id.segs, r, o), r, o)
  {
    hide Search, AddWhere;
  }

  /** The outcomes of the first tests. */
  lemma FirstTests(id: IdState, g: Grid, cs: seq<seq<Record>>, r: Record, o: Opts, j: nat)
    requires HoldsOrdered(id, g, cs, o) && Place(g, cs, r, j) && OnGrid(g, r) && Unhealed(g, o)
    ensures var n, left, right := |cs|, AdjoinsLeft(g, cs, r, j), AdjoinsRight(g, cs, r, j);
            && j <= |id.segs| == n && n > 0 && End(r) != NSTERROR && (left ==> j > 0) && (right ==> j < n)
            && (FitsAfter(id.segs[n - 1], r, o) && Covers(id.segs[n - 1]) <==> left && j == n)
            && (FitsBefore(id.segs[0], r, o) && Covers(id.segs[0]) <==> right && j == 0)
            && (r.start - r.period - TimeTol(r, o) > id.latest ==> j == n && !left)
            && (End(r) + r.period + TimeTol(r, o) < id.earliest ==> j == 0 && !right)
            && AllAnswer(id.segs, r, o, left, right, j)
  {
    var n, left, right := |cs|, AdjoinsLeft(g, cs, r, j), AdjoinsRight(g, cs, r, j);
    OrderedGives(id, g, cs, o);
    GridAnswers(g, cs, r, o, j);
    GridOutside(g, cs, r, o, j);
    hide FitsAfter, FitsBefore, Covers, SameSpan, SegOf, Segs, Ordered, TimeTol, Place;
    assert Answers(id.segs[0], r, o, left && 0 == j - 1, right && 0 == j, 0 < j);
    assert Answers(id.segs[n - 1], r, o, left && n == j, right && n - 1 == j, n - 1 < j);
  }

  lemma TakesBranch(id: IdState, g: Grid, cs: seq<seq<Record>>, r: Record, o: Opts, j: nat)
    requires HoldsOrdered(id, g, cs, o) && Place(g, cs, r, j) && OnGrid(g, r) && Unhealed(g, o)
    ensures var left, right := AdjoinsLeft(g, cs, r, j), AdjoinsRight(g, cs, r, j);
            && j <= |id.segs| == |cs| && (left ==> j > 0) && (right ==> j < |id.segs|)
            && AddRecord(id, r, o) == Branch(id, r, o, left, right, j)
  {
    hide *;
    FirstTests(id, g, cs, r, o, j);
    UnhealedIs(g, o);
    var left, right := AdjoinsLeft(g, cs, r, j), AdjoinsRight(g, cs, r, j);
    FirstFound(id.segs, r, o, left, right, j, 0, Found(None, None, None));
    BySearchIs(id, r, o);
    FoundBranch(id, r, o, left, right, j, FullSearch(id.segs, r, o));
    Branches(id, r, o);
    BranchIs(id, r, o, left, right, j);
  }

  lemma UnhealedIs(g: Grid, o: Opts)
    requires Unhealed(g, o)
    ensures !o.autoheal && Tolerable(g, o)
  {}

  lemma BranchIs(id: IdState, r: Record, o: Opts, left: bool, right: bool, j: nat)
    requires j <= |id.segs| && (left ==> j > 0) && (right ==> j < |id.segs|)
    ensures Branch(id, r, o, left, right, j)
            == if left then AddToEnd(id, j - 1, r, o) else if right then AddToStart(id, j, r, o)
               else AddNew(id, j, r, o)
  {
    hide AddToEnd, AddToStart, AddNew;
  }

  // ---------------------------------------------------------------- the result

  lemma SegsUpdate(g: Grid, cs: seq<seq<Record>>, i: nat, c: seq<Record>, o: Opts)
    requires AllNonEmpty(cs) && c != []
    ensures i < |cs| ==> AllNonEmpty(cs[i := c]) && Segs(g, cs[i := c], o) == Segs(g, cs, o)[i := SegOf(g, c, o)]
    ensures i <= |cs| ==>
              && AllNonEmpty(InsertAt(cs, i, c))
              && Segs(g, InsertAt(cs, i, c), o) == InsertAt(Segs(g, cs, o), i, SegOf(g, c, o))
  {
    hide SegOf;
    if i <= |cs| {
      InsertFacts(cs, i, c);
      InsertFacts(Segs(g, cs, o), i, SegOf(g, c, o));
      hide InsertAt;
      assert AllNonEmpty(InsertAt(cs, i, c));
    }
  }

  /** All samples being of one type, nothing is refused. */
  lemma NoClash(g: Grid, cs: seq<seq<Record>>, r: Record, o: Opts)
    requires AllNonEmpty(cs) && OnGrid(g, r)
    ensures !Unusable(r) && forall i :: 0 <= i < |cs| ==> !Clashes(Segs(g, cs, o)[i], r)
  {
    hide Payloads, Count, End, Cell;
  }

  lemma BranchResult(id: IdState, g: Grid, cs: seq<seq<Record>>, r: Record, o: Opts, j: nat) returns (at: nat)
    requires HoldsOrdered(id, g, cs, o) && Place(g, cs, r, j) && OnGrid(g, r)
    ensures var left, right, ds := AdjoinsLeft(g, cs, r, j), AdjoinsRight(g, cs, r, j), AddedTo(g, cs, r, j);
            && AllNonEmpty(ds) && at < |ds|
            && j <= |id.segs| && (left ==> j > 0) && (right ==> j < |id.segs|)
            && Branch(id, r, o, left, right, j) == Finish(id, Segs(g, ds, o), at, r)
  {
    var left, right := AdjoinsLeft(g, cs, r, j), AdjoinsRight(g, cs, r, j);
    at := if left then j - 1 else j;
    OrderedGives(id, g, cs, o);
    NoClash(g, cs, r, o);
    if left {
      Attached(g, cs[j - 1], r, o);
      SegsUpdate(g, cs, j - 1, cs[j - 1] + [r], o);
    } else if right {
      Attached(g, cs[j], r, o);
      SegsUpdate(g, cs, j, [r] + cs[j], o);
    } else {
      OneRecord(g, r, o);
      SegsUpdate(g, cs, j, [r], o);
    }
    hide Finish, SegOf, Segs, OnGrid, Extended, Prepended, NewSeg, InsertAt, Clashes, Unusable;
  }

  /** The chains stay in time order. */
  lemma StaysOrdered(g: Grid, cs: seq<seq<Record>>, r: Record, j: nat)
    requires Ordered(g, cs) && Place(g, cs, r, j) && OnGrid(g, r)
    ensures Ordered(g, AddedTo(g, cs, r, j))
  {
    OneChain(g, r);
    InsertFacts(cs, j, [r]);
    if AdjoinsLeft(g, cs, r, j) {
      JoinedChain(g, cs[j - 1], [r]);
    } else if AdjoinsRight(g, cs, r, j) {
      JoinedChain(g, [r], cs[j]);
    }
    hide Chain, Lo, Hi, OnGrid, Cell, Past, InsertAt;
  }

  lemma EndsOf(g: Grid, cs: seq<seq<Record>>, r: Record, j: nat)
    requires Ordered(g, cs) && cs != [] && Place(g, cs, r, j) && OnGrid(g, r)
    ensures var ds := AddedTo(g, cs, r, j);
            && ds != []
            && Lo(g, ds[0]) == Min(Lo(g, cs[0]), Cell(g, r))
            && Hi(g, ds[|ds| - 1]) == Max(Hi(g, cs[|cs| - 1]), Past(g, r))
  {
    OneChain(g, r);
    InsertFacts(cs, j, [r]);
    ChainSpan(g, cs[0]);
    ChainSpan(g, cs[|cs| - 1]);
    if AdjoinsLeft(g, cs, r, j) {
      JoinedChain(g, cs[j - 1], [r]);
      ChainSpan(g, cs[j - 1]);
    } else if AdjoinsRight(g, cs, r, j) {
      JoinedChain(g, [r], cs[j]);
      ChainSpan(g, cs[j]);
    }
    hide Chain, Lo, Hi, OnGrid, Cell, Past, InsertAt;
  }

  lemma MakeOrdered(id: IdState, g: Grid, cs: seq<seq<Record>>, o: Opts)
    requires cs != [] && Ordered(g, cs) && AllNonEmpty(cs) && id.segs == Segs(g, cs, o)
    requires id.earliest == At(g, Lo(g, cs[0])) && id.latest == At(g, Hi(g, cs[|cs| - 1]) - 1)
    ensures HoldsOrdered(id, g, cs, o)
  {}

  lemma ExtentGives(id: IdState, g: Grid, cs: seq<seq<Record>>, o: Opts)
    requires HoldsOrdered(id, g, cs, o)
    ensures cs != [] && Ordered(g, cs) && AllNonEmpty(cs) && id.segs != []
    ensures id.earliest == At(g, Lo(g, cs[0])) && id.latest == At(g, Hi(g, cs[|cs| - 1]) - 1)
  {}

  lemma FinishInPlace(id: IdState, segs: seq<Seg>, at: nat, r: Record)
    requires at < |segs| && Sorted(segs)
    ensures var a := Finish(id, segs, at, r);
            && a.Added? && a.id.segs == segs && a.at == at
            && a.id.earliest == (if r.start < id.earliest then r.start else id.earliest)
            && a.id.latest == if End(r) > id.latest then End(r) else id.latest
  {
    ResortKeeps(segs, at);
    hide Resort, Sorted;
  }

  /** One addition, by the chains. */
  lemma UnhealedStep(id: IdState, g: Grid, cs: seq<seq<Record>>, r: Record, o: Opts, j: nat)
    requires HoldsOrdered(id, g, cs, o) && Place(g, cs, r, j) && OnGrid(g, r) && Unhealed(g, o)
    ensures id.segs != []
    ensures var a := AddRecord(id, r, o); a.Added? && HoldsOrdered(a.id, g, AddedTo(g, cs, r, j), o)
  {
    hide *;
    var ds := AddedTo(g, cs, r, j);
    ExtentGives(id, g, cs, o);
    TakesBranch(id, g, cs, r, o, j);
    var at := BranchResult(id, g, cs, r, o, j);
    StaysOrdered(g, cs, r, j);
    OrderedSorted(g, ds, o);
    FinishInPlace(id, Segs(g, ds, o), at, r);
    EndsOf(g, cs, r, j);
    GridExtent(g, Lo(g, cs[0]), Hi(g, cs[|cs| - 1]), r);
    MakeOrdered(AddRecord(id, r, o).id, g, ds, o);
  }

  // ---------------------------------------------------------------- in terms of segments

  ghost predicate OthersSame(segs: seq<Seg>, now: seq<Seg>, k: nat) {
    |now| == |segs| && forall i :: 0 <= i < |segs| && i != k ==> now[i] == segs[i]
  }

  /** A segment ends one period before the record, or starts one after it. */
  predicate Ends(s: Seg, p: nat, r: Record) { s.end + p == r.start }

  predicate Starts(s: Seg, p: nat, r: Record) { s.start == End(r) + p }

  /** Only the segment before the place of the record can end there, only the one after it start. */
  lemma AdjoinsAt(g: Grid, cs: seq<seq<Record>>, r: Record, o: Opts, j: nat, k: nat)
    requires Ordered(g, cs) && Place(g, cs, r, j) && OnGrid(g, r) && AllNonEmpty(cs) && k < |cs|
    ensures Ends(Segs(g, cs, o)[k], g.p, r) <==> AdjoinsLeft(g, cs, r, j) && k == j - 1
    ensures Starts(Segs(g, cs, o)[k], g.p, r) <==> AdjoinsRight(g, cs, r, j) && k == j
  {
    ChainTimes(g, cs[k], o);
    ChainSpan(g, cs[k]);
    RecordEnd(g, r);
    assert r.start == At(g, Cell(g, r)) && g.p > 0;
    if k < j - 1 {
      ChainSpan(g, cs[j - 1]);
    } else if k > j {
      ChainSpan(g, cs[j]);
    }
    hide Chain, OnGrid, Ordered, Cell, Past, Lo, Hi, SegOf;
    Distance(g, Hi(g, cs[k]), Hi(g, cs[k]) - 1);
    Distance(g, Past(g, r), Past(g, r) - 1);
    AtGrows(g, Hi(g, cs[k]), Cell(g, r));
    AtGrows(g, Cell(g, r), Hi(g, cs[k]));
    AtGrows(g, Lo(g, cs[k]), Past(g, r));
    AtGrows(g, Past(g, r), Lo(g, cs[k]));
    hide At;
    OrderGives(g, cs, j, k);
  }

  lemma OrderGives(g: Grid, cs: seq<seq<Record>>, j: nat, k: nat)
    requires Ordered(g, cs) && k < |cs|
    ensures k < j - 1 < |cs| ==> Hi(g, cs[k]) <= Lo(g, cs[j - 1])
    ensures j < k ==> Hi(g, cs[j]) <= Lo(g, cs[k])
  {
    hide Chain, Lo, Hi;
  }

  /** Without autohealing a record that shares no sample time with the segments of an ID is added to the end of the
      segment that ends one period before it; if there is none, to the start of the one that starts one period after it;
      otherwise it makes a new segment. No segments are merged, and no other is changed. */
  lemma UnhealedAddition(id: IdState, g: Grid, cs: seq<seq<Record>>, r: Record, o: Opts)
    requires HoldsOrdered(id, g, cs, o) && OnGrid(g, r) && Unhealed(g, o) && AllApart(g, cs, r)
    ensures id.segs != [] && AddRecord(id, r, o).Added?
    ensures var segs, now := id.segs, AddRecord(id, r, o).id.segs;
            && (forall k: nat :: k < |segs| && Ends(segs[k], g.p, r) ==>
                  OthersSame(segs, now, k) && GrewAtEnd(segs[k], now[k], r))
            && ((forall k: nat :: k < |segs| ==> !Ends(segs[k], g.p, r)) ==>
                  forall k: nat :: k < |segs| && Starts(segs[k], g.p, r) ==>
                    OthersSame(segs, now, k) && GrewAtStart(segs[k], now[k], r))
            && ((forall k: nat :: k < |segs| ==> !Ends(segs[k], g.p, r) && !Starts(segs[k], g.p, r)) ==>
                  exists m: nat :: m < |now| && IsOf(now[m], r) && RemoveAt(now, m) == segs)
  {
    hide *;
    ExtentGives(id, g, cs, o);
    var j := FindPlace(g, cs, r, |cs|);
    TakesBranch(id, g, cs, r, o, j);
    UnhealedStep(id, g, cs, r, o, j);
    OrderedGives(id, g, cs, o);
    OrderedGives(AddRecord(id, r, o).id, g, AddedTo(g, cs, r, j), o);
    forall k: nat | k < |cs|
      ensures Ends(id.segs[k], g.p, r) <==> AdjoinsLeft(g, cs, r, j) && k == j - 1
      ensures Starts(id.segs[k], g.p, r) <==> AdjoinsRight(g, cs, r, j) && k == j
    {
      AdjoinsAt(g, cs, r, o, j, k);
    }
    AddedSegs(g, cs, r, o, j);
  }

  /** The segments of the chains with the record added. */
  lemma AddedSegs(g: Grid, cs: seq<seq<Record>>, r: Record, o: Opts, j: nat)
    requires AllNonEmpty(cs) && Place(g, cs, r, j) && OnGrid(g, r)
    ensures var left, right, ds := AdjoinsLeft(g, cs, r, j), AdjoinsRight(g, cs, r, j), AddedTo(g, cs, r, j);
            var segs := Segs(g, cs, o);
            && AllNonEmpty(ds) && (left ==> j > 0) && (right ==> j < |cs|)
            && var now := Segs(g, ds, o);
               && (left ==> OthersSame(segs, now, j - 1) && GrewAtEnd(segs[j - 1], now[j - 1], r))
               && (!left && right ==> OthersSame(segs, now, j) && GrewAtStart(segs[j], now[j], r))
               && (!left && !right ==> j < |now| && IsOf(now[j], r) && RemoveAt(now, j) == segs)
  {
    hide *;
    AddedToIs(g, cs, r, j);
    var segs := Segs(g, cs, o);
    if AdjoinsLeft(g, cs, r, j) {
      Attached(g, cs[j - 1], r, o);
      SegsUpdate(g, cs, j - 1, cs[j - 1] + [r], o);
      Grows(segs, j - 1, r, o);
    } else if AdjoinsRight(g, cs, r, j) {
      Attached(g, cs[j], r, o);
      SegsUpdate(g, cs, j, [r] + cs[j], o);
      Grows(segs, j, r, o);
    } else {
      OneRecord(g, r, o);
      SegsUpdate(g, cs, j, [r], o);
      RemoveInserted(segs, j, NewSeg(r, o));
      NewIsOf(r, o);
    }
  }

  lemma AddedToIs(g: Grid, cs: seq<seq<Record>>, r: Record, j: nat)
    requires Place(g, cs, r, j)
    ensures j <= |cs| && (AdjoinsLeft(g, cs, r, j) ==> j > 0 && cs[j - 1] != [])
    ensures AdjoinsRight(g, cs, r, j) ==> j < |cs| && cs[j] != []
    ensures AddedTo(g, cs, r, j)
            == if AdjoinsLeft(g, cs, r, j) then cs[j - 1 := cs[j - 1] + [r]]
               else if AdjoinsRight(g, cs, r, j) then cs[j := [r] + cs[j]] else InsertAt(cs, j, [r])
  {
    hide InsertAt;
  }

  lemma Grows(segs: seq<Seg>, k: nat, r: Record, o: Opts)
    requires k < |segs|
    ensures OthersSame(segs, segs[k := Extended(segs[k], r, o)], k) && GrewAtEnd(segs[k], Extended(segs[k], r, o), r)
    ensures OthersSame(segs, segs[k := Prepended(segs[k], r, o)], k)
            && GrewAtStart(segs[k], Prepended(segs[k], r, o), r)
  {
    hide End;
  }

  lemma NewIsOf(r: Record, o: Opts)
    ensures IsOf(NewSeg(r, o), r)
  {
    hide End;
  }

  // ---------------------------------------------------------------- whole runs

  lemma FirstUnhealed(g: Grid, r: Record, o: Opts)
    requires OnGrid(g, r)
    ensures FirstRecord(r, o).Some? && HoldsOrdered(FirstRecord(r, o).value, g, [[r]], o) && Held([[r]]) == multiset{r}
  {
    FirstOnGrid(g, r, o);
    HoldsIsOrdered(FirstRecord(r, o).value, g, [[r]], o);
    hide FirstRecord;
  }

  lemma HoldsIsOrdered(id: IdState, g: Grid, cs: seq<seq<Record>>, o: Opts)
    requires Holds(id, g, cs, o)
    ensures HoldsOrdered(id, g, cs, o)
  {
    CanonOrdered(g, cs);
    hide Canon, Ordered, Segs, At, Lo, Hi;
  }

  lemma HeldInserted(cs: seq<seq<Record>>, j: nat, c: seq<Record>)
    requires j <= |cs|
    ensures Held(InsertAt(cs, j, c)) == Held(cs) + multiset(c)
  {
    hide *;
    InsertIs(cs, j, c);
    FlattenMiddle(cs[..j], c, cs[j..]);
    HeldSplit(cs, j);
    HeldIsFlat(InsertAt(cs, j, c));
    HeldIsFlat(cs[..j]);
    HeldIsFlat(cs[j..]);
  }

  lemma InsertIs<T>(s: seq<T>, i: nat, x: T)
    requires i <= |s|
    ensures InsertAt(s, i, x) == s[..i] + [x] + s[i..]
  {}

  lemma HeldIsFlat(cs: seq<seq<Record>>)
    ensures Held(cs) == multiset(Flatten(cs))
  {}

  lemma HeldUpdated(cs: seq<seq<Record>>, i: nat, c: seq<Record>, r: Record)
    requires i < |cs| && multiset(c) == multiset(cs[i]) + multiset{r}
    ensures Held(cs[i := c]) == Held(cs) + multiset{r}
  {
    hide *;
    var ds := cs[i := c];
    HeldSplit(cs, i);
    HeldSplit(ds, i);
    assert ds[..i] == cs[..i] && ds[i + 1..] == cs[i + 1..];
  }

  /** The record is held, and nothing else is new. */
  lemma AddedHeld(g: Grid, cs: seq<seq<Record>>, r: Record, j: nat)
    requires Place(g, cs, r, j)
    ensures Held(AddedTo(g, cs, r, j)) == Held(cs) + multiset{r}
  {
    if AdjoinsLeft(g, cs, r, j) {
      HeldUpdated(cs, j - 1, cs[j - 1] + [r], r);
    } else if AdjoinsRight(g, cs, r, j) {
      HeldUpdated(cs, j, [r] + cs[j], r);
    } else {
      HeldInserted(cs, j, [r]);
    }
    hide Held, Place;
  }

  /** After any run without autohealing of disjoint records of a grid, the segments are contiguous runs in time order
      that together hold exactly these records, each once. */
  lemma {:induction false} UnhealedRun(g: Grid, rs: seq<Record>, o: Opts) returns (cs: seq<seq<Record>>)
    requires rs != [] && GridRecords(g, rs) && Unhealed(g, o)
    ensures Run(Additions(rs, o)).Some? && HoldsOrdered(Run(Additions(rs, o)).value, g, cs, o)
    ensures Held(cs) == multiset(rs)
  {
    hide *;
    var n := |rs| - 1;
    GridPrefix(g, rs, n);
    RunOfAdditions(rs, o, n);
    if n == 0 {
      cs := [[rs[0]]];
      FirstUnhealed(g, rs[0], o);
    } else {
      var ds := UnhealedRun(g, rs[..n], o);
      var id := Run(Additions(rs[..n], o)).value;
      ExtentGives(id, g, ds, o);
      HeldApart(g, ds, rs[n]);
      var j := FindPlace(g, ds, rs[n], |ds|);
      cs := AddedTo(g, ds, rs[n], j);
      UnhealedStep(id, g, ds, rs[n], o, j);
      AddedHeld(g, ds, rs[n], j);
    }
  }
}
