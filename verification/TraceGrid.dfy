/** Confluence: disjoint records on one sample grid end as the maximal contiguous runs of the covered
    samples, in time order, whatever the order in which they are added. */
module TraceGrid {
  import opened Options
  import opened Mseed
  import opened Sequences
  import opened TraceSpec
  import opened TraceRuns
  import opened TraceContents
  import Refusals = TraceRefusals
  import TwoPass = TraceTwoPass

  /** Sample times are base + p * k. */
  datatype Grid = Grid(base: int, p: nat, hz: real, sampletype: char)

  /** The grid index of a record's first sample, and the one past its last. */
  function Cell(g: Grid, r: Record): int {
    if g.p == 0 then 0 else (r.start - g.base) / g.p
  }

  function Past(g: Grid, r: Record): int {
    Cell(g, r) + r.samplecnt
  }

  function At(g: Grid, k: int): int {
    g.base + g.p * k
  }

  ghost predicate OnGrid(g: Grid, r: Record) {
    && g.p > 0 && g.hz != 0.0
    && r.start == At(g, Cell(g, r)) && r.period == g.p && r.hz == g.hz && r.sampletype == g.sampletype
    && Loaded(r) && r.samplecnt > 0 && End(r) != NSTERROR
  }

  /** The default rate tolerance, and a time tolerance below one sample period. */
  ghost predicate Tolerable(g: Grid, o: Opts) {
    o.ratetol <= 0.0 && (o.timetol.Some? ==> 0 <= o.timetol.value < g.p)
  }

  /** And autohealing. */
  ghost predicate Usual(g: Grid, o: Opts) {
    o.autoheal && Tolerable(g, o)
  }

  // ---------------------------------------------------------------- chains of adjoining records

  /** Records that follow one another without a gap. */
  ghost predicate Chain(g: Grid, c: seq<Record>) {
    && c != [] && (forall i :: 0 <= i < |c| ==> OnGrid(g, c[i]))
    && forall i, j :: 0 <= i < |c| && j == i + 1 < |c| ==> Cell(g, c[j]) == Past(g, c[i])
  }

  function Lo(g: Grid, c: seq<Record>): int {
    if c == [] then 0 else Cell(g, c[0])
  }

  function Hi(g: Grid, c: seq<Record>): int {
    if c == [] then 0 else Past(g, c[|c| - 1])
  }

  function BareAll(c: seq<Record>): (b: seq<Record>)
    ensures |b| == |c|
  {
    seq(|c|, i requires 0 <= i < |c| => Bare(c[i]))
  }

  /** The segment that holds a chain of records. */
  function SegOf(g: Grid, c: seq<Record>, o: Opts): Seg
    requires c != []
  {
    Seg(c[0].start, End(c[|c| - 1]), g.hz, Count(c), g.sampletype, Payloads(c), if o.keeprecs then BareAll(c) else [])
  }

  lemma OneRecord(g: Grid, r: Record, o: Opts)
    requires OnGrid(g, r)
    ensures SegOf(g, [r], o) == NewSeg(r, o) && Chain(g, [r])
  {
    assert [r][1..] == [];
    assert Payloads([r]) == r.payload;
    assert Count([r][1..]) == 0;
    assert Count([r]) == [r][0].samplecnt + Count([r][1..]);
    assert BareAll([r]) == [Bare(r)];
  }

  lemma BareJoined(c: seq<Record>, d: seq<Record>)
    ensures BareAll(c + d) == BareAll(c) + BareAll(d)
  {
    hide Bare;
  }

  lemma Joined(g: Grid, c: seq<Record>, d: seq<Record>, o: Opts)
    requires c != [] && d != []
    ensures SegOf(g, c + d, o) == Merged(SegOf(g, c, o), SegOf(g, d, o))
  {
    hide Payloads, Count, BareAll, End;
    PayloadsConcat(c, d);
    BareJoined(c, d);
  }

  lemma JoinedChain(g: Grid, c: seq<Record>, d: seq<Record>)
    requires Chain(g, c) && Chain(g, d) && Hi(g, c) == Lo(g, d)
    ensures Chain(g, c + d) && Lo(g, c + d) == Lo(g, c) && Hi(g, c + d) == Hi(g, d)
  {
    hide OnGrid, Cell, Past;
  }

  /** Adding a record to a segment is joining its chain with that record. */
  lemma Attached(g: Grid, c: seq<Record>, r: Record, o: Opts)
    requires c != [] && OnGrid(g, r)
    ensures SegOf(g, c + [r], o) == Extended(SegOf(g, c, o), r, o)
    ensures SegOf(g, [r] + c, o) == Prepended(SegOf(g, c, o), r, o)
  {
    Joined(g, c, [r], o);
    Joined(g, [r], c, o);
    OneRecord(g, r, o);
    hide SegOf;
  }

  // ---------------------------------------------------------------- times and cells

  /** A sample's time is between those of its neighbours, and two gaps of less than a period are equal. */
  lemma Steps(p: int, d: int, tol: int)
    requires 0 <= tol < p
    ensures -tol <= p * d <= tol <==> d == 0
    ensures p * d > tol <==> d > 0
  {
    if d >= 1 {
      assert p * d >= p;
    } else if d <= -1 {
      assert p * d <= -p;
    }
  }

  lemma Distance(g: Grid, k: int, m: int)
    ensures At(g, k) - At(g, m) == g.p * (k - m)
  {}

  lemma RecordEnd(g: Grid, r: Record)
    requires OnGrid(g, r)
    ensures End(r) == At(g, Past(g, r) - 1)
  {
    var n, k := r.samplecnt, Cell(g, r);
    hide Cell;
    assert At(g, k + n - 1) - At(g, k) == g.p * (n - 1) by {
      Distance(g, k + n - 1, k);
    }
  }

  // ---------------------------------------------------------------- the tests on a segment

  /** The chain and the record share no cell. */
  ghost predicate Apart(g: Grid, c: seq<Record>, r: Record) {
    Hi(g, c) <= Cell(g, r) || Past(g, r) <= Lo(g, c)
  }

  lemma {:induction false} ChainSpan(g: Grid, c: seq<Record>)
    requires Chain(g, c)
    ensures Lo(g, c) < Hi(g, c)
  {
    if |c| > 1 {
      var d := c[..|c| - 1];
      assert Chain(g, d) by {
        hide OnGrid, Cell;
      }
      ChainSpan(g, d);
      assert Cell(g, c[|c| - 1]) == Past(g, c[|c| - 2]);
    }
  }

  lemma ChainTimes(g: Grid, c: seq<Record>, o: Opts)
    requires Chain(g, c)
    ensures var s := SegOf(g, c, o);
            s.start == At(g, Lo(g, c)) && s.end == At(g, Hi(g, c) - 1) && Covers(s) && g.p > 0
  {
    RecordEnd(g, c[|c| - 1]);
    assert OnGrid(g, c[0]);
  }

  /** The record follows or precedes a segment exactly when its cells adjoin those of the chain. */
  lemma GridTests(g: Grid, c: seq<Record>, r: Record, o: Opts)
    requires Chain(g, c) && OnGrid(g, r) && Tolerable(g, o) && Apart(g, c, r)
    ensures var s := SegOf(g, c, o);
            && FitsAfter(s, r, o) == (Hi(g, c) == Cell(g, r))
            && FitsBefore(s, r, o) == (Past(g, r) == Lo(g, c))
            && (r.start > s.start <==> Hi(g, c) <= Cell(g, r))
            && !SameSpan(s, r)
            && (r.start - r.period - TimeTol(r, o) > s.end <==> Hi(g, c) < Cell(g, r))
            && (End(r) + r.period + TimeTol(r, o) < s.start <==> Past(g, r) < Lo(g, c))
  {
    var s, k, m, tol := SegOf(g, c, o), Cell(g, r), Past(g, r), TimeTol(r, o);
    ChainSpan(g, c);
    ChainTimes(g, c, o);
    RecordEnd(g, r);
    SameRate(g.hz, o);
    hide OnGrid, Chain, SegOf, Covers, Similar, Lo, Hi, Cell;
    Distance(g, k, Hi(g, c) - 1);
    Distance(g, k, Hi(g, c));
    Distance(g, Hi(g, c), Hi(g, c) - 1);
    Distance(g, Lo(g, c), m - 1);
    Distance(g, Lo(g, c), m);
    Distance(g, m, m - 1);
    Distance(g, k, Lo(g, c));
    hide At;
    Steps(g.p, k - Hi(g, c), tol);
    Steps(g.p, Lo(g, c) - m, tol);
    Steps(g.p, k - Lo(g, c), 0);
  }

  lemma SameRate(hz: real, o: Opts)
    requires hz != 0.0 && o.ratetol <= 0.0
    ensures Similar(hz, hz, o.ratetol)
  {}

  // ---------------------------------------------------------------- the maximal runs, and inserting a record

  /** Chains in time order, no two of which adjoin. */
  ghost predicate Canon(g: Grid, cs: seq<seq<Record>>) {
    && (forall i :: 0 <= i < |cs| ==> Chain(g, cs[i]))
    && forall i, j :: 0 <= i < j < |cs| ==> Hi(g, cs[i]) < Lo(g, cs[j])
  }

  /** Chains in time order. */
  ghost predicate Ordered(g: Grid, cs: seq<seq<Record>>) {
    && (forall i :: 0 <= i < |cs| ==> Chain(g, cs[i]))
    && forall i, j :: 0 <= i < j < |cs| ==> Hi(g, cs[i]) <= Lo(g, cs[j])
  }

  lemma CanonOrdered(g: Grid, cs: seq<seq<Record>>)
    requires Canon(g, cs)
    ensures Ordered(g, cs)
  {
    hide Chain, Lo, Hi;
  }

  ghost predicate AllApart(g: Grid, cs: seq<seq<Record>>, r: Record) {
    forall i :: 0 <= i < |cs| ==> cs[i] != [] && Apart(g, cs[i], r)
  }

  ghost predicate AllNonEmpty(cs: seq<seq<Record>>) {
    forall i :: 0 <= i < |cs| ==> cs[i] != []
  }

  ghost function Segs(g: Grid, cs: seq<seq<Record>>, o: Opts): (s: seq<Seg>)
    requires AllNonEmpty(cs)
    ensures |s| == |cs| && forall i :: 0 <= i < |cs| ==> s[i] == SegOf(g, cs[i], o)
  {
    seq(|cs|, i requires 0 <= i < |cs| => SegOf(g, cs[i], o))
  }

  /** The number of chains that end before the record starts. */
  ghost predicate Place(g: Grid, cs: seq<seq<Record>>, r: Record, j: nat) {
    && j <= |cs| && AllNonEmpty(cs)
    && (forall i :: 0 <= i < j ==> Hi(g, cs[i]) <= Cell(g, r))
    && (forall i :: j <= i < |cs| ==> Past(g, r) <= Lo(g, cs[i]))
  }

  lemma {:induction false} FindPlace(g: Grid, cs: seq<seq<Record>>, r: Record, n: nat) returns (j: nat)
    requires Ordered(g, cs) && AllApart(g, cs, r) && n <= |cs| && OnGrid(g, r)
    requires forall i :: n <= i < |cs| ==> Past(g, r) <= Lo(g, cs[i])
    ensures Place(g, cs, r, j)
  {
    hide Chain, Lo, Hi, Cell;
    if n == 0 || Hi(g, cs[n - 1]) <= Cell(g, r) {
      j := n;
      forall i | 0 <= i < n - 1 ensures Hi(g, cs[i]) <= Cell(g, r) {
        ChainSpan(g, cs[n - 1]);
      }
    } else {
      j := FindPlace(g, cs, r, n - 1);
    }
  }

  ghost predicate AdjoinsLeft(g: Grid, cs: seq<seq<Record>>, r: Record, j: nat)
    requires Place(g, cs, r, j)
  {
    j > 0 && Hi(g, cs[j - 1]) == Cell(g, r)
  }

  ghost predicate AdjoinsRight(g: Grid, cs: seq<seq<Record>>, r: Record, j: nat)
    requires Place(g, cs, r, j)
  {
    j < |cs| && Past(g, r) == Lo(g, cs[j])
  }

  /** The record joined with the chains it adjoins. */
  ghost function Grown(g: Grid, cs: seq<seq<Record>>, r: Record, j: nat): (c: seq<Record>)
    requires Place(g, cs, r, j)
    ensures c != []
  {
    (if AdjoinsLeft(g, cs, r, j) then cs[j - 1] else []) + [r] + (if AdjoinsRight(g, cs, r, j) then cs[j] else [])
  }

  /** The chains before and after that one. */
  ghost function Before(g: Grid, cs: seq<seq<Record>>, r: Record, j: nat): seq<seq<Record>>
    requires Place(g, cs, r, j)
  {
    cs[..if AdjoinsLeft(g, cs, r, j) then j - 1 else j]
  }

  ghost function After(g: Grid, cs: seq<seq<Record>>, r: Record, j: nat): seq<seq<Record>>
    requires Place(g, cs, r, j)
  {
    cs[if AdjoinsRight(g, cs, r, j) then j + 1 else j..]
  }

  ghost function Insert(g: Grid, cs: seq<seq<Record>>, r: Record, j: nat): seq<seq<Record>>
    requires Place(g, cs, r, j)
  {
    Before(g, cs, r, j) + [Grown(g, cs, r, j)] + After(g, cs, r, j)
  }

  /** How one segment answers the tests of the search. */
  ghost predicate Answers(s: Seg, r: Record, o: Opts, follows: bool, precedes: bool, before: bool) {
    && FitsAfter(s, r, o) == follows && FitsBefore(s, r, o) == precedes
    && (r.start > s.start <==> before) && !SameSpan(s, r) && Covers(s)
  }

  /** Only the segment before the record can be continued by it, only the one after it preceded. */
  ghost predicate AllAnswer(segs: seq<Seg>, r: Record, o: Opts, left: bool, right: bool, j: nat) {
    && j <= |segs| && (left ==> j > 0) && (right ==> j < |segs|)
    && forall m :: 0 <= m < |segs| ==> Answers(segs[m], r, o, left && m == j - 1, right && m == j, m < j)
  }

  /** So the search of the whole list finds exactly the adjoining segments and the one before the record. */
  lemma {:induction false} GridSearch(segs: seq<Seg>, r: Record, o: Opts, left: bool, right: bool, j: nat, i: nat,
                                      f: Found)
    requires AllAnswer(segs, r, o, left, right, j) && o.autoheal && i <= |segs|
    requires f.before == (if left && j - 1 < i then Some(j - 1) else None)
    requires f.after == (if right && j < i then Some(j) else None)
    requires f.follow == (if i == 0 || j == 0 then None else Some(if i < j then i - 1 else j - 1))
    ensures var h := Search(segs, i, r, o, f);
            && h.before == (if left then Some(j - 1) else None)
            && h.after == (if right then Some(j) else None)
            && (!left && !right ==> h.follow == if j == 0 then None else Some(j - 1))
    decreases |segs| - i
  {
    hide FitsAfter, FitsBefore, Covers, SameSpan;
    if i < |segs| {
      assert Answers(segs[i], r, o, left && i == j - 1, right && i == j, i < j);
      var h := Look(segs, i, r, o, f);
      if !Enough(h, o) {
        GridSearch(segs, r, o, left, right, j, i + 1, h);
      }
    }
  }

  /** The segments of chains in time order answer so. */
  lemma GridAnswers(g: Grid, cs: seq<seq<Record>>, r: Record, o: Opts, j: nat)
    requires Ordered(g, cs) && Place(g, cs, r, j) && OnGrid(g, r) && Tolerable(g, o)
    ensures AllAnswer(Segs(g, cs, o), r, o, AdjoinsLeft(g, cs, r, j), AdjoinsRight(g, cs, r, j), j)
  {
    var left, right := AdjoinsLeft(g, cs, r, j), AdjoinsRight(g, cs, r, j);
    var segs := Segs(g, cs, o);
    forall m | 0 <= m < |segs| ensures Answers(segs[m], r, o, left && m == j - 1, right && m == j, m < j) {
      hide FitsAfter, FitsBefore, Covers, SameSpan, SegOf, Tolerable, Lo, Hi, Cell, Chain;
      ChainSpan(g, cs[m]);
      GridTests(g, cs[m], r, o);
      ChainTimes(g, cs[m], o);
      if m < j - 1 {
        ChainSpan(g, cs[j - 1]);
      } else if m > j {
        ChainSpan(g, cs[j]);
      }
    }
  }

  // ---------------------------------------------------------------- one addition

  /** The ID holds the segments of these chains and spans them. */
  ghost predicate Holds(id: IdState, g: Grid, cs: seq<seq<Record>>, o: Opts) {
    && cs != [] && Canon(g, cs) && AllNonEmpty(cs) && id.segs == Segs(g, cs, o)
    && id.earliest == At(g, Lo(g, cs[0])) && id.latest == At(g, Hi(g, cs[|cs| - 1]) - 1)
  }

  /** The ID holds the segments of these chains, and its extent includes theirs. */
  ghost predicate Carries(id: IdState, g: Grid, cs: seq<seq<Record>>, o: Opts) {
    && cs != [] && Canon(g, cs) && AllNonEmpty(cs) && id.segs == Segs(g, cs, o)
    && id.earliest <= At(g, Lo(g, cs[0])) && id.latest >= At(g, Hi(g, cs[|cs| - 1]) - 1)
  }

  function GridFound(left: bool, right: bool, j: nat): Found
    requires left ==> j > 0
  {
    Found(if left then Some(j - 1) else None, if right then Some(j) else None, if j == 0 then None else Some(j - 1))
  }

  /** The record is after all coverage, or before it, exactly when its place is the last or first and it does
      not adjoin the segment there. */
  lemma GridOutside(g: Grid, cs: seq<seq<Record>>, r: Record, o: Opts, j: nat)
    requires cs != [] && Ordered(g, cs) && Place(g, cs, r, j) && OnGrid(g, r) && Tolerable(g, o)
    ensures var segs, n := Segs(g, cs, o), |cs|;
            && (r.start - r.period - TimeTol(r, o) > segs[n - 1].end <==> j == n && !AdjoinsLeft(g, cs, r, j))
            && (End(r) + r.period + TimeTol(r, o) < segs[0].start <==> j == 0 && !AdjoinsRight(g, cs, r, j))
  {
    var n := |cs|;
    hide SegOf, Tolerable, Lo, Hi, Cell, Chain, TimeTol, End;
    ChainSpan(g, cs[n - 1]);
    ChainSpan(g, cs[0]);
    GridTests(g, cs[n - 1], r, o);
    GridTests(g, cs[0], r, o);
  }

  lemma HoldsSpan(id: IdState, g: Grid, cs: seq<seq<Record>>, o: Opts)
    requires Holds(id, g, cs, o)
    ensures id.earliest == id.segs[0].start && id.latest == id.segs[|cs| - 1].end
  {
    hide Lo, Hi, At, SegOf;
    ChainTimes(g, cs[0], o);
    ChainTimes(g, cs[|cs| - 1], o);
  }

  lemma CarriesSpan(id: IdState, g: Grid, cs: seq<seq<Record>>, o: Opts)
    requires Carries(id, g, cs, o)
    ensures id.earliest <= id.segs[0].start && id.latest >= id.segs[|cs| - 1].end
  {
    hide Lo, Hi, At, SegOf;
    ChainTimes(g, cs[0], o);
    ChainTimes(g, cs[|cs| - 1], o);
  }

  /** The outcomes of the tests that choose a branch. */
  lemma GridChoices(id: IdState, g: Grid, cs: seq<seq<Record>>, r: Record, o: Opts, j: nat)
    requires Carries(id, g, cs, o) && Place(g, cs, r, j) && OnGrid(g, r) && Usual(g, o)
    ensures var n, left, right, f := |cs|, AdjoinsLeft(g, cs, r, j), AdjoinsRight(g, cs, r, j),
            FullSearch(id.segs, r, o);
            && j <= |id.segs| == n && End(r) != NSTERROR && (left ==> j > 0) && (right ==> j < n)
            && (FitsAfter(id.segs[n - 1], r, o) && Covers(id.segs[n - 1]) <==> left && j == n)
            && (FitsBefore(id.segs[0], r, o) && Covers(id.segs[0]) <==> right && j == 0)
            && (r.start - r.period - TimeTol(r, o) > id.latest ==> j == n && !left)
            && (End(r) + r.period + TimeTol(r, o) < id.earliest ==> j == 0 && !right)
            && f.before == GridFound(left, right, j).before && f.after == GridFound(left, right, j).after
            && (!left && !right ==> f.follow == GridFound(left, right, j).follow)
  {
    var n, left, right := |cs|, AdjoinsLeft(g, cs, r, j), AdjoinsRight(g, cs, r, j);
    CarriesSpan(id, g, cs, o);
    CanonOrdered(g, cs);
    GridAnswers(g, cs, r, o, j);
    GridOutside(g, cs, r, o, j);
    GridSearch(id.segs, r, o, left, right, j, 0, Found(None, None, None));
    hide FitsAfter, FitsBefore, Covers, SameSpan, SegOf, Segs, Search, Canon, TimeTol, Place;
    assert Answers(id.segs[0], r, o, left && 0 == j - 1, right && 0 == j, 0 < j);
    assert Answers(id.segs[n - 1], r, o, left && n == j, right && n - 1 == j, n - 1 < j);
  }

  /** Whichever branch the addition takes, it adds the record where the search would. */
  lemma GridBranch(id: IdState, g: Grid, cs: seq<seq<Record>>, r: Record, o: Opts, j: nat)
    requires Carries(id, g, cs, o) && Place(g, cs, r, j) && OnGrid(g, r) && Usual(g, o)
    ensures var left, right := AdjoinsLeft(g, cs, r, j), AdjoinsRight(g, cs, r, j);
            AddRecord(id, r, o) == AddWhere(id, GridFound(left, right, j), r, o)
  {
    hide FitsAfter, FitsBefore, Covers, FullSearch, AddToEnd, AddToStart, AddNew, Heal, End, TimeTol, Carries, Place,
         AdjoinsLeft, AdjoinsRight, OnGrid, Usual;
    GridChoices(id, g, cs, r, o, j);
  }

  lemma InsertNonEmpty(g: Grid, cs: seq<seq<Record>>, r: Record, j: nat)
    requires Place(g, cs, r, j)
    ensures AllNonEmpty(Insert(g, cs, r, j))
  {}

  lemma SegsMiddle(g: Grid, a: seq<seq<Record>>, c: seq<Record>, b: seq<seq<Record>>, o: Opts)
    requires AllNonEmpty(a) && AllNonEmpty(b) && c != []
    ensures AllNonEmpty(a + [c] + b) && Segs(g, a + [c] + b, o) == Segs(g, a, o) + [SegOf(g, c, o)] + Segs(g, b, o)
  {
    hide SegOf;
  }

  lemma SegsPart(g: Grid, cs: seq<seq<Record>>, i: nat, o: Opts)
    requires AllNonEmpty(cs) && i <= |cs|
    ensures Segs(g, cs[..i], o) == Segs(g, cs, o)[..i] && Segs(g, cs[i..], o) == Segs(g, cs, o)[i..]
  {
    hide SegOf;
  }

  /** Adding where the search says, when all samples are of one type. */
  function Placed(s: seq<Seg>, r: Record, o: Opts, left: bool, right: bool, j: nat): seq<Seg>
    requires j <= |s| && (left ==> j > 0) && (right ==> j < |s|)
  {
    if left && right then RemoveAt(s[j - 1 := Merged(Extended(s[j - 1], r, o), s[j])], j)
    else if left then s[j - 1 := Extended(s[j - 1], r, o)]
    else if right then s[j := Prepended(s[j], r, o)]
    else InsertAt(s, j, NewSeg(r, o))
  }

  lemma GrownSeg(g: Grid, cs: seq<seq<Record>>, r: Record, o: Opts, j: nat)
    requires Place(g, cs, r, j) && OnGrid(g, r)
    ensures var left, right := AdjoinsLeft(g, cs, r, j), AdjoinsRight(g, cs, r, j);
            var s := Segs(g, cs, o);
            SegOf(g, Grown(g, cs, r, j), o)
            == if left && right then Merged(Extended(s[j - 1], r, o), s[j])
               else if left then Extended(s[j - 1], r, o)
               else if right then Prepended(s[j], r, o)
               else NewSeg(r, o)
  {
    var left, right := AdjoinsLeft(g, cs, r, j), AdjoinsRight(g, cs, r, j);
    hide SegOf, Extended, Prepended, Merged, NewSeg, OnGrid;
    if left {
      Attached(g, cs[j - 1], r, o);
      assert cs[j - 1] + [r] + [] == cs[j - 1] + [r];
      if right {
        Joined(g, cs[j - 1] + [r], cs[j], o);
      }
    } else if right {
      Attached(g, cs[j], r, o);
      assert [] + [r] + cs[j] == [r] + cs[j];
    } else {
      OneRecord(g, r, o);
      assert [] + [r] + [] == [r];
    }
  }

  lemma PlacedForm(s: seq<Seg>, r: Record, o: Opts, left: bool, right: bool, j: nat, y: Seg)
    requires j <= |s| && (left ==> j > 0) && (right ==> j < |s|)
    requires y == if left && right then Merged(Extended(s[j - 1], r, o), s[j])
                  else if left then Extended(s[j - 1], r, o)
                  else if right then Prepended(s[j], r, o)
                  else NewSeg(r, o)
    ensures Placed(s, r, o, left, right, j) == s[..if left then j - 1 else j] + [y] + s[if right then j + 1 else j..]
  {
    hide Extended, Prepended, Merged, NewSeg;
    if left && right {
      assert s[j - 1 := y] == s[..j - 1] + [y] + s[j..];
    }
  }

  /** The segments of the chains with the record inserted, in terms of those without. */
  lemma SegsInserted(g: Grid, cs: seq<seq<Record>>, r: Record, o: Opts, j: nat)
    requires Place(g, cs, r, j) && OnGrid(g, r)
    ensures AllNonEmpty(Insert(g, cs, r, j))
    ensures Segs(g, Insert(g, cs, r, j), o)
            == Placed(Segs(g, cs, o), r, o, AdjoinsLeft(g, cs, r, j), AdjoinsRight(g, cs, r, j), j)
  {
    hide SegOf, Segs, Extended, Prepended, Merged, NewSeg, OnGrid, Grown, Placed;
    var left, right, s, c := AdjoinsLeft(g, cs, r, j), AdjoinsRight(g, cs, r, j), Segs(g, cs, o), Grown(g, cs, r, j);
    var a, b := if left then j - 1 else j, if right then j + 1 else j;
    InsertNonEmpty(g, cs, r, j);
    GrownSeg(g, cs, r, o, j);
    SegsPart(g, cs, a, o);
    SegsPart(g, cs, b, o);
    SegsMiddle(g, cs[..a], c, cs[b..], o);
    PlacedForm(s, r, o, left, right, j, SegOf(g, c, o));
  }

  lemma OneType(id: IdState, r: Record, o: Opts, left: bool, right: bool, j: nat)
    requires j <= |id.segs| && (left ==> j > 0) && (right ==> j < |id.segs|) && o.autoheal && KnownType(r.sampletype)
    requires forall i :: 0 <= i < |id.segs| ==> id.segs[i].sampletype == r.sampletype
    ensures AddWhere(id, GridFound(left, right, j), r, o)
            == Finish(id, Placed(id.segs, r, o, left, right, j), if left then j - 1 else j, r)
  {
    hide Finish;
    if left && right {
      var x := Extended(id.segs[j - 1], r, o);
      assert !Clashes(id.segs[j - 1], r) && !SegsClash(x, id.segs[j]);
      hide Extended, Merged;
      var y := Merged(x, id.segs[j]);
      assert id.segs[j - 1 := x][j - 1 := y] == id.segs[j - 1 := y];
    }
  }

  /** No addition on one grid is refused, and its segments are those of the chains with the record inserted. */
  lemma GridResult(id: IdState, g: Grid, cs: seq<seq<Record>>, r: Record, o: Opts, j: nat) returns (at: nat)
    requires Carries(id, g, cs, o) && Place(g, cs, r, j) && OnGrid(g, r) && o.autoheal
    ensures at < |Insert(g, cs, r, j)| && AllNonEmpty(Insert(g, cs, r, j))
    ensures AddWhere(id, GridFound(AdjoinsLeft(g, cs, r, j), AdjoinsRight(g, cs, r, j), j), r, o)
            == Finish(id, Segs(g, Insert(g, cs, r, j), o), at, r)
  {
    var left, right := AdjoinsLeft(g, cs, r, j), AdjoinsRight(g, cs, r, j);
    at := if left then j - 1 else j;
    assert KnownType(r.sampletype) && r.sampletype == g.sampletype;
    assert forall i :: 0 <= i < |cs| ==> id.segs[i].sampletype == g.sampletype;
    hide SegOf, Extended, Prepended, Merged, NewSeg, OnGrid, Canon, Finish, AddWhere;
    SegsInserted(g, cs, r, o, j);
    OneType(id, r, o, left, right, j);
  }

  // ---------------------------------------------------------------- what inserting a record keeps

  lemma CanonMiddle(g: Grid, a: seq<seq<Record>>, c: seq<Record>, b: seq<seq<Record>>)
    requires Canon(g, a) && Canon(g, b) && Chain(g, c) && Lo(g, c) < Hi(g, c)
    requires forall i :: 0 <= i < |a| ==> Hi(g, a[i]) < Lo(g, c)
    requires forall i :: 0 <= i < |b| ==> Hi(g, c) < Lo(g, b[i])
    ensures Canon(g, a + [c] + b)
  {
    hide Chain, Lo, Hi;
  }

  lemma GrownChain(g: Grid, cs: seq<seq<Record>>, r: Record, j: nat)
    requires Canon(g, cs) && Place(g, cs, r, j) && OnGrid(g, r)
    ensures var left, right, c := AdjoinsLeft(g, cs, r, j), AdjoinsRight(g, cs, r, j), Grown(g, cs, r, j);
            && Chain(g, c)
            && Lo(g, c) == (if left then Lo(g, cs[j - 1]) else Cell(g, r))
            && Hi(g, c) == (if right then Hi(g, cs[j]) else Past(g, r))
  {
    OneChain(g, r);
    hide OnGrid, Chain, Cell, Lo, Hi;
    if AdjoinsLeft(g, cs, r, j) {
      JoinedChain(g, cs[j - 1], [r]);
      assert cs[j - 1] + [r] + [] == cs[j - 1] + [r];
      if AdjoinsRight(g, cs, r, j) {
        JoinedChain(g, cs[j - 1] + [r], cs[j]);
      }
    } else if AdjoinsRight(g, cs, r, j) {
      JoinedChain(g, [r], cs[j]);
      assert [] + [r] + cs[j] == [r] + cs[j];
    } else {
      assert [] + [r] + [] == [r];
    }
  }

  lemma InsertCanon(g: Grid, cs: seq<seq<Record>>, r: Record, j: nat)
    requires Canon(g, cs) && Place(g, cs, r, j) && OnGrid(g, r)
    ensures Canon(g, Insert(g, cs, r, j))
  {
    hide OnGrid, Chain, Cell, Lo, Hi, Grown;
    var a, c, b := Before(g, cs, r, j), Grown(g, cs, r, j), After(g, cs, r, j);
    GrownChain(g, cs, r, j);
    ChainSpan(g, c);
    if j > 0 {
      ChainSpan(g, cs[j - 1]);
    }
    if j < |cs| {
      ChainSpan(g, cs[j]);
    }
    assert Canon(g, a) && Canon(g, b);
    forall i | 0 <= i < |a| ensures Hi(g, a[i]) < Lo(g, c) {
      assert i < j - 1 ==> Hi(g, cs[i]) < Lo(g, cs[j - 1]);
    }
    forall i | 0 <= i < |b| ensures Hi(g, c) < Lo(g, b[i]) {
      var m := |cs| - |b| + i;
      assert b[i] == cs[m] && j <= m && (j < m ==> Hi(g, cs[j]) < Lo(g, cs[m]));
    }
    CanonMiddle(g, a, c, b);
  }

  lemma OneChain(g: Grid, r: Record)
    requires OnGrid(g, r)
    ensures Chain(g, [r]) && Lo(g, [r]) == Cell(g, r) < Hi(g, [r]) == Past(g, r)
  {}

  /** The records of all the chains. */
  function Flatten(cs: seq<seq<Record>>): seq<Record> {
    if cs == [] then [] else cs[0] + Flatten(cs[1..])
  }

  lemma {:induction false} FlattenConcat(a: seq<seq<Record>>, b: seq<seq<Record>>)
    ensures Flatten(a + b) == Flatten(a) + Flatten(b)
  {
    if a == [] {
      assert a + b == b;
    } else {
      assert (a + b)[1..] == a[1..] + b;
      FlattenConcat(a[1..], b);
    }
  }

  lemma FlattenMiddle(a: seq<seq<Record>>, c: seq<Record>, b: seq<seq<Record>>)
    ensures Flatten(a + [c] + b) == Flatten(a) + c + Flatten(b)
  {
    assert Flatten([c]) == c;
    hide Flatten;
    FlattenConcat(a + [c], b);
    FlattenConcat(a, [c]);
  }

  /** The records of all the chains, counted. */
  function Held(cs: seq<seq<Record>>): multiset<Record> {
    multiset(Flatten(cs))
  }

  lemma HeldSplit(cs: seq<seq<Record>>, i: nat)
    requires i <= |cs|
    ensures Held(cs) == Held(cs[..i]) + Held(cs[i..])
    ensures i < |cs| ==> Held(cs[i..]) == multiset(cs[i]) + Held(cs[i + 1..])
  {
    assert cs == cs[..i] + cs[i..];
    FlattenConcat(cs[..i], cs[i..]);
    if i < |cs| {
      assert cs[i..][1..] == cs[i + 1..];
    }
  }

  lemma HeldLast(cs: seq<seq<Record>>, i: nat)
    requires 0 < i <= |cs|
    ensures Held(cs[..i]) == Held(cs[..i - 1]) + multiset(cs[i - 1])
  {
    assert cs[..i] == cs[..i - 1] + [cs[i - 1]];
    FlattenConcat(cs[..i - 1], [cs[i - 1]]);
    assert Flatten([cs[i - 1]]) == cs[i - 1];
  }

  lemma HeldGrown(g: Grid, cs: seq<seq<Record>>, r: Record, j: nat)
    requires Place(g, cs, r, j)
    ensures Held(Insert(g, cs, r, j)) == Held(Before(g, cs, r, j)) + multiset(Grown(g, cs, r, j))
            + Held(After(g, cs, r, j))
  {
    hide Flatten, Grown;
    FlattenMiddle(Before(g, cs, r, j), Grown(g, cs, r, j), After(g, cs, r, j));
  }

  lemma HeldGrownIs(g: Grid, cs: seq<seq<Record>>, r: Record, j: nat)
    requires Place(g, cs, r, j)
    ensures multiset(Grown(g, cs, r, j))
            == multiset(if AdjoinsLeft(g, cs, r, j) then cs[j - 1] else []) + multiset{r}
               + multiset(if AdjoinsRight(g, cs, r, j) then cs[j] else [])
  {}

  lemma HeldAround(g: Grid, cs: seq<seq<Record>>, r: Record, j: nat)
    requires Place(g, cs, r, j)
    ensures Held(cs[..j]) == Held(Before(g, cs, r, j)) + multiset(if AdjoinsLeft(g, cs, r, j) then cs[j - 1] else [])
    ensures Held(cs[j..]) == multiset(if AdjoinsRight(g, cs, r, j) then cs[j] else []) + Held(After(g, cs, r, j))
  {
    hide Held;
    HeldSplit(cs, j);
    if AdjoinsLeft(g, cs, r, j) {
      HeldLast(cs, j);
    }
  }

  /** Inserting a record adds it to the records held, and nothing else. */
  lemma InsertKeepsRecords(g: Grid, cs: seq<seq<Record>>, r: Record, j: nat)
    requires Place(g, cs, r, j)
    ensures Held(Insert(g, cs, r, j)) == Held(cs) + multiset{r}
  {
    assert j <= |cs|;
    hide *;
    HeldGrown(g, cs, r, j);
    HeldSplit(cs, j);
    HeldGrownIs(g, cs, r, j);
    HeldAround(g, cs, r, j);
  }

  /** The records share no cell. */
  predicate Disjoint(g: Grid, a: Record, b: Record) {
    Past(g, a) <= Cell(g, b) || Past(g, b) <= Cell(g, a)
  }

  lemma {:induction false} ChainApart(g: Grid, c: seq<Record>, r: Record)
    requires Chain(g, c) && OnGrid(g, r) && forall i :: 0 <= i < |c| ==> Disjoint(g, c[i], r)
    ensures Apart(g, c, r)
  {
    if |c| > 1 {
      var d := c[..|c| - 1];
      assert Chain(g, d) by {
        hide OnGrid, Cell;
      }
      assert forall i :: 0 <= i < |d| ==> Disjoint(g, d[i], r);
      ChainApart(g, d, r);
      assert Disjoint(g, c[|c| - 1], r) && Cell(g, c[|c| - 1]) == Past(g, c[|c| - 2]);
    }
  }

  lemma AtGrows(g: Grid, k: int, m: int)
    requires g.p > 0
    ensures At(g, k) < At(g, m) <==> k < m
  {
    Distance(g, m, k);
    Steps(g.p, m - k, 0);
  }

  lemma OrderedSorted(g: Grid, cs: seq<seq<Record>>, o: Opts)
    requires Ordered(g, cs) && AllNonEmpty(cs)
    ensures Sorted(Segs(g, cs, o))
  {
    var s := Segs(g, cs, o);
    forall i, j | 0 <= i < j < |s| ensures !Precedes(s[j], s[i]) {
      hide Chain, Lo, Hi, SegOf;
      ChainSpan(g, cs[i]);
      ChainTimes(g, cs[i], o);
      ChainTimes(g, cs[j], o);
      AtGrows(g, Lo(g, cs[i]), Lo(g, cs[j]));
    }
  }

  lemma CanonSorted(g: Grid, cs: seq<seq<Record>>, o: Opts)
    requires Canon(g, cs)
    ensures Sorted(Segs(g, cs, o))
  {
    CanonOrdered(g, cs);
    OrderedSorted(g, cs, o);
  }

  lemma InsertEnds(g: Grid, cs: seq<seq<Record>>, r: Record, j: nat)
    requires cs != [] && Canon(g, cs) && Place(g, cs, r, j) && OnGrid(g, r)
    ensures var ds := Insert(g, cs, r, j); var n, m := |cs|, |ds|;
            && m > 0 && AllNonEmpty(ds)
            && Lo(g, ds[0]) == Min(Lo(g, cs[0]), Cell(g, r)) && Hi(g, ds[m - 1]) == Max(Hi(g, cs[n - 1]), Past(g, r))
  {
    hide Chain, Lo, Hi, Cell, Grown;
    InsertNonEmpty(g, cs, r, j);
    GrownChain(g, cs, r, j);
    ChainSpan(g, cs[0]);
    ChainSpan(g, cs[|cs| - 1]);
    RecordSpan(g, r);
  }

  lemma RecordSpan(g: Grid, r: Record)
    requires OnGrid(g, r)
    ensures Cell(g, r) < Past(g, r)
  {}

  lemma AtMin(g: Grid, k: int, m: int)
    requires g.p > 0
    ensures At(g, Min(k, m)) == if At(g, m) < At(g, k) then At(g, m) else At(g, k)
    ensures At(g, Max(k, m)) == if At(g, m) > At(g, k) then At(g, m) else At(g, k)
  {
    AtGrows(g, m, k);
    AtGrows(g, k, m);
    hide At;
  }

  /** The extent grows by that of the record. */
  lemma GridExtent(g: Grid, lo: int, hi: int, r: Record)
    requires OnGrid(g, r)
    ensures At(g, Min(lo, Cell(g, r))) == if r.start < At(g, lo) then r.start else At(g, lo)
    ensures At(g, Max(hi, Past(g, r)) - 1) == if End(r) > At(g, hi - 1) then End(r) else At(g, hi - 1)
  {
    var k, m := Cell(g, r), Past(g, r) - 1;
    assert g.p > 0 && r.start == At(g, k) && Max(hi, m + 1) - 1 == Max(hi - 1, m);
    RecordEnd(g, r);
    hide *;
    AtMin(g, lo, k);
    AtMin(g, hi - 1, m);
  }

  lemma GridOutcome(id: IdState, g: Grid, cs: seq<seq<Record>>, r: Record, o: Opts, j: nat)
    requires Carries(id, g, cs, o) && Place(g, cs, r, j) && OnGrid(g, r) && Usual(g, o)
    ensures var a := AddRecord(id, r, o);
            && a.Added? && AllNonEmpty(Insert(g, cs, r, j)) && a.id.segs == Segs(g, Insert(g, cs, r, j), o)
            && a.id.earliest == (if r.start < id.earliest then r.start else id.earliest)
            && a.id.latest == if End(r) > id.latest then End(r) else id.latest
  {
    assert Canon(g, cs);
    hide AddRecord, AddWhere, Resort, Sorted, Insert, Segs, Place, Canon, AdjoinsLeft, AdjoinsRight, OnGrid, SegOf, Lo,
         Hi, Carries, AllNonEmpty;
    GridBranch(id, g, cs, r, o, j);
    var at := GridResult(id, g, cs, r, o, j);
    InsertCanon(g, cs, r, j);
    CanonSorted(g, Insert(g, cs, r, j), o);
    ResortKeeps(Segs(g, Insert(g, cs, r, j), o), at);
  }

  lemma CanonNonEmpty(g: Grid, cs: seq<seq<Record>>)
    requires Canon(g, cs)
    ensures AllNonEmpty(cs)
  {}

  lemma InsertExtent(g: Grid, cs: seq<seq<Record>>, r: Record, j: nat)
    requires cs != [] && Canon(g, cs) && Place(g, cs, r, j) && OnGrid(g, r)
    ensures var ds := Insert(g, cs, r, j);
            && AllNonEmpty(cs) && AllNonEmpty(ds) && ds != []
            && At(g, Lo(g, ds[0])) == (if r.start < At(g, Lo(g, cs[0])) then r.start else At(g, Lo(g, cs[0])))
            && At(g, Hi(g, ds[|ds| - 1]) - 1)
               == if End(r) > At(g, Hi(g, cs[|cs| - 1]) - 1) then End(r) else At(g, Hi(g, cs[|cs| - 1]) - 1)
  {
    hide *;
    CanonNonEmpty(g, cs);
    InsertEnds(g, cs, r, j);
    GridExtent(g, Lo(g, cs[0]), Hi(g, cs[|cs| - 1]), r);
  }

  lemma HoldsIs(id: IdState, g: Grid, cs: seq<seq<Record>>, o: Opts)
    requires cs != [] && Canon(g, cs) && AllNonEmpty(cs) && id.segs == Segs(g, cs, o)
    requires id.earliest == At(g, Lo(g, cs[0])) && id.latest == At(g, Hi(g, cs[|cs| - 1]) - 1)
    ensures Holds(id, g, cs, o)
  {}

  lemma HoldsGives(id: IdState, g: Grid, cs: seq<seq<Record>>, o: Opts)
    requires Holds(id, g, cs, o)
    ensures cs != [] && id.segs != [] && Canon(g, cs)
    ensures id.earliest == At(g, Lo(g, cs[0])) && id.latest == At(g, Hi(g, cs[|cs| - 1]) - 1)
  {}

  lemma HoldsCarries(id: IdState, g: Grid, cs: seq<seq<Record>>, o: Opts)
    requires Holds(id, g, cs, o)
    ensures Carries(id, g, cs, o)
  {}

  /** One addition to an ID that holds chains inserts the record into them. */
  lemma GridStep(id: IdState, g: Grid, cs: seq<seq<Record>>, r: Record, o: Opts, j: nat)
    requires Holds(id, g, cs, o) && Place(g, cs, r, j) && OnGrid(g, r) && Usual(g, o)
    ensures var a := AddRecord(id, r, o);
            a.Added? && Holds(a.id, g, Insert(g, cs, r, j), o)
  {
    hide *;
    HoldsGives(id, g, cs, o);
    HoldsCarries(id, g, cs, o);
    GridOutcome(id, g, cs, r, o, j);
    InsertCanon(g, cs, r, j);
    InsertExtent(g, cs, r, j);
    HoldsIs(AddRecord(id, r, o).id, g, Insert(g, cs, r, j), o);
  }

  lemma CarriesGives(id: IdState, g: Grid, cs: seq<seq<Record>>, o: Opts)
    requires Carries(id, g, cs, o)
    ensures cs != [] && id.segs != [] && Canon(g, cs) && AllNonEmpty(cs) && id.segs == Segs(g, cs, o)
    ensures id.earliest <= At(g, Lo(g, cs[0])) && id.latest >= At(g, Hi(g, cs[|cs| - 1]) - 1)
  {}

  lemma CarriesIs(id: IdState, g: Grid, cs: seq<seq<Record>>, o: Opts)
    requires cs != [] && Canon(g, cs) && AllNonEmpty(cs) && id.segs == Segs(g, cs, o)
    requires id.earliest <= At(g, Lo(g, cs[0])) && id.latest >= At(g, Hi(g, cs[|cs| - 1]) - 1)
    ensures Carries(id, g, cs, o)
  {}

  /** The same when the extent is wider than the chains, as it is after segments have given up samples. */
  lemma CarriesStep(id: IdState, g: Grid, cs: seq<seq<Record>>, r: Record, o: Opts, j: nat)
    requires Carries(id, g, cs, o) && Place(g, cs, r, j) && OnGrid(g, r) && Usual(g, o)
    ensures var a := AddRecord(id, r, o);
            a.Added? && Carries(a.id, g, Insert(g, cs, r, j), o)
  {
    hide *;
    CarriesGives(id, g, cs, o);
    GridOutcome(id, g, cs, r, o, j);
    InsertCanon(g, cs, r, j);
    InsertExtent(g, cs, r, j);
    CarriesIs(AddRecord(id, r, o).id, g, Insert(g, cs, r, j), o);
  }

  // ---------------------------------------------------------------- whole runs

  ghost predicate GridRecords(g: Grid, rs: seq<Record>) {
    && (forall i :: 0 <= i < |rs| ==> OnGrid(g, rs[i]))
    && forall i, j :: 0 <= i < j < |rs| ==> Disjoint(g, rs[i], rs[j])
  }

  function Additions(rs: seq<Record>, o: Opts): (a: seq<Addition>)
    ensures |a| == |rs|
  {
    seq(|rs|, i requires 0 <= i < |rs| => Addition(rs[i], o))
  }

  lemma HeldIs(cs: seq<seq<Record>>, i: nat, m: nat)
    requires i < |cs| && m < |cs[i]|
    ensures cs[i][m] in Held(cs)
  {
    hide Held;
    HeldSplit(cs, i);
  }

  /** A record disjoint from all that are held has a place. */
  lemma HeldApart(g: Grid, cs: seq<seq<Record>>, r: Record)
    requires Ordered(g, cs) && OnGrid(g, r) && forall h :: h in Held(cs) ==> Disjoint(g, h, r)
    ensures AllApart(g, cs, r)
  {
    forall i | 0 <= i < |cs| ensures cs[i] != [] && Apart(g, cs[i], r) {
      hide OnGrid, Disjoint, Apart, Held;
      forall m | 0 <= m < |cs[i]| ensures Disjoint(g, cs[i][m], r) {
        HeldIs(cs, i, m);
      }
      ChainApart(g, cs[i], r);
    }
  }

  lemma FirstOnGrid(g: Grid, r: Record, o: Opts)
    requires OnGrid(g, r)
    ensures var f := FirstRecord(r, o);
            f.Some? && Holds(f.value, g, [[r]], o) && Held([[r]]) == multiset{r}
  {
    OneRecord(g, r, o);
    OneChain(g, r);
    assert Flatten([[r]]) == [r];
  }

  lemma GridNext(id: IdState, g: Grid, cs: seq<seq<Record>>, r: Record, o: Opts) returns (ds: seq<seq<Record>>)
    requires Holds(id, g, cs, o) && OnGrid(g, r) && Usual(g, o) && forall h :: h in Held(cs) ==> Disjoint(g, h, r)
    ensures var a := AddRecord(id, r, o); a.Added? && Holds(a.id, g, ds, o)
    ensures Held(ds) == Held(cs) + multiset{r}
  {
    CanonOrdered(g, cs);
    HeldApart(g, cs, r);
    hide AddRecord, OnGrid, Disjoint, Held, Segs, Usual, Insert, Chain;
    var j := FindPlace(g, cs, r, |cs|);
    ds := Insert(g, cs, r, j);
    GridStep(id, g, cs, r, o, j);
    InsertKeepsRecords(g, cs, r, j);
  }

  lemma GridPrefix(g: Grid, rs: seq<Record>, n: nat)
    requires GridRecords(g, rs) && n + 1 == |rs|
    ensures GridRecords(g, rs[..n]) && OnGrid(g, rs[n])
    ensures forall h :: h in multiset(rs[..n]) ==> Disjoint(g, h, rs[n])
    ensures multiset(rs) == multiset(rs[..n]) + multiset{rs[n]}
  {
    hide OnGrid, Disjoint;
    assert rs == rs[..n] + [rs[n]];
    forall h | h in multiset(rs[..n]) ensures Disjoint(g, h, rs[n]) {
      assert h in rs[..n];
    }
  }

  lemma RunOfAdditions(rs: seq<Record>, o: Opts, n: nat)
    requires n + 1 == |rs|
    ensures Run(Additions(rs, o)) ==
            if n == 0 then FirstRecord(rs[0], o)
            else var before := Run(Additions(rs[..n], o));
                 if before.None? then None
                 else var a := AddRecord(before.value, rs[n], o); if a.Added? then Some(a.id) else None
  {
    hide AddRecord, FirstRecord;
    var adds := Additions(rs, o);
    assert adds[..n] == Additions(rs[..n], o);
  }

  /** Adding disjoint records of one grid gives the chains that hold exactly these records. */
  lemma {:induction false} RunOnGrid(g: Grid, rs: seq<Record>, o: Opts) returns (cs: seq<seq<Record>>)
    requires rs != [] && GridRecords(g, rs) && Usual(g, o)
    ensures Run(Additions(rs, o)).Some? && Holds(Run(Additions(rs, o)).value, g, cs, o)
    ensures Held(cs) == multiset(rs)
  {
    hide *;
    var n := |rs| - 1;
    GridPrefix(g, rs, n);
    RunOfAdditions(rs, o, n);
    if n == 0 {
      cs := [[rs[0]]];
      FirstOnGrid(g, rs[0], o);
    } else {
      var ds := RunOnGrid(g, rs[..n], o);
      cs := GridNext(Run(Additions(rs[..n], o)).value, g, ds, rs[n], o);
    }
  }

  // ---------------------------------------------------------------- the order of addition does not matter

  /** The maximal runs of records in time order: a record starts a new run unless the next adjoins it. */
  function Group(g: Grid, rs: seq<Record>): seq<seq<Record>> {
    if rs == [] then []
    else
      var rest := Group(g, rs[1..]);
      if rest != [] && rest[0] != [] && Cell(g, rest[0][0]) == Past(g, rs[0]) then [[rs[0]] + rest[0]] + rest[1..]
      else [[rs[0]]] + rest
  }

  ghost predicate TimeSorted(g: Grid, rs: seq<Record>) {
    && (forall i :: 0 <= i < |rs| ==> OnGrid(g, rs[i]))
    && forall i, j :: 0 <= i < j < |rs| ==> Past(g, rs[i]) <= Cell(g, rs[j])
  }

  lemma DropChain(g: Grid, cs: seq<seq<Record>>)
    requires Canon(g, cs) && cs != [] && |cs[0]| == 1
    ensures Canon(g, cs[1..]) && Flatten(cs) == [cs[0][0]] + Flatten(cs[1..])
  {
    assert cs[0] == [cs[0][0]];
    hide Chain, Lo, Hi;
  }

  lemma DropHead(g: Grid, c: seq<Record>, rest: seq<seq<Record>>)
    requires Canon(g, [c] + rest) && |c| > 1
    ensures Canon(g, [c[1..]] + rest) && Flatten([c] + rest) == [c[0]] + Flatten([c[1..]] + rest)
  {
    var cs, ds := [c] + rest, [c[1..]] + rest;
    assert cs[0] == c && ds[0] == c[1..];
    assert Chain(g, c);
    assert Chain(g, c[1..]) && Hi(g, c[1..]) == Hi(g, c) by {
      hide OnGrid, Cell;
    }
    assert Canon(g, ds) by {
      hide Chain, Lo, Hi;
      assert forall i :: 1 <= i < |ds| ==> ds[i] == cs[i];
    }
    assert Flatten(cs) == [c[0]] + Flatten(ds) by {
      assert cs[1..] == rest && ds[1..] == rest && c == [c[0]] + c[1..];
    }
  }

  /** Dropping the first record leaves chains in canonical form. */
  lemma DropFirst(g: Grid, cs: seq<seq<Record>>) returns (ds: seq<seq<Record>>)
    requires Canon(g, cs) && cs != []
    ensures cs[0] != [] && Canon(g, ds) && Flatten(cs) == [cs[0][0]] + Flatten(ds)
    ensures ds == if |cs[0]| == 1 then cs[1..] else [cs[0][1..]] + cs[1..]
  {
    assert cs[0] != [];
    hide Canon, Flatten;
    assert cs == [cs[0]] + cs[1..];
    if |cs[0]| == 1 {
      DropChain(g, cs);
      ds := cs[1..];
    } else {
      DropHead(g, cs[0], cs[1..]);
      ds := [cs[0][1..]] + cs[1..];
    }
  }

  /** Chains in canonical form are the maximal runs of their records. */
  lemma {:induction false} GroupOfFlatten(g: Grid, cs: seq<seq<Record>>)
    requires Canon(g, cs)
    ensures Group(g, Flatten(cs)) == cs
    decreases |Flatten(cs)|
  {
    hide *;
    if cs == [] {
      GroupNone(g);
    } else {
      var ds := DropFirst(g, cs);
      var fs := Flatten(cs);
      assert fs[1..] == Flatten(ds);
      GroupStep(g, fs);
      GroupOfFlatten(g, ds);
      Regroup(g, cs, ds);
    }
  }

  lemma GroupNone(g: Grid)
    ensures Group(g, Flatten([])) == []
  {}

  lemma GroupStep(g: Grid, rs: seq<Record>)
    requires rs != []
    ensures var rest := Group(g, rs[1..]);
            Group(g, rs) == if rest != [] && rest[0] != [] && Cell(g, rest[0][0]) == Past(g, rs[0])
                            then [[rs[0]] + rest[0]] + rest[1..] else [[rs[0]]] + rest
  {
    hide Cell, Past;
  }

  /** The first record goes back to where it was dropped. */
  lemma Regroup(g: Grid, cs: seq<seq<Record>>, ds: seq<seq<Record>>)
    requires Canon(g, cs) && cs != [] && cs[0] != []
    requires ds == if |cs[0]| == 1 then cs[1..] else [cs[0][1..]] + cs[1..]
    ensures cs == if ds != [] && ds[0] != [] && Cell(g, ds[0][0]) == Past(g, cs[0][0])
                  then [[cs[0][0]] + ds[0]] + ds[1..] else [[cs[0][0]]] + ds
  {
    var c := cs[0];
    if |c| == 1 {
      assert ds != [] ==> Hi(g, c) < Lo(g, ds[0]);
      assert c == [c[0]] && cs == [c] + ds;
    } else {
      assert Chain(g, c);
      assert Cell(g, c[1]) == Past(g, c[0]);
      assert [c[0]] + c[1..] == c && ds[1..] == cs[1..];
    }
    hide Chain, Cell, Past;
  }

  lemma PrependSorted(g: Grid, x: Record, rs: seq<Record>)
    requires OnGrid(g, x) && TimeSorted(g, rs) && (rs != [] ==> Past(g, x) <= Cell(g, rs[0]))
    ensures TimeSorted(g, [x] + rs)
  {
    var fs := [x] + rs;
    forall i, j | 0 <= i < j < |fs| ensures Past(g, fs[i]) <= Cell(g, fs[j]) {
      hide OnGrid, Cell, Past;
      if i == 0 {
        SortedFrom(g, rs, j - 1);
      }
    }
  }

  /** The first record comes before what is left without it. */
  lemma FirstBefore(g: Grid, cs: seq<seq<Record>>, ds: seq<seq<Record>>)
    requires Canon(g, cs) && cs != [] && Canon(g, ds)
    requires cs[0] != [] && ds == if |cs[0]| == 1 then cs[1..] else [cs[0][1..]] + cs[1..]
    ensures OnGrid(g, cs[0][0]) && (ds == [] ==> Flatten(ds) == [])
    ensures Flatten(ds) != [] ==> Past(g, cs[0][0]) <= Cell(g, Flatten(ds)[0])
  {
    assert Chain(g, cs[0]);
    if ds != [] {
      FirstIsFirst(g, ds);
      hide Flatten, OnGrid;
      if |cs[0]| == 1 {
        assert Hi(g, cs[0]) < Lo(g, cs[1]) && Chain(g, cs[1]);
      } else {
        assert Cell(g, cs[0][1]) == Past(g, cs[0][0]);
      }
    }
  }

  lemma {:induction false} FlattenSorted(g: Grid, cs: seq<seq<Record>>)
    requires Canon(g, cs)
    ensures TimeSorted(g, Flatten(cs))
    decreases |Flatten(cs)|
  {
    if cs != [] {
      var ds := DropFirst(g, cs);
      FirstBefore(g, cs, ds);
      hide Flatten, TimeSorted, Canon, OnGrid, Cell, Past;
      FlattenSorted(g, ds);
      PrependSorted(g, cs[0][0], Flatten(ds));
    }
  }

  lemma FirstIsFirst(g: Grid, cs: seq<seq<Record>>)
    requires Canon(g, cs) && cs != []
    ensures Flatten(cs) != [] && Flatten(cs)[0] == cs[0][0]
  {
    assert Chain(g, cs[0]);
  }

  lemma SortedFrom(g: Grid, rs: seq<Record>, j: nat)
    requires TimeSorted(g, rs) && j < |rs|
    ensures Cell(g, rs[0]) <= Cell(g, rs[j])
  {
    RecordSpan(g, rs[0]);
    hide OnGrid, Cell, Past;
  }

  lemma FirstOfSorted(g: Grid, a: seq<Record>, b: seq<Record>)
    requires TimeSorted(g, a) && TimeSorted(g, b) && a != [] && b != [] && a[0] in b && b[0] in a
    ensures a[0] == b[0]
  {
    var i :| 0 <= i < |b| && b[i] == a[0];
    var j :| 0 <= j < |a| && a[j] == b[0];
    RecordSpan(g, a[0]);
    RecordSpan(g, b[0]);
    hide OnGrid, Cell;
  }

  lemma SortedTail(g: Grid, a: seq<Record>)
    requires TimeSorted(g, a) && a != []
    ensures TimeSorted(g, a[1..]) && multiset(a) == multiset{a[0]} + multiset(a[1..])
  {
    hide OnGrid, Cell, Past;
    assert a == [a[0]] + a[1..];
  }

  lemma SameRest<T>(x: T, a: multiset<T>, b: multiset<T>)
    requires multiset{x} + a == multiset{x} + b
    ensures a == b
  {
    assert multiset{x} + a - multiset{x} == a && multiset{x} + b - multiset{x} == b;
  }

  lemma SameSeq<T>(a: seq<T>, b: seq<T>)
    requires a != [] && b != [] && a[0] == b[0] && a[1..] == b[1..]
    ensures a == b
  {
    assert a == [a[0]] + a[1..] && b == [b[0]] + b[1..];
  }

  lemma SameElements<T>(a: seq<T>, b: seq<T>)
    requires multiset(a) == multiset(b)
    ensures |a| == |b| && (a != [] ==> a[0] in b && b[0] in a)
  {
    assert |multiset(a)| == |a| && |multiset(b)| == |b|;
    if a != [] {
      assert a[0] in multiset(b) && b[0] in multiset(a);
    }
  }

  /** A set of records has one time order. */
  lemma {:induction false} SortedUnique(g: Grid, a: seq<Record>, b: seq<Record>)
    requires TimeSorted(g, a) && TimeSorted(g, b) && multiset(a) == multiset(b)
    ensures a == b
  {
    SameElements(a, b);
    if a != [] {
      hide *;
      FirstOfSorted(g, a, b);
      SortedTail(g, a);
      SortedTail(g, b);
      SameRest(a[0], multiset(a[1..]), multiset(b[1..]));
      SortedUnique(g, a[1..], b[1..]);
      SameSeq(a, b);
    }
  }

  /** The segments after adding disjoint records of one grid in any order are the maximal runs of these
      records in time order, and the extent is that of all of them. */
  lemma RunIsGroups(g: Grid, rs: seq<Record>, sorted: seq<Record>, o: Opts)
    requires rs != [] && GridRecords(g, rs) && Usual(g, o) && TimeSorted(g, sorted) && multiset(sorted) == multiset(rs)
    ensures var id := Run(Additions(rs, o));
            && id.Some? && Canon(g, Group(g, sorted)) && AllNonEmpty(Group(g, sorted))
            && id.value.segs == Segs(g, Group(g, sorted), o)
            && id.value.earliest == id.value.segs[0].start && id.value.latest == id.value.segs[|id.value.segs| - 1].end
  {
    var cs := RunOnGrid(g, rs, o);
    assert Canon(g, cs);
    FlattenSorted(g, cs);
    SortedUnique(g, sorted, Flatten(cs));
    GroupOfFlatten(g, cs);
    HoldsSpan(Run(Additions(rs, o)).value, g, cs, o);
  }

  lemma CountTwo<T>(s: seq<T>, i: nat, j: nat)
    requires i < j < |s| && s[i] == s[j]
    ensures multiset(s)[s[i]] >= 2
  {
    assert s == s[..j] + s[j..];
    assert s[i] in s[..j] && s[j] in s[j..];
  }

  lemma TwoOf<T>(s: seq<T>, x: T) returns (i: nat, j: nat)
    requires multiset(s)[x] >= 2
    ensures i < j < |s| && s[i] == s[j] == x
  {
    assert x in s;
    i :| 0 <= i < |s| && s[i] == x;
    var a, b := s[..i], s[i + 1..];
    assert s == a + [x] + b;
    assert x in multiset(a) || x in multiset(b);
    if x in a {
      j := i;
      i :| 0 <= i < |a| && a[i] == x;
    } else {
      var k :| 0 <= k < |b| && b[k] == x;
      j := i + 1 + k;
    }
  }

  lemma TwoApart(g: Grid, rs: seq<Record>, i: nat, j: nat)
    requires GridRecords(g, rs) && i < |rs| && j < |rs| && i != j
    ensures Disjoint(g, rs[i], rs[j]) && rs[i] != rs[j]
  {
    assert if i < j then Disjoint(g, rs[i], rs[j]) else Disjoint(g, rs[j], rs[i]);
    assert OnGrid(g, rs[i]);
    hide Cell;
  }

  /** Being disjoint on a grid does not depend on the order. */
  lemma AnyOrder(g: Grid, rs: seq<Record>, qs: seq<Record>)
    requires GridRecords(g, rs) && multiset(qs) == multiset(rs)
    ensures GridRecords(g, qs)
  {
    hide OnGrid, Disjoint;
    forall i | 0 <= i < |qs| ensures OnGrid(g, qs[i]) {
      assert qs[i] in multiset(rs);
    }
    forall i, j | 0 <= i < j < |qs| ensures Disjoint(g, qs[i], qs[j]) {
      assert qs[i] in multiset(rs) && qs[j] in multiset(rs);
      if qs[i] == qs[j] {
        CountTwo(qs, i, j);
        var a, b := TwoOf(rs, qs[i]);
        TwoApart(g, rs, a, b);
      } else {
        var a :| 0 <= a < |rs| && rs[a] == qs[i];
        var b :| 0 <= b < |rs| && rs[b] == qs[j];
        TwoApart(g, rs, a, b);
      }
    }
  }

  /** Confluence: the order in which the records are added makes no difference to the segments or the extent. */
  lemma Confluence(g: Grid, rs: seq<Record>, qs: seq<Record>, o: Opts)
    requires rs != [] && GridRecords(g, rs) && Usual(g, o) && multiset(qs) == multiset(rs)
    ensures var a, b := Run(Additions(rs, o)), Run(Additions(qs, o));
            a.Some? && b.Some? && a.value.segs == b.value.segs && a.value.earliest == b.value.earliest
              && a.value.latest == b.value.latest
  {
    assert qs != [] by {
      assert rs[0] in multiset(qs);
    }
    AnyOrder(g, rs, qs);
    var cs := RunOnGrid(g, rs, o);
    assert Canon(g, cs);
    FlattenSorted(g, cs);
    RunIsGroups(g, rs, Flatten(cs), o);
    RunIsGroups(g, qs, Flatten(cs), o);
  }

  lemma SameLargest(rs: seq<Record>, qs: seq<Record>, o: Opts)
    requires rs != [] && qs != [] && multiset(qs) == multiset(rs)
    ensures LargestVersion(Additions(rs, o)) <= LargestVersion(Additions(qs, o))
  {
    var i := LargestIsOne(Additions(rs, o));
    var j := LargestIsOne(Additions(qs, o));
    assert rs[i] in multiset(qs);
    var k :| 0 <= k < |qs| && qs[k] == rs[i];
    assert Additions(qs, o)[k].r == rs[i];
  }

  lemma LargestOfRun(adds: seq<Addition>)
    requires adds != [] && Run(adds).Some? && LargestVersion(adds) < 128
    ensures Run(adds).value.version == LargestVersion(adds)
  {
    var i := LargestIsOne(adds);
    Refusals.RunIsRunOn(adds);
    hide Run, Refusals.RunOn, Refusals.Accepted, LargestVersion;
    Refusals.VersionIsLargest(adds);
  }

  /** Nor to the version of the ID, as long as the versions fit the int8_t that carries them. */
  lemma ConfluenceOfVersion(g: Grid, rs: seq<Record>, qs: seq<Record>, o: Opts)
    requires rs != [] && GridRecords(g, rs) && Usual(g, o) && multiset(qs) == multiset(rs)
    requires forall i :: 0 <= i < |rs| ==> rs[i].version < 128
    ensures Run(Additions(rs, o)) == Run(Additions(qs, o))
  {
    Confluence(g, rs, qs, o);
    assert rs[0] in multiset(qs);
    forall i | 0 <= i < |qs| ensures qs[i].version < 128 {
      assert qs[i] in multiset(rs);
    }
    hide GridRecords, Run, LargestVersion;
    SameLargest(rs, qs, o);
    SameLargest(qs, rs, o);
    var i := LargestIsOne(Additions(rs, o));
    LargestOfRun(Additions(rs, o));
    LargestOfRun(Additions(qs, o));
  }

  // ---------------------------------------------------------------- records read without their samples

  lemma UnloadedAdditions(rs: seq<Record>, o: Opts)
    ensures Additions(TwoPass.UnloadAll(rs), o) == TwoPass.UnloadRun(Additions(rs, o))
  {}

  /** Adding the records of a first pass, which leaves samples packed, gives the same maximal runs without
      samples. */
  lemma HeadersFirstIsGroups(g: Grid, rs: seq<Record>, sorted: seq<Record>, o: Opts)
    requires rs != [] && GridRecords(g, rs) && Usual(g, o) && TimeSorted(g, sorted) && multiset(sorted) == multiset(rs)
    ensures AllNonEmpty(Group(g, sorted))
    ensures var id := Run(Additions(TwoPass.UnloadAll(rs), o));
            && id.Some? && id.value.segs == TwoPass.StripAll(Segs(g, Group(g, sorted), o))
            && id.value.earliest == id.value.segs[0].start && id.value.latest == id.value.segs[|id.value.segs| - 1].end
  {
    hide GridRecords, Usual, TimeSorted, Group, Run, Canon;
    RunIsGroups(g, rs, sorted, o);
    UnloadedAdditions(rs, o);
    TwoPass.StripRun(Additions(rs, o));
  }

  /** Nor does the order of addition matter then. */
  lemma HeadersFirstConfluence(g: Grid, rs: seq<Record>, qs: seq<Record>, o: Opts)
    requires rs != [] && GridRecords(g, rs) && Usual(g, o) && multiset(qs) == multiset(rs)
    ensures qs != []
    ensures var a, b := Run(Additions(TwoPass.UnloadAll(rs), o)), Run(Additions(TwoPass.UnloadAll(qs), o));
            && a.Some? && b.Some? && a.value.segs == b.value.segs
            && a.value.earliest == b.value.earliest && a.value.latest == b.value.latest
            && ((forall i :: 0 <= i < |rs| ==> rs[i].version < 128) ==> a == b)
  {
    assert qs != [] by {
      assert rs[0] in multiset(qs);
    }
    hide GridRecords, Usual, Run;
    Confluence(g, rs, qs, o);
    if forall i :: 0 <= i < |rs| ==> rs[i].version < 128 {
      ConfluenceOfVersion(g, rs, qs, o);
    }
    UnloadedAdditions(rs, o);
    UnloadedAdditions(qs, o);
    TwoPass.StripRun(Additions(rs, o));
    TwoPass.StripRun(Additions(qs, o));
  }

  /** A segment holds for each of its cells the sample of the record that covers it. */
  lemma {:induction false} SampleOfCell(g: Grid, c: seq<Record>, i: nat, t: nat)
    requires Chain(g, c) && i < |c| && t < c[i].samplecnt
    ensures |Payloads(c)| == Hi(g, c) - Lo(g, c)
    ensures var k := Cell(g, c[i]) - Lo(g, c) + t;
            0 <= k < |Payloads(c)| && Payloads(c)[k] == c[i].payload[t]
  {
    FirstPayload(g, c);
    hide Payloads, OnGrid;
    if |c| > 1 {
      var d := c[1..];
      assert Chain(g, d) && Hi(g, d) == Hi(g, c) && Lo(g, d) == Past(g, c[0]) by {
        hide Cell;
      }
      hide Cell, Chain;
      if i > 0 {
        SampleOfCell(g, d, i - 1, t);
      } else {
        FirstPayload(g, d);
        SampleOfCell(g, d, 0, 0);
      }
    }
  }

  lemma FirstPayload(g: Grid, c: seq<Record>)
    requires Chain(g, c)
    ensures Payloads(c) == c[0].payload + Payloads(c[1..]) && |c[0].payload| == c[0].samplecnt > 0
    ensures |c| == 1 ==> Payloads(c[1..]) == []
  {
    assert OnGrid(g, c[0]);
  }

  /** The tolerance must stay below a period: with a larger one a record is joined over a missing sample, so the
      segment ends after its samples do. */
  lemma WholePeriodTolerance(g: Grid, a: Record, b: Record, o: Opts)
    requires OnGrid(g, a) && OnGrid(g, b) && Cell(g, b) == Past(g, a) + 1
    requires o.autoheal && o.ratetol <= 0.0 && o.timetol.Some? && o.timetol.value >= g.p
    ensures var id := Run(Additions([a, b], o));
            id.Some? && |id.value.segs| == 1 && id.value.segs[0].samplecnt == a.samplecnt + b.samplecnt
            && id.value.segs[0].end == At(g, Cell(g, a) + a.samplecnt + b.samplecnt)
  {
    var adds := Additions([a, b], o);
    assert adds[..1] == [Addition(a, o)] && adds[1] == Addition(b, o);
    RecordEnd(g, a);
    RecordEnd(g, b);
    Distance(g, Cell(g, b), Past(g, a) - 1);
    SameRate(g.hz, o);
    var s := NewSeg(a, o);
    assert b.start - s.end == g.p * 2;
    assert FitsAfter(s, b, o) && Covers(s);
    hide Cell, At, FitsAfter, Covers, Similar;
    assert Run(adds[..1]) == FirstRecord(a, o);
    assert [s][0 := Extended(s, b, o)] == [Extended(s, b, o)];
  }
}
