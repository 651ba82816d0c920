/** Additions and packing in any order: what segments give up in between changes neither how records are joined nor
    when samples are. */
module TraceRolling {
  import opened Options
  import opened Sequences
  import opened TraceContents
  import opened TraceGrid
  import opened TraceSpec
  import opened TraceUnlisted
  import R = Rolling

  // ---------------------------------------------------------------- samples and their times

  /** Samples with their times, counted. */
  function Timed(start: int, p: nat, xs: seq<Sample>): multiset<(int, Sample)>
    decreases |xs|
  {
    if xs == [] then multiset{} else multiset{(start, xs[0])} + Timed(start + p, p, xs[1..])
  }

  /** The time n sample periods later. */
  function Later(start: int, p: nat, n: nat): int {
    start + n * p
  }

  lemma {:induction false} TimedConcat(start: int, p: nat, xs: seq<Sample>, ys: seq<Sample>)
    ensures Timed(start, p, xs + ys) == Timed(start, p, xs) + Timed(Later(start, p, |xs|), p, ys)
    decreases |xs|
  {
    hide *;
    if xs == [] {
      TimedNone(start, p, xs, ys);
    } else {
      TimedFirst(start, p, xs);
      TimedJoined(start, p, xs, ys);
      NextTime(start, p, |xs|);
      TimedConcat(start + p, p, xs[1..], ys);
      SumAssoc(multiset{(start, xs[0])}, Timed(start + p, p, xs[1..]), Timed(Later(start, p, |xs|), p, ys));
    }
  }

  lemma TimedNone(start: int, p: nat, xs: seq<Sample>, ys: seq<Sample>)
    requires xs == []
    ensures Timed(start, p, xs + ys) == Timed(start, p, xs) + Timed(Later(start, p, |xs|), p, ys)
  {
    assert xs + ys == ys && Later(start, p, |xs|) == start;
  }

  lemma TimedJoined(start: int, p: nat, xs: seq<Sample>, ys: seq<Sample>)
    requires xs != []
    ensures Timed(start, p, xs + ys) == multiset{(start, xs[0])} + Timed(start + p, p, xs[1..] + ys)
  {
    assert (xs + ys)[1..] == xs[1..] + ys;
  }

  lemma SumAssoc<T>(a: multiset<T>, b: multiset<T>, c: multiset<T>)
    ensures a + (b + c) == a + b + c
  {}

  lemma TimedFirst(start: int, p: nat, xs: seq<Sample>)
    requires xs != []
    ensures Timed(start, p, xs) == multiset{(start, xs[0])} + Timed(start + p, p, xs[1..])
  {}

  lemma NextTime(start: int, p: nat, n: nat)
    requires n > 0
    ensures Later(start + p, p, n - 1) == Later(start, p, n)
  {}

  function TimedRecord(r: Record): multiset<(int, Sample)> {
    Timed(r.start, r.period, r.payload)
  }

  function TimedRecords(rs: seq<Record>): multiset<(int, Sample)> {
    if rs == [] then multiset{} else TimedRecord(rs[0]) + TimedRecords(rs[1..])
  }

  lemma {:induction false} TimedRecordsConcat(a: seq<Record>, b: seq<Record>)
    ensures TimedRecords(a + b) == TimedRecords(a) + TimedRecords(b)
  {
    hide TimedRecord;
    if a == [] {
      assert a + b == b;
    } else {
      assert (a + b)[1..] == a[1..] + b;
      TimedRecordsConcat(a[1..], b);
    }
  }

  lemma TimedOne(r: Record)
    ensures TimedRecords([r]) == TimedRecord(r)
  {
    hide TimedRecord;
    assert [r][1..] == [];
  }

  function TimedSegs(p: nat, segs: seq<Seg>): multiset<(int, Sample)> {
    if segs == [] then multiset{} else Timed(segs[0].start, p, segs[0].data) + TimedSegs(p, segs[1..])
  }

  // ---------------------------------------------------------------- the rolling buffer

  /** A record is added, or the first n samples of the segment at i are packed. */
  datatype Op = Put(r: Record) | Take(i: nat, n: nat)

  /** An ID, or none when it has no segments, and the samples that were packed, with their times. */
  datatype Store = Store(id: Option<IdState>, emitted: multiset<(int, Sample)>)

  predicate HasSegs(st: Store) {
    st.id.Some? ==> st.id.value.segs != []
  }

  /** A segment without its first n samples. */
  function Rest(s: Seg, p: nat, n: nat): Seg
    requires n <= |s.data| && n <= s.samplecnt
  {
    s.(start := Later(s.start, p, n), samplecnt := s.samplecnt - n, data := s.data[n..])
  }

  /** What is left of the segments. */
  function GivenUp(segs: seq<Seg>, p: nat, i: nat, n: nat): seq<Seg>
    requires i < |segs| && n <= |segs[i].data| && n <= segs[i].samplecnt
  {
    if n == |segs[i].data| then RemoveAt(segs, i) else segs[i := Rest(segs[i], p, n)]
  }

  predicate CanTake(segs: seq<Seg>, i: nat, n: nat) {
    i < |segs| && 0 < n <= |segs[i].data| && n <= segs[i].samplecnt
  }

  function Do(st: Store, p: nat, op: Op, o: Opts): (now: Store)
    requires HasSegs(st)
    ensures HasSegs(now)
  {
    match op
    case Put(r) => st.(id := if st.id.None? then FirstRecord(r, o) else Some(AddRecord(st.id.value, r, o).id))
    case Take(i, n) =>
      if st.id.None? || !CanTake(st.id.value.segs, i, n) then st
      else
        var segs := st.id.value.segs;
        var left := GivenUp(segs, p, i, n);
        Store(if left == [] then None else Some(st.id.value.(segs := left)),
              st.emitted + Timed(segs[i].start, p, segs[i].data[..n]))
  }

  function DoAll(p: nat, ops: seq<Op>, o: Opts): (st: Store)
    ensures HasSegs(st)
  {
    if ops == [] then Store(None, multiset{}) else Do(DoAll(p, ops[..|ops| - 1], o), p, ops[|ops| - 1], o)
  }

  /** The records added, in order. */
  function Puts(ops: seq<Op>): seq<Record> {
    if ops == [] then []
    else
      var op := ops[|ops| - 1];
      Puts(ops[..|ops| - 1]) + if op.Put? then [op.r] else []
  }

  // ---------------------------------------------------------------- chains that give up samples

  /** A record without its first n samples. */
  function Cut(r: Record, n: nat): Record
    requires n <= r.samplecnt == |r.payload| == |r.samples|
  {
    r.(start := r.start + n * r.period, samplecnt := r.samplecnt - n, samples := r.samples[n..],
       payload := r.payload[n..])
  }

  /** The cells of h are among those of q. */
  predicate Inside(g: Grid, h: Record, q: Record) {
    Cell(g, q) <= Cell(g, h) && Past(g, h) <= Past(g, q)
  }

  lemma CutOnGrid(g: Grid, r: Record, n: nat)
    requires OnGrid(g, r) && n < r.samplecnt
    ensures n <= r.samplecnt == |r.payload| == |r.samples|
    ensures var h := Cut(r, n);
            OnGrid(g, h) && Cell(g, h) == Cell(g, r) + n && Past(g, h) == Past(g, r) && End(h) == End(r)
  {
    var h, k := Cut(r, n), Cell(g, r);
    assert h.start == g.base + g.p * (k + n) by {
      assert g.p * (k + n) == g.p * k + n * g.p;
    }
    CellAt(g, k + n);
    assert End(h) == End(r) by {
      assert n * r.period + (r.samplecnt - n - 1) * r.period == (r.samplecnt - 1) * r.period;
    }
  }

  lemma CellAt(g: Grid, k: int)
    requires g.p > 0
    ensures (At(g, k) - g.base) / g.p == k
  {
    var q, r := g.p * k / g.p, g.p * k % g.p;
    assert g.p * (k - q) == r;
    Steps(g.p, k - q, g.p - 1);
  }

  /** A chain without its first n samples. */
  ghost function Trim(g: Grid, c: seq<Record>, n: nat): seq<Record>
    requires Chain(g, c) && n < Count(c)
  {
    hide Cell;
    assert OnGrid(g, c[0]);
    if n < c[0].samplecnt then [Cut(c[0], n)] + c[1..]
    else
      TailChain(g, c);
      Trim(g, c[1..], n - c[0].samplecnt)
  }

  lemma TailChain(g: Grid, c: seq<Record>)
    requires Chain(g, c)
    ensures Count(c) == c[0].samplecnt + Count(c[1..]) && Payloads(c) == c[0].payload + Payloads(c[1..])
    ensures |c| > 1 ==> Chain(g, c[1..]) && Lo(g, c[1..]) == Past(g, c[0]) && Hi(g, c[1..]) == Hi(g, c)
    ensures |c| == 1 ==> Count(c[1..]) == 0
    ensures OnGrid(g, c[0]) && |c[0].payload| == c[0].samplecnt
  {
    ChainHead(g, c);
    if |c| > 1 {
      ChainTail(g, c);
    }
    hide OnGrid, Cell, Chain, Past, Lo, Hi;
  }

  lemma ChainHead(g: Grid, c: seq<Record>)
    requires Chain(g, c)
    ensures c != [] && OnGrid(g, c[0]) && |c[0].payload| == c[0].samplecnt
  {
    assert OnGrid(g, c[0]);
    hide Cell;
  }

  lemma ChainTail(g: Grid, c: seq<Record>)
    requires Chain(g, c) && |c| > 1
    ensures Chain(g, c[1..]) && Lo(g, c[1..]) == Past(g, c[0]) && Hi(g, c[1..]) == Hi(g, c)
  {
    assert Cell(g, c[1]) == Past(g, c[0]);
    hide OnGrid, Cell, Past;
    var d := c[1..];
    assert forall i :: 0 <= i < |d| ==> d[i] == c[i + 1];
  }

  /** It is the chain of the remaining samples. */
  lemma {:induction false} TrimIs(g: Grid, c: seq<Record>, n: nat)
    requires Chain(g, c) && n < Count(c)
    ensures var d := Trim(g, c, n);
            && Chain(g, d) && Lo(g, d) == Lo(g, c) + n && Hi(g, d) == Hi(g, c) && Count(d) == Count(c) - n
            && n <= |Payloads(c)| && Payloads(d) == Payloads(c)[n..] && End(d[|d| - 1]) == End(c[|c| - 1])
            && forall h :: h in d ==> exists q :: q in c && Inside(g, h, q)
  {
    TailChain(g, c);
    hide OnGrid, Cell, Payloads, Count, Past, End;
    if n < c[0].samplecnt {
      TrimFirst(g, c, n);
    } else {
      TrimIs(g, c[1..], n - c[0].samplecnt);
      SpanIs(g, c[0]);
    }
  }

  lemma SpanIs(g: Grid, r: Record)
    ensures Past(g, r) == Cell(g, r) + r.samplecnt
  {}

  lemma CutChain(g: Grid, h: Record, c: seq<Record>)
    requires Chain(g, c) && OnGrid(g, h) && Past(g, h) == Past(g, c[0])
    ensures Chain(g, [h] + c[1..]) && Lo(g, [h] + c[1..]) == Cell(g, h) && Hi(g, [h] + c[1..]) == Hi(g, c)
  {
    var d := [h] + c[1..];
    hide OnGrid, Cell, Past;
    assert forall i :: 1 <= i < |d| ==> d[i] == c[i];
  }

  lemma CutContents(h: Record, c: seq<Record>)
    requires c != [] && Payloads(c) == c[0].payload + Payloads(c[1..]) && Count(c) == c[0].samplecnt + Count(c[1..])
    ensures Payloads([h] + c[1..]) == h.payload + Payloads(c[1..]) && Count([h] + c[1..]) == h.samplecnt + Count(c[1..])
  {
    assert ([h] + c[1..])[1..] == c[1..];
  }

  lemma CutInside(g: Grid, h: Record, c: seq<Record>)
    requires c != [] && Inside(g, h, c[0])
    ensures forall k :: k in [h] + c[1..] ==> exists q :: q in c && Inside(g, k, q)
  {
    hide Cell, Past;
    forall k | k in [h] + c[1..] ensures exists q :: q in c && Inside(g, k, q) {
      if k == h {
        assert c[0] in c;
      } else {
        assert k in c && Inside(g, k, k);
      }
    }
  }

  lemma TrimFirst(g: Grid, c: seq<Record>, n: nat)
    requires Chain(g, c) && n < c[0].samplecnt && OnGrid(g, c[0]) && |c[0].payload| == c[0].samplecnt == |c[0].samples|
    ensures var d := [Cut(c[0], n)] + c[1..];
            && Chain(g, d) && Lo(g, d) == Lo(g, c) + n && Hi(g, d) == Hi(g, c) && Count(d) == Count(c) - n
            && n <= |Payloads(c)| && Payloads(d) == Payloads(c)[n..] && End(d[|d| - 1]) == End(c[|c| - 1])
            && forall h :: h in d ==> exists q :: q in c && Inside(g, h, q)
  {
    hide *;
    ChainHead(g, c);
    var h := Cut(c[0], n);
    CutOnGrid(g, c[0], n);
    TailChain(g, c);
    CutChain(g, h, c);
    CutContents(h, c);
    CutFields(c[0], n);
    CutLast(h, c);
    LoIs(g, c);
    WithinItself(g, h, c[0]);
    CutInside(g, h, c);
    DropWithin(c[0].payload, Payloads(c[1..]), n);
  }

  lemma CutFields(r: Record, n: nat)
    requires n <= r.samplecnt == |r.payload| == |r.samples|
    ensures Cut(r, n).samplecnt == r.samplecnt - n && Cut(r, n).payload == r.payload[n..]
  {}

  lemma CutLast(h: Record, c: seq<Record>)
    requires c != [] && End(h) == End(c[0])
    ensures var d := [h] + c[1..]; End(d[|d| - 1]) == End(c[|c| - 1])
  {
    hide End;
  }

  lemma LoIs(g: Grid, c: seq<Record>)
    requires c != []
    ensures Lo(g, c) == Cell(g, c[0])
  {
    hide Cell;
  }

  lemma WithinItself(g: Grid, h: Record, q: Record)
    requires Cell(g, q) <= Cell(g, h) && Past(g, h) == Past(g, q)
    ensures Inside(g, h, q)
  {
    hide Cell, Past;
  }

  lemma DropWithin<T>(a: seq<T>, b: seq<T>, n: nat)
    requires n <= |a|
    ensures n <= |a + b| && (a + b)[n..] == a[n..] + b
  {}

  // ---------------------------------------------------------------- the samples of chains

  lemma NextStart(g: Grid, c: seq<Record>)
    requires Chain(g, c) && |c| > 1
    ensures Later(c[0].start, g.p, c[0].samplecnt) == c[1].start
  {
    assert OnGrid(g, c[0]) && OnGrid(g, c[1]) && Cell(g, c[1]) == Past(g, c[0]);
    hide Cell;
    Distance(g, Past(g, c[0]), Cell(g, c[0]));
    assert g.p * c[0].samplecnt == c[0].samplecnt * g.p;
  }

  /** A chain's samples have the times that its records give them. */
  lemma {:induction false} ChainTimed(g: Grid, c: seq<Record>)
    requires Chain(g, c)
    ensures Timed(c[0].start, g.p, Payloads(c)) == TimedRecords(c)
  {
    TailChain(g, c);
    assert TimedRecord(c[0]) == Timed(c[0].start, g.p, c[0].payload);
    TimedConcat(c[0].start, g.p, c[0].payload, Payloads(c[1..]));
    if |c| == 1 {
      assert c[1..] == [] && Payloads(c[1..]) == [];
    } else {
      NextStart(g, c);
      hide Timed, TimedRecord, Chain, OnGrid, Payloads, Count, Later;
      ChainTimed(g, c[1..]);
    }
  }

  lemma FirstSeg(g: Grid, cs: seq<seq<Record>>, o: Opts)
    requires Canon(g, cs) && AllNonEmpty(cs) && cs != []
    ensures Chain(g, cs[0]) && Canon(g, cs[1..]) && AllNonEmpty(cs[1..]) && Flatten(cs) == cs[0] + Flatten(cs[1..])
    ensures var segs := Segs(g, cs, o);
            && segs != [] && segs[0].start == cs[0][0].start && segs[0].data == Payloads(cs[0])
            && segs[1..] == Segs(g, cs[1..], o)
  {
    hide Chain, Lo, Hi, Payloads, Count;
  }

  lemma FirstTimed(p: nat, segs: seq<Seg>)
    requires segs != []
    ensures TimedSegs(p, segs) == Timed(segs[0].start, p, segs[0].data) + TimedSegs(p, segs[1..])
  {}

  lemma NoneTimed(g: Grid, o: Opts)
    ensures TimedSegs(g.p, Segs(g, [], o)) == TimedRecords(Flatten([]))
  {}

  /** So do the segments of chains. */
  lemma {:induction false} SegsTimed(g: Grid, cs: seq<seq<Record>>, o: Opts)
    requires Canon(g, cs) && AllNonEmpty(cs)
    ensures TimedSegs(g.p, Segs(g, cs, o)) == TimedRecords(Flatten(cs))
  {
    hide *;
    if cs == [] {
      NoneTimed(g, o);
    } else {
      FirstSeg(g, cs, o);
      FirstTimed(g.p, Segs(g, cs, o));
      ChainTimed(g, cs[0]);
      TimedRecordsConcat(cs[0], Flatten(cs[1..]));
      SegsTimed(g, cs[1..], o);
    }
  }

  /** The chains around the place of a record. */
  lemma FlattenAround(g: Grid, cs: seq<seq<Record>>, r: Record, j: nat)
    requires Place(g, cs, r, j)
    ensures Flatten(cs) == Flatten(Before(g, cs, r, j)) + (if AdjoinsLeft(g, cs, r, j) then cs[j - 1] else [])
                           + (if AdjoinsRight(g, cs, r, j) then cs[j] else []) + Flatten(After(g, cs, r, j))
  {
    var left, right := AdjoinsLeft(g, cs, r, j), AdjoinsRight(g, cs, r, j);
    InsertIs(g, cs, r, j);
    assert j <= |cs| && Before(g, cs, r, j) == cs[..if left then j - 1 else j];
    assert After(g, cs, r, j) == cs[if right then j + 1 else j..];
    hide *;
    assert cs[..j] + cs[j..] == cs;
    FlattenConcat(cs[..j], cs[j..]);
    FlattenBefore(cs, j, left);
    FlattenAfter(cs, j, right);
    FourParts(Flatten(Before(g, cs, r, j)), if left then cs[j - 1] else [], if right then cs[j] else [],
              Flatten(After(g, cs, r, j)));
  }

  lemma FourParts<T>(a: seq<T>, x: seq<T>, y: seq<T>, b: seq<T>)
    ensures (a + x) + (y + b) == a + x + y + b
  {}

  lemma FlattenBefore(cs: seq<seq<Record>>, j: nat, left: bool)
    requires j <= |cs| && (left ==> j > 0)
    ensures Flatten(cs[..j]) == Flatten(cs[..if left then j - 1 else j]) + (if left then cs[j - 1] else [])
  {
    if left {
      assert cs[..j] == cs[..j - 1] + [cs[j - 1]];
      FlattenConcat(cs[..j - 1], [cs[j - 1]]);
      assert Flatten([cs[j - 1]]) == cs[j - 1];
    }
  }

  lemma FlattenAfter(cs: seq<seq<Record>>, j: nat, right: bool)
    requires j <= |cs| && (right ==> j < |cs|)
    ensures Flatten(cs[j..]) == (if right then cs[j] else []) + Flatten(cs[if right then j + 1 else j..])
  {
    if right {
      assert cs[j..][1..] == cs[j + 1..];
    }
  }

  /** Inserting a record adds its samples. */
  lemma InsertTimed(g: Grid, cs: seq<seq<Record>>, r: Record, j: nat)
    requires Place(g, cs, r, j)
    ensures TimedRecords(Flatten(Insert(g, cs, r, j))) == TimedRecords(Flatten(cs)) + TimedRecord(r)
  {
    InsertIs(g, cs, r, j);
    hide *;
    var a, b := Before(g, cs, r, j), After(g, cs, r, j);
    var x := if AdjoinsLeft(g, cs, r, j) then cs[j - 1] else [];
    var y := if AdjoinsRight(g, cs, r, j) then cs[j] else [];
    FlattenMiddle(a, Grown(g, cs, r, j), b);
    FlattenAround(g, cs, r, j);
    TimedParts(Flatten(a), x, y, Flatten(b), r);
  }

  lemma InsertIs(g: Grid, cs: seq<seq<Record>>, r: Record, j: nat)
    requires Place(g, cs, r, j)
    ensures (AdjoinsLeft(g, cs, r, j) ==> 0 < j <= |cs|) && (AdjoinsRight(g, cs, r, j) ==> j < |cs|)
    ensures Insert(g, cs, r, j) == Before(g, cs, r, j) + [Grown(g, cs, r, j)] + After(g, cs, r, j)
    ensures Grown(g, cs, r, j) == (if AdjoinsLeft(g, cs, r, j) then cs[j - 1] else []) + [r]
                                  + (if AdjoinsRight(g, cs, r, j) then cs[j] else [])
  {}

  lemma TimedParts(a: seq<Record>, x: seq<Record>, y: seq<Record>, b: seq<Record>, r: Record)
    ensures TimedRecords(a + (x + [r] + y) + b) == TimedRecords(a + x + y + b) + TimedRecord(r)
  {
    TimedOne(r);
    hide TimedRecords;
    TimedRecordsConcat(a + (x + [r] + y), b);
    TimedRecordsConcat(a, x + [r] + y);
    TimedRecordsConcat(x + [r], y);
    TimedRecordsConcat(x, [r]);
    TimedRecordsConcat(a + x + y, b);
    TimedRecordsConcat(a + x, y);
    TimedRecordsConcat(a, x);
  }

  // ---------------------------------------------------------------- packing from a chain

  /** What a chain gives up and what is left of it have its samples. */
  lemma TrimTimed(g: Grid, c: seq<Record>, n: nat)
    requires Chain(g, c) && n < Count(c)
    ensures n <= |Payloads(c)|
    ensures TimedRecords(c) == Timed(c[0].start, g.p, Payloads(c)[..n]) + TimedRecords(Trim(g, c, n))
    ensures Trim(g, c, n) != [] && Trim(g, c, n)[0].start == Later(c[0].start, g.p, n)
  {
    TrimIs(g, c, n);
    var d := Trim(g, c, n);
    TrimStart(g, c, d, n);
    ChainTimed(g, c);
    ChainTimed(g, d);
    hide Timed, TimedRecords, Payloads, Count, Chain, Later, Trim;
    assert Payloads(c) == Payloads(c)[..n] + Payloads(c)[n..];
    TimedConcat(c[0].start, g.p, Payloads(c)[..n], Payloads(c)[n..]);
  }

  lemma TrimStart(g: Grid, c: seq<Record>, d: seq<Record>, n: nat)
    requires Chain(g, c) && Chain(g, d) && Lo(g, d) == Lo(g, c) + n
    ensures d[0].start == Later(c[0].start, g.p, n)
  {
    assert OnGrid(g, c[0]) && OnGrid(g, d[0]);
    hide Cell;
    Distance(g, Lo(g, d), Lo(g, c));
    assert g.p * n == n * g.p;
  }

  /** The chains after the one at i gave up n samples. */
  ghost function Taken(g: Grid, cs: seq<seq<Record>>, i: nat, n: nat): seq<seq<Record>>
    requires i < |cs| && Chain(g, cs[i]) && n <= Count(cs[i])
  {
    if n == Count(cs[i]) then RemoveAt(cs, i) else cs[i := Trim(g, cs[i], n)]
  }

  /** A chain's segment has as many samples as it counts. */
  lemma {:induction false} ChainCounts(g: Grid, c: seq<Record>)
    requires Chain(g, c)
    ensures |Payloads(c)| == Count(c) > 0
  {
    TailChain(g, c);
    assert OnGrid(g, c[0]);
    hide OnGrid, Payloads, Count;
    if |c| > 1 {
      ChainCounts(g, c[1..]);
    } else {
      assert c[1..] == [];
      NoPayloads();
    }
  }

  lemma NoPayloads()
    ensures Payloads([]) == [] && Count([]) == 0
  {}

  lemma GivenUpIs(g: Grid, c: seq<Record>, n: nat, o: Opts)
    requires Chain(g, c) && n < Count(c) && !o.keeprecs
    ensures n <= |SegOf(g, c, o).data| && n <= SegOf(g, c, o).samplecnt && Trim(g, c, n) != []
    ensures SegOf(g, Trim(g, c, n), o) == Rest(SegOf(g, c, o), g.p, n)
  {
    TrimIs(g, c, n);
    TrimTimed(g, c, n);
    ChainCounts(g, c);
    hide Payloads, Count, Chain, Trim, TimedRecords, Timed, Later, End;
  }

  lemma TakenCanon(g: Grid, cs: seq<seq<Record>>, i: nat, d: seq<Record>)
    requires Canon(g, cs) && i < |cs| && Chain(g, d) && Lo(g, d) >= Lo(g, cs[i]) && Hi(g, d) == Hi(g, cs[i])
    ensures Canon(g, cs[i := d]) && Canon(g, RemoveAt(cs, i))
  {
    hide Chain, Lo, Hi;
  }

  lemma TakenNonEmpty(g: Grid, cs: seq<seq<Record>>, i: nat, d: seq<Record>, o: Opts)
    requires AllNonEmpty(cs) && i < |cs| && d != []
    ensures AllNonEmpty(cs[i := d]) && AllNonEmpty(RemoveAt(cs, i))
    ensures Segs(g, cs[i := d], o) == Segs(g, cs, o)[i := SegOf(g, d, o)]
    ensures Segs(g, RemoveAt(cs, i), o) == RemoveAt(Segs(g, cs, o), i)
  {
    hide SegOf;
  }

  lemma TakenHeld(cs: seq<seq<Record>>, i: nat, d: seq<Record>)
    requires i < |cs|
    ensures Flatten(cs) == Flatten(cs[..i]) + cs[i] + Flatten(cs[i + 1..])
    ensures Flatten(cs[i := d]) == Flatten(cs[..i]) + d + Flatten(cs[i + 1..])
    ensures Flatten(RemoveAt(cs, i)) == Flatten(cs[..i]) + Flatten(cs[i + 1..])
  {
    assert cs == cs[..i] + [cs[i]] + cs[i + 1..] && cs[i := d] == cs[..i] + [d] + cs[i + 1..];
    FlattenMiddle(cs[..i], cs[i], cs[i + 1..]);
    FlattenMiddle(cs[..i], d, cs[i + 1..]);
    FlattenConcat(cs[..i], cs[i + 1..]);
  }

  lemma TimedMiddle(a: seq<Record>, x: seq<Record>, b: seq<Record>)
    ensures TimedRecords(a + x + b) == TimedRecords(x) + TimedRecords(a + b)
  {
    hide TimedRecords;
    TimedRecordsConcat(a + x, b);
    TimedRecordsConcat(a, x);
    TimedRecordsConcat(a, b);
  }

  /** Each record is a part of one of these. */
  ghost predicate AllInside(g: Grid, hs: seq<Record>, qs: seq<Record>) {
    forall h :: h in hs ==> exists q :: q in qs && Inside(g, h, q)
  }

  lemma InsideMiddle(g: Grid, a: seq<Record>, c: seq<Record>, d: seq<Record>, b: seq<Record>, qs: seq<Record>)
    requires AllInside(g, a + c + b, qs) && AllInside(g, d, c)
    ensures AllInside(g, a + d + b, qs) && AllInside(g, a + b, qs)
  {
    forall h | h in a + d + b ensures exists q :: q in qs && Inside(g, h, q) {
      if h in d {
        var k :| k in c && Inside(g, h, k);
        assert k in a + c + b;
        var q :| q in qs && Inside(g, k, q);
        assert Inside(g, h, q);
      } else {
        assert h in a + c + b;
      }
    }
    forall h | h in a + b ensures exists q :: q in qs && Inside(g, h, q) {
      assert h in a + c + b;
    }
  }

  /** The extent of an ID whose segments gave up samples still includes what is left. */
  lemma TakenExtent(g: Grid, cs: seq<seq<Record>>, i: nat, d: seq<Record>)
    requires g.p > 0 && Canon(g, cs) && i < |cs| && Chain(g, d) && Lo(g, d) >= Lo(g, cs[i]) && Hi(g, d) == Hi(g, cs[i])
    ensures At(g, Lo(g, cs[0])) <= At(g, Lo(g, cs[i := d][0]))
    ensures At(g, Hi(g, cs[|cs| - 1]) - 1) >= At(g, Hi(g, cs[i := d][|cs| - 1]) - 1)
    ensures var rest := RemoveAt(cs, i); rest != [] ==>
              && At(g, Lo(g, cs[0])) <= At(g, Lo(g, rest[0]))
              && At(g, Hi(g, cs[|cs| - 1]) - 1) >= At(g, Hi(g, rest[|rest| - 1]) - 1)
  {
    hide *;
    var rest := RemoveAt(cs, i);
    EndsWithin(g, cs, i, d);
    AtOrder(g, Lo(g, cs[0]), Lo(g, cs[i := d][0]));
    if rest != [] {
      AtOrder(g, Lo(g, cs[0]), Lo(g, rest[0]));
      AtOrder(g, Hi(g, rest[|rest| - 1]) - 1, Hi(g, cs[|cs| - 1]) - 1);
    }
  }

  lemma EndsWithin(g: Grid, cs: seq<seq<Record>>, i: nat, d: seq<Record>)
    requires g.p > 0 && Canon(g, cs) && i < |cs| && Chain(g, d) && Lo(g, d) >= Lo(g, cs[i]) && Hi(g, d) == Hi(g, cs[i])
    ensures Lo(g, cs[0]) <= Lo(g, cs[i := d][0]) && Hi(g, cs[i := d][|cs| - 1]) == Hi(g, cs[|cs| - 1])
    ensures var rest := RemoveAt(cs, i); rest != [] ==>
              Lo(g, cs[0]) <= Lo(g, rest[0]) && Hi(g, rest[|rest| - 1]) <= Hi(g, cs[|cs| - 1])
  {
    hide *;
    var rest, n := RemoveAt(cs, i), |cs|;
    if rest != [] {
      CanonAt(g, cs, 0, n - 1);
      CanonAt(g, cs, 0, 1);
      CanonAt(g, cs, n - 2, n - 1);
      RemoveFacts(cs, i);
    }
  }

  /** Of two chains the later one is higher. */
  lemma CanonAt(g: Grid, cs: seq<seq<Record>>, i: nat, j: nat)
    requires Canon(g, cs) && i < j < |cs|
    ensures Lo(g, cs[i]) <= Lo(g, cs[j]) && Hi(g, cs[i]) <= Hi(g, cs[j])
  {
    ChainSpan(g, cs[i]);
    ChainSpan(g, cs[j]);
    hide Chain, Lo, Hi;
  }

  lemma AtOrder(g: Grid, k: int, m: int)
    requires g.p > 0
    ensures k <= m ==> At(g, k) <= At(g, m)
  {
    AtGrows(g, k, m);
  }

  // ---------------------------------------------------------------- one step

  /** The store holds the segments of these chains, each record of which is a part of one that was added, and the
      samples added are those emitted and those held, at the times they had. */
  ghost predicate Keeps(st: Store, g: Grid, cs: seq<seq<Record>>, puts: seq<Record>, o: Opts) {
    && Canon(g, cs) && AllNonEmpty(cs) && (st.id.None? <==> cs == [])
    && (st.id.Some? ==> Carries(st.id.value, g, cs, o))
    && AllInside(g, Flatten(cs), puts)
    && st.emitted + TimedRecords(Flatten(cs)) == TimedRecords(puts)
  }

  lemma InsideApart(g: Grid, cs: seq<seq<Record>>, puts: seq<Record>, r: Record)
    requires AllInside(g, Flatten(cs), puts) && forall q :: q in puts ==> Disjoint(g, q, r)
    ensures forall h :: h in Held(cs) ==> Disjoint(g, h, r)
  {
    hide Cell, Past;
    forall h | h in Held(cs) ensures Disjoint(g, h, r) {
      assert h in Flatten(cs);
      var q :| q in puts && Inside(g, h, q);
      assert Disjoint(g, q, r);
    }
  }

  lemma InsideMore(g: Grid, hs: seq<Record>, hs': seq<Record>, puts: seq<Record>, r: Record)
    requires AllInside(g, hs, puts) && multiset(hs') == multiset(hs) + multiset{r}
    ensures AllInside(g, hs', puts + [r])
  {
    hide Cell, Past;
    forall h | h in hs' ensures exists q :: q in puts + [r] && Inside(g, h, q) {
      assert h in multiset(hs');
      if h in hs {
        var q :| q in puts && Inside(g, h, q);
        assert q in puts + [r];
      } else {
        assert h == r && r in puts + [r] && Inside(g, r, r);
      }
    }
  }

  lemma PutsMore(puts: seq<Record>, r: Record)
    ensures TimedRecords(puts + [r]) == TimedRecords(puts) + TimedRecord(r)
  {
    TimedRecordsConcat(puts, [r]);
    TimedOne(r);
  }

  lemma MakeKeeps(st: Store, g: Grid, cs: seq<seq<Record>>, puts: seq<Record>, o: Opts)
    requires Canon(g, cs) && AllNonEmpty(cs) && (st.id.None? <==> cs == [])
    requires st.id.Some? ==> Carries(st.id.value, g, cs, o)
    requires AllInside(g, Flatten(cs), puts) && st.emitted + TimedRecords(Flatten(cs)) == TimedRecords(puts)
    ensures Keeps(st, g, cs, puts, o)
  {}

  lemma KeepsGives(st: Store, g: Grid, cs: seq<seq<Record>>, puts: seq<Record>, o: Opts)
    requires Keeps(st, g, cs, puts, o)
    ensures Canon(g, cs) && AllNonEmpty(cs) && (st.id.None? <==> cs == [])
    ensures st.id.Some? ==> Carries(st.id.value, g, cs, o) && st.id.value.segs != []
    ensures AllInside(g, Flatten(cs), puts) && st.emitted + TimedRecords(Flatten(cs)) == TimedRecords(puts)
    ensures HasSegs(st)
  {}

  lemma FirstPut(g: Grid, r: Record, puts: seq<Record>, o: Opts)
    requires OnGrid(g, r)
    ensures FirstRecord(r, o).Some? && Carries(FirstRecord(r, o).value, g, [[r]], o)
    ensures Canon(g, [[r]]) && AllNonEmpty([[r]]) && AllInside(g, Flatten([[r]]), puts + [r])
    ensures TimedRecords(Flatten([[r]])) == TimedRecord(r) && TimedRecords(Flatten([])) == multiset{}
  {
    FirstOnGrid(g, r, o);
    HoldsCarries(FirstRecord(r, o).value, g, [[r]], o);
    assert Flatten([[r]]) == [r] && Inside(g, r, r) && r in puts + [r];
    TimedOne(r);
    hide Cell, Past, OnGrid, Canon;
    forall h | h in [r] ensures exists q :: q in puts + [r] && Inside(g, h, q) {
      assert h == r;
    }
  }

  lemma CarriesCanon(id: IdState, g: Grid, cs: seq<seq<Record>>, o: Opts)
    requires Carries(id, g, cs, o)
    ensures Canon(g, cs) && AllNonEmpty(cs) && cs != []
  {}

  lemma Balance<T>(e: multiset<T>, held: multiset<T>, now: multiset<T>, x: multiset<T>, all: multiset<T>)
    requires e + held == all && now == held + x
    ensures e + now == all + x
  {}

  lemma AddedOf(st: Store, r: Record, p: nat, o: Opts)
    requires HasSegs(st)
    ensures var now := Do(st, p, Put(r), o);
            && now.emitted == st.emitted
            && (st.id.None? ==> now.id == FirstRecord(r, o))
            && (st.id.Some? ==> st.id.value.segs != [] && now.id == Some(AddRecord(st.id.value, r, o).id))
  {
    hide AddRecord, FirstRecord;
  }

  lemma HeldIsFlatten(cs: seq<seq<Record>>)
    ensures Held(cs) == multiset(Flatten(cs))
  {}

  /** Adding a record that shares no cell with those added before. */
  lemma PutStep(st: Store, g: Grid, cs: seq<seq<Record>>, puts: seq<Record>, r: Record, o: Opts)
    returns (ds: seq<seq<Record>>)
    requires Keeps(st, g, cs, puts, o) && HasSegs(st) && Usual(g, o) && OnGrid(g, r)
    requires forall q :: q in puts ==> Disjoint(g, q, r)
    ensures Keeps(Do(st, g.p, Put(r), o), g, ds, puts + [r], o)
  {
    hide *;
    KeepsGives(st, g, cs, puts, o);
    AddedOf(st, r, g.p, o);
    PutsMore(puts, r);
    if st.id.None? {
      ds := [[r]];
      FirstPut(g, r, puts, o);
      Balance(st.emitted, TimedRecords(Flatten(cs)), TimedRecords(Flatten(ds)), TimedRecord(r), TimedRecords(puts));
    } else {
      InsideApart(g, cs, puts, r);
      CanonOrdered(g, cs);
      HeldApart(g, cs, r);
      var j := FindPlace(g, cs, r, |cs|);
      ds := Insert(g, cs, r, j);
      CarriesStep(st.id.value, g, cs, r, o, j);
      CarriesCanon(AddRecord(st.id.value, r, o).id, g, ds, o);
      InsertTimed(g, cs, r, j);
      InsertKeepsRecords(g, cs, r, j);
      HeldIsFlatten(cs);
      HeldIsFlatten(ds);
      InsideMore(g, Flatten(cs), Flatten(ds), puts, r);
      Balance(st.emitted, TimedRecords(Flatten(cs)), TimedRecords(Flatten(ds)), TimedRecord(r), TimedRecords(puts));
    }
    MakeKeeps(Do(st, g.p, Put(r), o), g, ds, puts + [r], o);
  }

  lemma TakenOf(st: Store, i: nat, n: nat, p: nat, o: Opts)
    requires HasSegs(st)
    ensures var now := Do(st, p, Take(i, n), o);
            if st.id.None? || !CanTake(st.id.value.segs, i, n) then now == st
            else
              var segs := st.id.value.segs;
              && CanTake(segs, i, n) && i < |segs| && n <= |segs[i].data| && n <= segs[i].samplecnt
              && var left := GivenUp(segs, p, i, n);
                 && now.id == (if left == [] then None else Some(st.id.value.(segs := left)))
                 && now.emitted == st.emitted + Timed(segs[i].start, p, segs[i].data[..n])
  {}

  /** The segment at i is that of the chain at i. */
  lemma SegAt(id: IdState, g: Grid, cs: seq<seq<Record>>, i: nat, o: Opts)
    requires Carries(id, g, cs, o) && i < |id.segs|
    ensures i < |cs| == |id.segs| && cs[i] != [] && Chain(g, cs[i]) && id.segs[i] == SegOf(g, cs[i], o)
    ensures id.segs[i].start == cs[i][0].start && id.segs[i].data == Payloads(cs[i])
    ensures id.segs[i].samplecnt == Count(cs[i]) == |Payloads(cs[i])| > 0 && g.p > 0
  {
    ChainCounts(g, cs[i]);
    ChainTimes(g, cs[i], o);
    hide Chain, Payloads, Count;
  }

  /** All of a chain is taken. */
  lemma TakeAll(id: IdState, g: Grid, cs: seq<seq<Record>>, i: nat, o: Opts)
    requires Carries(id, g, cs, o) && i < |id.segs|
    ensures var rest := RemoveAt(id.segs, i);
            && i < |cs| && Canon(g, RemoveAt(cs, i)) && AllNonEmpty(RemoveAt(cs, i))
            && (rest == [] <==> RemoveAt(cs, i) == [])
            && (rest != [] ==> Carries(id.(segs := rest), g, RemoveAt(cs, i), o))
  {
    hide *;
    SegAt(id, g, cs, i, o);
    CarriesGives(id, g, cs, o);
    TakenCanon(g, cs, i, cs[i]);
    TakenNonEmpty(g, cs, i, cs[i], o);
    TakenExtent(g, cs, i, cs[i]);
    if RemoveAt(id.segs, i) != [] {
      CarriesIs(id.(segs := RemoveAt(id.segs, i)), g, RemoveAt(cs, i), o);
    }
  }

  /** A part of a chain is taken. */
  lemma TakeSome(id: IdState, g: Grid, cs: seq<seq<Record>>, i: nat, n: nat, o: Opts)
    requires Carries(id, g, cs, o) && i < |id.segs| && i < |cs| && Chain(g, cs[i]) && n < Count(cs[i]) && !o.keeprecs
    ensures var ds := cs[i := Trim(g, cs[i], n)];
            && n <= |id.segs[i].data| && n <= id.segs[i].samplecnt
            && Canon(g, ds) && AllNonEmpty(ds)
            && Carries(id.(segs := id.segs[i := Rest(id.segs[i], g.p, n)]), g, ds, o)
  {
    hide *;
    var d := Trim(g, cs[i], n);
    SegAt(id, g, cs, i, o);
    CarriesGives(id, g, cs, o);
    TrimIs(g, cs[i], n);
    GivenUpIs(g, cs[i], n, o);
    TakenCanon(g, cs, i, d);
    TakenNonEmpty(g, cs, i, d, o);
    TakenExtent(g, cs, i, d);
    CarriesIs(id.(segs := id.segs[i := Rest(id.segs[i], g.p, n)]), g, cs[i := d], o);
  }

  /** What is taken and what is left have the samples there were. */
  lemma TakeTimed(g: Grid, cs: seq<seq<Record>>, i: nat, n: nat, puts: seq<Record>)
    requires i < |cs| && Chain(g, cs[i]) && 0 < n <= Count(cs[i]) && AllInside(g, Flatten(cs), puts)
    ensures n <= |Payloads(cs[i])|
    ensures var ds := Taken(g, cs, i, n);
            && TimedRecords(Flatten(cs)) == Timed(cs[i][0].start, g.p, Payloads(cs[i])[..n]) + TimedRecords(Flatten(ds))
            && AllInside(g, Flatten(ds), puts)
  {
    var c := cs[i];
    var a, b := Flatten(cs[..i]), Flatten(cs[i + 1..]);
    TakenIs(g, cs, i, n);
    hide *;
    ChainCounts(g, c);
    if n == Count(c) {
      TakenHeld(cs, i, c);
      ChainTimed(g, c);
      assert Payloads(c)[..n] == Payloads(c);
      TimedMiddle(a, c, b);
      NothingInside(g, c);
      InsideMiddle(g, a, c, [], b, puts);
    } else {
      var d := Trim(g, c, n);
      TakenHeld(cs, i, d);
      TrimTimed(g, c, n);
      TrimIs(g, c, n);
      TrimInside(g, c, n);
      TimedMiddle(a, c, b);
      TimedMiddle(a, d, b);
      SumAssoc(Timed(c[0].start, g.p, Payloads(c)[..n]), TimedRecords(d), TimedRecords(a + b));
      InsideMiddle(g, a, c, d, b, puts);
    }
  }

  lemma TakenIs(g: Grid, cs: seq<seq<Record>>, i: nat, n: nat)
    requires i < |cs| && Chain(g, cs[i]) && n <= Count(cs[i])
    ensures Taken(g, cs, i, n) == if n == Count(cs[i]) then RemoveAt(cs, i) else cs[i := Trim(g, cs[i], n)]
  {}

  lemma NothingInside(g: Grid, c: seq<Record>)
    ensures AllInside(g, [], c)
  {}

  lemma TrimInside(g: Grid, c: seq<Record>, n: nat)
    requires Chain(g, c) && n < Count(c)
    ensures AllInside(g, Trim(g, c, n), c)
  {
    TrimIs(g, c, n);
    hide Chain, Trim, Payloads, Count, Inside;
  }

  lemma Move<T>(e: multiset<T>, held: multiset<T>, x: multiset<T>, now: multiset<T>, all: multiset<T>)
    requires e + held == all && held == x + now
    ensures (e + x) + now == all
  {}

  /** Packing the first samples of a segment. */
  lemma TakeStep(st: Store, g: Grid, cs: seq<seq<Record>>, puts: seq<Record>, i: nat, n: nat, o: Opts)
    returns (ds: seq<seq<Record>>)
    requires Keeps(st, g, cs, puts, o) && HasSegs(st) && !o.keeprecs
    ensures Keeps(Do(st, g.p, Take(i, n), o), g, ds, puts, o)
  {
    hide *;
    KeepsGives(st, g, cs, puts, o);
    TakenOf(st, i, n, g.p, o);
    ds := cs;
    if st.id.Some? {
      var id := st.id.value;
      if CanTake(id.segs, i, n) {
        CanTakeIs(id.segs, i, n);
        SegAt(id, g, cs, i, o);
        TakenIs(g, cs, i, n);
        ds := Taken(g, cs, i, n);
        TakeTimed(g, cs, i, n, puts);
        LeftIs(id.segs, g.p, i, n);
        if n == Count(cs[i]) {
          TakeAll(id, g, cs, i, o);
        } else {
          TakeSome(id, g, cs, i, n, o);
          CarriesCanon(id.(segs := GivenUp(id.segs, g.p, i, n)), g, ds, o);
        }
        Move(st.emitted, TimedRecords(Flatten(cs)), Timed(id.segs[i].start, g.p, id.segs[i].data[..n]),
             TimedRecords(Flatten(ds)), TimedRecords(puts));
        MakeKeeps(Do(st, g.p, Take(i, n), o), g, ds, puts, o);
      }
    }
  }

  lemma CanTakeIs(segs: seq<Seg>, i: nat, n: nat)
    requires CanTake(segs, i, n)
    ensures i < |segs| && 0 < n <= |segs[i].data| && n <= segs[i].samplecnt
  {}

  lemma LeftIs(segs: seq<Seg>, p: nat, i: nat, n: nat)
    requires i < |segs| && n <= |segs[i].data| && n <= segs[i].samplecnt
    ensures GivenUp(segs, p, i, n)
            == if n == |segs[i].data| then RemoveAt(segs, i) else segs[i := Rest(segs[i], p, n)]
  {}

  // ---------------------------------------------------------------- whole runs

  lemma PutsPrefix(g: Grid, ops: seq<Op>)
    requires ops != [] && GridRecords(g, Puts(ops))
    ensures var front, op := ops[..|ops| - 1], ops[|ops| - 1];
            && GridRecords(g, Puts(front)) && Puts(ops) == Puts(front) + (if op.Put? then [op.r] else [])
            && (op.Put? ==> OnGrid(g, op.r) && forall q :: q in Puts(front) ==> Disjoint(g, q, op.r))
  {
    hide OnGrid, Disjoint;
    var n, op := |Puts(ops[..|ops| - 1])|, ops[|ops| - 1];
    if op.Put? {
      assert Puts(ops)[n] == op.r && Puts(ops)[..n] == Puts(ops[..|ops| - 1]);
      GridPrefix(g, Puts(ops), n);
    } else {
      assert Puts(ops) == Puts(ops[..|ops| - 1]);
    }
  }

  lemma NothingYet(g: Grid, o: Opts)
    ensures Keeps(Store(None, multiset{}), g, [], [], o) && HasSegs(Store(None, multiset{}))
  {}

  lemma LastOp(p: nat, ops: seq<Op>, o: Opts)
    requires ops != []
    ensures HasSegs(DoAll(p, ops[..|ops| - 1], o))
    ensures DoAll(p, ops, o) == Do(DoAll(p, ops[..|ops| - 1], o), p, ops[|ops| - 1], o)
  {
    hide Do;
  }

  lemma NoOps(p: nat, o: Opts)
    ensures DoAll(p, [], o) == Store(None, multiset{}) && Puts([]) == []
  {}

  lemma {:induction false} RunKeeps(g: Grid, ops: seq<Op>, o: Opts) returns (cs: seq<seq<Record>>)
    requires Usual(g, o) && !o.keeprecs && GridRecords(g, Puts(ops))
    ensures Keeps(DoAll(g.p, ops, o), g, cs, Puts(ops), o)
  {
    hide *;
    if ops == [] {
      cs := [];
      NoOps(g.p, o);
      NothingYet(g, o);
    } else {
      var front := ops[..|ops| - 1];
      PutsPrefix(g, ops);
      LastOp(g.p, ops, o);
      var was := RunKeeps(g, front, o);
      match ops[|ops| - 1]
      case Put(r) =>
        cs := PutStep(DoAll(g.p, front, o), g, was, Puts(front), r, o);
      case Take(i, n) =>
        cs := TakeStep(DoAll(g.p, front, o), g, was, Puts(front), i, n, o);
        assert Puts(front) + [] == Puts(front);
    }
  }

  /** A store whose segments have no record lists. */
  function UnlistedStore(st: Store): Store {
    st.(id := if st.id.None? then None else Some(UnlistedId(st.id.value)))
  }

  lemma UnlistedTake(segs: seq<Seg>, p: nat, i: nat, n: nat)
    ensures CanTake(UnlistedAll(segs), i, n) == CanTake(segs, i, n)
    ensures CanTake(segs, i, n) ==> UnlistedAll(GivenUp(segs, p, i, n)) == GivenUp(UnlistedAll(segs), p, i, n)
  {
    if CanTake(segs, i, n) {
      UnlistedLists(segs, i, Rest(segs[i], p, n));
    }
  }

  lemma UnlistedDo(st: Store, p: nat, op: Op, o: Opts)
    requires HasSegs(st)
    ensures HasSegs(UnlistedStore(st)) && Do(UnlistedStore(st), p, op, NoLists(o)) == UnlistedStore(Do(st, p, op, o))
  {
    match op
    case Put(r) =>
      UnlistedFirst(r, o);
      if st.id.Some? {
        UnlistedAdd(st.id.value, r, o);
      }
      hide AddRecord, FirstRecord;
    case Take(i, n) =>
      hide Timed, CanTake, GivenUp;
      if st.id.Some? {
        UnlistedTake(st.id.value.segs, p, i, n);
        if CanTake(st.id.value.segs, i, n) {
          CanTakeUnlisted(st.id.value.segs, i, n);
        }
      }
  }

  lemma CanTakeUnlisted(segs: seq<Seg>, i: nat, n: nat)
    requires CanTake(segs, i, n)
    ensures i < |segs| && n <= |segs[i].data|
    ensures UnlistedAll(segs)[i].start == segs[i].start && UnlistedAll(segs)[i].data == segs[i].data
  {}

  lemma {:induction false} UnlistedDoAll(p: nat, ops: seq<Op>, o: Opts)
    ensures DoAll(p, ops, NoLists(o)) == UnlistedStore(DoAll(p, ops, o))
  {
    hide Do;
    if ops != [] {
      UnlistedDoAll(p, ops[..|ops| - 1], o);
      UnlistedDo(DoAll(p, ops[..|ops| - 1], o), p, ops[|ops| - 1], o);
    }
  }

  lemma UnlistedUsual(g: Grid, o: Opts)
    requires Usual(g, o)
    ensures Usual(g, NoLists(o)) && !NoLists(o).keeprecs
  {}

  lemma {:induction false} UnlistedTimed(p: nat, segs: seq<Seg>)
    ensures TimedSegs(p, UnlistedAll(segs)) == TimedSegs(p, segs)
  {
    hide Timed;
    if segs != [] {
      assert UnlistedAll(segs)[1..] == UnlistedAll(segs[1..]);
      UnlistedTimed(p, segs[1..]);
    }
  }

  lemma UnlistedSorted(segs: seq<Seg>)
    requires Sorted(UnlistedAll(segs))
    ensures Sorted(segs)
  {
    var us := UnlistedAll(segs);
    forall i, j | 0 <= i < j < |segs| ensures !Precedes(segs[j], segs[i]) {
      assert !Precedes(us[j], us[i]);
    }
  }

  lemma UnlistedIs(st: Store)
    ensures var u := UnlistedStore(st);
            && u.emitted == st.emitted && (u.id.None? <==> st.id.None?)
            && (st.id.Some? ==> u.id.value.segs == UnlistedAll(st.id.value.segs))
  {}

  /** Disjoint records of one grid, added in any order with any packing in between: the segments are always the
      maximal contiguous runs of what was not packed yet, in time order; and the samples packed and those in the
      buffers are together exactly the samples added, each at its time. */
  lemma Interleaved(g: Grid, ops: seq<Op>, o: Opts) returns (cs: seq<seq<Record>>)
    requires Usual(g, o) && GridRecords(g, Puts(ops))
    ensures var st := DoAll(g.p, ops, o);
            && Canon(g, cs) && AllNonEmpty(cs) && (st.id.None? <==> cs == [])
            && (st.id.Some? ==> UnlistedAll(st.id.value.segs) == Segs(g, cs, NoLists(o)) && Sorted(st.id.value.segs))
            && st.emitted + TimedSegs(g.p, if st.id.None? then [] else st.id.value.segs) == TimedRecords(Puts(ops))
  {
    hide *;
    var st, u := DoAll(g.p, ops, o), NoLists(o);
    UnlistedUsual(g, o);
    UnlistedDoAll(g.p, ops, o);
    UnlistedIs(st);
    cs := RunKeeps(g, ops, u);
    KeepsGives(UnlistedStore(st), g, cs, Puts(ops), u);
    SegsTimed(g, cs, u);
    if st.id.Some? {
      CarriesGives(UnlistedStore(st).id.value, g, cs, u);
      CanonSorted(g, cs, u);
      UnlistedSorted(st.id.value.segs);
      UnlistedTimed(g.p, st.id.value.segs);
    } else {
      NoSegs(g, u);
    }
  }

  lemma NoSegs(g: Grid, o: Opts)
    ensures Segs(g, [], o) == []
  {}

  // ---------------------------------------------------------------- what the packer does to an ID

  /** The packer's segments are those of the ID. */
  ghost predicate Alike(gs: seq<R.Segment>, segs: seq<Seg>, p: nat) {
    |gs| == |segs| && forall i :: 0 <= i < |gs| ==> Same(gs[i], segs[i], p)
  }

  predicate Same(g: R.Segment, s: Seg, p: nat) {
    g.start == s.start && g.period == p && g.samples == s.data && s.samplecnt == |s.data| > 0
  }

  ghost predicate StoreHolds(st: Store, gs: seq<R.Segment>, p: nat) {
    if gs == [] then st.id.None? else st.id.Some? && Alike(gs, st.id.value.segs, p)
  }

  /** The packed samples of the first k segments, with their times. */
  function PackedOf(originals: seq<R.Segment>, emitted: seq<nat>, p: nat, k: nat): multiset<(int, Sample)>
    requires k <= |originals| == |emitted| && forall i :: 0 <= i < k ==> emitted[i] <= |originals[i].samples|
  {
    if k == 0 then multiset{}
    else
      PackedOf(originals, emitted, p, k - 1)
        + Timed(originals[k - 1].start, p, originals[k - 1].samples[..emitted[k - 1]])
  }

  /** Take from each segment what was packed of it, from the last to the first. */
  function Takes(emitted: seq<nat>): seq<Op> {
    if emitted == [] then []
    else [Take(|emitted| - 1, emitted[|emitted| - 1])] + Takes(emitted[..|emitted| - 1])
  }

  lemma {:induction false} TakesPutNothing(ops: seq<Op>, emitted: seq<nat>)
    ensures Puts(ops + Takes(emitted)) == Puts(ops)
    decreases |emitted|
  {
    hide *;
    if emitted == [] {
      TakesNone();
      assert ops + [] == ops;
    } else {
      var n := |emitted| - 1;
      var op := Take(n, emitted[n]);
      TakesFirst(emitted, n + 1);
      assert emitted[..n + 1] == emitted;
      assert ops + Takes(emitted) == (ops + [op]) + Takes(emitted[..n]);
      TakesPutNothing(ops + [op], emitted[..n]);
      TakePutsNothing(ops, n, emitted[n]);
    }
  }

  lemma TakePutsNothing(ops: seq<Op>, i: nat, n: nat)
    ensures Puts(ops + [Take(i, n)]) == Puts(ops)
  {
    assert (ops + [Take(i, n)])[..|ops|] == ops && Puts(ops) + [] == Puts(ops);
  }

  lemma DoAllMore(p: nat, ops: seq<Op>, op: Op, o: Opts)
    ensures HasSegs(DoAll(p, ops, o)) && DoAll(p, ops + [op], o) == Do(DoAll(p, ops, o), p, op, o)
  {
    hide Do;
    assert (ops + [op])[..|ops|] == ops;
  }

  lemma AlikeAt(gs: seq<R.Segment>, segs: seq<Seg>, p: nat, i: nat)
    requires Alike(gs, segs, p) && i < |gs|
    ensures |segs| == |gs| && Same(gs[i], segs[i], p)
  {}

  lemma SameGives(g: R.Segment, s: Seg, p: nat)
    requires Same(g, s, p)
    ensures g.start == s.start && g.samples == s.data && s.samplecnt == |s.data| > 0
  {}

  lemma SameRest(g: R.Segment, s: Seg, p: nat, n: nat)
    requires Same(g, s, p) && n < |g.samples|
    ensures Same(R.Rest(g, n), Rest(s, p, n), p)
  {}

  lemma AlikeGivenUp(gs: seq<R.Segment>, segs: seq<Seg>, p: nat, i: nat, n: nat)
    requires Alike(gs, segs, p) && i < |gs| && 0 < n <= |gs[i].samples|
    ensures CanTake(segs, i, n) && |R.GivenUp(gs, i, n)| == |GivenUp(segs, p, i, n)|
    ensures Alike(R.GivenUp(gs, i, n), GivenUp(segs, p, i, n), p)
  {
    AlikeAt(gs, segs, p, i);
    SameGives(gs[i], segs[i], p);
    if n < |gs[i].samples| {
      SameRest(gs[i], segs[i], p, n);
    }
    hide Same, Rest, R.Rest;
  }

  /** Packing n samples of the segment at i does to the ID what finishing the segment does to the packer's list. */
  lemma TakeIsFinish(st: Store, gs: seq<R.Segment>, p: nat, i: nat, n: nat, o: Opts)
    requires HasSegs(st) && StoreHolds(st, gs, p) && i < |gs| && n <= |gs[i].samples|
    ensures var now := Do(st, p, Take(i, n), o);
            && now.emitted == st.emitted + Timed(gs[i].start, p, gs[i].samples[..n])
            && StoreHolds(now, if n == 0 then gs else R.GivenUp(gs, i, n), p)
  {
    hide *;
    HoldsGives(st, gs, p);
    var segs := st.id.value.segs;
    AlikeAt(gs, segs, p, i);
    SameGives(gs[i], segs[i], p);
    TakenOf(st, i, n, p, o);
    if n == 0 {
      TakesNothing(segs, i);
      NoneTimedAt(gs[i].start, p);
      assert gs[i].samples[..0] == [];
    } else {
      AlikeGivenUp(gs, segs, p, i, n);
      MakeHolds(Do(st, p, Take(i, n), o), R.GivenUp(gs, i, n), GivenUp(segs, p, i, n), p);
    }
  }

  lemma HoldsGives(st: Store, gs: seq<R.Segment>, p: nat)
    requires StoreHolds(st, gs, p) && gs != []
    ensures st.id.Some? && Alike(gs, st.id.value.segs, p)
  {
    hide Alike;
  }

  lemma MakeHolds(st: Store, gs: seq<R.Segment>, segs: seq<Seg>, p: nat)
    requires Alike(gs, segs, p)
    requires if segs == [] then st.id.None? else st.id.Some? && st.id.value.segs == segs
    ensures StoreHolds(st, gs, p)
  {
    hide Same;
  }

  lemma TakesNothing(segs: seq<Seg>, i: nat)
    ensures !CanTake(segs, i, 0)
  {}

  lemma NoneTimedAt(start: int, p: nat)
    ensures Timed(start, p, []) == multiset{}
  {}

  /** The first k segments untouched, and those the packer has left of the others. */
  lemma {:induction false} TakesSteps(p: nat, ops: seq<Op>, o: Opts, originals: seq<R.Segment>, emitted: seq<nat>,
                                      segs: seq<R.Segment>, k: nat, m: nat)
    requires R.Conserves(originals, emitted, segs, R.Idle) && k <= |originals| && m <= |segs|
    requires forall i :: 0 <= i < |originals| ==> originals[i].samples != []
    requires forall i :: 0 <= i < |segs| ==> (segs[i].key < k <==> i < m)
    requires StoreHolds(DoAll(p, ops, o), originals[..k] + segs[m..], p)
    ensures k <= |emitted| && forall i :: 0 <= i < k ==> emitted[i] <= |originals[i].samples|
    ensures StoreHolds(DoAll(p, ops + Takes(emitted[..k]), o), segs, p)
    ensures |emitted| == |originals|
            && DoAll(p, ops + Takes(emitted[..k]), o).emitted
               == DoAll(p, ops, o).emitted + PackedOf(originals, emitted, p, k)
    decreases k
  {
    hide *;
    R.EmittedWithin(originals, emitted, segs, R.Idle);
    WithinGives(originals, emitted);
    if k == 0 {
      assert m > 0 ==> segs[0].key < k;
      NothingPacked(originals, emitted, p);
      TakesNone();
      assert originals[..0] + segs[0..] == segs && emitted[..0] == [] && ops + [] == ops;
    } else {
      var j, n := k - 1, emitted[k - 1];
      var gs := originals[..k] + segs[m..];
      var m' := LeftOf(originals, emitted, segs, j, m);
      var op := Take(j, n);
      var more := ops + [op];
      assert gs[j] == originals[j];
      DoAllMore(p, ops, op, o);
      TakeIsFinish(DoAll(p, ops, o), gs, p, j, n, o);
      TakesSteps(p, more, o, originals, emitted, segs, j, m');
      TakesFirst(emitted, k);
      assert ops + Takes(emitted[..k]) == more + Takes(emitted[..j]);
      PackedLast(originals, emitted, p, k);
      Swapped(DoAll(p, ops, o).emitted, PackedOf(originals, emitted, p, j),
              Timed(originals[j].start, p, originals[j].samples[..n]));
    }
  }

  lemma Swapped<T>(a: multiset<T>, b: multiset<T>, c: multiset<T>)
    ensures (a + c) + b == a + (b + c)
  {}

  lemma WithinGives(originals: seq<R.Segment>, emitted: seq<nat>)
    requires R.Within(originals, emitted)
    ensures |emitted| == |originals| && forall i :: 0 <= i < |originals| ==> emitted[i] <= |originals[i].samples|
  {}

  lemma NothingPacked(originals: seq<R.Segment>, emitted: seq<nat>, p: nat)
    requires |originals| == |emitted|
    ensures PackedOf(originals, emitted, p, 0) == multiset{}
  {}

  lemma TakesNone()
    ensures Takes([]) == []
  {}

  lemma PackedLast(originals: seq<R.Segment>, emitted: seq<nat>, p: nat, k: nat)
    requires 0 < k <= |originals| == |emitted| && forall i :: 0 <= i < k ==> emitted[i] <= |originals[i].samples|
    ensures PackedOf(originals, emitted, p, k)
            == PackedOf(originals, emitted, p, k - 1)
               + Timed(originals[k - 1].start, p, originals[k - 1].samples[..emitted[k - 1]])
  {}

  lemma TakesFirst(emitted: seq<nat>, k: nat)
    requires 0 < k <= |emitted|
    ensures Takes(emitted[..k]) == [Take(k - 1, emitted[k - 1])] + Takes(emitted[..k - 1])
  {
    assert emitted[..k][..k - 1] == emitted[..k - 1];
  }

  /** What the packer has left of the segment of key j: the rest of it, or it is gone. */
  lemma LeftOf(originals: seq<R.Segment>, emitted: seq<nat>, segs: seq<R.Segment>, j: nat, m: nat) returns (m': nat)
    requires R.Conserves(originals, emitted, segs, R.Idle) && j < |originals| == |emitted| && m <= |segs|
    requires originals[j].samples != [] && emitted[j] <= |originals[j].samples|
    requires forall i :: 0 <= i < |segs| ==> (segs[i].key < j + 1 <==> i < m)
    ensures m' <= |segs| && forall i :: 0 <= i < |segs| ==> (segs[i].key < j <==> i < m')
    ensures var gs, n := originals[..j + 1] + segs[m..], emitted[j];
            (if n == 0 then gs else R.GivenUp(gs, j, n)) == originals[..j] + segs[m'..]
  {
    R.ConservesGives(originals, emitted, segs, R.Idle);
    R.HeldOrOut(originals, emitted, segs, R.Idle);
    var gs, n := originals[..j + 1] + segs[m..], emitted[j];
    if m > 0 && segs[m - 1].key == j {
      m' := m - 1;
      R.IdleHolds(originals, emitted, segs, m - 1);
      StillSome(originals, emitted, segs, m - 1);
      hide *;
      RestIs(originals[j], n);
      UpdatedAt(originals, segs, j, m, n);
    } else {
      m' := m;
      assert !R.IsHeld(segs, j) by {
        forall i | 0 <= i < |segs| ensures segs[i].key != j {
          if i < m - 1 {
            assert segs[i].key < segs[m - 1].key < j + 1;
          }
        }
      }
      assert n == |originals[j].samples|;
      hide *;
      GoneAt(originals, segs, j, m, n);
    }
  }

  lemma RestIs(g: R.Segment, n: nat)
    requires n <= |g.samples|
    ensures n == 0 ==> R.Rest(g, n) == g
  {
    assert g.samples[0..] == g.samples;
  }

  lemma StillSome(originals: seq<R.Segment>, emitted: seq<nat>, segs: seq<R.Segment>, i: nat)
    requires R.Conserves(originals, emitted, segs, R.Idle) && i < |segs| && segs[i].key < |originals| == |emitted|
    requires originals[segs[i].key].samples != []
    ensures emitted[segs[i].key] < |originals[segs[i].key].samples|
  {
    R.ConservedAt(originals, emitted, segs, i, 0, i);
  }

  lemma UpdatedAt(originals: seq<R.Segment>, segs: seq<R.Segment>, j: nat, m: nat, n: nat)
    requires j < |originals| && 0 < m <= |segs| && n < |originals[j].samples| && segs[m - 1] == R.Rest(originals[j], n)
    requires n == 0 ==> R.Rest(originals[j], n) == originals[j]
    ensures var gs := originals[..j + 1] + segs[m..];
            (if n == 0 then gs else R.GivenUp(gs, j, n)) == originals[..j] + segs[m - 1..]
  {
    var gs := originals[..j + 1] + segs[m..];
    assert gs[j] == originals[j];
    assert gs[j := segs[m - 1]] == originals[..j] + segs[m - 1..];
    assert n == 0 ==> gs == gs[j := segs[m - 1]];
    hide R.Rest;
  }

  lemma GoneAt(originals: seq<R.Segment>, segs: seq<R.Segment>, j: nat, m: nat, n: nat)
    requires j < |originals| && m <= |segs| && 0 < n == |originals[j].samples|
    ensures var gs := originals[..j + 1] + segs[m..]; R.GivenUp(gs, j, n) == originals[..j] + segs[m..]
  {
    var gs := originals[..j + 1] + segs[m..];
    assert gs[j] == originals[j];
    assert RemoveAt(gs, j) == originals[..j] + segs[m..];
    hide R.Rest;
  }

  /** A drained run of the packer over the segments of an ID is a sequence of takes: they leave of the ID what the
      packer leaves of its list, and the samples that they take are those that are in records, at their times. */
  lemma DrainIsTakes(p: nat, ops: seq<Op>, o: Opts, originals: seq<R.Segment>, emitted: seq<nat>, segs: seq<R.Segment>)
    requires R.Conserves(originals, emitted, segs, R.Idle) && StoreHolds(DoAll(p, ops, o), originals, p)
    ensures |emitted| == |originals| && forall i :: 0 <= i < |originals| ==> emitted[i] <= |originals[i].samples|
    ensures var more := ops + Takes(emitted);
            && Puts(more) == Puts(ops) && StoreHolds(DoAll(p, more, o), segs, p)
            && DoAll(p, more, o).emitted == DoAll(p, ops, o).emitted + PackedOf(originals, emitted, p, |originals|)
  {
    hide *;
    R.ConservesGives(originals, emitted, segs, R.Idle);
    R.AllIdleHold(originals, emitted, segs);
    KeysWithin(originals, emitted, segs);
    AllSome(DoAll(p, ops, o), originals, p);
    TakesPutNothing(ops, emitted);
    assert originals[..|originals|] + segs[|segs|..] == originals && emitted[..|emitted|] == emitted;
    TakesSteps(p, ops, o, originals, emitted, segs, |originals|, |segs|);
  }

  lemma KeysWithin(originals: seq<R.Segment>, emitted: seq<nat>, segs: seq<R.Segment>)
    requires R.AllRest(originals, emitted, segs)
    ensures forall i :: 0 <= i < |segs| ==> segs[i].key < |originals|
  {}

  lemma AllSome(st: Store, gs: seq<R.Segment>, p: nat)
    requires StoreHolds(st, gs, p)
    ensures forall i :: 0 <= i < |gs| ==> gs[i].samples != []
  {
    forall i | 0 <= i < |gs| ensures gs[i].samples != [] {
      assert Same(gs[i], st.id.value.segs[i], p);
    }
  }
}
