/** When reading headers first and samples later gives what reading everything at once gives. An addition may be
    refused for the type of its samples; of headers alone no addition is. */
module TraceUnpack {
  import opened Mseed
  import opened Options
  import opened Sequences
  import opened TraceContents
  import opened TraceRefusals
  import opened TraceRuns
  import opened TraceSpec
  import opened TraceTwoPass

  // ---------------------------------------------------------------- runs that stay the same

  function Stripped(s: Option<IdState>): Option<IdState> {
    if s.None? then None else Some(StripId(s.value))
  }

  /** Without unpacking, the run gives the same segments, lists, extent and version, only without samples. */
  ghost predicate SameLists(adds: seq<Addition>) {
    RunOn(UnloadRun(adds)) == Stripped(RunOn(adds))
  }

  /** The addition is not refused for its samples: it is accepted, or its end is the error value. */
  predicate Taken(before: Option<IdState>, a: Addition)
    requires before.Some? ==> before.value.segs != []
  {
    Accepts(before, a) || End(a.r) == NSTERROR
  }

  ghost predicate AllTaken(adds: seq<Addition>) {
    forall m :: 0 <= m < |adds| ==> Taken(RunOn(adds[..m]), adds[m])
  }

  lemma TakenLast(adds: seq<Addition>)
    requires adds != []
    ensures var front, a := adds[..|adds| - 1], adds[|adds| - 1];
            AllTaken(adds) <==> AllTaken(front) && Taken(RunOn(front), a)
  {
    hide Taken, RunOn;
    var front := adds[..|adds| - 1];
    forall m | 0 <= m < |front| ensures front[..m] == adds[..m] && front[m] == adds[m] {}
    if AllTaken(front) && Taken(RunOn(front), adds[|adds| - 1]) {
      forall m | 0 <= m < |adds| ensures Taken(RunOn(adds[..m]), adds[m]) {
        if m < |front| {
          assert Taken(RunOn(front[..m]), front[m]);
        }
      }
    }
    if AllTaken(adds) {
      forall m | 0 <= m < |front| ensures Taken(RunOn(front[..m]), front[m]) {
        assert Taken(RunOn(adds[..m]), adds[m]);
      }
    }
  }

  lemma UnloadLast(adds: seq<Addition>)
    requires adds != []
    ensures var front, a := adds[..|adds| - 1], adds[|adds| - 1];
            UnloadRun(adds) == UnloadRun(front) + [a.(r := Unload(a.r))] && adds == front + [a]
  {}

  lemma StripTaken(before: Option<IdState>, r: Record, o: Opts)
    requires before.Some? ==> before.value.segs != []
    requires Taken(before, Addition(r, o))
    ensures before.None? ==> FirstRecord(Unload(r), o) == Stripped(FirstRecord(r, o))
    ensures before.Some? ==>
              AddRecord(StripId(before.value), Unload(r), o).id == StripId(AddRecord(before.value, r, o).id)
  {
    if before.None? {
      StripTakenFirst(r, o);
    } else {
      StripTakenNext(before.value, r, o);
    }
  }

  lemma StripTakenFirst(r: Record, o: Opts)
    requires Taken(None, Addition(r, o))
    ensures FirstRecord(Unload(r), o) == Stripped(FirstRecord(r, o))
  {
    if FirstRecord(r, o).Some? {
      StripFirst(r, o);
    }
    hide StripId, NewSeg;
  }

  lemma StripTakenNext(id: IdState, r: Record, o: Opts)
    requires id.segs != [] && Taken(Some(id), Addition(r, o))
    ensures AddRecord(StripId(id), Unload(r), o).id == StripId(AddRecord(id, r, o).id)
  {
    StripAdd(id, r, o);
    StripTests(id, r, o);
    hide FitsAfter, FitsBefore, Covers, AddToEnd, AddToStart, AddNew, AddBySearch, TimeTol;
  }

  /** A run in which no record is refused for its samples stays the same. */
  lemma {:induction false} TakenSame(adds: seq<Addition>)
    requires AllTaken(adds)
    ensures SameLists(adds)
  {
    hide *;
    if adds == [] {
      SameNone();
    } else {
      var front, a := adds[..|adds| - 1], adds[|adds| - 1];
      TakenLast(adds);
      UnloadLast(adds);
      TakenSame(front);
      StripTaken(RunOn(front), a.r, a.o);
      SameNext(front, a);
    }
  }

  lemma SameNone()
    ensures SameLists([])
  {
    assert UnloadRun([]) == [];
  }

  lemma SameNext(front: seq<Addition>, a: Addition)
    requires SameLists(front)
    requires var before := RunOn(front);
             && (before.None? ==> FirstRecord(Unload(a.r), a.o) == Stripped(FirstRecord(a.r, a.o)))
             && (before.Some? ==>
                   AddRecord(StripId(before.value), Unload(a.r), a.o).id
                     == StripId(AddRecord(before.value, a.r, a.o).id))
    ensures SameLists(front + [a])
  {
    hide *;
    var u := a.(r := Unload(a.r));
    UnloadMore(front, a);
    RunOnMore(front, a);
    RunOnMore(UnloadRun(front), u);
    SameIs(front);
    SameIs(front + [a]);
    StrippedIs(RunOn(front));
    StrippedIs(RunOn(front + [a]));
  }

  lemma UnloadMore(front: seq<Addition>, a: Addition)
    ensures UnloadRun(front + [a]) == UnloadRun(front) + [a.(r := Unload(a.r))]
  {}

  lemma SameIs(adds: seq<Addition>)
    ensures SameLists(adds) <==> RunOn(UnloadRun(adds)) == Stripped(RunOn(adds))
  {}

  lemma StrippedIs(s: Option<IdState>)
    ensures Stripped(s) == if s.None? then None else Some(StripId(s.value))
  {}

  // ---------------------------------------------------------------- lists of one sample type

  /** The records of the list that declare samples have one type, so that one buffer could hold them. */
  ghost predicate OneType(rs: seq<Record>) {
    forall r, q :: r in rs && q in rs && r.samplecnt > 0 && q.samplecnt > 0 ==> r.paytype == q.paytype
  }

  ghost predicate AllOneType(segs: seq<Seg>) {
    forall k :: 0 <= k < |segs| ==> OneType(segs[k].recs)
  }

  ghost predicate HasAll(s: Seg, rs: seq<Record>) {
    forall r :: r in rs ==> r in s.recs
  }

  /** One of the segments has all these records in its list. */
  ghost predicate HeldTogether(rs: seq<Record>, segs: seq<Seg>) {
    exists m :: 0 <= m < |segs| && HasAll(segs[m], rs)
  }

  /** Records of one list stay in one list. */
  ghost predicate Grown(old': seq<Seg>, now: seq<Seg>) {
    forall k :: 0 <= k < |old'| ==> HeldTogether(old'[k].recs, now)
  }

  lemma StillHeld(rs: seq<Record>, m: nat, segs: seq<Seg>)
    requires m < |segs| && forall r :: r in rs ==> r in segs[m].recs
    ensures HeldTogether(rs, segs)
  {
    assert HasAll(segs[m], rs);
  }

  lemma GrownThrough(a: seq<Seg>, b: seq<Seg>, c: seq<Seg>)
    requires Grown(a, b) && Grown(b, c)
    ensures Grown(a, c)
  {
    forall k | 0 <= k < |a| ensures HeldTogether(a[k].recs, c) {
      assert HeldTogether(a[k].recs, b);
      var m :| 0 <= m < |b| && HasAll(b[m], a[k].recs);
      assert HeldTogether(b[m].recs, c);
      var n :| 0 <= n < |c| && HasAll(c[n], b[m].recs);
      StillHeld(a[k].recs, n, c);
    }
  }

  lemma GrownSame(segs: seq<Seg>)
    ensures Grown(segs, segs)
  {
    forall k | 0 <= k < |segs| ensures HeldTogether(segs[k].recs, segs) {
      StillHeld(segs[k].recs, k, segs);
    }
  }

  lemma GrownUpdate(segs: seq<Seg>, i: nat, x: Seg)
    requires i < |segs| && forall r :: r in segs[i].recs ==> r in x.recs
    ensures Grown(segs, segs[i := x])
  {
    hide HeldTogether;
    forall k | 0 <= k < |segs| ensures HeldTogether(segs[k].recs, segs[i := x]) {
      StillHeld(segs[k].recs, k, segs[i := x]);
    }
  }

  lemma GrownInsert(segs: seq<Seg>, i: nat, x: Seg)
    requires i <= |segs|
    ensures Grown(segs, InsertAt(segs, i, x))
  {
    InsertFacts(segs, i, x);
    hide HeldTogether, InsertAt;
    forall k | 0 <= k < |segs| ensures HeldTogether(segs[k].recs, InsertAt(segs, i, x)) {
      StillHeld(segs[k].recs, if k < i then k else k + 1, InsertAt(segs, i, x));
    }
  }

  /** A segment that another has taken in can go. */
  lemma GrownRemove(segs: seq<Seg>, a: nat, b: nat)
    requires a < |segs| && b < |segs| && a != b && forall r :: r in segs[a].recs ==> r in segs[b].recs
    ensures Grown(segs, RemoveAt(segs, a))
  {
    RemoveFacts(segs, a);
    hide HeldTogether, RemoveAt;
    forall k | 0 <= k < |segs| ensures HeldTogether(segs[k].recs, RemoveAt(segs, a)) {
      var j := if k == a then b else k;
      StillHeld(segs[k].recs, if j < a then j else j - 1, RemoveAt(segs, a));
    }
  }

  lemma MixedStays(segs: seq<Seg>, now: seq<Seg>)
    requires Grown(segs, now) && !AllOneType(segs)
    ensures !AllOneType(now)
  {
    var k :| 0 <= k < |segs| && !OneType(segs[k].recs);
    assert HeldTogether(segs[k].recs, now);
    var m :| 0 <= m < |now| && HasAll(now[m], segs[k].recs);
    assert !OneType(now[m].recs);
  }

  lemma FinishGrows(id: IdState, segs: seq<Seg>, at: nat, r: Record)
    requires at < |segs|
    ensures Grown(segs, Finish(id, segs, at, r).id.segs)
  {
    var a := Finish(id, segs, at, r);
    FinishMoves(id, segs, at, r);
    RemoveFacts(segs, at);
    RemoveFacts(a.id.segs, a.at);
    hide HeldTogether, RemoveAt, Finish;
    forall k | 0 <= k < |segs| ensures HeldTogether(segs[k].recs, a.id.segs) {
      var j := if k < at then k else k - 1;
      var m := if k == at then a.at else if j < a.at then j else j + 1;
      assert k != at ==> RemoveAt(segs, at)[j] == segs[k];
      assert a.id.segs[m] == segs[k];
      StillHeld(segs[k].recs, m, a.id.segs);
    }
  }

  lemma MoreRecords(s: Seg, b: Seg, r: Record, o: Opts)
    ensures forall q :: q in s.recs ==> q in Extended(s, r, o).recs && q in Prepended(s, r, o).recs
    ensures forall q :: q in s.recs || q in b.recs ==> q in Merged(s, b).recs
    ensures o.keeprecs ==> Bare(r) in Extended(s, r, o).recs && Bare(r) in Prepended(s, r, o).recs
  {
    assert o.keeprecs ==> (s.recs + [Bare(r)])[|s.recs|] == Bare(r) && ([Bare(r)] + s.recs)[0] == Bare(r);
  }

  lemma AddToIs(id: IdState, i: nat, r: Record, o: Opts)
    requires i < |id.segs|
    ensures AddToEnd(id, i, r, o) == if Clashes(id.segs[i], r) then Refused(id)
                                     else Finish(id, id.segs[i := Extended(id.segs[i], r, o)], i, r)
    ensures AddToStart(id, i, r, o) == if Clashes(id.segs[i], r) then Refused(id)
                                       else Finish(id, id.segs[i := Prepended(id.segs[i], r, o)], i, r)
  {
    hide Finish, Extended, Prepended, Clashes;
  }

  lemma AddToGrows(id: IdState, i: nat, r: Record, o: Opts)
    requires i < |id.segs|
    ensures Grown(id.segs, AddToEnd(id, i, r, o).id.segs) && Grown(id.segs, AddToStart(id, i, r, o).id.segs)
  {
    hide *;
    var x, y := Extended(id.segs[i], r, o), Prepended(id.segs[i], r, o);
    AddToIs(id, i, r, o);
    MoreRecords(id.segs[i], id.segs[i], r, o);
    GrownSame(id.segs);
    GrownUpdate(id.segs, i, x);
    GrownUpdate(id.segs, i, y);
    FinishGrows(id, id.segs[i := x], i, r);
    FinishGrows(id, id.segs[i := y], i, r);
    GrownThrough(id.segs, id.segs[i := x], Finish(id, id.segs[i := x], i, r).id.segs);
    GrownThrough(id.segs, id.segs[i := y], Finish(id, id.segs[i := y], i, r).id.segs);
  }

  lemma AddNewGrows(id: IdState, i: nat, r: Record, o: Opts)
    requires i <= |id.segs|
    ensures Grown(id.segs, AddNew(id, i, r, o).id.segs)
  {
    var now := InsertAt(id.segs, i, NewSeg(r, o));
    hide Finish, NewSeg, InsertAt, Grown;
    GrownSame(id.segs);
    GrownInsert(id.segs, i, NewSeg(r, o));
    FinishGrows(id, now, i, r);
    GrownThrough(id.segs, now, Finish(id, now, i, r).id.segs);
  }

  lemma HealGrows(id: IdState, b: nat, a: nat, r: Record, o: Opts)
    requires b < |id.segs| && a < |id.segs| && b != a
    ensures Grown(id.segs, Heal(id, b, a, r, o).id.segs)
  {
    hide *;
    HealIs(id, b, a, r, o);
    var x := Extended(id.segs[b], r, o);
    var y := Merged(x, id.segs[a]);
    MoreRecords(id.segs[b], id.segs[b], r, o);
    MoreRecords(x, id.segs[a], r, o);
    GrownSame(id.segs);
    GrownUpdate(id.segs, b, x);
    var mid := id.segs[b := y];
    var now := RemoveAt(mid, a);
    GrownUpdate(id.segs, b, y);
    GrownRemove(mid, a, b);
    GrownThrough(id.segs, mid, now);
    var at := if a < b then b - 1 else b;
    FinishGrows(id, now, at, r);
    GrownThrough(id.segs, now, Finish(id, now, at, r).id.segs);
  }

  /** Whatever the outcome of an addition, records that share a list go on sharing one. */
  lemma AddGrows(id: IdState, r: Record, o: Opts)
    requires id.segs != []
    ensures Grown(id.segs, AddRecord(id, r, o).id.segs)
  {
    hide *;
    AddIsOneOf(id, r, o);
    BySearchIsOneOf(id, r, o);
    GrownSame(id.segs);
    var n, f := |id.segs|, FullSearch(id.segs, r, o);
    RangeOf(f, n);
    AddToGrows(id, 0, r, o);
    AddToGrows(id, n - 1, r, o);
    AddNewGrows(id, 0, r, o);
    AddNewGrows(id, n, r, o);
    AddNewGrows(id, if f.follow.Some? then f.follow.value + 1 else 0, r, o);
    if f.before.Some? {
      AddToGrows(id, f.before.value, r, o);
      if f.after.Some? && f.before != f.after {
        HealGrows(id, f.before.value, f.after.value, r, o);
      }
    }
    if f.after.Some? {
      AddToGrows(id, f.after.value, r, o);
    }
  }

  // ---------------------------------------------------------------- what a refusal shows in a run of headers

  /** The records in the lists have the payloads they declare. */
  ghost predicate Counted(rs: seq<Record>) {
    forall r :: r in rs ==> |r.payload| == r.samplecnt && (r.samplecnt > 0 ==> KnownType(r.paytype))
  }

  ghost predicate Genuine(s: Seg) {
    Accounts(s) && Counted(s.recs)
  }

  ghost predicate AllGenuine(segs: seq<Seg>) {
    forall k :: 0 <= k < |segs| ==> Genuine(segs[k])
  }

  /** A segment with samples has them from a record of its type. */
  lemma Typical(s: Seg) returns (q: Record)
    requires Genuine(s) && (s.samplecnt > 0 || s.data != [])
    ensures q in s.recs && q.samplecnt > 0 && q.paytype == s.sampletype && KnownType(s.sampletype)
  {
    if s.samplecnt == 0 {
      NoPayloads(s.recs);
    }
    var j := SomeSamples(s.recs);
    q := s.recs[j];
  }

  lemma {:induction false} NoPayloads(rs: seq<Record>)
    requires Counted(rs) && Count(rs) == 0
    ensures Payloads(rs) == []
  {
    if rs != [] {
      assert rs[0] in rs;
      NoPayloads(rs[1..]);
    }
  }

  lemma UnloadedIn(rs: seq<Record>, q: Record)
    requires q in rs
    ensures Unload(q) in UnloadAll(rs)
  {
    var i :| 0 <= i < |rs| && rs[i] == q;
    assert UnloadAll(rs)[i] == Unload(q);
  }

  /** A record that clashes with a segment has samples of another type. */
  lemma ClashMixes(s: Seg, r: Record, o: Opts)
    requires Genuine(s) && s.samplecnt > 0 && Loaded(r) && o.keeprecs && Clashes(s, r)
    ensures !OneType(Extended(Strip(s), Unload(r), o).recs) && !OneType(Prepended(Strip(s), Unload(r), o).recs)
  {
    var q := Typical(s);
    UnloadedIn(s.recs, q);
    var t, u := Strip(s), Unload(r);
    MoreRecords(t, t, u, o);
    assert Bare(u) == u && u.samplecnt > 0 && u.paytype != Unload(q).paytype;
    hide Extended, Prepended;
  }

  /** So do two segments that clash. */
  lemma SegsClashMix(s: Seg, b: Seg, r: Record, o: Opts)
    requires Genuine(s) && s.samplecnt > 0 && Genuine(b) && SegsClash(Extended(s, r, o), b)
    ensures !OneType(Merged(Extended(Strip(s), Unload(r), o), Strip(b)).recs)
  {
    var q := Typical(s);
    var p := Typical(b);
    UnloadedIn(s.recs, q);
    UnloadedIn(b.recs, p);
    var t, u := Strip(s), Unload(r);
    MoreRecords(t, t, u, o);
    MoreRecords(Extended(t, u, o), Strip(b), u, o);
    assert Unload(p).paytype != Unload(q).paytype && Unload(p).samplecnt > 0 && Unload(q).samplecnt > 0;
    hide Extended, Merged;
  }

  lemma MixedInFinish(id: IdState, segs: seq<Seg>, at: nat, r: Record)
    requires at < |segs| && !OneType(segs[at].recs)
    ensures !AllOneType(Finish(id, segs, at, r).id.segs)
  {
    FinishGrows(id, segs, at, r);
    hide OneType, Finish;
    MixedStays(segs, Finish(id, segs, at, r).id.segs);
  }

  /** Where the record is refused, its header goes into a list with records of another type. */
  ghost predicate Mixes(a: Outcome, b: Outcome) {
    a.Refused? ==> !AllOneType(b.id.segs)
  }

  lemma NoClashStripped(s: Seg, b: Seg, r: Record, o: Opts)
    ensures !Clashes(Strip(s), Unload(r)) && !SegsClash(Extended(Strip(s), Unload(r), o), Strip(b))
  {}

  lemma AddToMixes(id: IdState, i: nat, r: Record, o: Opts)
    requires i < |id.segs| && Genuine(id.segs[i]) && id.segs[i].samplecnt > 0 && Loaded(r) && o.keeprecs
    ensures Mixes(AddToEnd(id, i, r, o), AddToEnd(StripId(id), i, Unload(r), o))
    ensures Mixes(AddToStart(id, i, r, o), AddToStart(StripId(id), i, Unload(r), o))
  {
    if Clashes(id.segs[i], r) {
      var s, u, t := Strip(id.segs[i]), Unload(r), StripId(id);
      assert t.segs[i] == s;
      ClashMixes(id.segs[i], r, o);
      NoClashStripped(id.segs[i], id.segs[i], r, o);
      hide Extended, Prepended, OneType, AllOneType, Finish, StripId, Strip, Unload;
      MixedInFinish(t, t.segs[i := Extended(s, u, o)], i, u);
      MixedInFinish(t, t.segs[i := Prepended(s, u, o)], i, u);
    }
    hide Finish;
  }

  lemma AddNewMixes(id: IdState, i: nat, r: Record, o: Opts, b: Outcome)
    requires i <= |id.segs| && Loaded(r)
    ensures Mixes(AddNew(id, i, r, o), b)
  {
    hide Finish, NewSeg, AllOneType;
  }

  lemma HealMixes(id: IdState, b: nat, a: nat, r: Record, o: Opts)
    requires b < |id.segs| && a < |id.segs| && b != a && Loaded(r) && o.keeprecs
    requires Genuine(id.segs[b]) && id.segs[b].samplecnt > 0 && Genuine(id.segs[a])
    ensures Mixes(Heal(id, b, a, r, o), Heal(StripId(id), b, a, Unload(r), o))
  {
    hide *;
    var t, u := StripId(id), Unload(r);
    StripIdAt(id, b);
    StripIdAt(id, a);
    HealIs(id, b, a, r, o);
    HealIs(t, b, a, u, o);
    NoClashStripped(id.segs[b], id.segs[a], r, o);
    var s, c := t.segs[b], t.segs[a];
    var y, at := Merged(Extended(s, u, o), c), if a < b then b - 1 else b;
    if Clashes(id.segs[b], r) {
      ClashMixes(id.segs[b], r, o);
      MergeKeepsMixed(Extended(s, u, o), c);
    } else if SegsClash(Extended(id.segs[b], r, o), id.segs[a]) {
      SegsClashMix(id.segs[b], id.segs[a], r, o);
    }
    RemoveFacts(t.segs[b := y], a);
    if !OneType(y.recs) {
      MixedInFinish(t, RemoveAt(t.segs[b := y], a), at, u);
    }
    MixesIs(Heal(id, b, a, r, o), Heal(t, b, a, u, o));
  }

  lemma MixesIs(a: Outcome, b: Outcome)
    ensures Mixes(a, b) <==> (a.Refused? ==> !AllOneType(b.id.segs))
  {}

  lemma StripIdAt(id: IdState, i: nat)
    requires i < |id.segs|
    ensures |StripId(id).segs| == |id.segs| && StripId(id).segs[i] == Strip(id.segs[i])
  {
    hide Strip;
  }

  lemma MergeKeepsMixed(s: Seg, b: Seg)
    requires !OneType(s.recs)
    ensures !OneType(Merged(s, b).recs)
  {
    var r, q :| r in s.recs && q in s.recs && r.samplecnt > 0 && q.samplecnt > 0 && r.paytype != q.paytype;
    assert r in Merged(s, b).recs && q in Merged(s, b).recs;
  }

  lemma BySearchMixes(id: IdState, r: Record, o: Opts)
    requires AllGenuine(id.segs) && Loaded(r) && o.keeprecs
    ensures Mixes(AddBySearch(id, r, o), AddBySearch(StripId(id), Unload(r), o))
  {
    var t, u := StripId(id), Unload(r);
    var f := FullSearch(id.segs, r, o);
    SearchCovers(id.segs, r, o);
    StripSearch(id.segs, 0, r, o, Found(None, None, None));
    assert f == FullSearch(t.segs, u, o);
    hide Heal, AddToEnd, AddToStart, AddNew, FullSearch, Unload, StripId, Mixes, Genuine, Loaded;
    if f.before.Some? {
      AddToMixes(id, f.before.value, r, o);
      if f.after.Some? && f.before != f.after {
        HealMixes(id, f.before.value, f.after.value, r, o);
      }
    } else if f.after.Some? {
      AddToMixes(id, f.after.value, r, o);
    } else {
      var i := if f.follow.Some? then f.follow.value + 1 else 0;
      AddNewMixes(id, i, r, o, AddNew(t, i, u, o));
    }
  }

  lemma SearchCovers(segs: seq<Seg>, r: Record, o: Opts)
    ensures var f := FullSearch(segs, r, o);
            && (f.before.Some? ==> f.before.value < |segs| && segs[f.before.value].samplecnt > 0)
            && (f.after.Some? ==> f.after.value < |segs| && segs[f.after.value].samplecnt > 0)
  {
    SearchFinds(segs, 0, r, o, Found(None, None, None));
    hide Search;
  }

  lemma GenuineAt(segs: seq<Seg>, i: nat)
    requires i < |segs| && AllGenuine(segs)
    ensures Genuine(segs[i]) && (Covers(segs[i]) ==> segs[i].samplecnt > 0)
  {
    hide Genuine;
  }

  /** The header of a record takes the branch that the record takes. */
  lemma SameBranch(id: IdState, r: Record, o: Opts)
    requires id.segs != [] && End(r) != NSTERROR
    ensures var a, b, n, t, u := AddRecord(id, r, o), AddRecord(StripId(id), Unload(r), o), |id.segs|, StripId(id),
            Unload(r);
            && |t.segs| == n
            && (|| (Covers(id.segs[n - 1]) && a == AddToEnd(id, n - 1, r, o) && b == AddToEnd(t, n - 1, u, o))
                || (Covers(id.segs[0]) && a == AddToStart(id, 0, r, o) && b == AddToStart(t, 0, u, o))
                || (a == AddNew(id, n, r, o) && b == AddNew(t, n, u, o))
                || (a == AddNew(id, 0, r, o) && b == AddNew(t, 0, u, o))
                || (a == AddBySearch(id, r, o) && b == AddBySearch(t, u, o)))
  {
    hide *;
    StripTests(id, r, o);
    Branches(id, r, o);
    Branches(StripId(id), Unload(r), o);
  }

  /** A record refused for its samples shows in a run of headers: there it is in a list of several types. */
  lemma RefusalMixes(id: IdState, r: Record, o: Opts)
    requires id.segs != [] && AllGenuine(id.segs) && Loaded(r) && o.keeprecs && End(r) != NSTERROR
    ensures Mixes(AddRecord(id, r, o), AddRecord(StripId(id), Unload(r), o))
  {
    hide *;
    var n, t, u := |id.segs|, StripId(id), Unload(r);
    SameBranch(id, r, o);
    if Covers(id.segs[n - 1]) {
      GenuineAt(id.segs, n - 1);
      AddToMixes(id, n - 1, r, o);
    }
    if Covers(id.segs[0]) {
      GenuineAt(id.segs, 0);
      AddToMixes(id, 0, r, o);
    }
    AddNewMixes(id, n, r, o, AddNew(t, n, u, o));
    AddNewMixes(id, 0, r, o, AddNew(t, 0, u, o));
    BySearchMixes(id, r, o);
  }

  // ---------------------------------------------------------------- when two passes equal one

  lemma KeptIsLoaded(adds: seq<Addition>)
    requires LoadedRun(adds)
    ensures LoadedRun(Kept(adds))
  {
    hide Loaded, Keeps, RunOn;
    if adds != [] {
      LoadedParts(adds);
      KeptIsLoaded(adds[..|adds| - 1]);
    }
  }

  lemma {:induction false} TallyHas(segs: seq<Seg>, k: nat, i: nat)
    requires k < |segs| && i < |segs[k].recs|
    ensures segs[k].recs[i] in Tally(segs)
  {
    TallyRemove(segs, k);
    assert segs[k].recs[i] in multiset(segs[k].recs);
  }

  lemma {:induction false} BaresCounted(adds: seq<Addition>, r: Record)
    requires LoadedRun(adds) && r in Bares(adds)
    ensures |r.payload| == r.samplecnt && (r.samplecnt > 0 ==> KnownType(r.paytype))
  {
    var n := |adds| - 1;
    if r !in Bares(adds[..n]) {
      assert Loaded(adds[n].r);
    } else {
      assert forall i :: 0 <= i < n ==> adds[..n][i] == adds[i];
      BaresCounted(adds[..n], r);
    }
  }

  /** Every segment that a run of unpacked records leaves accounts for its samples. */
  lemma RunGenuine(adds: seq<Addition>)
    requires LoadedRun(adds) && RunOn(adds).Some?
    ensures AllGenuine(RunOn(adds).value.segs)
  {
    RunAccount(adds);
    KeptIsLoaded(adds);
    hide RunOn, LoadedRun, Accounts, Tally, Bares, Kept;
    var segs := RunOn(adds).value.segs;
    forall k | 0 <= k < |segs| ensures Counted(segs[k].recs) {
      forall r | r in segs[k].recs ensures |r.payload| == r.samplecnt && (r.samplecnt > 0 ==> KnownType(r.paytype)) {
        var i :| 0 <= i < |segs[k].recs| && segs[k].recs[i] == r;
        TallyHas(segs, k, i);
        BaresCounted(Kept(adds), r);
      }
    }
  }

  /** The lists that a run of headers leaves have one sample type each. */
  ghost predicate ListsOfOneType(adds: seq<Addition>) {
    RunOn(UnloadRun(adds)).Some? ==> AllOneType(RunOn(UnloadRun(adds)).value.segs)
  }

  lemma StrippedOneType(segs: seq<Seg>)
    requires AllGenuine(segs)
    ensures AllOneType(StripAll(segs))
  {
    forall k | 0 <= k < |segs| ensures OneType(StripAll(segs)[k].recs) {
      var s := segs[k];
      assert Genuine(s) && StripAll(segs)[k].recs == UnloadAll(s.recs);
      forall u | u in UnloadAll(s.recs) && u.samplecnt > 0 ensures u.paytype == s.sampletype {
        var i :| 0 <= i < |s.recs| && UnloadAll(s.recs)[i] == u;
        assert s.recs[i] in s.recs && u == Unload(s.recs[i]);
      }
    }
  }

  /** Where the lists are the same, each has one type. */
  lemma SameIsOneType(adds: seq<Addition>)
    requires LoadedRun(adds) && SameLists(adds)
    ensures ListsOfOneType(adds)
  {
    hide RunOn, LoadedRun, AllOneType, AllGenuine;
    if RunOn(adds).Some? {
      RunGenuine(adds);
      StrippedOneType(RunOn(adds).value.segs);
    }
  }

  /** A record that is refused for its samples leaves a list of several types for good. */
  lemma {:induction false} RefusedStaysMixed(adds: seq<Addition>)
    requires LoadedRun(adds) && !AllTaken(adds)
    ensures !ListsOfOneType(adds)
  {
    hide *;
    if adds == [] {
      NoneTaken();
    } else {
      var front, a := adds[..|adds| - 1], adds[|adds| - 1];
      TakenLast(adds);
      UnloadLast(adds);
      LoadedParts(adds);
      if !AllTaken(front) {
        RefusedStaysMixed(front);
        MixedNext(front, a);
      } else {
        TakenSame(front);
        MixedNow(front, a);
      }
    }
  }

  lemma NoneTaken()
    ensures AllTaken([])
  {}

  lemma MixedNext(front: seq<Addition>, a: Addition)
    requires !ListsOfOneType(front)
    ensures !ListsOfOneType(front + [a])
  {
    var id, u := RunOn(UnloadRun(front)).value, a.(r := Unload(a.r));
    assert UnloadRun(front + [a]) == UnloadRun(front) + [u];
    RunOnMore(UnloadRun(front), u);
    AddGrows(id, u.r, u.o);
    hide AddRecord, FirstRecord, RunOn, Unload, AllOneType, Grown;
    MixedStays(id.segs, AddRecord(id, u.r, u.o).id.segs);
  }

  lemma MixedNow(front: seq<Addition>, a: Addition)
    requires LoadedRun(front) && Loaded(a.r) && a.o.keeprecs && SameLists(front) && !Taken(RunOn(front), a)
    ensures !ListsOfOneType(front + [a])
  {
    var u := a.(r := Unload(a.r));
    assert UnloadRun(front + [a]) == UnloadRun(front) + [u];
    RunOnMore(UnloadRun(front), u);
    if RunOn(front).Some? {
      var id := RunOn(front).value;
      RunGenuine(front);
      hide AddRecord, FirstRecord, RunOn, Unload, AllOneType, AllGenuine, StripId, Loaded;
      RefusalMixes(id, a.r, a.o);
    } else {
      hide RunOn, NewSeg;
    }
  }

  /** Two passes have the lists of one if and only if no record is refused for its samples, and if and only if the
      lists of the first pass have one sample type each. */
  lemma SameListsExactly(adds: seq<Addition>)
    requires LoadedRun(adds)
    ensures SameLists(adds) <==> AllTaken(adds)
    ensures SameLists(adds) <==> ListsOfOneType(adds)
  {
    hide *;
    if AllTaken(adds) {
      TakenSame(adds);
    } else {
      RefusedStaysMixed(adds);
    }
    if SameLists(adds) {
      SameIsOneType(adds);
    }
  }

  // ---------------------------------------------------------------- unpacking the lists

  /** Decoding the record list of any segment, after any run, reproduces its buffer. */
  lemma TwoPass(adds: seq<Addition>, k: nat)
    requires LoadedRun(adds) && RunOn(adds).Some? && k < |RunOn(adds).value.segs|
    ensures var s := RunOn(adds).value.segs[k]; Unpacked(UnloadAll(s.recs)) == s.data
  {
    hide *;
    RunGenuine(adds);
    GenuineUnpacks(RunOn(adds).value.segs, k);
  }

  lemma GenuineUnpacks(segs: seq<Seg>, k: nat)
    requires AllGenuine(segs) && k < |segs|
    ensures Unpacked(UnloadAll(segs[k].recs)) == segs[k].data
  {
    var s := segs[k];
    assert Genuine(s);
    assert forall i :: 0 <= i < |s.recs| ==> s.recs[i] in s.recs;
    UnpackedIsPayloads(s.recs);
    hide Unpacked, Payloads, UnloadAll;
  }

  /** The list's first record, which fixes the type even when it declares no samples, has a decodable type that the
      segment's samples share. */
  predicate Decodable(s: Seg) {
    s.recs != [] && DecodedType(s.recs[0].paytype) && (s.samplecnt > 0 ==> s.recs[0].paytype == s.sampletype)
  }

  /** The second pass over the list of any segment, after any run, succeeds exactly when it is so. */
  lemma UnpackSucceeds(adds: seq<Addition>, k: nat)
    requires LoadedRun(adds) && RunOn(adds).Some? && k < |RunOn(adds).value.segs|
    ensures var s := RunOn(adds).value.segs[k]; Unpackable(UnloadAll(s.recs)) <==> Decodable(s)
  {
    hide *;
    RunGenuine(adds);
    GenuineDecodes(RunOn(adds).value.segs, k);
  }

  lemma GenuineDecodes(segs: seq<Seg>, k: nat)
    requires AllGenuine(segs) && k < |segs|
    ensures Unpackable(UnloadAll(segs[k].recs)) <==> Decodable(segs[k])
  {
    var s := segs[k];
    assert Genuine(s);
    var us := UnloadAll(s.recs);
    assert forall i :: 0 <= i < |s.recs| ==> s.recs[i] in s.recs && us[i] == Unload(s.recs[i]);
    if s.samplecnt > 0 {
      var j := SomeSamples(s.recs);
      assert us[j].paytype == s.recs[j].paytype == s.sampletype && us[j].samplecnt > 0;
    } else {
      NoSamples(s.recs);
    }
    hide Payloads, Count, UnloadAll;
  }

  /** The second pass over what a run of headers leaves succeeds for every segment. */
  ghost predicate AllUnpack(adds: seq<Addition>) {
    var id := RunOn(UnloadRun(adds));
    id.Some? ==> forall k :: 0 <= k < |id.value.segs| ==> Unpackable(id.value.segs[k].recs)
  }

  ghost predicate AllDecodable(s: Option<IdState>) {
    s.Some? ==> forall k :: 0 <= k < |s.value.segs| ==> Decodable(s.value.segs[k])
  }

  /** Two passes equal one: the lists, and what the second pass makes of each, are those of unpacking at once. */
  ghost predicate TwoPassesEqualOne(adds: seq<Addition>) {
    && SameLists(adds)
    && (RunOn(adds).Some? ==>
          var now, was := RunOn(UnloadRun(adds)).value.segs, RunOn(adds).value.segs;
          forall k :: 0 <= k < |was| ==>
            && Unpacked(now[k].recs) == was[k].data
            && (was[k].samplecnt > 0 ==> now[k].recs != [] && now[k].recs[0].paytype == was[k].sampletype))
  }

  lemma UnpackableIsOneType(rs: seq<Record>)
    requires Unpackable(rs)
    ensures OneType(rs)
  {
    forall r, q | r in rs && q in rs && r.samplecnt > 0 && q.samplecnt > 0 ensures r.paytype == q.paytype {
      var i :| 0 <= i < |rs| && rs[i] == r;
      var j :| 0 <= j < |rs| && rs[j] == q;
    }
  }

  lemma AllUnpackIsOneType(adds: seq<Addition>)
    requires AllUnpack(adds)
    ensures ListsOfOneType(adds)
  {
    hide RunOn, Unpackable, OneType;
    if RunOn(UnloadRun(adds)).Some? {
      var segs := RunOn(UnloadRun(adds)).value.segs;
      forall k | 0 <= k < |segs| ensures OneType(segs[k].recs) {
        UnpackableIsOneType(segs[k].recs);
      }
    }
  }

  /** Where the lists are the same, they all unpack exactly when all are decodable. */
  lemma SameUnpacks(adds: seq<Addition>)
    requires LoadedRun(adds) && SameLists(adds)
    ensures AllUnpack(adds) <==> AllDecodable(RunOn(adds))
    ensures AllUnpack(adds) ==> TwoPassesEqualOne(adds)
  {
    hide RunOn, LoadedRun, Unpackable, DecodedType, Unpacked, UnloadAll, UnloadRun;
    if RunOn(adds).Some? {
      var now, was := RunOn(UnloadRun(adds)).value.segs, RunOn(adds).value.segs;
      assert |now| == |was|;
      forall k | 0 <= k < |was|
        ensures now[k].recs == UnloadAll(was[k].recs) && Unpacked(now[k].recs) == was[k].data
        ensures Unpackable(now[k].recs) <==> Decodable(was[k])
      {
        UnpackSucceeds(adds, k);
        TwoPass(adds, k);
      }
      forall k | 0 <= k < |was| && Decodable(was[k])
        ensures was[k].samplecnt > 0 ==> now[k].recs != [] && now[k].recs[0].paytype == was[k].sampletype
      {
        FirstUnloaded(was[k].recs);
      }
    }
  }

  lemma FirstUnloaded(rs: seq<Record>)
    requires rs != []
    ensures UnloadAll(rs)[0].paytype == rs[0].paytype
  {}

  /** The second pass succeeds for every segment if and only if no record is refused for its samples when they are
      unpacked at once, and the first record of each list has the type. If it does, two passes equal one. */
  lemma UnpackExactly(adds: seq<Addition>)
    requires LoadedRun(adds)
    ensures AllUnpack(adds) <==> AllTaken(adds) && AllDecodable(RunOn(adds))
    ensures AllUnpack(adds) ==> TwoPassesEqualOne(adds)
  {
    hide *;
    SameListsExactly(adds);
    if AllUnpack(adds) {
      AllUnpackIsOneType(adds);
    }
    if SameLists(adds) {
      SameUnpacks(adds);
    }
  }

  // ---------------------------------------------------------------- runs whose second pass fails

  /** Two adjoining records of different sample types. Unpacked at once, the second is refused. As headers they
      share a list, whose first record has a decodable type; and then not even its samples can be unpacked. */
  lemma UnpackMixes(a: Record, b: Record, o: Opts)
    requires Loaded(a) && Loaded(b) && a.samplecnt > 0 && b.samplecnt > 0 && a.hz != 0.0
    requires DecodedType(a.paytype) && a.paytype != b.paytype
    requires b.start == End(a) + a.period && b.period == a.period && b.hz == a.hz
    requires End(a) != NSTERROR && End(b) != NSTERROR && o == Opts(true, true, None, 0.0)
    ensures var adds := [Addition(a, o), Addition(b, o)];
            && LoadedRun(adds) && RunOn(adds).Some? && RunOn(UnloadRun(adds)).Some?
            && RunOn(adds).value.segs == [NewSeg(a, o)]
            && var segs := RunOn(UnloadRun(adds)).value.segs;
               && |segs| == 1 && segs[0].samplecnt == a.samplecnt + b.samplecnt
               && segs[0].recs == [Unload(a), Unload(b)] && !Unpackable(segs[0].recs)
  {
    hide *;
    var x, y, u, v := Addition(a, o), Addition(b, o), Unload(a), Unload(b);
    MixedPair(a, b, o);
    RunOfTwo(x, y);
    RunOfTwo(Addition(u, o), Addition(v, o));
    Adjoins(a, b, o);
    Adjoins(u, v, o);
    AddToIs(FirstRecord(a, o).value, 0, b, o);
    JoinsAlone(FirstRecord(u, o).value, NewSeg(u, o), v, o);
  }

  lemma MixedPair(a: Record, b: Record, o: Opts)
    requires Loaded(a) && Loaded(b) && a.samplecnt > 0 && b.samplecnt > 0 && a.paytype != b.paytype && o.keeprecs
    requires End(a) != NSTERROR
    ensures LoadedRun([Addition(a, o), Addition(b, o)])
    ensures UnloadRun([Addition(a, o), Addition(b, o)]) == [Addition(Unload(a), o), Addition(Unload(b), o)]
    ensures var u, v := Unload(a), Unload(b);
            && End(u) == End(a) && End(v) == End(b) && u.start == a.start && v.start == b.start && u.hz == a.hz
            && v.hz == b.hz && u.period == a.period && v.period == b.period && u.samplecnt == a.samplecnt
            && FirstRecord(a, o).Some? && FirstRecord(a, o).value.segs == [NewSeg(a, o)] && Clashes(NewSeg(a, o), b)
            && FirstRecord(u, o).Some? && FirstRecord(u, o).value.segs == [NewSeg(u, o)] && !Clashes(NewSeg(u, o), v)
            && var s := Extended(NewSeg(u, o), v, o);
               s.samplecnt == a.samplecnt + b.samplecnt && s.recs == [u, v] && !Unpackable(s.recs)
  {
    assert [Unload(a), Unload(b)][1].paytype != [Unload(a), Unload(b)][0].paytype;
    hide End;
  }

  lemma Adjoins(a: Record, b: Record, o: Opts)
    requires FirstRecord(a, o).Some? && a.samplecnt > 0 && a.hz != 0.0 && End(b) != NSTERROR
    requires b.start == End(a) + a.period && b.period == a.period && b.hz == a.hz && o == Opts(true, true, None, 0.0)
    ensures AddRecord(FirstRecord(a, o).value, b, o) == AddToEnd(FirstRecord(a, o).value, 0, b, o)
  {
    var id, s := FirstRecord(a, o).value, NewSeg(a, o);
    assert b.hz / s.hz == 1.0;
    assert FitsAfter(s, b, o) && Covers(s);
    hide FitsAfter, Covers, AddToEnd, AddToStart, AddNew, AddBySearch;
  }

  /** The only segment takes the record in, and stays the only one. */
  lemma JoinsAlone(id: IdState, s: Seg, r: Record, o: Opts)
    requires id.segs == [s] && !Clashes(s, r)
    ensures AddToEnd(id, 0, r, o).id.segs == [Extended(s, r, o)]
  {
    assert [s][0 := Extended(s, r, o)] == [Extended(s, r, o)];
    ResortKeeps([Extended(s, r, o)], 0);
    hide Resort, Extended;
  }

  lemma RunOfTwo(x: Addition, y: Addition)
    requires FirstRecord(x.r, x.o).Some?
    ensures RunOn([x, y]) == Some(AddRecord(FirstRecord(x.r, x.o).value, y.r, y.o).id)
  {
    hide AddRecord, FirstRecord;
    RunOnMore([], x);
    RunOnMore([x], y);
    assert [] + [x] == [x] && [x] + [y] == [x, y] && RunOn([]) == None;
  }

  /** A run whose second pass fails: a record of samples, and one without samples and of an encoding that is not
      decodable that leads up to it. The second is prepended, and so fixes the type of the list. */
  lemma UnpackFails(data: Record, header: Record, o: Opts)
    requires Loaded(data) && data.samplecnt > 0 && data.hz != 0.0
    requires Loaded(header) && header.samplecnt == 0 && !DecodedType(header.paytype)
    requires header.start == data.start - data.period && header.period == data.period > 0 && header.hz == data.hz
    requires header.start != NSTERROR && End(data) != NSTERROR && o == Opts(true, true, None, 0.0)
    ensures var adds := [Addition(data, o), Addition(header, o)];
            && LoadedRun(adds) && Run(adds).Some? && |Run(adds).value.segs| == 1
            && var s := Run(adds).value.segs[0];
               s.data == data.samples && s.recs == [Bare(header), Bare(data)] && !Unpackable(UnloadAll(s.recs))
  {
    var adds := [Addition(data, o), Addition(header, o)];
    assert adds[..1] == [Addition(data, o)];
    assert Run(adds[..1]) == FirstRecord(data, o);
    var id, seg := FirstRecord(data, o).value, NewSeg(data, o);
    assert (data.samplecnt - 1) * data.period >= 0;
    assert header.hz / seg.hz == 1.0;
    assert FitsBefore(seg, header, o) && Covers(seg) && !FitsAfter(seg, header, o);
    assert AddRecord(id, header, o) == AddToStart(id, 0, header, o);
    assert [seg][0 := Prepended(seg, header, o)] == [Prepended(seg, header, o)];
    assert UnloadAll([Bare(header), Bare(data)])[0] == Unload(header);
    assert [] + data.samples == data.samples;
  }
}
