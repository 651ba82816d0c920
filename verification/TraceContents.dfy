/** Where the samples go: every segment's buffer is the concatenation of its record list, and every record is in
    exactly one list. */
module TraceContents {
  import opened Mseed
  import opened Sequences
  import opened TraceSpec
  import opened TraceRuns

  /** An unpacked record: as many samples as it declares, and when there are any, of a known type. Of a record
      without samples nothing is unpacked, so its sample type stays unset. */
  predicate Loaded(r: Record) {
    && r.samples == r.payload && |r.payload| == r.samplecnt
    && (r.samplecnt > 0 ==> r.sampletype == r.paytype && KnownType(r.sampletype))
  }

  function Count(rs: seq<Record>): nat {
    if rs == [] then 0 else rs[0].samplecnt + Count(rs[1..])
  }

  function Payloads(rs: seq<Record>): seq<Sample> {
    if rs == [] then [] else rs[0].payload + Payloads(rs[1..])
  }

  lemma {:induction false} PayloadsConcat(a: seq<Record>, b: seq<Record>)
    ensures Payloads(a + b) == Payloads(a) + Payloads(b) && Count(a + b) == Count(a) + Count(b)
  {
    if a == [] {
      assert a + b == b;
    } else {
      assert (a + b)[1..] == a[1..] + b;
      PayloadsConcat(a[1..], b);
    }
  }

  /** The segment's samples, in order, are those of its record list, whose records share its type. */
  ghost predicate Accounts(s: Seg) {
    && s.recs != [] && s.samplecnt == Count(s.recs) && s.data == Payloads(s.recs)
    && (forall i :: 0 <= i < |s.recs| && s.recs[i].samplecnt > 0 && s.recs[i].payload != [] ==>
        s.recs[i].paytype == s.sampletype)
  }

  ghost predicate AllAccount(segs: seq<Seg>) {
    forall i :: 0 <= i < |segs| ==> Accounts(segs[i])
  }

  /** The records in all the lists, counted. */
  function Tally(segs: seq<Seg>): multiset<Record> {
    if segs == [] then multiset{} else Tally(segs[1..]) + multiset(segs[0].recs)
  }

  lemma {:induction false} TallyConcat(a: seq<Seg>, b: seq<Seg>)
    ensures Tally(a + b) == Tally(a) + Tally(b)
  {
    if a == [] {
      assert a + b == b;
    } else {
      assert (a + b)[1..] == a[1..] + b;
      TallyConcat(a[1..], b);
    }
  }

  lemma TallyMiddle(a: seq<Seg>, x: Seg, b: seq<Seg>)
    ensures Tally(a + [x] + b) == Tally(a + b) + multiset(x.recs)
  {
    assert Tally([x]) == multiset(x.recs);
    hide Tally;
    TallyConcat(a + [x], b);
    TallyConcat(a, [x]);
    TallyConcat(a, b);
  }

  lemma Around(segs: seq<Seg>, i: nat)
    requires i < |segs|
    ensures segs == segs[..i] + [segs[i]] + segs[i + 1..] && RemoveAt(segs, i) == segs[..i] + segs[i + 1..]
  {}

  lemma TallyRemove(segs: seq<Seg>, i: nat)
    requires i < |segs|
    ensures Tally(segs) == Tally(RemoveAt(segs, i)) + multiset(segs[i].recs)
  {
    hide *;
    Around(segs, i);
    TallyMiddle(segs[..i], segs[i], segs[i + 1..]);
  }

  lemma OnePayload(r: Record)
    ensures Payloads([r]) == r.payload && Count([r]) == r.samplecnt
  {
    assert [r][1..] == [] && Payloads([r]) == r.payload + [];
  }

  lemma AccountsExtended(s: Seg, r: Record, o: Opts)
    requires Accounts(s) && Loaded(r) && o.keeprecs && !Clashes(s, r)
    ensures Accounts(Extended(s, r, o)) && Accounts(Prepended(s, r, o))
    ensures multiset(Extended(s, r, o).recs) == multiset(s.recs) + multiset{Bare(r)}
    ensures multiset(Prepended(s, r, o).recs) == multiset(s.recs) + multiset{Bare(r)}
  {
    AccountsAppended(s, r, o);
    AccountsPrepended(s, r, o);
    hide *;
  }

  lemma AccountsAppended(s: Seg, r: Record, o: Opts)
    requires Accounts(s) && Loaded(r) && o.keeprecs && !Clashes(s, r)
    ensures Accounts(Extended(s, r, o)) && multiset(Extended(s, r, o).recs) == multiset(s.recs) + multiset{Bare(r)}
  {
    OnePayload(Bare(r));
    PayloadsConcat(s.recs, [Bare(r)]);
    hide Payloads, Count;
  }

  lemma AccountsPrepended(s: Seg, r: Record, o: Opts)
    requires Accounts(s) && Loaded(r) && o.keeprecs && !Clashes(s, r)
    ensures Accounts(Prepended(s, r, o)) && multiset(Prepended(s, r, o).recs) == multiset(s.recs) + multiset{Bare(r)}
  {
    OnePayload(Bare(r));
    PayloadsConcat([Bare(r)], s.recs);
    hide Payloads, Count;
  }

  lemma AccountsMerged(a: Seg, b: Seg)
    requires Accounts(a) && Accounts(b) && !SegsClash(a, b)
    ensures Accounts(Merged(a, b)) && multiset(Merged(a, b).recs) == multiset(a.recs) + multiset(b.recs)
  {
    PayloadsConcat(a.recs, b.recs);
    if b.data == [] {
      NoPayload(b.recs);
    }
  }

  lemma {:induction false} NoPayload(rs: seq<Record>)
    requires Payloads(rs) == []
    ensures forall i :: 0 <= i < |rs| ==> rs[i].payload == []
  {
    if rs != [] {
      NoPayload(rs[1..]);
      assert forall i :: 1 <= i < |rs| ==> rs[i] == rs[1..][i - 1];
    }
  }

  lemma AccountsNew(r: Record, o: Opts)
    requires Loaded(r) && o.keeprecs
    ensures Accounts(NewSeg(r, o)) && multiset(NewSeg(r, o).recs) == multiset{Bare(r)}
  {
    OnePayload(Bare(r));
  }

  /** The addition puts the record in exactly one list and leaves every buffer accounted for. */
  ghost predicate KeepsAccount(id: IdState, r: Record, a: Outcome) {
    a.Added? ==> AllAccount(a.id.segs) && Tally(a.id.segs) == Tally(id.segs) + multiset{Bare(r)}
  }

  /** Only the segment at i changed, and its list gained the record. */
  lemma AccountFinish(id: IdState, segs: seq<Seg>, at: nat, r: Record)
    requires at < |segs| && AllAccount(RemoveAt(segs, at)) && Accounts(segs[at])
    requires Tally(RemoveAt(segs, at)) + multiset(segs[at].recs) == Tally(id.segs) + multiset{Bare(r)}
    ensures KeepsAccount(id, r, Finish(id, segs, at, r))
  {
    FinishMoves(id, segs, at, r);
    var a := Finish(id, segs, at, r);
    TallyRemove(a.id.segs, a.at);
    var rest := RemoveAt(segs, at);
    hide Finish, Accounts, Tally;
    forall i | 0 <= i < |a.id.segs| ensures Accounts(a.id.segs[i]) {
      assert i < a.at ==> a.id.segs[i] == rest[i];
      assert i > a.at ==> a.id.segs[i] == rest[i - 1];
    }
  }

  lemma AddToKeepsAccount(id: IdState, i: nat, r: Record, o: Opts)
    requires i < |id.segs| && AllAccount(id.segs) && Loaded(r) && o.keeprecs
    ensures KeepsAccount(id, r, AddToEnd(id, i, r, o)) && KeepsAccount(id, r, AddToStart(id, i, r, o))
  {
    if !Clashes(id.segs[i], r) {
      AccountsExtended(id.segs[i], r, o);
      TallyRemove(id.segs, i);
      hide Finish, Accounts, Tally, Extended, Prepended, Loaded;
      var x, y := Extended(id.segs[i], r, o), Prepended(id.segs[i], r, o);
      RemoveUpdated(id.segs, i, x);
      RemoveUpdated(id.segs, i, y);
      assert AllAccount(RemoveAt(id.segs, i));
      AccountFinish(id, id.segs[i := x], i, r);
      AccountFinish(id, id.segs[i := y], i, r);
    }
  }

  lemma AddNewKeepsAccount(id: IdState, i: nat, r: Record, o: Opts)
    requires i <= |id.segs| && AllAccount(id.segs) && Loaded(r) && o.keeprecs
    ensures KeepsAccount(id, r, AddNew(id, i, r, o))
  {
    AccountsNew(r, o);
    hide Finish, Accounts, Tally, Loaded;
    RemoveInserted(id.segs, i, NewSeg(r, o));
    AccountFinish(id, InsertAt(id.segs, i, NewSeg(r, o)), i, r);
  }

  lemma HealKeepsAccount(id: IdState, b: nat, a: nat, r: Record, o: Opts)
    requires a < |id.segs| && b < |id.segs| && a != b && AllAccount(id.segs) && Loaded(r)
             && o.keeprecs
    ensures KeepsAccount(id, r, Heal(id, b, a, r, o))
  {
    hide Finish, Accounts, Tally, Extended, Merged, Loaded, Clashes, SegsClash;
    var x := Extended(id.segs[b], r, o);
    if !Clashes(id.segs[b], r) && !SegsClash(x, id.segs[a]) {
      var y, a' := Merged(x, id.segs[a]), if a < b then a else a - 1;
      AccountsExtended(id.segs[b], r, o);
      AccountsMerged(x, id.segs[a]);
      RemoveTwice(id.segs, b, a, y);
      HealRest(id.segs, b, a, a');
      assert id.segs[b := x][b := y] == id.segs[b := y];
      AccountFinish(id, RemoveAt(id.segs[b := y], a), if a < b then b - 1 else b, r);
    }
  }

  lemma HealRest(segs: seq<Seg>, b: nat, a: nat, a': nat)
    requires a < |segs| && b < |segs| && a != b && a' == (if a < b then a else a - 1) && AllAccount(segs)
    ensures var rest := RemoveAt(RemoveAt(segs, b), a');
            && AllAccount(rest)
            && Tally(segs) == Tally(rest) + multiset(segs[a].recs) + multiset(segs[b].recs)
  {
    hide *;
    var mid := RemoveAt(segs, b);
    RemoveFacts(segs, b);
    assert mid[a'] == segs[a];
    TallyRemove(segs, b);
    TallyRemove(mid, a');
    AccountRemoved(segs, b);
    AccountRemoved(mid, a');
  }

  lemma AccountRemoved(segs: seq<Seg>, i: nat)
    requires i < |segs| && AllAccount(segs)
    ensures AllAccount(RemoveAt(segs, i))
  {
    hide Accounts;
  }

  lemma BySearchKeepsAccount(id: IdState, r: Record, o: Opts)
    requires AllAccount(id.segs) && Loaded(r) && o.keeprecs
    ensures KeepsAccount(id, r, AddBySearch(id, r, o))
  {
    hide *;
    BySearchIsOneOf(id, r, o);
    var f := FullSearch(id.segs, r, o);
    RangeOf(f, |id.segs|);
    if f.before.Some? {
      AddToKeepsAccount(id, f.before.value, r, o);
      if f.after.Some? && f.before != f.after {
        HealKeepsAccount(id, f.before.value, f.after.value, r, o);
      }
    }
    if f.after.Some? {
      AddToKeepsAccount(id, f.after.value, r, o);
    }
    AddNewKeepsAccount(id, if f.follow.Some? then f.follow.value + 1 else 0, r, o);
  }

  lemma RefusedKeepsAccount(id: IdState, r: Record)
    ensures KeepsAccount(id, r, Refused(id))
  {}

  lemma AddKeepsAccount(id: IdState, r: Record, o: Opts)
    requires id.segs != [] && AllAccount(id.segs) && Loaded(r) && o.keeprecs
    ensures KeepsAccount(id, r, AddRecord(id, r, o))
  {
    hide *;
    AddIsOneOf(id, r, o);
    RefusedKeepsAccount(id, r);
    AddToKeepsAccount(id, 0, r, o);
    AddToKeepsAccount(id, |id.segs| - 1, r, o);
    AddNewKeepsAccount(id, 0, r, o);
    AddNewKeepsAccount(id, |id.segs|, r, o);
    BySearchKeepsAccount(id, r, o);
  }

  /** Every record of a run, without its samples. */
  function Bares(adds: seq<Addition>): multiset<Record> {
    if adds == [] then multiset{} else Bares(adds[..|adds| - 1]) + multiset{Bare(adds[|adds| - 1].r)}
  }

  ghost predicate LoadedRun(adds: seq<Addition>) {
    forall i :: 0 <= i < |adds| ==> Loaded(adds[i].r) && adds[i].o.keeprecs
  }

  /** Over any run of unpacked records with record lists kept: each buffer is the concatenation of its
      segment's record list, samplecnt is its sum, and each record is in exactly one list exactly once. */
  lemma {:induction false} RunKeepsAccount(adds: seq<Addition>)
    requires adds != [] && Run(adds).Some? && LoadedRun(adds)
    ensures AllAccount(Run(adds).value.segs) && Tally(Run(adds).value.segs) == Bares(adds)
  {
    hide AddRecord, AllAccount, Loaded;
    var front, a := adds[..|adds| - 1], adds[|adds| - 1];
    if |adds| == 1 {
      assert front == [];
      assert Loaded(adds[0].r);
      RunStartsAccount(a.r, a.o);
    } else {
      assert forall i :: 0 <= i < |front| ==> adds[i] == front[i];
      RunKeepsAccount(front);
      AddKeepsAccount(Run(front).value, a.r, a.o);
    }
  }

  lemma RunStartsAccount(r: Record, o: Opts)
    requires FirstRecord(r, o).Some? && Loaded(r) && o.keeprecs
    ensures AllAccount(FirstRecord(r, o).value.segs) && Tally(FirstRecord(r, o).value.segs) == multiset{Bare(r)}
  {
    AccountsNew(r, o);
    var segs := FirstRecord(r, o).value.segs;
    assert segs[1..] == [];
  }
}
