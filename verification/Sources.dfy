/** A trace list of several sources: the skip list of IDs and the segments of each ID together. */
module Sources {
  import opened Options
  import opened Sequences
  import opened SkipList
  import opened TraceRefusals
  import opened TraceSpec
  import G = TraceGrid
  import L = TraceList

  // ---------------------------------------------------------------- what additions do to all IDs

  /** The addition of a record to the ID of this key, which is created for a first record that is not refused. */
  function Step(m: map<Key, IdState>, k: Key, a: Addition): map<Key, IdState>
    requires k in m ==> m[k].segs != []
  {
    if k in m then m[k := AddRecord(m[k], a.r, a.o).id]
    else if FirstRecord(a.r, a.o).Some? then m[k := FirstRecord(a.r, a.o).value]
    else m
  }

  lemma StepOf(m: map<Key, IdState>, k: Key, a: Addition)
    requires k in m && m[k].segs != []
    ensures Step(m, k, a) == m[k := AddRecord(m[k], a.r, a.o).id]
  {
    hide AddRecord;
  }

  lemma StepNew(m: map<Key, IdState>, k: Key, a: Addition)
    requires k !in m
    ensures Step(m, k, a) == if FirstRecord(a.r, a.o).Some? then m[k := FirstRecord(a.r, a.o).value] else m
  {
    hide FirstRecord;
  }

  /** The IDs after a run of additions to several of them. */
  function RunAll(adds: seq<(Key, Addition)>): (m: map<Key, IdState>)
    ensures forall k :: k in m ==> m[k].segs != []
  {
    if adds == [] then map[] else Step(RunAll(adds[..|adds| - 1]), adds[|adds| - 1].0, adds[|adds| - 1].1)
  }

  /** The additions to the ID of one key, in their order. */
  function Of(adds: seq<(Key, Addition)>, k: Key): seq<Addition> {
    if adds == [] then []
    else Of(adds[..|adds| - 1], k) + if adds[|adds| - 1].0 == k then [adds[|adds| - 1].1] else []
  }

  /** Each ID is what its own records make of it, however they are interleaved with those of other IDs. */
  lemma {:induction false} EachIsItsOwn(adds: seq<(Key, Addition)>, k: Key)
    ensures RunOn(Of(adds, k)) == if k in RunAll(adds) then Some(RunAll(adds)[k]) else None
  {
    hide AddRecord, FirstRecord;
    if adds != [] {
      var front, last := adds[..|adds| - 1], adds[|adds| - 1];
      EachIsItsOwn(front, k);
      RunOnMore(Of(front, k), last.1);
      assert Of(front, k) + [] == Of(front, k);
    }
  }

  // ---------------------------------------------------------------- confluence of several sources

  lemma {:induction false} OfCounts(adds: seq<(Key, Addition)>, k: Key, a: Addition)
    ensures multiset(Of(adds, k))[a] == multiset(adds)[(k, a)]
  {
    hide *;
    if adds == [] {
      OfNone(k);
    } else {
      var front, last := adds[..|adds| - 1], adds[|adds| - 1];
      OfLast(adds, k);
      OfCounts(front, k, a);
      CountLast(front, last, (k, a));
      CountLast(Of(front, k), last.1, a);
      assert adds == front + [last];
    }
  }

  lemma OfNone(k: Key)
    ensures Of([], k) == []
  {}

  lemma OfLast(adds: seq<(Key, Addition)>, k: Key)
    requires adds != []
    ensures var front, last := adds[..|adds| - 1], adds[|adds| - 1];
            Of(adds, k) == if last.0 == k then Of(front, k) + [last.1] else Of(front, k)
  {}

  lemma CountLast<T>(s: seq<T>, x: T, y: T)
    ensures multiset(s + [x])[y] == multiset(s)[y] + if x == y then 1 else 0
  {}

  lemma SameOf(adds: seq<(Key, Addition)>, more: seq<(Key, Addition)>, k: Key)
    requires multiset(more) == multiset(adds)
    ensures multiset(Of(more, k)) == multiset(Of(adds, k))
  {
    forall a: Addition ensures multiset(Of(more, k))[a] == multiset(Of(adds, k))[a] {
      OfCounts(adds, k, a);
      OfCounts(more, k, a);
    }
  }

  function Records(adds: seq<Addition>): (rs: seq<Record>)
    ensures |rs| == |adds|
  {
    seq(|adds|, i requires 0 <= i < |adds| => adds[i].r)
  }

  lemma {:induction false} RecordsCount(adds: seq<Addition>, o: Opts, r: Record)
    requires forall i :: 0 <= i < |adds| ==> adds[i].o == o
    ensures multiset(Records(adds))[r] == multiset(adds)[Addition(r, o)]
  {
    if adds != [] {
      var n := |adds| - 1;
      RecordsCount(adds[..n], o, r);
      assert adds == adds[..n] + [adds[n]] && Records(adds) == Records(adds[..n]) + [adds[n].r];
    }
  }

  lemma SameRecords(adds: seq<Addition>, more: seq<Addition>, o: Opts)
    requires multiset(more) == multiset(adds) && forall i :: 0 <= i < |adds| ==> adds[i].o == o
    ensures forall i :: 0 <= i < |more| ==> more[i].o == o
    ensures multiset(Records(more)) == multiset(Records(adds))
  {
    forall i | 0 <= i < |more| ensures more[i].o == o {
      assert more[i] in multiset(adds);
    }
    forall r: Record ensures multiset(Records(more))[r] == multiset(Records(adds))[r] {
      RecordsCount(adds, o, r);
      RecordsCount(more, o, r);
    }
  }

  /** The ID of a source ends the same in any order and interleaving of the additions to all sources, when its own
      records are disjoint on one grid: as the maximal contiguous runs of these. */
  lemma ConfluenceOfEach(adds: seq<(Key, Addition)>, more: seq<(Key, Addition)>, k: Key, g: G.Grid, o: Opts)
    requires multiset(more) == multiset(adds) && Of(adds, k) != [] && G.Usual(g, o)
    requires forall i :: 0 <= i < |Of(adds, k)| ==> Of(adds, k)[i].o == o
    requires G.GridRecords(g, Records(Of(adds, k)))
    ensures k in RunAll(adds) && k in RunAll(more) && RunAll(adds)[k].segs == RunAll(more)[k].segs
    ensures RunAll(adds)[k].earliest == RunAll(more)[k].earliest && RunAll(adds)[k].latest == RunAll(more)[k].latest
  {
    hide *;
    var a, b := Of(adds, k), Of(more, k);
    SameOf(adds, more, k);
    SameRecords(a, b, o);
    NoneLost(a, b);
    AdditionsOf(a, o);
    AdditionsOf(b, o);
    G.Confluence(g, Records(a), Records(b), o);
    RunIsRunOn(a);
    RunIsRunOn(b);
    EachIsItsOwn(adds, k);
    EachIsItsOwn(more, k);
  }

  lemma NoneLost<T>(a: seq<T>, b: seq<T>)
    requires multiset(a) == multiset(b) && a != []
    ensures b != []
  {
    assert a[0] in multiset(b);
  }

  lemma AdditionsOf(adds: seq<Addition>, o: Opts)
    requires forall i :: 0 <= i < |adds| ==> adds[i].o == o
    ensures adds == G.Additions(Records(adds), o)
  {}

  // ---------------------------------------------------------------- the list

  /** MS3TraceList. A node of the skip list and the segments it is mapped to are one MS3TraceID. */
  class TraceLists {
    const ids: TraceList
    var data: map<Node, L.TraceID>
    ghost var contents: map<Key, IdState>   // the states of the IDs, by key
    ghost var repr: set<L.TraceID>          // the IDs
    ghost var segs: set<L.TraceSeg>         // the nodes of their lists

    /** The segments of an ID are well-formed and have this state. */
    static ghost predicate Is(id: L.TraceID, state: IdState)
      reads id, id.list
    {
      id.Valid() && id.State() == state
    }

    /** The ID is one of these, and is what the contents say of its key. */
    static ghost predicate HeldAs(id: L.TraceID, k: Key, contents: map<Key, IdState>, repr: set<L.TraceID>,
                                  segs: set<L.TraceSeg>)
      reads id, id.list
    {
      && id in repr && (forall s :: s in id.list ==> s in segs)
      && k in contents && Is(id, contents[k])
    }

    static lemma HeldMore(id: L.TraceID, k: Key, contents: map<Key, IdState>, repr: set<L.TraceID>,
                          segs: set<L.TraceSeg>, contents': map<Key, IdState>, repr': set<L.TraceID>,
                          segs': set<L.TraceSeg>)
      requires HeldAs(id, k, contents, repr, segs) && repr <= repr' && segs <= segs'
      requires k in contents && k in contents' && contents'[k] == contents[k]
      ensures HeldAs(id, k, contents', repr', segs')
    {
      hide Is;
    }

    static lemma HeldKey(id: L.TraceID, k: Key, contents: map<Key, IdState>, repr: set<L.TraceID>,
                         segs: set<L.TraceSeg>)
      requires HeldAs(id, k, contents, repr, segs)
      ensures k in contents && id in repr
    {}

    /** The ID of a node is one of these, and is what the contents say. */
    ghost predicate Holds(n: Node)
      requires n in data
      reads this, repr, segs
    {
      data[n] in repr && (forall s :: s in data[n].list ==> s in segs)
      && HeldAs(data[n], KeyOf(n, ids.split), contents, repr, segs)
    }

    static predicate NoneShared(l: seq<L.TraceSeg>, m: seq<L.TraceSeg>) {
      forall i, j :: 0 <= i < |l| && 0 <= j < |m| ==> l[i] != m[j]
    }

    /** No ID belongs to two nodes, and no segment to two IDs. */
    ghost predicate Apart()
      requires forall n :: n in data ==> data[n] in repr
      reads this, repr
    {
      && (forall m, n :: m in data && n in data && m != n ==> data[m] != data[n])
      && forall m, n :: m in data && n in data && m != n ==> NoneShared(data[m].list, data[n].list)
    }

    /** The nodes are those of the skip list, and the contents have their keys only. */
    ghost predicate Listed()
      reads this`data, this`contents, ids`numtraceids, ids`all, ids.all`next
    {
      && ids.Valid() && data.Keys == Nodes(ids.all[1..])
      && forall k :: k in contents ==> exists n :: n in data && KeyOf(n, ids.split) == k
    }

    ghost predicate Valid()
      reads this, repr, segs, ids`numtraceids, ids`all, ids.all`next
    {
      Listed() && (forall n :: n in data ==> Holds(n)) && Apart()
    }

    constructor (split: bool)
      ensures Valid() && contents == map[] && ids.split == split && fresh(ids) && fresh(ids.all) && repr == {}
              && segs == {}
    {
      var list := new TraceList(split);
      ids, data, contents, repr, segs := list, map[], map[], {}, {};
    }

    /** Two nodes have two keys. */
    lemma KeysApart(m: Node, n: Node)
      requires ids.Valid() && m in Nodes(ids.all[1..]) && n in Nodes(ids.all[1..]) && m != n
      ensures KeyOf(m, ids.split) != KeyOf(n, ids.split)
    {
      hide Before;
      var all := ids.all;
      var i :| 1 <= i < |all| && all[i] == m;
      var j :| 1 <= j < |all| && all[j] == n;
      KeysOrder(KeyOf(m, ids.split), KeyOf(n, ids.split), KeyOf(m, ids.split));
    }

    /** Add to an ID in this state. */
    static method AddTo(id: L.TraceID, ghost state: IdState, r: Record, o: Opts) returns (seg: L.TraceSeg?)
      requires Is(id, state)
      modifies id, id.list
      ensures state.segs != [] && Is(id, AddRecord(state, r, o).id)
      ensures seg != null <==> AddRecord(state, r, o).Added?
      ensures forall j {:trigger id.list[j]} :: 0 <= j < |id.list| ==> id.list[j] in old(id.list) || fresh(id.list[j])
    {
      hide AddRecord, L.TraceID.Linked, L.Values;
      seg := id.AddMsr(r, o);
      forall j | 0 <= j < |id.list| ensures id.list[j] in old(id.list) || fresh(id.list[j]) {
        assert id.list[j] in id.Nodes(id.list);
      }
    }

    /** Two IDs share nothing. */
    lemma ApartGives(m: Node, n: Node)
      requires Valid() && m in data && n in data && m != n
      ensures Holds(m) && Holds(n) && data[m] != data[n] && NoneShared(data[m].list, data[n].list)
      ensures KeyOf(m, ids.split) != KeyOf(n, ids.split)
    {
      hide TraceList.Valid, Is, KeyOf;
      KeysApart(m, n);
    }

    /** All but the ID of one node are what the contents say, and share nothing with it. */
    ghost predicate OthersHold(node: Node)
      requires node in data
      reads this, repr, segs, data[node]
    {
      && data[node] in repr
      && (forall n :: n in data && n != node ==>
            && Holds(n) && data[n] != data[node] && NoneShared(data[n].list, data[node].list)
            && KeyOf(n, ids.split) != KeyOf(node, ids.split))
      && forall m, n :: m in data && n in data && m != n && m != node && n != node ==>
           data[m] != data[n] && NoneShared(data[m].list, data[n].list)
    }

    lemma OthersOf(node: Node)
      requires Valid() && node in data
      ensures Listed() && OthersHold(node)
      ensures data[node] in repr && (forall s :: s in data[node].list ==> s in segs)
      ensures KeyOf(node, ids.split) in contents && Is(data[node], contents[KeyOf(node, ids.split)])
    {
      hide TraceList.Valid, Is, KeyOf, NoneShared;
      forall n | n in data && n != node ensures KeyOf(n, ids.split) != KeyOf(node, ids.split) {
        KeysApart(n, node);
      }
    }

    lemma NoneSharedBack(l: seq<L.TraceSeg>, m: seq<L.TraceSeg>)
      requires NoneShared(l, m)
      ensures NoneShared(m, l)
    {}

    lemma OthersFacts(node: Node)
      requires node in data && OthersHold(node)
      ensures forall n :: n in data && n != node ==>
                HeldAs(data[n], KeyOf(n, ids.split), contents, repr, segs)
                  && KeyOf(n, ids.split) != KeyOf(node, ids.split)
      ensures forall m, n :: m in data && n in data && m != n ==>
                data[m] != data[n] && NoneShared(data[m].list, data[n].list)
      ensures data[node] in repr
    {
      hide Is, KeyOf, NoneShared, HeldAs;
      forall n | n in data && n != node ensures NoneShared(data[node].list, data[n].list) {
        NoneSharedBack(data[n].list, data[node].list);
      }
    }

    lemma ListedGives()
      requires Listed()
      ensures ids.Valid() && data.Keys == Nodes(ids.all[1..])
      ensures forall k :: k in contents ==> exists n :: n in data && KeyOf(n, ids.split) == k
    {}

    lemma MakeListed()
      requires ids.Valid() && data.Keys == Nodes(ids.all[1..])
      requires forall k :: k in contents ==> exists n :: n in data && KeyOf(n, ids.split) == k
      ensures Listed()
    {}

    lemma MakeValid()
      requires Listed()
      requires forall n :: n in data ==> HeldAs(data[n], KeyOf(n, ids.split), contents, repr, segs)
      requires forall m, n :: m in data && n in data && m != n ==>
                 data[m] != data[n] && NoneShared(data[m].list, data[n].list)
      ensures Valid()
    {
      hide Is, KeyOf, NoneShared, TraceList.Valid;
    }

    lemma MakeHeld(id: L.TraceID, k: Key)
      requires id in repr && (forall s :: s in id.list ==> s in segs) && k in contents && Is(id, contents[k])
      ensures HeldAs(id, k, contents, repr, segs)
    {}

    /** Note what has become of one ID. */
    ghost method Note(node: Node, state: IdState)
      requires Listed() && node in data && OthersHold(node) && Is(data[node], state)
      modifies this`contents, this`segs
      ensures Valid() && contents == old(contents)[KeyOf(node, ids.split) := state]
      ensures segs == old(segs) + (set s | s in data[node].list)
    {
      hide *;
      OthersFacts(node);
      ListedGives();
      var was, had := contents, segs;
      contents := contents[KeyOf(node, ids.split) := state];
      segs := segs + (set s | s in data[node].list);
      forall n | n in data ensures HeldAs(data[n], KeyOf(n, ids.split), contents, repr, segs) {
        if n == node {
          MakeHeld(data[n], KeyOf(n, ids.split));
        } else {
          HeldKey(data[n], KeyOf(n, ids.split), was, repr, had);
          HeldMore(data[n], KeyOf(n, ids.split), was, repr, had, contents, repr, segs);
        }
      }
      forall k | k in contents ensures exists n :: n in data && KeyOf(n, ids.split) == k {
        if k == KeyOf(node, ids.split) {
          assert node in data;
        } else {
          assert k in was;
        }
      }
      MakeListed();
      MakeValid();
    }

    /** The addition to one ID leaves the others as they are. */
    method AddBeside(node: Node, ghost state: IdState, r: Record, o: Opts) returns (seg: L.TraceSeg?)
      requires node in data && OthersHold(node) && Is(data[node], state)
      requires forall s :: s in data[node].list ==> s in segs
      modifies data[node], data[node].list
      ensures OthersHold(node)
      ensures state.segs != [] && Is(data[node], AddRecord(state, r, o).id)
      ensures seg != null <==> AddRecord(state, r, o).Added?
      ensures forall j {:trigger data[node].list[j]} :: 0 <= j < |data[node].list| ==>
                data[node].list[j] in old(data[node].list) || fresh(data[node].list[j])
    {
      hide AddRecord, Is, KeyOf;
      seg := AddTo(data[node], state, r, o);
      forall n | n in data && n != node ensures Holds(n) && NoneShared(data[n].list, data[node].list) {
        assert old(Holds(n)) && old(NoneShared(data[n].list, data[node].list));
        assert data[n].list == old(data[n].list);
      }
    }

    /** Add to an ID that is in the list. */
    method AddToID(node: Node, r: Record, o: Opts) returns (seg: L.TraceSeg?)
      requires Valid() && node in data
      modifies this`contents, this`segs, repr, segs
      ensures Valid() && data == old(data) && repr == old(repr) && fresh(segs - old(segs))
      ensures var k := KeyOf(node, ids.split);
              && k in old(contents) && old(contents)[k].segs != []
              && contents == Step(old(contents), k, Addition(r, o))
              && (seg != null <==> AddRecord(old(contents)[k], r, o).Added?)
    {
      hide *;
      OthersOf(node);
      ghost var state := contents[KeyOf(node, ids.split)];
      seg := AddBeside(node, state, r, o);
      Note(node, AddRecord(state, r, o).id);
      StepOf(old(contents), KeyOf(node, ids.split), Addition(r, o));
    }

    // ---------------------------------------------------------- adding an ID

    /** A node with the key sought is a match. */
    lemma KeyMatches(n: Node, sid: string, pubversion: nat)
      ensures var v := Sought(ids.split, pubversion); KeyOf(n, ids.split) == Key(sid, v) ==> n.Compare(sid, v) == 0
    {
      StrCmpEqual(sid, sid);
      hide StrCmp;
    }

    /** The key of an ID that a search does not find is not there. */
    lemma MissedKey(sid: string, pubversion: nat)
      requires Valid() && ids.Finds(sid, Sought(ids.split, pubversion), null)
      ensures Key(sid, Sought(ids.split, pubversion)) !in contents
    {
      var v := Sought(ids.split, pubversion);
      hide TraceList.Valid, Holds, KeyOf, Sought;
      forall n | n in data ensures KeyOf(n, ids.split) != Key(sid, v) {
        KeyMatches(n, sid, pubversion);
        var i :| 1 <= i < |ids.all| && ids.all[i] == n;
      }
    }

    lemma MissedAt(sid: string, pubversion: nat, prev: seq<Node?>, at: seq<nat>)
      requires ids.Missed(sid, pubversion, prev, at)
      ensures |at| == HEIGHT && 1 <= at[0] + 1 <= |ids.all|
    {
      assert ids.LastSmaller(sid, pubversion, 0, at[0]);
    }

    lemma NodesInserted(all: seq<Node>, p: nat, n: Node)
      requires 1 <= p <= |all|
      ensures Nodes(InsertAt(all, p, n)[1..]) == Nodes(all[1..]) + {n}
    {
      var now := InsertAt(all, p, n);
      assert now == all[..p] + [n] + all[p..];
      assert now[1..] == all[1..p] + [n] + all[p..] && all[1..] == all[1..p] + all[p..];
    }

    /** The IDs there are, apart from what the skip list is. */
    ghost predicate AllHold()
      reads this, repr, segs
    {
      && (forall n :: n in data ==> Holds(n)) && Apart()
      && forall k :: k in contents ==> exists n :: n in data && KeyOf(n, ids.split) == k
    }

    lemma AllOf()
      requires Valid()
      ensures AllHold() && ids.Valid() && data.Keys == Nodes(ids.all[1..])
    {}

    /** A new ID shares nothing with those there are. */
    lemma NewApart(id: L.TraceID, n: Node)
      requires AllHold() && n in data && id !in repr && forall j :: 0 <= j < |id.list| ==> id.list[j] !in segs
      ensures Holds(n) && data[n] != id && NoneShared(data[n].list, id.list)
    {
      hide Is;
      forall i, j | 0 <= i < |data[n].list| && 0 <= j < |id.list| ensures data[n].list[i] != id.list[j] {
        assert data[n].list[i] in data[n].list;
      }
    }

    /** A new ID and node beside those there are. */
    lemma NewBeside(node: Node, id: L.TraceID, n: Node)
      requires AllHold() && ids.Valid() && node !in data && data.Keys + {node} == Nodes(ids.all[1..]) && n in data
      requires id !in repr && forall j :: 0 <= j < |id.list| ==> id.list[j] !in segs
      ensures HeldAs(data[n], KeyOf(n, ids.split), contents, repr, segs)
      ensures data[n] != id && NoneShared(data[n].list, id.list) && KeyOf(n, ids.split) != KeyOf(node, ids.split)
    {
      hide Is, KeyOf, TraceList.Valid;
      NewApart(id, n);
      KeysApart(n, node);
    }

    lemma PairApart(m: Node, n: Node)
      requires AllHold() && m in data && n in data && m != n
      ensures data[m] != data[n] && NoneShared(data[m].list, data[n].list)
    {
      hide Is, KeyOf, NoneShared;
    }

    lemma AllKeys()
      requires AllHold()
      ensures forall k :: k in contents ==> exists n :: n in data && KeyOf(n, ids.split) == k
    {}

    lemma MakeOthers(node: Node)
      requires node in data && data[node] in repr
      requires forall n :: n in data && n != node ==>
                 && HeldAs(data[n], KeyOf(n, ids.split), contents, repr, segs) && data[n] != data[node]
                 && NoneShared(data[n].list, data[node].list) && KeyOf(n, ids.split) != KeyOf(node, ids.split)
      requires forall m, n :: m in data && n in data && m != n && m != node && n != node ==>
                 data[m] != data[n] && NoneShared(data[m].list, data[n].list)
      ensures OthersHold(node)
    {
      hide Is, KeyOf, NoneShared;
    }

    /** Map a new node to a new ID. */
    method MapTo(node: Node, id: L.TraceID)
      requires AllHold() && ids.Valid() && node !in data && data.Keys + {node} == Nodes(ids.all[1..])
      requires id !in repr && forall j :: 0 <= j < |id.list| ==> id.list[j] !in segs
      modifies this`data, this`repr
      ensures Listed() && data == old(data)[node := id] && repr == old(repr) + {id} && OthersHold(node)
    {
      hide *;
      AllKeys();
      forall n | n in data
        ensures HeldAs(data[n], KeyOf(n, ids.split), contents, repr, segs)
        ensures data[n] != id && NoneShared(data[n].list, id.list) && KeyOf(n, ids.split) != KeyOf(node, ids.split)
      {
        NewBeside(node, id, n);
      }
      forall m, n | m in data && n in data && m != n ensures data[m] != data[n]
        && NoneShared(data[m].list, data[n].list)
      {
        PairApart(m, n);
      }
      ghost var was, had := data, repr;
      data := data[node := id];
      repr := repr + {id};
      forall n | n in data && n != node ensures HeldAs(data[n], KeyOf(n, ids.split), contents, repr, segs) {
        HeldKey(data[n], KeyOf(n, ids.split), contents, had, segs);
        HeldMore(data[n], KeyOf(n, ids.split), contents, had, segs, contents, repr, segs);
      }
      forall k | k in contents ensures exists n :: n in data && KeyOf(n, ids.split) == k {
        var n :| n in was && KeyOf(n, ids.split) == k;
        assert n in data;
      }
      MakeListed();
      MakeOthers(node);
    }

    /** Note a new ID of a new node. */
    method Attach(node: Node, id: L.TraceID, ghost state: IdState)
      requires AllHold() && ids.Valid() && node !in data && data.Keys + {node} == Nodes(ids.all[1..]) && Is(id, state)
      requires id !in repr && forall j :: 0 <= j < |id.list| ==> id.list[j] !in segs
      modifies this`data, this`contents, this`segs, this`repr
      ensures Valid() && contents == old(contents)[KeyOf(node, ids.split) := state]
      ensures repr == old(repr) + {id} && segs == old(segs) + (set s | s in id.list)
    {
      hide *;
      MapTo(node, id);
      Note(node, state);
    }

    lemma RealizedIs(id: L.TraceID, state: IdState, seg: L.TraceSeg?)
      requires id.Realizes(Added(state, 0), seg)
      ensures Is(id, state) && seg != null
    {}

    /** Add an ID for the record, unless that is refused. */
    method AddNewID(sid: string, r: Record, o: Opts, height: nat, prev: seq<Node?>, ghost at: seq<nat>)
      returns (seg: L.TraceSeg?)
      requires Valid() && 1 <= height <= HEIGHT
      requires ids.Finds(sid, Sought(ids.split, r.version), null)
      requires ids.Missed(sid, Sought(ids.split, r.version), prev, at)
      modifies this, ids`numtraceids, ids`all, Nodes(ids.all)`next
      ensures Valid() && fresh(repr - old(repr)) && fresh(segs - old(segs))
      ensures var k := Key(sid, Sought(ids.split, r.version));
              && k !in old(contents) && contents == Step(old(contents), k, Addition(r, o))
              && (seg != null <==> FirstRecord(r, o).Some?)
    {
      hide *;
      AllOf();
      MissedKey(sid, r.version);
      MissedAt(sid, Sought(ids.split, r.version), prev, at);
      ghost var k := Key(sid, Sought(ids.split, r.version));
      StepNew(contents, k, Addition(r, o));
      var id;
      id, seg := L.TraceID.Create(r, o);
      if id == null {
        return;
      }
      ghost var state := FirstRecord(r, o).value;
      RealizedIs(id, state, seg);
      var node := ids.AddID(sid, r.version, height, prev, at);
      NodesInserted(old(ids.all), at[0] + 1, node);
      ids.NodeKey(node);
      Attach(node, id, state);
    }

    /** What a search finds is an ID of the source, and in one consistent version mode the one of the key sought. */
    lemma FoundKey(sid: string, pubversion: nat, node: Node)
      requires Valid() && ids.Finds(sid, pubversion, node)
      ensures node in data && KeyOf(node, ids.split).sid == sid
      ensures Consistent(ids.split, pubversion) ==> KeyOf(node, ids.split) == Key(sid, pubversion)
    {
      ids.MatchIsSource(sid, pubversion, node);
      var p: nat :| ids.HighestFirst(sid, pubversion, p) && ids.all[p] == node;
      assert ids.all[1..][p - 1] == node;
      hide TraceList.Valid, Holds;
      if Consistent(ids.split, pubversion) {
        CompareIsOrder(node, sid, pubversion, ids.split);
      }
    }

    /** The addition is accepted. */
    ghost predicate Accepted(m: map<Key, IdState>, k: Key, a: Addition)
      requires k in m ==> m[k].segs != []
    {
      if k in m then AddRecord(m[k], a.r, a.o).Added? else FirstRecord(a.r, a.o).Some?
    }

    /** _mstl3_addmsr_impl: the ID that the search finds, or a new one, takes the record, and no other changes. */
    method AddMsr(sid: string, r: Record, o: Opts, height: nat) returns (seg: L.TraceSeg?, ghost k: Key)
      requires Valid() && 1 <= height <= HEIGHT
      modifies this, repr, segs, ids`numtraceids, ids`all, Nodes(ids.all)`next
      ensures Valid() && fresh(repr - old(repr)) && fresh(segs - old(segs))
      ensures k.sid == sid && (k in old(contents) ==> old(contents)[k].segs != [])
      ensures contents == Step(old(contents), k, Addition(r, o))
      ensures seg != null <==> Accepted(old(contents), k, Addition(r, o))
      ensures var v := Sought(ids.split, r.version);
              && (Consistent(ids.split, v) || k !in old(contents) ==> k == Key(sid, v))
              && (k in old(contents) ==>
                  old(exists n: Node :: n in data && ids.Finds(sid, v, n) && KeyOf(n, ids.split) == k))
    {
      hide *;
      AllOf();
      ghost var v := Sought(ids.split, r.version);
      var found, prev, at := ids.FindID(sid, Sought(ids.split, r.version));
      if found == null {
        k := Key(sid, v);
        seg := AddNewID(sid, r, o, height, prev, at);
      } else {
        FoundKey(sid, v, found);
        k := KeyOf(found, ids.split);
        seg := AddToID(found, r, o);
      }
      AcceptedIs(old(contents), k, Addition(r, o));
    }

    lemma AcceptedIs(m: map<Key, IdState>, k: Key, a: Addition)
      requires k in m ==> m[k].segs != []
      ensures Accepted(m, k, a) == if k in m then AddRecord(m[k], a.r, a.o).Added? else FirstRecord(a.r, a.o).Some?
    {
      hide AddRecord, FirstRecord;
    }

    // ---------------------------------------------------------- removing a segment

    /** The segment at i gone from the ID of a key; without segments the ID goes too. */
    ghost function Without(m: map<Key, IdState>, k: Key, i: nat): map<Key, IdState>
      requires k in m && i < |m[k].segs|
    {
      if |m[k].segs| == 1 then m - {k} else m[k := m[k].(segs := RemoveAt(m[k].segs, i))]
    }

    /** Remove a segment of one ID: the others stay as they are. */
    method RemoveBeside(node: Node, ghost state: IdState, seg: L.TraceSeg, ghost i: nat) returns (left: nat)
      requires node in data && OthersHold(node) && Is(data[node], state)
      requires i < |data[node].list| && data[node].list[i] == seg
      modifies data[node], data[node].list
      ensures OthersHold(node) && left == |data[node].list| == |state.segs| - 1
      ensures i < |state.segs| && (left > 0 ==> Is(data[node], state.(segs := RemoveAt(state.segs, i))))
      ensures forall j {:trigger data[node].list[j]} :: 0 <= j < |data[node].list| ==>
              data[node].list[j] in old(data[node].list)
    {
      hide KeyOf, L.TraceID.Linked, L.Values;
      data[node].RemoveSeg(seg, i);
      left := data[node].numsegments;
      hide Is;
      forall n | n in data && n != node ensures Holds(n) && NoneShared(data[n].list, data[node].list) {
        assert old(Holds(n)) && old(NoneShared(data[n].list, data[node].list));
        assert data[n].list == old(data[n].list);
      }
    }

    lemma NodesRemoved(all: seq<Node>, p: nat)
      requires 1 <= p < |all| && forall i, j :: 0 <= i < j < |all| ==> all[i] != all[j]
      ensures Nodes(RemoveAt(all, p)[1..]) == Nodes(all[1..]) - {all[p]}
    {
      var now, n := RemoveAt(all, p), all[p];
      assert now == all[..p] + all[p + 1..];
      assert now[1..] == all[1..p] + all[p + 1..] && all[1..] == all[1..p] + [n] + all[p + 1..];
    }

    /** The nodes of the IDs without one of them. */
    lemma ListWithout(p: nat)
      requires ids.Valid() && 1 <= p < |ids.all|
      ensures Nodes(RemoveAt(ids.all, p)[1..]) == Nodes(ids.all[1..]) - {ids.all[p]}
    {
      NodesRemoved(ids.all, p);
    }

    /** Drop a node and its ID. */
    method Forget(node: Node)
      requires ids.Valid() && node in data && OthersHold(node) && data.Keys - {node} == Nodes(ids.all[1..])
      requires forall k :: k in contents ==> exists n :: n in data && KeyOf(n, ids.split) == k
      modifies this`data, this`contents
      ensures Valid() && contents == old(contents) - {KeyOf(node, ids.split)}
    {
      hide *;
      OthersFacts(node);
      ghost var was, had := contents, data;
      data := data - {node};
      contents := contents - {KeyOf(node, ids.split)};
      forall n | n in data ensures HeldAs(data[n], KeyOf(n, ids.split), contents, repr, segs) {
        HeldKey(data[n], KeyOf(n, ids.split), was, repr, segs);
        HeldMore(data[n], KeyOf(n, ids.split), was, repr, segs, contents, repr, segs);
      }
      forall k | k in contents ensures exists n :: n in data && KeyOf(n, ids.split) == k {
        var n :| n in had && KeyOf(n, ids.split) == k;
        assert n in data;
      }
      MakeListed();
      MakeValid();
    }

    lemma WithoutIs(m: map<Key, IdState>, k: Key, i: nat)
      requires k in m && i < |m[k].segs|
      ensures Without(m, k, i) == if |m[k].segs| == 1 then m - {k} else m[k := m[k].(segs := RemoveAt(m[k].segs, i))]
    {}

    /** lm_remove_segment: the segment goes, and when it is the only one its ID goes with it. */
    method RemoveSegment(node: Node, seg: L.TraceSeg, ghost i: nat, ghost p: nat)
      requires Valid() && 1 <= p < |ids.all| && ids.all[p] == node && node in data
      requires i < |data[node].list| && data[node].list[i] == seg
      modifies this`data, this`contents, repr, segs, this`segs, ids`numtraceids, ids`all, Nodes(ids.all)`next
      ensures Valid()
      ensures var k := KeyOf(node, ids.split);
              && k in old(contents) && i < |old(contents)[k].segs| && contents == Without(old(contents), k, i)
      ensures if |old(contents)[KeyOf(node, ids.split)].segs| == 1 then ids.all == RemoveAt(old(ids.all), p)
              else ids.all == old(ids.all)
    {
      hide *;
      OthersOf(node);
      ListedGives();
      ListWithout(p);
      ghost var k, state := KeyOf(node, ids.split), contents[KeyOf(node, ids.split)];
      var left := RemoveBeside(node, state, seg, i);
      if left == 0 {
        ids.RemoveID(node, p);
        Forget(node);
      } else {
        Note(node, state.(segs := RemoveAt(state.segs, i)));
      }
      WithoutIs(old(contents), k, i);
    }
  }
}
