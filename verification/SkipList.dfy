/** The skip list of trace IDs agrees with a sorted list, whatever the heights of its nodes. */
module SkipList {
  import opened Sequences

  // ---------------------------------------------------------------- keys

  /** strcmp, by sign */
  function StrCmp(a: string, b: string): int {
    if a == [] then (if b == [] then 0 else -1)
    else if b == [] then 1
    else if a[0] < b[0] then -1
    else if b[0] < a[0] then 1
    else StrCmp(a[1..], b[1..])
  }

  lemma {:induction false} StrCmpEqual(a: string, b: string)
    ensures StrCmp(a, b) == 0 <==> a == b
    ensures StrCmp(a, b) == -StrCmp(b, a) && (StrCmp(a, b) == 0 || StrCmp(a, b) == 1 || StrCmp(a, b) == -1)
  {
    if a != [] && b != [] {
      StrCmpEqual(a[1..], b[1..]);
      if a[0] == b[0] && a[1..] == b[1..] {
        assert a == [a[0]] + a[1..] && b == [b[0]] + b[1..];
      }
    }
  }

  lemma {:induction false} StrCmpOrders(a: string, b: string, c: string)
    requires StrCmp(a, b) < 0 && StrCmp(b, c) < 0
    ensures StrCmp(a, c) < 0
  {
    if a != [] && b != [] && c != [] && a[0] == b[0] == c[0] {
      StrCmpOrders(a[1..], b[1..], c[1..]);
    }
  }

  /** The strings agree up to a place where the first ends or has the lesser character. */
  ghost predicate LexLess(a: string, b: string) {
    exists i: nat :: DiffersAt(a, b, i)
  }

  predicate DiffersAt(a: string, b: string, i: nat) {
    i <= |a| && i < |b| && a[..i] == b[..i] && (i == |a| || a[i] < b[i])
  }

  lemma {:induction false} StrCmpLexLess(a: string, b: string)
    ensures StrCmp(a, b) < 0 <==> LexLess(a, b)
  {
    if a == [] || b == [] || a[0] != b[0] {
      if StrCmp(a, b) < 0 {
        assert DiffersAt(a, b, 0);
      }
    } else {
      StrCmpLexLess(a[1..], b[1..]);
      if StrCmp(a, b) < 0 {
        var i: nat :| DiffersAt(a[1..], b[1..], i);
        assert a[..i + 1] == [a[0]] + a[1..][..i] && b[..i + 1] == [b[0]] + b[1..][..i];
        assert DiffersAt(a, b, i + 1);
      }
      if LexLess(a, b) {
        var i: nat :| DiffersAt(a, b, i);
        assert i > 0 && a[1..][..i - 1] == a[..i][1..] && b[1..][..i - 1] == b[..i][1..];
        assert DiffersAt(a[1..], b[1..], i - 1);
      }
    }
  }

  /** What IDs are told apart by: the version counts only when versions are kept separate. */
  datatype Key = Key(sid: string, version: nat)

  predicate Before(a: Key, b: Key) {
    StrCmp(a.sid, b.sid) < 0 || (a.sid == b.sid && a.version < b.version)
  }

  /** Keys are ordered by the first character in which their identifiers differ, and then by version. */
  lemma BeforeIs(a: Key, b: Key)
    ensures Before(a, b) <==> LexLess(a.sid, b.sid) || (a.sid == b.sid && a.version < b.version)
  {
    StrCmpLexLess(a.sid, b.sid);
    hide StrCmp, LexLess;
  }

  lemma KeysOrder(a: Key, b: Key, c: Key)
    ensures Before(a, b) && Before(b, c) ==> Before(a, c)
    ensures !Before(a, a) && !(Before(a, b) && Before(b, a)) && (Before(a, b) || Before(b, a) || a == b)
  {
    StrCmpEqual(a.sid, b.sid);
    StrCmpEqual(a.sid, a.sid);
    if StrCmp(a.sid, b.sid) < 0 && StrCmp(b.sid, c.sid) < 0 {
      StrCmpOrders(a.sid, b.sid, c.sid);
    }
    hide StrCmp;
  }

  // ---------------------------------------------------------------- heights and levels

  const HEIGHT: nat := 8

  /** The next index after i whose height reaches level l, or the length. */
  function NextAt(h: seq<nat>, i: nat, l: nat): (j: nat)
    requires i < |h|
    ensures i < j <= |h| && (j < |h| ==> h[j] > l) && forall k :: i < k < j ==> h[k] <= l
    decreases |h| - i
  {
    if i + 1 == |h| then |h| else if h[i + 1] > l then i + 1 else NextAt(h, i + 1, l)
  }

  /** The next index is the only one with these properties. */
  lemma NextIs(h: seq<nat>, i: nat, l: nat, j: nat)
    requires i < |h| && i < j <= |h| && (j < |h| ==> h[j] > l) && forall k :: i < k < j ==> h[k] <= l
    ensures NextAt(h, i, l) == j
  {}

  /** The last index before p whose height reaches level l, when 0 does. */
  predicate LastBefore(h: seq<nat>, p: nat, l: nat, j: nat)
    requires p <= |h|
  {
    j < p && h[j] > l && forall k :: j < k < p ==> h[k] <= l
  }

  /** Inserting a height moves the later indices: at the place, before it, and after it. */
  lemma NextOfInserted(h: seq<nat>, p: nat, x: nat, l: nat, j: nat)
    requires 0 < p <= |h| && LastBefore(h, p, l, j)
    ensures NextAt(h, j, l) >= p && NextAt(InsertAt(h, p, x), p, l) == NextAt(h, j, l) + 1
  {
    NextIs(InsertAt(h, p, x), p, l, NextAt(h, j, l) + 1);
  }

  lemma NextAfterInserted(h: seq<nat>, p: nat, x: nat, i: nat, l: nat)
    requires p <= i < |h|
    ensures NextAt(InsertAt(h, p, x), i + 1, l) == NextAt(h, i, l) + 1
  {
    NextIs(InsertAt(h, p, x), i + 1, l, NextAt(h, i, l) + 1);
  }

  lemma NextBeforeInserted(h: seq<nat>, p: nat, x: nat, i: nat, l: nat, j: nat)
    requires i < p <= |h| && l < h[i] && LastBefore(h, p, l, j)
    ensures var n := NextAt(h, i, l);
            && NextAt(InsertAt(h, p, x), i, l) == (if i == j && x > l then p else if n < p then n else n + 1)
            && (i != j ==> n < p)
  {
    var h', n := InsertAt(h, p, x), NextAt(h, i, l);
    if i == j && x > l {
      NextIs(h', i, l, p);
    } else if n < p {
      NextIs(h', i, l, n);
    } else {
      NextIs(h', i, l, n + 1);
    }
  }

  /** Removing a height moves the later indices back, and what it led to follows the last before it. */
  lemma NextRemoved(h: seq<nat>, p: nat, i: nat, l: nat, j: nat)
    requires 0 < p < |h| && i < |h| && i != p && l < h[i] && LastBefore(h, p, l, j)
    ensures var h', n := RemoveAt(h, p), NextAt(h, i, l);
            && (i < p ==> NextAt(h', i, l) == if i == j then (if h[p] > l then NextAt(h, p, l) else n) - 1 else n)
            && (i > p ==> NextAt(h', i - 1, l) == n - 1)
            && (i < p && i != j ==> n < p) && (i == j && h[p] > l ==> n == p)
  {
    if i > p {
      NextPast(h, p, i, l);
    } else if i == j {
      NextAcross(h, p, l, j);
    } else {
      NextAhead(h, p, i, l, j);
    }
    hide *;
  }

  lemma NextPast(h: seq<nat>, p: nat, i: nat, l: nat)
    requires p < i < |h| && l < h[i]
    ensures NextAt(RemoveAt(h, p), i - 1, l) == NextAt(h, i, l) - 1
  {
    NextIs(RemoveAt(h, p), i - 1, l, NextAt(h, i, l) - 1);
  }

  lemma NextAcross(h: seq<nat>, p: nat, l: nat, j: nat)
    requires j < p < |h| && l < h[j] && LastBefore(h, p, l, j)
    ensures NextAt(RemoveAt(h, p), j, l) == (if h[p] > l then NextAt(h, p, l) else NextAt(h, j, l)) - 1
    ensures h[p] > l ==> NextAt(h, j, l) == p
  {
    if h[p] > l {
      NextIs(h, j, l, p);
      NextIs(RemoveAt(h, p), j, l, NextAt(h, p, l) - 1);
    } else {
      NextIs(RemoveAt(h, p), j, l, NextAt(h, j, l) - 1);
    }
  }

  lemma NextAhead(h: seq<nat>, p: nat, i: nat, l: nat, j: nat)
    requires i < p < |h| && i != j && l < h[i] && LastBefore(h, p, l, j)
    ensures NextAt(RemoveAt(h, p), i, l) == NextAt(h, i, l) < p
  {
    NextIs(RemoveAt(h, p), i, l, NextAt(h, i, l));
  }

  // ---------------------------------------------------------------- nodes

  /** The part of MS3TraceID that the skip list uses. Only the first height pointers are in use. */
  class Node {
    const sid: string
    const pubversion: nat
    const height: nat
    var next: seq<Node?>

    constructor (sid: string, pubversion: nat, height: nat)
      ensures this.sid == sid && this.pubversion == pubversion && this.height == height && next == NoLinks()
    {
      this.sid, this.pubversion, this.height := sid, pubversion, height;
      next := NoLinks();
    }

    /** The comparison of mstl3_findID: by identifier, then by version if one is asked for. */
    function Compare(sid: string, pubversion: nat): int {
      var cmp := StrCmp(this.sid, sid);
      if cmp == 0 && pubversion != 0 && this.pubversion != pubversion
        then (if this.pubversion < pubversion then -1 else 1) else cmp
    }
  }

  function NoLinks(): (s: seq<Node?>)
    ensures |s| == HEIGHT && forall l :: 0 <= l < HEIGHT ==> s[l] == null
  {
    seq(HEIGHT, _ => null)
  }

  function KeyOf(n: Node, split: bool): Key {
    Key(n.sid, if split then n.pubversion else 0)
  }

  function Heights(all: seq<Node>): (h: seq<nat>)
    ensures |h| == |all| && forall i :: 0 <= i < |all| ==> h[i] == all[i].height
  {
    seq(|all|, i requires 0 <= i < |all| => all[i].height)
  }

  /** The version that _mstl3_addmsr_impl searches for. */
  function Sought(split: bool, pubversion: nat): nat {
    if split then pubversion else 0
  }

  /** A search in one mode asks for a version exactly when versions are kept separate. */
  predicate Consistent(split: bool, pubversion: nat) {
    split <==> pubversion != 0
  }

  /** Then the comparison is that of the keys. */
  lemma CompareIsOrder(n: Node, sid: string, pubversion: nat, split: bool)
    requires Consistent(split, pubversion)
    ensures n.Compare(sid, pubversion) == 0 <==> KeyOf(n, split) == Key(sid, pubversion)
    ensures n.Compare(sid, pubversion) < 0 <==> Before(KeyOf(n, split), Key(sid, pubversion))
    ensures n.Compare(sid, pubversion) > 0 <==> Before(Key(sid, pubversion), KeyOf(n, split))
  {
    StrCmpEqual(n.sid, sid);
    hide StrCmp;
  }

  /** A search as for adding a record finds the nodes to be smaller or larger as their keys are. */
  lemma CompareSought(n: Node, sid: string, pubversion: nat, split: bool)
    ensures var v := Sought(split, pubversion);
            && (n.Compare(sid, v) < 0 ==> Before(KeyOf(n, split), Key(sid, v)))
            && (n.Compare(sid, v) > 0 ==> Before(Key(sid, v), KeyOf(n, split)))
  {
    StrCmpEqual(n.sid, sid);
    hide StrCmp;
  }

  /** Whatever is asked for, the comparison grows with the keys. */
  lemma CompareGrows(a: Node, b: Node, sid: string, pubversion: nat, split: bool)
    requires Before(KeyOf(a, split), KeyOf(b, split))
    ensures a.Compare(sid, pubversion) >= 0 ==> b.Compare(sid, pubversion) >= 0
    ensures a.Compare(sid, pubversion) > 0 ==> b.Compare(sid, pubversion) > 0
  {
    StrCmpEqual(a.sid, sid);
    StrCmpEqual(b.sid, sid);
    StrCmpEqual(a.sid, b.sid);
    if StrCmp(sid, a.sid) < 0 && StrCmp(a.sid, b.sid) < 0 {
      StrCmpOrders(sid, a.sid, b.sid);
    }
    hide StrCmp;
  }

  /** Where versions are kept separate, a search tells a node of another version apart, unless it asks for
      version 0. */
  lemma VersionZeroMatchesAny(n: Node, sid: string, pubversion: nat)
    ensures (n.Compare(sid, pubversion) == 0 <==> KeyOf(n, true) == Key(sid, pubversion))
            <==> pubversion != 0 || n.sid != sid || n.pubversion == 0
  {
    StrCmpEqual(n.sid, sid);
    hide StrCmp;
  }

  /** The ID with the key that a scan from the first node on finds. */
  function Scan(nodes: seq<Node>, k: Key, split: bool): Node? {
    if nodes == [] then null else if KeyOf(nodes[0], split) == k then nodes[0] else Scan(nodes[1..], k, split)
  }

  lemma {:induction false} ScanFinds(nodes: seq<Node>, k: Key, split: bool, i: nat)
    requires forall a, b :: 0 <= a < b < |nodes| ==> KeyOf(nodes[a], split) != KeyOf(nodes[b], split)
    requires i < |nodes| && KeyOf(nodes[i], split) == k
    ensures Scan(nodes, k, split) == nodes[i]
  {
    if i > 0 {
      assert KeyOf(nodes[0], split) != KeyOf(nodes[i], split);
      ScanFinds(nodes[1..], k, split, i - 1);
    }
  }

  lemma {:induction false} ScanMisses(nodes: seq<Node>, k: Key, split: bool)
    requires forall a :: 0 <= a < |nodes| ==> KeyOf(nodes[a], split) != k
    ensures Scan(nodes, k, split) == null
  {
    if nodes != [] {
      ScanMisses(nodes[1..], k, split);
    }
  }

  /** The nodes of one level, from the first on. */
  function Level(nodes: seq<Node>, l: nat): seq<Node> {
    if nodes == [] then [] else (if nodes[0].height > l then [nodes[0]] else []) + Level(nodes[1..], l)
  }

  // ---------------------------------------------------------------- the list

  class TraceList {
    const head: Node
    const split: bool        // publication versions are kept separate
    var numtraceids: nat
    ghost var all: seq<Node> // the head and the IDs in order

    ghost predicate Shape(all: seq<Node>)
      reads all`next
    {
      && all != [] && all[0] == head && head.height == HEIGHT
      && (forall i, j :: 0 <= i < j < |all| ==> all[i] != all[j])
      && (forall i {:trigger all[i].height} :: 0 <= i < |all| ==> 1 <= all[i].height <= HEIGHT)
      && forall i {:trigger all[i].next} :: 0 <= i < |all| ==> |all[i].next| == HEIGHT
    }

    ghost predicate Sorted(all: seq<Node>) {
      forall i, j :: 1 <= i < j < |all| ==> Before(KeyOf(all[i], split), KeyOf(all[j], split))
    }

    /** The pointer of a node on each of its levels leads to the next node on that level. */
    ghost predicate Linked(all: seq<Node>)
      requires Shape(all)
      reads all`next
    {
      forall i, l {:trigger all[i].next[l]} :: 0 <= i < |all| && 0 <= l < all[i].height
        ==> all[i].next[l] == NodeAt(all, NextAt(Heights(all), i, l))
    }

    ghost predicate Valid()
      reads this`numtraceids, this`all, all`next
    {
      Shape(all) && Sorted(all) && Linked(all) && numtraceids == |all| - 1
    }

    constructor (split: bool)
      ensures Valid() && fresh(all) && all == [head] && this.split == split
    {
      var node := new Node("", 0, HEIGHT);
      head, this.split := node, split;
      numtraceids := 0;
      all := [node];
    }

    /** The search takes the node at i to be smaller than what it asks for, the head being smaller always. */
    ghost predicate Smaller(sid: string, pubversion: nat, i: nat)
      reads this`all
    {
      i < |all| && (i == 0 || all[i].Compare(sid, pubversion) < 0)
    }

    /** all[j] is the last smaller node on level l, and those after it there are larger. */
    ghost predicate LastSmaller(sid: string, pubversion: nat, l: nat, j: nat)
      reads this`all
    {
      && Smaller(sid, pubversion, j) && all[j].height > l
      && forall i :: j < i < |all| && all[i].height > l ==> all[i].Compare(sid, pubversion) > 0
    }

    /** The node at p is a match, the first of the highest ones. */
    ghost predicate HighestFirst(sid: string, pubversion: nat, p: nat)
      reads this`all
    {
      && 1 <= p < |all| && all[p].Compare(sid, pubversion) == 0
      && forall i :: 1 <= i < |all| && all[i].Compare(sid, pubversion) == 0
           ==> if i < p then all[i].height < all[p].height else all[i].height <= all[p].height
    }

    /** What a search finds: the first of the highest of the matches, or nothing when there are none. */
    ghost predicate Finds(sid: string, pubversion: nat, id: Node?)
      reads this`all
    {
      if id == null then forall i :: 1 <= i < |all| ==> all[i].Compare(sid, pubversion) != 0
      else exists p: nat :: HighestFirst(sid, pubversion, p) && all[p] == id
    }

    /** What is smaller comes before what is not, and what is larger after what is not. */
    lemma ComparesInOrder(sid: string, pubversion: nat, i: nat, j: nat)
      requires Sorted(all) && 1 <= i <= j < |all|
      ensures all[i].Compare(sid, pubversion) >= 0 ==> all[j].Compare(sid, pubversion) >= 0
      ensures all[i].Compare(sid, pubversion) > 0 ==> all[j].Compare(sid, pubversion) > 0
    {
      hide Before;
      if i < j {
        CompareGrows(all[i], all[j], sid, pubversion, split);
      }
    }

    /** Going right from a smaller node whose successor on the level is larger, all nodes there are larger. */
    lemma LevelEnds(sid: string, pubversion: nat, l: nat, i: nat)
      requires Valid() && l < HEIGHT && Smaller(sid, pubversion, i) && all[i].height > l
      requires var n := NextAt(Heights(all), i, l); n < |all| ==> all[n].Compare(sid, pubversion) > 0
      ensures LastSmaller(sid, pubversion, l, i)
    {
      hide Before, Sorted;
      var n := NextAt(Heights(all), i, l);
      forall m | i < m < |all| && all[m].height > l ensures all[m].Compare(sid, pubversion) > 0 {
        assert m >= n;
        ComparesInOrder(sid, pubversion, n, m);
      }
    }

    /** A match next on a level, when no higher level has one, is the first of the highest matches. */
    lemma LevelFinds(sid: string, pubversion: nat, l: nat, i: nat, at: seq<nat>)
      requires Valid() && l < HEIGHT && Smaller(sid, pubversion, i) && all[i].height > l && |at| == HEIGHT
      requires forall m :: l < m < HEIGHT ==> LastSmaller(sid, pubversion, m, at[m])
      requires var n := NextAt(Heights(all), i, l); n < |all| && all[n].Compare(sid, pubversion) == 0
      ensures HighestFirst(sid, pubversion, NextAt(Heights(all), i, l))
    {
      hide Before, Sorted;
      var n := NextAt(Heights(all), i, l);
      forall m | 1 <= m < |all| && all[m].Compare(sid, pubversion) == 0
        ensures if m < n then all[m].height < all[n].height else all[m].height <= all[n].height
      {
        if m <= i {
          ComparesInOrder(sid, pubversion, m, i);
        } else if m < n {
          assert Heights(all)[m] <= l;
        } else if all[m].height > l + 1 {
          assert LastSmaller(sid, pubversion, l + 1, at[l + 1]);
          if 1 <= m <= at[l + 1] {
            ComparesInOrder(sid, pubversion, m, at[l + 1]);
          }
        }
      }
    }

    /** mstl3_findID, with the previous nodes it leaves behind when there is no such ID */
    method FindID(sid: string, pubversion: nat) returns (id: Node?, prev: seq<Node?>, ghost at: seq<nat>)
      requires Valid()
      ensures Finds(sid, pubversion, id)
      ensures id == null ==> Missed(sid, pubversion, prev, at)
      ensures Consistent(split, pubversion) ==> id == Scan(all[1..], Key(sid, pubversion), split)
    {
      hide Before, StrCmp, Sorted, HighestFirst;
      prev := NoLinks();
      at := seq(HEIGHT, _ => 0);
      var level: int := HEIGHT - 1;
      var node: Node := head;
      ghost var i: nat := 0;
      while level >= 0
        invariant -1 <= level < HEIGHT && |prev| == HEIGHT == |at|
        invariant Smaller(sid, pubversion, i) && all[i] == node && node.height > level
        invariant forall l :: level < l < HEIGHT ==> LastSmaller(sid, pubversion, l, at[l]) && prev[l] == all[at[l]]
        decreases level + 1, |all| - i
      {
        prev := prev[level := node];
        at := at[level := i];
        assert all[i].next[level] == NodeAt(all, NextAt(Heights(all), i, level));
        var successor := node.next[level];
        if successor == null {
          LevelEnds(sid, pubversion, level, i);
          level := level - 1;
        } else {
          var cmp := successor.Compare(sid, pubversion);
          if cmp == 0 {
            LevelFinds(sid, pubversion, level, i, at);
            FoundIs(sid, pubversion, NextAt(Heights(all), i, level));
            return successor, prev, at;
          } else if cmp > 0 {
            LevelEnds(sid, pubversion, level, i);
            level := level - 1;
          } else {
            i := NextAt(Heights(all), i, level);
            node := successor;
          }
        }
      }
      MissIs(sid, pubversion, at[0]);
      id := null;
    }

    lemma FoundIs(sid: string, pubversion: nat, p: nat)
      requires Valid() && HighestFirst(sid, pubversion, p)
      ensures Finds(sid, pubversion, all[p])
      ensures Consistent(split, pubversion) ==> all[p] == Scan(all[1..], Key(sid, pubversion), split)
    {
      hide Before;
      if Consistent(split, pubversion) {
        CompareIsOrder(all[p], sid, pubversion, split);
        ScanAt(p);
      }
    }

    /** A scan for a node's key finds the node. */
    lemma ScanAt(p: nat)
      requires Valid() && 1 <= p < |all|
      ensures all[p] == Scan(all[1..], KeyOf(all[p], split), split)
    {
      hide Before;
      forall a, b | 1 <= a < b < |all| ensures KeyOf(all[a], split) != KeyOf(all[b], split) {
        KeysOrder(KeyOf(all[a], split), KeyOf(all[b], split), KeyOf(all[p], split));
      }
      ScanFinds(all[1..], KeyOf(all[p], split), split, p - 1);
    }

    lemma MissIs(sid: string, pubversion: nat, j: nat)
      requires Valid() && LastSmaller(sid, pubversion, 0, j)
      ensures Finds(sid, pubversion, null)
      ensures Consistent(split, pubversion) ==> Scan(all[1..], Key(sid, pubversion), split) == null
    {
      hide Before, Sorted;
      forall a | 1 <= a < |all|
        ensures all[a].Compare(sid, pubversion) != 0
        ensures Consistent(split, pubversion) ==> KeyOf(all[a], split) != Key(sid, pubversion)
      {
        assert all[a].height >= 1;
        if a <= j {
          ComparesInOrder(sid, pubversion, a, j);
        }
        if Consistent(split, pubversion) {
          CompareIsOrder(all[a], sid, pubversion, split);
        }
      }
      if Consistent(split, pubversion) {
        ScanMisses(all[1..], Key(sid, pubversion), split);
      }
    }

    /** A search for version 0 where versions are kept separate finds what a scan for that key does exactly when
        no ID of the source is higher than one of version 0. */
    lemma VersionZeroFinds(sid: string, id: Node?)
      requires Valid() && split && Finds(sid, 0, id)
      ensures id == Scan(all[1..], Key(sid, 0), true)
              <==> var zero := Scan(all[1..], Key(sid, 0), true);
                   forall i :: 1 <= i < |all| && all[i].sid == sid ==> zero != null && all[i].height <= zero.height
    {
      hide Before, Sorted, StrCmp;
      var zero := Scan(all[1..], Key(sid, 0), true);
      forall i | 1 <= i < |all| ensures all[i].Compare(sid, 0) == 0 <==> all[i].sid == sid {
        StrCmpEqual(all[i].sid, sid);
      }
      ScanKey(all[1..], Key(sid, 0), true);
      if zero != null {
        var z := ScanIndex(all[1..], Key(sid, 0), true);
        assert all[z + 1] == zero && zero.sid == sid && zero.pubversion == 0;
        forall i | 1 <= i < |all| && all[i].sid == sid ensures i >= z + 1 {
          ZeroFirst(i, z + 1);
        }
      }
    }

    /** Of the IDs of a source, version 0 is first. */
    lemma ZeroFirst(i: nat, z: nat)
      requires Valid() && split && 1 <= i < |all| && 1 <= z < |all| && all[i].sid == all[z].sid
               && all[z].pubversion == 0
      ensures i >= z
    {
      if i < z {
        assert Before(KeyOf(all[i], split), KeyOf(all[z], split));
        StrCmpEqual(all[i].sid, all[z].sid);
      }
    }

    // ---------------------------------------------------------- adding

    /** prev and at are what a search that misses leaves behind: the last smaller nodes. */
    ghost predicate Missed(sid: string, pubversion: nat, prev: seq<Node?>, at: seq<nat>)
      reads this`all
    {
      && |prev| == HEIGHT == |at|
      && forall l :: 0 <= l < HEIGHT ==> LastSmaller(sid, pubversion, l, at[l]) && prev[l] == all[at[l]]
    }

    /** They are the last before the place of the key, which is after the last smaller of all. */
    lemma Place(sid: string, pubversion: nat, prev: seq<Node?>, at: seq<nat>)
      requires Valid() && Missed(sid, Sought(split, pubversion), prev, at)
      ensures var p, k := at[0] + 1, Key(sid, Sought(split, pubversion));
              && 1 <= p <= |all|
              && (forall i :: 1 <= i < p ==> Before(KeyOf(all[i], split), k))
              && (forall i :: p <= i < |all| ==> Before(k, KeyOf(all[i], split)))
              && forall l :: 0 <= l < HEIGHT ==>
                   LastBefore(Heights(all), p, l, at[l]) && at[l] < |all| && all[at[l]].height > l
    {
      hide Before, Sorted, StrCmp, Sought;
      var p, v := at[0] + 1, Sought(split, pubversion);
      assert LastSmaller(sid, v, 0, at[0]);
      forall i | 1 <= i < |all|
        ensures i < p ==> all[i].Compare(sid, v) < 0 && Before(KeyOf(all[i], split), Key(sid, v))
        ensures i >= p ==> all[i].Compare(sid, v) > 0 && Before(Key(sid, v), KeyOf(all[i], split))
      {
        assert all[i].height >= 1;
        CompareSought(all[i], sid, pubversion, split);
        if i < p {
          ComparesInOrder(sid, v, i, at[0]);
        }
      }
      forall l | 0 <= l < HEIGHT
        ensures LastBefore(Heights(all), p, l, at[l]) && at[l] < |all| && all[at[l]].height > l
      {
        assert LastSmaller(sid, v, l, at[l]);
      }
    }

    /** Connect the new node with its neighbours on the levels it has. */
    method Connect(id: Node, prev: seq<Node?>, ghost at: seq<nat>)
      requires Shape(all) && |prev| == HEIGHT == |at|
      requires forall l :: 0 <= l < HEIGHT ==> at[l] < |all| && prev[l] == all[at[l]]
      requires id !in all && id.height <= HEIGHT && id.next == NoLinks()
      modifies Nodes(all)`next, id`next
      ensures Shape(all) && |id.next| == HEIGHT
      ensures forall l :: 0 <= l < id.height ==> id.next[l] == old(all[at[l]].next[l])
      ensures forall i, l {:trigger all[i].next[l]} :: 0 <= i < |all| && 0 <= l < HEIGHT
                ==> all[i].next[l] == if l < id.height && i == at[l] then id else old(all[i].next[l])
    {
      var level: int := id.height - 1;
      while level >= 0
        invariant -1 <= level < id.height && Shape(all) && |id.next| == HEIGHT
        invariant forall l :: level < l < id.height ==> id.next[l] == old(all[at[l]].next[l])
        invariant forall i, l {:trigger all[i].next[l]} :: 0 <= i < |all| && 0 <= l < HEIGHT
                    ==> all[i].next[l] == if level < l < id.height && i == at[l] then id else old(all[i].next[l])
      {
        var before := prev[level];
        assert before == all[at[level]] && before in Nodes(all);
        id.next := id.next[level := before.next[level]];
        before.next := before.next[level := id];
        level := level - 1;
      }
    }

    lemma HeightsInserted(all: seq<Node>, p: nat, id: Node)
      requires p <= |all|
      ensures Heights(InsertAt(all, p, id)) == InsertAt(Heights(all), p, id.height)
    {
    }

    lemma NodeAtInserted(all: seq<Node>, p: nat, id: Node, q: nat)
      requires p <= |all|
      ensures NodeAt(InsertAt(all, p, id), q) == if q < p then NodeAt(all, q) else if q == p then id
              else NodeAt(all, q - 1)
    {}

    /** The node at an index after the insertion. */
    lemma InsertedTarget(all: seq<Node>, p: nat, id: Node, q: nat, i: nat, n: nat, past: bool)
      requires p <= |all|
      requires q == if i >= p then n + 1 else if past then p else if n < p then n else n + 1
      requires i >= p ==> n > p && !past
      ensures NodeAt(InsertAt(all, p, id), q) == if past then id else NodeAt(all, n)
    {
      NodeAtInserted(all, p, id, q);
    }

    /** Where a node that was there leads after the insertion. */
    lemma OldLink(all: seq<Node>, p: nat, id: Node, i: nat, l: nat, j: nat)
      requires 0 < p <= |all| && i < |all| && l < all[i].height && LastBefore(Heights(all), p, l, j)
      ensures NodeAt(InsertAt(all, p, id), NextAt(Heights(InsertAt(all, p, id)), if i < p then i else i + 1, l))
              == if l < id.height && i == j then id else NodeAt(all, NextAt(Heights(all), i, l))
    {
      NextOfOld(all, p, id, i, l, j);
      hide *;
      InsertedTarget(all, p, id, NextAt(Heights(InsertAt(all, p, id)), if i < p then i else i + 1, l), i,
                     NextAt(Heights(all), i, l), l < id.height && i == j);
    }

    lemma NextOfOld(all: seq<Node>, p: nat, id: Node, i: nat, l: nat, j: nat)
      requires 0 < p <= |all| && i < |all| && l < all[i].height && LastBefore(Heights(all), p, l, j)
      ensures var q := NextAt(Heights(InsertAt(all, p, id)), if i < p then i else i + 1, l);
              var n, past := NextAt(Heights(all), i, l), l < id.height && i == j;
              && (q == if i >= p then n + 1 else if past then p else if n < p then n else n + 1)
              && (i >= p ==> n > p && !past)
    {
      assert j < p;
      HeightsInserted(all, p, id);
      hide LastBefore, InsertAt;
      if i >= p {
        NextAfterInserted(Heights(all), p, id.height, i, l);
      } else {
        NextBeforeInserted(Heights(all), p, id.height, i, l, j);
      }
    }

    /** The new node leads where the last before it led. */
    lemma NewLink(all: seq<Node>, p: nat, id: Node, l: nat, j: nat)
      requires 0 < p <= |all| && LastBefore(Heights(all), p, l, j)
      ensures NodeAt(InsertAt(all, p, id), NextAt(Heights(InsertAt(all, p, id)), p, l))
              == NodeAt(all, NextAt(Heights(all), j, l))
    {
      assert j < p && Heights(all)[j] > l;
      hide InsertAt, LastBefore, NextAt, NodeAt, Heights;
      HeightsInserted(all, p, id);
      NextOfInserted(Heights(all), p, id.height, l, j);
      NodeAtInserted(all, p, id, NextAt(Heights(InsertAt(all, p, id)), p, l));
    }

    lemma InsertedShape(all: seq<Node>, p: nat, id: Node)
      requires Shape(all) && 0 < p <= |all| && id !in all && 1 <= id.height <= HEIGHT && |id.next| == HEIGHT
      ensures Shape(InsertAt(all, p, id))
    {
    }

    lemma InsertedSorted(all: seq<Node>, p: nat, id: Node)
      requires Sorted(all) && 0 < p <= |all|
      requires forall i :: 1 <= i < p ==> Before(KeyOf(all[i], split), KeyOf(id, split))
      requires forall i :: p <= i < |all| ==> Before(KeyOf(id, split), KeyOf(all[i], split))
      ensures Sorted(InsertAt(all, p, id))
    {
      hide Before;
    }

    /** The pointers of a list into which a node was connected. */
    ghost predicate Connected(all: seq<Node>, id: Node, at: seq<nat>)
      requires Shape(all)
      reads all`next, id`next
    {
      && 1 <= id.height <= HEIGHT && |id.next| == HEIGHT == |at|
      && (forall l :: 0 <= l < id.height ==> at[l] < |all| && id.next[l] == NodeAt(all, NextAt(Heights(all), at[l], l)))
      && forall i, l {:trigger all[i].next[l]} :: 0 <= i < |all| && 0 <= l < all[i].height
           ==> all[i].next[l] == if l < id.height && i == at[l] then id else NodeAt(all, NextAt(Heights(all), i, l))
    }

    /** The pointers of a list and of a node connected in it. */
    lemma ConnectedGives(all: seq<Node>, id: Node, at: seq<nat>, i: nat, l: nat)
      requires Shape(all) && Connected(all, id, at) && l < HEIGHT
      ensures |at| == HEIGHT == |id.next| && id.height <= HEIGHT
      ensures l < id.height ==> at[l] < |all| && id.next[l] == NodeAt(all, NextAt(Heights(all), at[l], l))
      ensures i < |all| && l < all[i].height ==>
                && |all[i].next| == HEIGHT
                && all[i].next[l] == if l < id.height && i == at[l] then id else NodeAt(all, NextAt(Heights(all), i, l))
    {
      hide NextAt, Heights, NodeAt;
    }

    lemma InsertedNode(all: seq<Node>, p: nat, id: Node, m: nat)
      requires p <= |all| && m <= |all|
      ensures |InsertAt(all, p, id)| == |all| + 1
      ensures InsertAt(all, p, id)[m] == if m < p then all[m] else if m == p then id else all[m - 1]
    {}

    lemma InsertedLink(all: seq<Node>, p: nat, id: Node, at: seq<nat>, m: nat, l: nat)
      requires Shape(all) && 0 < p <= |all| && Connected(all, id, at) && m <= |all| && l < HEIGHT
      requires l < |at| && LastBefore(Heights(all), p, l, at[l])
      requires l < InsertAt(all, p, id)[m].height
      ensures var all' := InsertAt(all, p, id);
              |all'[m].next| == HEIGHT && all'[m].next[l] == NodeAt(all', NextAt(Heights(all'), m, l))
    {
      hide *;
      InsertedNode(all, p, id, m);
      var i := if m < p then m else if m > p then m - 1 else 0;
      ConnectedGives(all, id, at, i, l);
      if m == p {
        NewLink(all, p, id, l, at[l]);
      } else {
        OldLink(all, p, id, i, l, at[l]);
      }
    }

    lemma MakeLinked(all: seq<Node>)
      requires Shape(all)
      requires forall i, l :: 0 <= i < |all| && 0 <= l < all[i].height ==>
                 all[i].next[l] == NodeAt(all, NextAt(Heights(all), i, l))
      ensures Linked(all)
    {
      hide NextAt, Heights, NodeAt;
    }

    lemma ShapeAt(all: seq<Node>, i: nat)
      requires Shape(all) && i < |all|
      ensures 1 <= all[i].height <= HEIGHT && |all[i].next| == HEIGHT
    {}

    lemma InsertedLinked(all: seq<Node>, p: nat, id: Node, at: seq<nat>)
      requires Shape(all) && 0 < p <= |all| && Connected(all, id, at) && Shape(InsertAt(all, p, id))
      requires forall l :: 0 <= l < HEIGHT ==> LastBefore(Heights(all), p, l, at[l])
      ensures Linked(InsertAt(all, p, id))
    {
      var all' := InsertAt(all, p, id);
      hide *;
      forall m, l | 0 <= m < |all'| && 0 <= l < all'[m].height
        ensures |all'[m].next| == HEIGHT && l < HEIGHT
        ensures all'[m].next[l] == NodeAt(all', NextAt(Heights(all'), m, l))
      {
        ShapeAt(all', m);
        ConnectedGives(all, id, at, 0, 0);
        InsertedLink(all, p, id, at, m, l);
      }
      MakeLinked(all');
    }

    /** Connecting a node with the last before its place on each level. */
    method ConnectLast(id: Node, prev: seq<Node?>, ghost at: seq<nat>)
      requires Shape(all) && Linked(all) && |prev| == HEIGHT == |at|
      requires forall l :: 0 <= l < HEIGHT ==> at[l] < |all| && all[at[l]].height > l && prev[l] == all[at[l]]
      requires id !in all && 1 <= id.height <= HEIGHT && id.next == NoLinks()
      modifies Nodes(all)`next, id`next
      ensures Shape(all) && Connected(all, id, at) && |id.next| == HEIGHT
    {
      hide NextAt, NoLinks, NodeAt, Heights;
      Connect(id, prev, at);
    }

    lemma ValidGives()
      requires Valid()
      ensures Shape(all) && Sorted(all) && Linked(all) && numtraceids == |all| - 1
    {}

    lemma MakeValid()
      requires Shape(all) && Sorted(all) && Linked(all) && numtraceids == |all| - 1
      ensures Valid()
    {}

    lemma MissedGives(sid: string, pubversion: nat, prev: seq<Node?>, at: seq<nat>)
      requires Missed(sid, pubversion, prev, at)
      ensures |prev| == HEIGHT == |at|
      ensures forall l :: 0 <= l < HEIGHT ==> at[l] < |all| && all[at[l]].height > l && prev[l] == all[at[l]]
    {}

    lemma NodeKey(n: Node)
      ensures KeyOf(n, split) == Key(n.sid, Sought(split, n.pubversion))
    {}

    /** mstl3_addID: the new node, of any height, is on as many levels as it is high. */
    method AddID(sid: string, pubversion: nat, height: nat, prev: seq<Node?>, ghost at: seq<nat>) returns (id: Node)
      requires Valid() && 1 <= height <= HEIGHT && Missed(sid, Sought(split, pubversion), prev, at)
      modifies this`numtraceids, this`all, Nodes(all)`next
      ensures Valid() && fresh(id) && id.sid == sid && id.pubversion == pubversion && id.height == height
      ensures all == InsertAt(old(all), at[0] + 1, id)
    {
      hide *;
      ValidGives();
      Place(sid, pubversion, prev, at);
      MissedGives(sid, Sought(split, pubversion), prev, at);
      id := new Node(sid, pubversion, height);
      ghost var p := at[0] + 1;
      NodeKey(id);
      ConnectLast(id, prev, at);
      InsertedShape(all, p, id);
      InsertedSorted(all, p, id);
      InsertedLinked(all, p, id, at);
      numtraceids := numtraceids + 1;
      all := InsertAt(all, p, id);
      MakeValid();
    }

    // ---------------------------------------------------------- removing

    /** The search of lm_remove_segment: on each level, from the head, the node before this one. */
    method FindPrevious(id: Node, ghost p: nat) returns (prev: seq<Node?>, ghost at: seq<nat>)
      requires Valid() && 1 <= p < |all| && all[p] == id
      ensures |prev| == HEIGHT == |at|
      ensures forall l :: 0 <= l < id.height ==>
                LastBefore(Heights(all), p, l, at[l]) && prev[l] == all[at[l]] && at[l] < p
    {
      hide Sorted;
      prev := NoLinks();
      at := seq(HEIGHT, _ => 0);
      var level: int := HEIGHT - 1;
      var searchid: Node := head;
      ghost var i: nat := 0;
      while level >= 0
        invariant -1 <= level < HEIGHT && |prev| == HEIGHT == |at| && i < |all| && all[i] == searchid
                  && searchid.height > level
        invariant level < id.height ==> i < p
        invariant forall l :: level < l < id.height ==>
                    LastBefore(Heights(all), p, l, at[l]) && prev[l] == all[at[l]] && at[l] < p
        decreases level + 1, |all| - i
      {
        assert all[i].next[level] == NodeAt(all, NextAt(Heights(all), i, level));
        if searchid.next[level] == null {
          prev := prev[level := searchid];
          at := at[level := i];
          level := level - 1;
          searchid := head;
          i := 0;
        } else if searchid.next[level] == id {
          prev := prev[level := searchid];
          at := at[level := i];
          level := level - 1;
          searchid := head;
          i := 0;
        } else {
          searchid := searchid.next[level];
          i := NextAt(Heights(all), i, level);
        }
      }
    }

    /** Lead the nodes before this one past it. */
    method Disconnect(id: Node, ghost p: nat, prev: seq<Node?>, ghost at: seq<nat>)
      requires Shape(all) && 1 <= p < |all| && all[p] == id && |prev| == HEIGHT == |at|
      requires forall l :: 0 <= l < id.height ==> at[l] < p && prev[l] == all[at[l]] && all[at[l]].next[l] == id
      modifies Nodes(all)`next
      ensures Shape(all)
      ensures forall i, l {:trigger all[i].next[l]} :: 0 <= i < |all| && 0 <= l < HEIGHT
                ==> all[i].next[l] == if l < id.height && i == at[l] then old(id.next[l]) else old(all[i].next[l])
    {
      var level: int := id.height - 1;
      while level >= 0
        invariant -1 <= level < id.height && Shape(all)
        invariant forall i, l {:trigger all[i].next[l]} :: 0 <= i < |all| && 0 <= l < HEIGHT
                    ==> all[i].next[l] == if level < l < id.height && i == at[l] then old(id.next[l])
                        else old(all[i].next[l])
      {
        var before := prev[level];
        assert before == all[at[level]] && before in Nodes(all) && all[p].next[level] == old(all[p].next[level]);
        if before != null && before.next[level] == id {
          before.next := before.next[level := id.next[level]];
        }
        level := level - 1;
      }
    }

    /** The last node before another on a level of both leads to it. */
    lemma BeforeLeadsTo(id: Node, p: nat, at: seq<nat>)
      requires Valid() && 1 <= p < |all| && all[p] == id && |at| == HEIGHT
      requires forall l :: 0 <= l < id.height ==> LastBefore(Heights(all), p, l, at[l]) && at[l] < p
      ensures forall l :: 0 <= l < id.height ==> all[at[l]].next[l] == id
    {
      forall l | 0 <= l < id.height ensures all[at[l]].next[l] == id {
        NextIs(Heights(all), at[l], l, p);
      }
    }

    lemma HeightsRemoved(all: seq<Node>, p: nat)
      requires p < |all|
      ensures Heights(RemoveAt(all, p)) == RemoveAt(Heights(all), p)
    {}

    lemma NodeAtRemoved(all: seq<Node>, p: nat, q: nat)
      requires p < |all|
      ensures NodeAt(RemoveAt(all, p), q) == if q < p then NodeAt(all, q) else NodeAt(all, q + 1)
    {}

    /** On every level some node, if only the head, is the last before a place. */
    lemma {:induction false} LastExists(h: seq<nat>, p: nat, l: nat) returns (j: nat)
      requires 0 < p <= |h| && h[0] > l
      ensures LastBefore(h, p, l, j) && j < p
    {
      if h[p - 1] > l {
        j := p - 1;
      } else {
        j := LastExists(h, p - 1, l);
      }
    }

    /** The node at an index after the removal. */
    lemma RemovedTarget(all: seq<Node>, p: nat, q: nat, i: nat, n: nat, next: nat, past: bool)
      requires p < |all| && i != p
      requires q == if i > p then n - 1 else if past then next - 1 else if n > p then n - 1 else n
      requires (i > p ==> n > p && !past) && (past ==> next > p) && (!past ==> n != p)
      ensures NodeAt(RemoveAt(all, p), q) == if past then NodeAt(all, next) else NodeAt(all, n)
    {
      NodeAtRemoved(all, p, q);
    }

    /** Where a node that stays leads after the removal. */
    lemma StayingLink(all: seq<Node>, p: nat, i: nat, l: nat, j: nat)
      requires 0 < p < |all| && i < |all| && i != p && l < all[i].height && LastBefore(Heights(all), p, l, j)
      ensures NodeAt(RemoveAt(all, p), NextAt(Heights(RemoveAt(all, p)), if i < p then i else i - 1, l))
              == if l < all[p].height && i == j then NodeAt(all, NextAt(Heights(all), p, l))
                 else NodeAt(all, NextAt(Heights(all), i, l))
    {
      NextStaying(all, p, i, l, j);
      hide *;
      RemovedTarget(all, p, NextAt(Heights(RemoveAt(all, p)), if i < p then i else i - 1, l), i,
                    NextAt(Heights(all), i, l), NextAt(Heights(all), p, l), l < all[p].height && i == j);
    }

    lemma NextStaying(all: seq<Node>, p: nat, i: nat, l: nat, j: nat)
      requires 0 < p < |all| && i < |all| && i != p && l < all[i].height && LastBefore(Heights(all), p, l, j)
      ensures var q := NextAt(Heights(RemoveAt(all, p)), if i < p then i else i - 1, l);
              var n, next, past := NextAt(Heights(all), i, l), NextAt(Heights(all), p, l), l < all[p].height && i == j;
              && (q == if i > p then n - 1 else if past then next - 1 else if n > p then n - 1 else n)
              && (i > p ==> n > p && !past) && (past ==> next > p) && (!past ==> n != p)
    {
      assert j < p;
      HeightsRemoved(all, p);
      hide LastBefore;
      NextRemoved(Heights(all), p, i, l, j);
    }

    lemma RemovedShape(all: seq<Node>, p: nat)
      requires Shape(all) && 0 < p < |all|
      ensures Shape(RemoveAt(all, p))
    {}

    lemma RemovedSorted(all: seq<Node>, p: nat)
      requires Sorted(all) && 0 < p < |all|
      ensures Sorted(RemoveAt(all, p))
    {
      hide Before;
    }

    /** The pointers of a list from which a node was disconnected. */
    ghost predicate Disconnected(all: seq<Node>, p: nat, at: seq<nat>)
      requires Shape(all) && p < |all|
      reads all`next
    {
      && |at| == HEIGHT && (forall l :: 0 <= l < all[p].height ==> LastBefore(Heights(all), p, l, at[l]))
      && forall i, l {:trigger all[i].next[l]} :: 0 <= i < |all| && 0 <= l < all[i].height
           ==> all[i].next[l] == if l < all[p].height && i == at[l] then NodeAt(all, NextAt(Heights(all), p, l))
               else NodeAt(all, NextAt(Heights(all), i, l))
    }

    lemma OneLast(h: seq<nat>, p: nat, l: nat, i: nat, j: nat)
      requires p <= |h| && LastBefore(h, p, l, i) && LastBefore(h, p, l, j)
      ensures i == j
    {}

    lemma DisconnectedGives(all: seq<Node>, p: nat, at: seq<nat>, i: nat, l: nat)
      requires Shape(all) && p < |all| && Disconnected(all, p, at) && i < |all| && l < HEIGHT
      ensures |at| == HEIGHT && |all[i].next| == HEIGHT && all[p].height <= HEIGHT
      ensures l < all[p].height ==> LastBefore(Heights(all), p, l, at[l])
      ensures l < all[i].height ==>
                all[i].next[l] == if l < all[p].height && i == at[l] then NodeAt(all, NextAt(Heights(all), p, l))
                                  else NodeAt(all, NextAt(Heights(all), i, l))
    {
      hide NextAt, Heights, NodeAt, LastBefore;
    }

    lemma HeadHeight(all: seq<Node>)
      requires Shape(all)
      ensures all != [] && Heights(all)[0] == HEIGHT
    {}

    lemma RemovedLink(all: seq<Node>, p: nat, at: seq<nat>, m: nat, l: nat)
      requires Shape(all) && 0 < p < |all| && Disconnected(all, p, at) && m < |all| - 1 && l < HEIGHT
      requires l < RemoveAt(all, p)[m].height
      ensures var all' := RemoveAt(all, p);
              |all'[m].next| == HEIGHT && all'[m].next[l] == NodeAt(all', NextAt(Heights(all'), m, l))
    {
      hide *;
      RemoveFacts(all, p);
      var i := if m < p then m else m + 1;
      DisconnectedGives(all, p, at, i, l);
      HeadHeight(all);
      var j := LastExists(Heights(all), p, l);
      if l < all[p].height {
        OneLast(Heights(all), p, l, at[l], j);
      }
      StayingLink(all, p, i, l, j);
    }

    lemma RemovedLinked(all: seq<Node>, p: nat, at: seq<nat>)
      requires Shape(all) && 0 < p < |all| && Disconnected(all, p, at) && Shape(RemoveAt(all, p))
      ensures Linked(RemoveAt(all, p))
    {
      var all' := RemoveAt(all, p);
      hide *;
      forall m, l | 0 <= m < |all'| && 0 <= l < all'[m].height
        ensures |all'[m].next| == HEIGHT && l < HEIGHT
        ensures all'[m].next[l] == NodeAt(all', NextAt(Heights(all'), m, l))
      {
        ShapeAt(all', m);
        RemovedLink(all, p, at, m, l);
      }
      MakeLinked(all');
    }

    /** The part of lm_remove_segment that removes an ID without segments from the list */
    method RemoveID(id: Node, ghost p: nat)
      requires Valid() && 1 <= p < |all| && all[p] == id
      modifies this`numtraceids, this`all, Nodes(all)`next
      ensures Valid() && all == RemoveAt(old(all), p)
    {
      hide *;
      ValidGives();
      var prev, at := FindPrevious(id, p);
      BeforeLeadsTo(id, p, at);
      DisconnectLast(id, p, prev, at);
      RemovedShape(all, p);
      RemovedSorted(all, p);
      RemovedLinked(all, p, at);
      numtraceids := numtraceids - 1;
      all := RemoveAt(all, p);
      MakeValid();
    }

    method DisconnectLast(id: Node, ghost p: nat, prev: seq<Node?>, ghost at: seq<nat>)
      requires Shape(all) && Linked(all) && 1 <= p < |all| && all[p] == id && |prev| == HEIGHT == |at|
      requires forall l :: 0 <= l < id.height ==>
                 at[l] < p && prev[l] == all[at[l]] && all[at[l]].next[l] == id && LastBefore(Heights(all), p, l, at[l])
      modifies Nodes(all)`next
      ensures Shape(all) && Disconnected(all, p, at)
    {
      hide NextAt, NodeAt, Heights, LastBefore;
      Disconnect(id, p, prev, at);
    }

    // ---------------------------------------------------------- levels

    /** Following the pointers of level l visits exactly these nodes. */
    ghost predicate Chained(nodes: seq<Node>, l: nat)
      requires l < HEIGHT
      reads nodes`next
    {
      && (forall k :: 0 <= k < |nodes| ==> |nodes[k].next| == HEIGHT)
      && forall k {:trigger nodes[k].next} :: 0 <= k < |nodes| ==> nodes[k].next[l] == NodeAt(nodes, k + 1)
    }

    /** Level l is made of the nodes that are higher than l, in order. */
    lemma {:induction false} LevelsAreSublists(i: nat, l: nat)
      requires Valid() && l < HEIGHT && i < |all| && all[i].height > l
      ensures Chained([all[i]] + Level(all[i + 1..], l), l)
      decreases |all| - i
    {
      var n := NextAt(Heights(all), i, l);
      assert all[i].next[l] == NodeAt(all, n) && |all[i].next| == HEIGHT;
      LevelFrom(all, i, n, l);
      hide NextAt, Sorted, Linked, Chained, Level, Heights;
      if n < |all| {
        LevelsAreSublists(n, l);
        ChainedCons(all[i], [all[n]] + Level(all[n + 1..], l), l);
        assert [all[i]] + Level(all[i + 1..], l) == [all[i]] + ([all[n]] + Level(all[n + 1..], l));
      } else {
        ChainedCons(all[i], [], l);
        assert [all[i]] + Level(all[i + 1..], l) == [all[i]] + [];
      }
    }

    lemma ChainedCons(n: Node, ns: seq<Node>, l: nat)
      requires l < HEIGHT && |n.next| == HEIGHT && n.next[l] == NodeAt(ns, 0) && (ns == [] || Chained(ns, l))
      ensures Chained([n] + ns, l)
    {
      var ms := [n] + ns;
      forall k | 0 <= k < |ms| ensures |ms[k].next| == HEIGHT && ms[k].next[l] == NodeAt(ms, k + 1) {
        if k > 0 {
          assert ms[k] == ns[k - 1] && NodeAt(ms, k + 1) == NodeAt(ns, k);
          assert |ns[k - 1].next| == HEIGHT;
        }
      }
    }

    /** The ID of a record: found, or added with a new node of this height. Unless version 0 is sought where
        versions are kept separate, it is then what a scan for the record's key finds. */
    method GetID(sid: string, pubversion: nat, height: nat) returns (id: Node, added: bool)
      requires Valid() && 1 <= height <= HEIGHT
      modifies this`numtraceids, this`all, Nodes(all)`next
      ensures Valid() && id.sid == sid
      ensures added <==> old(Finds(sid, Sought(split, pubversion), null))
      ensures !added ==> all == old(all) && Finds(sid, Sought(split, pubversion), id)
      ensures added ==> id.pubversion == pubversion && id.height == height
                        && exists p :: 1 <= p <= |old(all)| && all == InsertAt(old(all), p, id)
      ensures var v := Sought(split, pubversion);
              added || Consistent(split, v) ==>
                KeyOf(id, split) == Key(sid, v) && Scan(all[1..], Key(sid, v), split) == id
    {
      hide Before, Sorted, InsertAt, StrCmp, LastSmaller;
      var found, prev, at := FindID(sid, Sought(split, pubversion));
      if found != null {
        id, added := found, false;
        ScanKey(all[1..], Key(sid, Sought(split, pubversion)), split);
        MatchIsSource(sid, Sought(split, pubversion), id);
      } else {
        Place(sid, pubversion, prev, at);
        id := AddID(sid, pubversion, height, prev, at);
        added := true;
        ScanAt(at[0] + 1);
      }
    }

    lemma MatchIsSource(sid: string, pubversion: nat, id: Node)
      requires Finds(sid, pubversion, id)
      ensures id.sid == sid
    {
      StrCmpEqual(id.sid, sid);
      hide StrCmp;
    }
  }

  lemma {:induction false} ScanKey(nodes: seq<Node>, k: Key, split: bool)
    ensures Scan(nodes, k, split) != null ==> KeyOf(Scan(nodes, k, split), split) == k
  {
    if nodes != [] {
      ScanKey(nodes[1..], k, split);
    }
  }

  lemma {:induction false} ScanIndex(nodes: seq<Node>, k: Key, split: bool) returns (i: nat)
    requires Scan(nodes, k, split) != null
    ensures i < |nodes| && nodes[i] == Scan(nodes, k, split)
  {
    if KeyOf(nodes[0], split) == k {
      i := 0;
    } else {
      i := ScanIndex(nodes[1..], k, split);
      i := i + 1;
    }
  }

  /** The nodes of a level after one node start with the next node on the level. */
  lemma {:induction false} LevelFrom(all: seq<Node>, i: nat, n: nat, l: nat)
    requires i < n <= |all| && (n < |all| ==> all[n].height > l) && forall k :: i < k < n ==> all[k].height <= l
    ensures Level(all[i + 1..], l) == if n == |all| then [] else [all[n]] + Level(all[n + 1..], l)
    decreases n - i
  {
    if i + 1 < n {
      LevelFrom(all, i + 1, n, l);
      assert all[i + 1..][1..] == all[i + 2..];
    } else if n < |all| {
      assert all[n..][1..] == all[n + 1..];
    }
  }

  /** Each level is a part of the one below. */
  lemma {:induction false} LevelOfLevel(nodes: seq<Node>, l: nat)
    ensures Level(Level(nodes, l), l + 1) == Level(nodes, l + 1)
  {
    if nodes != [] {
      LevelOfLevel(nodes[1..], l);
      var first := if nodes[0].height > l then [nodes[0]] else [];
      assert Level(nodes, l) == first + Level(nodes[1..], l);
      if first != [] {
        assert Level(nodes, l)[1..] == Level(nodes[1..], l);
      } else {
        assert Level(nodes, l) == Level(nodes[1..], l);
      }
    }
  }

  function Nodes(all: seq<Node>): set<Node> {
    set n | n in all
  }

  function NodeAt(all: seq<Node>, i: nat): Node? {
    if i < |all| then all[i] else null
  }
}
