/** Sequences with one element more or less. */
module Sequences {
  function RemoveAt<T>(s: seq<T>, i: nat): (r: seq<T>)
    requires i < |s|
    ensures |r| == |s| - 1
  {
    s[..i] + s[i + 1..]
  }

  function InsertAt<T>(s: seq<T>, i: nat, x: T): (r: seq<T>)
    requires i <= |s|
    ensures |r| == |s| + 1 && r[i] == x
  {
    s[..i] + [x] + s[i..]
  }

  lemma RemoveFacts<T>(s: seq<T>, i: nat)
    requires i < |s|
    ensures forall j :: 0 <= j < |s| - 1 ==> RemoveAt(s, i)[j] == s[if j < i then j else j + 1]
  {}

  lemma InsertFacts<T>(s: seq<T>, i: nat, x: T)
    requires i <= |s|
    ensures var t := InsertAt(s, i, x);
            forall j :: 0 <= j < |t| && j != i ==> t[j] == s[if j < i then j else j - 1]
  {}
}
