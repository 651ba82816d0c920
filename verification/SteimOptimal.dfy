/** The greedy choice is optimal for Steim-2, whose shapes are closed under dropping differences. Steim-1 has no
    word of three, so there the choice is optimal only under a condition on the words it makes. */
module SteimOptimal {
  import opened SteimFormat
  import opened SteimShapes

  function Sum(counts: seq<nat>): nat {
    if counts == [] then 0 else Sum(counts[..|counts| - 1]) + counts[|counts| - 1]
  }

  /** Any way to cut a prefix of ds into words of the allowed shapes. */
  ghost predicate IsCut(v: Version, ds: seq<bv32>, counts: seq<nat>) {
    counts == [] ||
    var front := counts[..|counts| - 1];
    IsCut(v, ds, front) && Sum(front) <= |ds| && Fits(v, ds[Sum(front)..], counts[|counts| - 1])
  }

  /** Dropping differences from the front of a Steim-2 word leaves a sparser shape that still fits. */
  lemma FitsSuffix(ds: seq<bv32>, a: nat, c: nat, b: nat)
    requires a <= b < a + c && a <= |ds| && Fits(Steim2, ds[a..], c)
    ensures b < |ds| && Fits(Steim2, ds[b..], a + c - b)
  {
    hide BitWidth;
    assert ShapeBits(Steim2, c) <= ShapeBits(Steim2, a + c - b);
    forall i | 0 <= i < a + c - b ensures BitWidth(ds[b..][i]) <= ShapeBits(Steim2, a + c - b) {
      assert ds[b..][i] == ds[a..][b - a + i];
    }
  }

  /** No cut into words covers more differences than the Steim-2 packer does in as many words. */
  lemma {:induction false} GreedyOptimal(ds: seq<bv32>, counts: seq<nat>)
    requires IsCut(Steim2, ds, counts)
    ensures Sum(counts) <= Reach(Steim2, ds, |counts|)
  {
    hide Fits, Greedy;
    if counts != [] {
      var front, c := counts[..|counts| - 1], counts[|counts| - 1];
      GreedyOptimal(ds, front);
      var a, b := Sum(front), Reach(Steim2, ds, |front|);
      if b < a + c {
        FitsSuffix(ds, a, c, b);
        assert a + c - b <= Greedy(Steim2, ds[b..]);
      }
    }
  }

  /** The packer's own words. */
  function GreedyCut(v: Version, ds: seq<bv32>, w: nat): seq<nat> {
    if w == 0 then [] else GreedyCut(v, ds, w - 1) + [Greedy(v, ds[Reach(v, ds, w - 1)..])]
  }

  /** They are such a cut, so the bound is attained. */
  lemma {:induction false} GreedyCutIsCut(v: Version, ds: seq<bv32>, w: nat)
    requires w > 0 ==> Reach(v, ds, w - 1) < |ds| && !Stuck(v, ds, w - 1)
    ensures |GreedyCut(v, ds, w)| == w && IsCut(v, ds, GreedyCut(v, ds, w))
            && Sum(GreedyCut(v, ds, w)) == Reach(v, ds, w)
  {
    hide Fits, Greedy;
    if w > 0 {
      if w > 1 {
        ReachOpen(v, ds, w - 1);
      }
      GreedyCutIsCut(v, ds, w - 1);
      var cut := GreedyCut(v, ds, w);
      assert cut[..w - 1] == GreedyCut(v, ds, w - 1);
    }
  }

  /** A packer that can still go on after w words could go on before the last of them. */
  lemma ReachOpen(v: Version, ds: seq<bv32>, w: nat)
    requires w > 0 && Reach(v, ds, w) < |ds| && !Stuck(v, ds, w)
    ensures Reach(v, ds, w - 1) < |ds| && !Stuck(v, ds, w - 1)
  {
    hide Greedy;
  }

  // ---------------------------------------------------------------- when Steim-1 packing is optimal

  /** Four differences from the given one on could share a Steim-1 word. */
  predicate FourAt(ds: seq<bv32>, i: int) {
    0 <= i <= |ds| && Fits(Steim1, ds[i..], 4)
  }

  /** The w greedy words could stop one difference earlier, and a word of four begin there, as far as the words
      themselves show: the last of them is a word of two, or one of four that follows such words and could have
      begun one difference earlier. */
  predicate CouldLag(ds: seq<bv32>, w: nat) {
    w > 0 &&
    var p := Reach(Steim1, ds, w - 1);
    var g := Greedy(Steim1, ds[p..]);
    g == 2 || (g == 4 && CouldLag(ds, w - 1) && FourAt(ds, p - 1))
  }

  /** After w words exactly three differences follow that fit a word of four, and it could have begun one earlier. */
  predicate Misses(ds: seq<bv32>, w: nat) {
    CouldLag(ds, w) && FourAt(ds, Reach(Steim1, ds, w) - 1) && !FourAt(ds, Reach(Steim1, ds, w))
  }

  /** What a Steim-1 word takes, by what fits. */
  lemma Takes(ds: seq<bv32>, p: nat)
    requires p <= |ds|
    ensures var g := Greedy(Steim1, ds[p..]);
            && (g == 0 || g == 1 || g == 2 || g == 4) && (g == 0 <==> p == |ds|)
            && (g == 4 <==> FourAt(ds, p)) && (g >= 2 <==> Fits(Steim1, ds[p..], 2))
            && forall c: nat :: Fits(Steim1, ds[p..], c) ==> c <= g && c != 3 && c != 0
  {
    assert p < |ds| ==> Fits(Steim1, ds[p..], 1);
    hide BitWidth;
  }

  /** What is left of a word that the packer is ahead of. */
  lemma LeftOver(ds: seq<bv32>, a: nat, c: nat, p: nat)
    requires a < p < a + c && a <= |ds| && Fits(Steim1, ds[a..], c)
    ensures p < |ds| && (c == 2 || c == 4)
    ensures c == 4 && p <= a + 2 ==> Fits(Steim1, ds[p..], 2)
  {
    hide BitWidth;
    forall i | 0 <= i < a + c - p ensures BitWidth(ds[p..][i]) <= ShapeBits(Steim1, c) {
      assert ds[p..][i] == ds[a..][p - a + i];
    }
  }

  /** No cut covers more, if no word misses; and a cut that covers one less, before four that fit a word, shows
      that the packer could lag. */
  lemma {:induction false} CutWithin(ds: seq<bv32>, counts: seq<nat>)
    requires IsCut(Steim1, ds, counts) && forall w :: 0 <= w < |counts| ==> !Misses(ds, w)
    ensures Sum(counts) <= Reach(Steim1, ds, |counts|)
    ensures Sum(counts) == Reach(Steim1, ds, |counts|) - 1 && FourAt(ds, Sum(counts)) ==> CouldLag(ds, |counts|)
  {
    hide *;
    CutEnds(ds, counts);
    if counts != [] {
      var w := |counts| - 1;
      var front, c := counts[..w], counts[w];
      CutWithin(ds, front);
      var a, p := Sum(front), Reach(Steim1, ds, w);
      Takes(ds, p);
      FourAtIs(ds, a);
      FourRoom(ds, a + c);
      LagIs(ds, w);
      if a < p < a + c {
        LeftOver(ds, a, c, p);
      }
    }
  }

  lemma CutEnds(ds: seq<bv32>, counts: seq<nat>)
    requires IsCut(Steim1, ds, counts)
    ensures counts == [] ==> Sum(counts) == Reach(Steim1, ds, 0) == 0
    ensures counts != [] ==>
              var front, c := counts[..|counts| - 1], counts[|counts| - 1];
              && IsCut(Steim1, ds, front) && Sum(counts) == Sum(front) + c && Sum(front) <= |ds|
              && Fits(Steim1, ds[Sum(front)..], c)
  {
    hide Fits, Greedy;
  }

  lemma FourRoom(ds: seq<bv32>, i: nat)
    ensures FourAt(ds, i) ==> i + 4 <= |ds|
  {}

  lemma FourAtIs(ds: seq<bv32>, i: nat)
    requires i <= |ds|
    ensures FourAt(ds, i) <==> Fits(Steim1, ds[i..], 4)
  {
    hide Fits;
  }

  lemma LagIs(ds: seq<bv32>, w: nat)
    ensures Reach(Steim1, ds, w + 1) == Reach(Steim1, ds, w) + Greedy(Steim1, ds[Reach(Steim1, ds, w)..])
    ensures var p := Reach(Steim1, ds, w);
            var g := Greedy(Steim1, ds[p..]);
            && (CouldLag(ds, w + 1) <==> g == 2 || (g == 4 && CouldLag(ds, w) && FourAt(ds, p - 1)))
            && (Misses(ds, w) <==> CouldLag(ds, w) && FourAt(ds, p - 1) && !FourAt(ds, p))
  {
    hide Greedy, Reach, FourAt;
    ReachStep(Steim1, ds, w);
  }

  /** Cutting one difference less, where the packer could lag. */
  ghost function LagCut(ds: seq<bv32>, w: nat): seq<nat>
    requires CouldLag(ds, w)
  {
    hide Fits, Greedy, Reach, FourAt, GreedyCut;
    if Greedy(Steim1, ds[Reach(Steim1, ds, w - 1)..]) == 2 then GreedyCut(Steim1, ds, w - 1) + [1]
      else LagCut(ds, w - 1) + [4]
  }

  lemma CutMore(ds: seq<bv32>, counts: seq<nat>, c: nat)
    requires IsCut(Steim1, ds, counts) && Sum(counts) <= |ds| && Fits(Steim1, ds[Sum(counts)..], c)
    ensures IsCut(Steim1, ds, counts + [c]) && Sum(counts + [c]) == Sum(counts) + c && |counts + [c]| == |counts| + 1
  {
    hide Fits;
    assert (counts + [c])[..|counts|] == counts;
  }

  lemma LagStep(ds: seq<bv32>, w: nat)
    requires CouldLag(ds, w)
    ensures w > 0
    ensures var p := Reach(Steim1, ds, w - 1);
            var g := Greedy(Steim1, ds[p..]);
            && Reach(Steim1, ds, w) == p + g
            && (g == 2 ==> p < |ds| && Fits(Steim1, ds[p..], 1) && LagCut(ds, w) == GreedyCut(Steim1, ds, w - 1) + [1])
            && (g != 2 ==> g == 4 && CouldLag(ds, w - 1) && 0 <= p - 1 <= |ds| && Fits(Steim1, ds[p - 1..], 4)
                           && LagCut(ds, w) == LagCut(ds, w - 1) + [4])
  {
    Takes(ds, Reach(Steim1, ds, w - 1));
    OneFits(ds, Reach(Steim1, ds, w - 1));
    hide Fits, Greedy, GreedyCut;
  }

  lemma OneFits(ds: seq<bv32>, p: nat)
    requires p <= |ds|
    ensures p < |ds| ==> Fits(Steim1, ds[p..], 1)
  {}

  lemma {:induction false} LagCutIsCut(ds: seq<bv32>, w: nat)
    requires CouldLag(ds, w)
    ensures IsCut(Steim1, ds, LagCut(ds, w)) && |LagCut(ds, w)| == w && Sum(LagCut(ds, w)) == Reach(Steim1, ds, w) - 1
  {
    hide *;
    LagStep(ds, w);
    if Greedy(Steim1, ds[Reach(Steim1, ds, w - 1)..]) == 2 {
      NeverStuck(ds, w - 1);
      GreedyCutIsCut(Steim1, ds, w - 1);
      CutMore(ds, GreedyCut(Steim1, ds, w - 1), 1);
    } else {
      LagCutIsCut(ds, w - 1);
      CutMore(ds, LagCut(ds, w - 1), 4);
    }
  }

  /** Steim-1 words that have not reached the end have none before them that has. */
  lemma NeverStuck(ds: seq<bv32>, w: nat)
    requires Reach(Steim1, ds, w) < |ds|
    ensures w > 0 ==> Reach(Steim1, ds, w - 1) < |ds| && !Stuck(Steim1, ds, w - 1)
  {
    hide Greedy;
    if w > 0 {
      Takes(ds, Reach(Steim1, ds, w - 1));
    }
  }

  /** No cut covers more differences in as many words. */
  ghost predicate Optimal(v: Version, ds: seq<bv32>) {
    forall counts :: IsCut(v, ds, counts) ==> Sum(counts) <= Reach(v, ds, |counts|)
  }

  /** Where a word misses, a cut covers more. */
  lemma MissedCut(ds: seq<bv32>, w: nat)
    requires Misses(ds, w)
    ensures var counts := LagCut(ds, w) + [4];
            IsCut(Steim1, ds, counts) && |counts| == w + 1 && Sum(counts) > Reach(Steim1, ds, w + 1)
  {
    Takes(ds, Reach(Steim1, ds, w));
    hide Fits, Greedy;
    LagCutIsCut(ds, w);
    CutMore(ds, LagCut(ds, w), 4);
  }

  /** Steim-1 packing is optimal exactly when none of its words misses: when no word of two, and whatever words of
      four that could have begun one difference earlier follow it, stand before exactly three differences that
      with the one before them would have shared a word. */
  lemma Steim1OptimalExactly(ds: seq<bv32>)
    ensures Optimal(Steim1, ds) <==> forall w :: !Misses(ds, w)
  {
    hide Misses, Fits, Greedy;
    if w :| Misses(ds, w) {
      MissedCut(ds, w);
      assert !Optimal(Steim1, ds);
    } else {
      forall counts | IsCut(Steim1, ds, counts) ensures Sum(counts) <= Reach(Steim1, ds, |counts|) {
        CutWithin(ds, counts);
      }
    }
  }

  /** Differences that need fields of 16, 8, 8, 8, 8 and 32 bits: Steim-1 takes four words, three would do. */
  const COUNTEREXAMPLE: seq<bv32> := [1000, 1, 1, 1, 1, 100000]

  lemma Steim1NotOptimal()
    ensures IsCut(Steim1, COUNTEREXAMPLE, [1, 4, 1]) && Sum([1, 4, 1]) == 6
    ensures Reach(Steim1, COUNTEREXAMPLE, 3) == 5 && !Optimal(Steim1, COUNTEREXAMPLE)
  {
    BetterCut(COUNTEREXAMPLE);
    WorseGreedy(COUNTEREXAMPLE);
    hide Greedy;
    ReachZero(Steim1, COUNTEREXAMPLE);
    ReachStep(Steim1, COUNTEREXAMPLE, 0);
    ReachStep(Steim1, COUNTEREXAMPLE, 1);
    ReachStep(Steim1, COUNTEREXAMPLE, 2);
  }

  lemma BetterCut(ds: seq<bv32>)
    requires ds == COUNTEREXAMPLE
    ensures IsCut(Steim1, ds, [1, 4, 1]) && Sum([1, 4, 1]) == 6
  {
    assert BitWidth(1) == 4 && BitWidth(1000) == 15 && BitWidth(100000) == 30;
    hide BitWidth;
    assert Fits(Steim1, ds[0..], 1) && Fits(Steim1, ds[1..], 4) && Fits(Steim1, ds[5..], 1);
    hide Fits;
    assert [1, 4, 1][..2] == [1, 4] && [1, 4][..1] == [1] && [1][..0] == [];
    assert Sum([1]) == 1 && Sum([1, 4]) == 5;
    assert IsCut(Steim1, ds, [1]);
    assert IsCut(Steim1, ds, [1, 4]);
  }

  lemma WorseGreedy(ds: seq<bv32>)
    requires ds == COUNTEREXAMPLE
    ensures Greedy(Steim1, ds[0..]) == 2 && Greedy(Steim1, ds[2..]) == 2 && Greedy(Steim1, ds[4..]) == 1
  {
    assert BitWidth(1) == 4 && BitWidth(1000) == 15 && BitWidth(100000) == 30;
    hide BitWidth;
    assert BitWidth(ds[0..][0]) == 15 && !Fits(Steim1, ds[0..], 4) && Fits(Steim1, ds[0..], 2);
    assert BitWidth(ds[2..][3]) == 30 && !Fits(Steim1, ds[2..], 4) && Fits(Steim1, ds[2..], 2);
    assert BitWidth(ds[4..][1]) == 30 && !Fits(Steim1, ds[4..], 2) && Fits(Steim1, ds[4..], 1);
  }
}
