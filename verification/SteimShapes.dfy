/** The word shapes of Steim-1 and Steim-2, the packers' greedy choice among them, and packing one word. */
module SteimShapes {
  import opened Options
  import opened SteimFormat

  /** How many differences a word may hold. */
  predicate Allowed(v: Version, c: nat) {
    if v.Steim1? then c == 1 || c == 2 || c == 4 else 1 <= c <= 7
  }

  /** The bits per difference when c of them share a word. */
  function ShapeBits(v: Version, c: nat): nat {
    if v.Steim1? then (if c == 4 then 8 else if c == 2 then 16 else 32)
    else if c == 7 then 4 else if c == 6 then 5 else if c == 5 then 6 else if c == 4 then 8
    else if c == 3 then 10 else if c == 2 then 15 else 30
  }

  /** The most differences a word can hold, which is also the size of the encoder's buffer. */
  function Densest(v: Version): nat {
    if v.Steim1? then 4 else 7
  }

  /** The first c differences of ds can share one word. */
  predicate Fits(v: Version, ds: seq<bv32>, c: nat) {
    Allowed(v, c) && c <= |ds| && forall i :: 0 <= i < c ==> BitWidth(ds[i]) <= ShapeBits(v, c)
  }

  /** How many differences the packer puts in the next word: the first shape that fits, densest first;
      0 when there is none. */
  function Greedy(v: Version, ds: seq<bv32>): (c: nat)
    ensures c <= Densest(v) && c <= |ds| && (c > 0 ==> Fits(v, ds, c))
    ensures forall b :: c < b ==> !Fits(v, ds, b)
  {
    hide BitWidth;
    if Fits(v, ds, 7) then 7 else if Fits(v, ds, 6) then 6 else if Fits(v, ds, 5) then 5 else if Fits(v, ds, 4) then 4
    else if Fits(v, ds, 3) then 3 else if Fits(v, ds, 2) then 2 else if Fits(v, ds, 1) then 1 else 0
  }

  /** How far w greedy words reach into ds. */
  function Reach(v: Version, ds: seq<bv32>, w: nat): (r: nat)
    ensures r <= |ds|
  {
    if w == 0 then 0 else Reach(v, ds, w - 1) + Greedy(v, ds[Reach(v, ds, w - 1)..])
  }

  /** After w words the packer meets a difference that no shape holds. */
  predicate Stuck(v: Version, ds: seq<bv32>, w: nat) {
    Reach(v, ds, w) < |ds| && Greedy(v, ds[Reach(v, ds, w)..]) == 0
  }

  lemma ReachZero(v: Version, ds: seq<bv32>)
    ensures Reach(v, ds, 0) == 0
  {}

  lemma ReachStep(v: Version, ds: seq<bv32>, w: nat)
    ensures Reach(v, ds, w + 1) == Reach(v, ds, w) + Greedy(v, ds[Reach(v, ds, w)..])
    ensures Stuck(v, ds, w) <==> Reach(v, ds, w) < |ds| && Greedy(v, ds[Reach(v, ds, w)..]) == 0
  {}

  /** The packer stops for good at the end of the data or where it is stuck. */
  lemma {:induction false} ReachStays(v: Version, ds: seq<bv32>, w: nat, w': nat)
    requires w <= w' && (Reach(v, ds, w) == |ds| || Stuck(v, ds, w))
    ensures Reach(v, ds, w') == Reach(v, ds, w) && Stuck(v, ds, w') == Stuck(v, ds, w)
    decreases w'
  {
    hide Greedy;
    if w < w' {
      ReachStays(v, ds, w, w' - 1);
    }
  }

  /** Steim-1 is never stuck; Steim-2 exactly at a difference of more than 30 bits. */
  lemma StuckMeans(v: Version, ds: seq<bv32>, w: nat)
    ensures Stuck(v, ds, w) <==> v.Steim2? && Reach(v, ds, w) < |ds| && BitWidth(ds[Reach(v, ds, w)]) > 30
  {
    hide *;
    ReachStep(v, ds, w);
    var r := Reach(v, ds, w);
    if r < |ds| {
      WidthBound(v, ds, r);
      FitsOne(v, ds[r..]);
    }
  }

  /** The shape that holds least is the last one tried. */
  lemma FitsOne(v: Version, rest: seq<bv32>)
    requires rest != [] && BitWidth(rest[0]) <= 32
    ensures Greedy(v, rest) == 0 <==> v.Steim2? && BitWidth(rest[0]) > 30
  {
    hide BitWidth;
    assert forall c :: Allowed(v, c) ==> ShapeBits(v, c) <= ShapeBits(v, 1);
    assert Fits(v, rest, 1) <==> BitWidth(rest[0]) <= ShapeBits(v, 1);
    var g := Greedy(v, rest);
    hide Greedy;
    assert Fits(v, rest, g) ==> BitWidth(rest[0]) <= ShapeBits(v, g);
  }

  lemma WidthBound(v: Version, ds: seq<bv32>, i: nat)
    requires i < |ds|
    ensures BitWidth(ds[i]) <= 32
  {}

  /** The format holds every difference: always for Steim-1, up to 30 bits for Steim-2. */
  predicate Representable(v: Version, ds: seq<bv32>) {
    v.Steim1? || forall i :: 0 <= i < |ds| ==> BitWidth(ds[i]) <= 30
  }

  // ---------------------------------------------------------------- packing one word

  /** The control nibble of a word that holds c differences. */
  function ShapeNibble(v: Version, c: nat): bv32 {
    if v.Steim1? then (if c == 4 then 1 else if c == 2 then 2 else 3)
    else if c >= 5 then 3 else if c == 4 then 1 else 2
  }

  function Pack7(d0: bv32, d1: bv32, d2: bv32, d3: bv32, d4: bv32, d5: bv32, d6: bv32): bv32 {
    (d6 & 0xF) | ((d5 & 0xF) << 4) | ((d4 & 0xF) << 8) | ((d3 & 0xF) << 12) | ((d2 & 0xF) << 16) | ((d1 & 0xF) << 20)
      | ((d0 & 0xF) << 24) | (2 << 30)
  }

  function Pack6(d0: bv32, d1: bv32, d2: bv32, d3: bv32, d4: bv32, d5: bv32): bv32 {
    (d5 & 0x1F) | ((d4 & 0x1F) << 5) | ((d3 & 0x1F) << 10) | ((d2 & 0x1F) << 15) | ((d1 & 0x1F) << 20)
      | ((d0 & 0x1F) << 25) | (1 << 30)
  }

  function Pack5(d0: bv32, d1: bv32, d2: bv32, d3: bv32, d4: bv32): bv32 {
    (d4 & 0x3F) | ((d3 & 0x3F) << 6) | ((d2 & 0x3F) << 12) | ((d1 & 0x3F) << 18) | ((d0 & 0x3F) << 24)
  }

  function Pack4(d0: bv32, d1: bv32, d2: bv32, d3: bv32): bv32 {
    (d0 & 0xFF) | ((d1 & 0xFF) << 8) | ((d2 & 0xFF) << 16) | ((d3 & 0xFF) << 24)
  }

  function Pack3(d0: bv32, d1: bv32, d2: bv32): bv32 {
    (d2 & 0x3FF) | ((d1 & 0x3FF) << 10) | ((d0 & 0x3FF) << 20) | (3 << 30)
  }

  function Pack2(d0: bv32, d1: bv32): bv32 {
    (d1 & 0x7FFF) | ((d0 & 0x7FFF) << 15) | (2 << 30)
  }

  function Pack1(d0: bv32): bv32 {
    (d0 & 0x3FFF_FFFF) | (1 << 30)
  }

  function PackHalves(d0: bv32, d1: bv32): bv32 {
    (d0 & 0xFFFF) | ((d1 & 0xFFFF) << 16)
  }

  /** The value of the word that holds the differences ds, before it is put in stream order. */
  function WordOf(ds: seq<bv32>): bv32
    requires 1 <= |ds| <= 7
  {
    match |ds|
    case 7 => Pack7(ds[0], ds[1], ds[2], ds[3], ds[4], ds[5], ds[6])
    case 6 => Pack6(ds[0], ds[1], ds[2], ds[3], ds[4], ds[5])
    case 5 => Pack5(ds[0], ds[1], ds[2], ds[3], ds[4])
    case 4 => Pack4(ds[0], ds[1], ds[2], ds[3])
    case 3 => Pack3(ds[0], ds[1], ds[2])
    case 2 => Pack2(ds[0], ds[1])
    case 1 => Pack1(ds[0])
  }

  /** The word as stored: four bytes stay in memory order, 16-bit halves are swapped one by one, every
      other word follows the stream's byte order. */
  function Stored(v: Version, ds: seq<bv32>, swap: bool): bv32
    requires Allowed(v, |ds|)
  {
    if |ds| == 4 then WordOf(ds)
    else if v.Steim1? then
      (if |ds| == 2 then OrderHalves(PackHalves(ds[0], ds[1]), swap) else Order(ds[0], swap))
    else Order(WordOf(ds), swap)
  }

  lemma Range4(v: bv32) requires BitWidth(v) <= 4 ensures Between(0xFFFF_FFF8, v, 7) {}
  lemma Range5(v: bv32) requires BitWidth(v) <= 5 ensures Between(0xFFFF_FFF0, v, 15) {}
  lemma Range6(v: bv32) requires BitWidth(v) <= 6 ensures Between(0xFFFF_FFE0, v, 31) {}
  lemma Range8(v: bv32) requires BitWidth(v) <= 8 ensures Between(0xFFFF_FF80, v, 127) {}
  lemma Range16(v: bv32) requires BitWidth(v) <= 16 ensures Between(0xFFFF_8000, v, 32767) {}
  lemma Range10(v: bv32) requires BitWidth(v) <= 10 ensures Between(0xFFFF_FE00, v, 511) {}
  lemma Range15(v: bv32) requires BitWidth(v) <= 15 ensures Between(0xFFFF_C000, v, 16383) {}
  lemma Range30(v: bv32) requires BitWidth(v) <= 30 ensures Between(0xE000_0000, v, 0x1FFF_FFFF) {}
  lemma Field4(v: bv32) requires Between(0xFFFF_FFF8, v, 7) ensures SignExtend(v & 0xF, 0x8) == v {}
  lemma Field5(v: bv32) requires Between(0xFFFF_FFF0, v, 15) ensures SignExtend(v & 0x1F, 0x10) == v {}
  lemma Field6(v: bv32) requires Between(0xFFFF_FFE0, v, 31) ensures SignExtend(v & 0x3F, 0x20) == v {}
  lemma Field8(v: bv32) requires Between(0xFFFF_FF80, v, 127) ensures SignExtend(v & 0xFF, 0x80) == v {}
  lemma Field16(v: bv32) requires Between(0xFFFF_8000, v, 32767) ensures SignExtend(v & 0xFFFF, 0x8000) == v {}
  lemma Field10(v: bv32) requires Between(0xFFFF_FE00, v, 511) ensures SignExtend(v & 0x3FF, 0x200) == v {}
  lemma Field15(v: bv32) requires Between(0xFFFF_C000, v, 16383) ensures SignExtend(v & 0x7FFF, 0x4000) == v {}
  lemma Field30(v: bv32) requires Between(0xE000_0000, v, 0x1FFF_FFFF)
                ensures SignExtend(v & 0x3FFF_FFFF, 0x2000_0000) == v {}

  lemma Split7(d0: bv32, d1: bv32, d2: bv32, d3: bv32, d4: bv32, d5: bv32, d6: bv32, w: bv32)
    requires w == Pack7(d0, d1, d2, d3, d4, d5, d6)
    ensures w >> 30 == 2 && (w >> 24) & 0xF == d0 & 0xF && (w >> 20) & 0xF == d1 & 0xF && (w >> 16) & 0xF == d2 & 0xF
            && (w >> 12) & 0xF == d3 & 0xF && (w >> 8) & 0xF == d4 & 0xF && (w >> 4) & 0xF == d5 & 0xF
            && w & 0xF == d6 & 0xF
  {}

  lemma Unpack7(d0: bv32, d1: bv32, d2: bv32, d3: bv32, d4: bv32, d5: bv32, d6: bv32, w: bv32)
    requires w == Pack7(d0, d1, d2, d3, d4, d5, d6)
    requires BitWidth(d0) <= 4 && BitWidth(d1) <= 4 && BitWidth(d2) <= 4 && BitWidth(d3) <= 4 && BitWidth(d4) <= 4
             && BitWidth(d5) <= 4 && BitWidth(d6) <= 4
    ensures Fours(w) == [d0, d1, d2, d3, d4, d5, d6] && w >> 30 == 2
  {
    hide BitWidth, SignExtend, Between, Pack7;
    Split7(d0, d1, d2, d3, d4, d5, d6, w);
    Range4(d0); Field4(d0); Range4(d1); Field4(d1); Range4(d2); Field4(d2); Range4(d3); Field4(d3);
    Range4(d4); Field4(d4); Range4(d5); Field4(d5); Range4(d6); Field4(d6);
  }

  lemma Split6(d0: bv32, d1: bv32, d2: bv32, d3: bv32, d4: bv32, d5: bv32, w: bv32)
    requires w == Pack6(d0, d1, d2, d3, d4, d5)
    ensures w >> 30 == 1 && (w >> 25) & 0x1F == d0 & 0x1F && (w >> 20) & 0x1F == d1 & 0x1F
            && (w >> 15) & 0x1F == d2 & 0x1F && (w >> 10) & 0x1F == d3 & 0x1F && (w >> 5) & 0x1F == d4 & 0x1F
            && w & 0x1F == d5 & 0x1F
  {}

  lemma Unpack6(d0: bv32, d1: bv32, d2: bv32, d3: bv32, d4: bv32, d5: bv32, w: bv32)
    requires w == Pack6(d0, d1, d2, d3, d4, d5)
    requires BitWidth(d0) <= 5 && BitWidth(d1) <= 5 && BitWidth(d2) <= 5 && BitWidth(d3) <= 5 && BitWidth(d4) <= 5
             && BitWidth(d5) <= 5
    ensures Fives(w) == [d0, d1, d2, d3, d4, d5] && w >> 30 == 1
  {
    hide BitWidth, SignExtend, Between, Pack6;
    Split6(d0, d1, d2, d3, d4, d5, w);
    Range5(d0); Field5(d0); Range5(d1); Field5(d1); Range5(d2); Field5(d2); Range5(d3); Field5(d3);
    Range5(d4); Field5(d4); Range5(d5); Field5(d5);
  }

  lemma Split5(d0: bv32, d1: bv32, d2: bv32, d3: bv32, d4: bv32, w: bv32)
    requires w == Pack5(d0, d1, d2, d3, d4)
    ensures w >> 30 == 0 && (w >> 24) & 0x3F == d0 & 0x3F && (w >> 18) & 0x3F == d1 & 0x3F
            && (w >> 12) & 0x3F == d2 & 0x3F && (w >> 6) & 0x3F == d3 & 0x3F && w & 0x3F == d4 & 0x3F
  {}

  lemma Unpack5(d0: bv32, d1: bv32, d2: bv32, d3: bv32, d4: bv32, w: bv32)
    requires w == Pack5(d0, d1, d2, d3, d4)
    requires BitWidth(d0) <= 6 && BitWidth(d1) <= 6 && BitWidth(d2) <= 6 && BitWidth(d3) <= 6 && BitWidth(d4) <= 6
    ensures Sixes(w) == [d0, d1, d2, d3, d4] && w >> 30 == 0
  {
    hide BitWidth, SignExtend, Between, Pack5;
    Split5(d0, d1, d2, d3, d4, w);
    Range6(d0); Field6(d0); Range6(d1); Field6(d1); Range6(d2); Field6(d2); Range6(d3); Field6(d3);
    Range6(d4); Field6(d4);
  }

  lemma Split4(d0: bv32, d1: bv32, d2: bv32, d3: bv32, w: bv32)
    requires w == Pack4(d0, d1, d2, d3)
    ensures w & 0xFF == d0 & 0xFF && (w >> 8) & 0xFF == d1 & 0xFF && (w >> 16) & 0xFF == d2 & 0xFF
            && (w >> 24) & 0xFF == d3 & 0xFF
  {}

  lemma Unpack4(d0: bv32, d1: bv32, d2: bv32, d3: bv32, w: bv32)
    requires w == Pack4(d0, d1, d2, d3)
    requires BitWidth(d0) <= 8 && BitWidth(d1) <= 8 && BitWidth(d2) <= 8 && BitWidth(d3) <= 8
    ensures Bytes(w) == [d0, d1, d2, d3]
  {
    hide BitWidth, SignExtend, Between, Pack4;
    Split4(d0, d1, d2, d3, w);
    Range8(d0); Field8(d0); Range8(d1); Field8(d1); Range8(d2); Field8(d2); Range8(d3); Field8(d3);
  }

  lemma Split3(d0: bv32, d1: bv32, d2: bv32, w: bv32)
    requires w == Pack3(d0, d1, d2)
    ensures w >> 30 == 3 && (w >> 20) & 0x3FF == d0 & 0x3FF && (w >> 10) & 0x3FF == d1 & 0x3FF
            && w & 0x3FF == d2 & 0x3FF
  {}

  lemma Unpack3(d0: bv32, d1: bv32, d2: bv32, w: bv32)
    requires w == Pack3(d0, d1, d2)
    requires BitWidth(d0) <= 10 && BitWidth(d1) <= 10 && BitWidth(d2) <= 10
    ensures Tens(w) == [d0, d1, d2] && w >> 30 == 3
  {
    hide BitWidth, SignExtend, Between, Pack3;
    Split3(d0, d1, d2, w);
    Range10(d0); Field10(d0); Range10(d1); Field10(d1); Range10(d2); Field10(d2);
  }

  lemma Split2(d0: bv32, d1: bv32, w: bv32)
    requires w == Pack2(d0, d1)
    ensures w >> 30 == 2 && (w >> 15) & 0x7FFF == d0 & 0x7FFF && w & 0x7FFF == d1 & 0x7FFF
  {}

  lemma FifteensOf(w: bv32, x: bv32, y: bv32)
    requires (w >> 15) & 0x7FFF == x && w & 0x7FFF == y
    ensures Fifteens(w) == [SignExtend(x, 0x4000), SignExtend(y, 0x4000)]
  {
    hide SignExtend;
  }

  lemma Unpack2(d0: bv32, d1: bv32, w: bv32)
    requires w == Pack2(d0, d1)
    requires BitWidth(d0) <= 15 && BitWidth(d1) <= 15
    ensures Fifteens(w) == [d0, d1] && w >> 30 == 2
  {
    hide *;
    Split2(d0, d1, w);
    Range15(d0); Field15(d0); Range15(d1); Field15(d1);
    FifteensOf(w, d0 & 0x7FFF, d1 & 0x7FFF);
  }

  lemma Split1(d0: bv32, w: bv32)
    requires w == Pack1(d0)
    ensures w >> 30 == 1 && w & 0x3FFF_FFFF == d0 & 0x3FFF_FFFF
  {}

  lemma ThirtyOf(w: bv32, x: bv32)
    requires w & 0x3FFF_FFFF == x
    ensures Thirty(w) == [SignExtend(x, 0x2000_0000)]
  {
    hide SignExtend;
  }

  lemma Unpack1(d0: bv32, w: bv32)
    requires w == Pack1(d0)
    requires BitWidth(d0) <= 30
    ensures Thirty(w) == [d0] && w >> 30 == 1
  {
    hide *;
    Split1(d0, w);
    Range30(d0); Field30(d0);
    ThirtyOf(w, d0 & 0x3FFF_FFFF);
  }

  lemma HalvesOf(w: bv32, x: bv32, y: bv32)
    requires w & 0xFFFF == x && (w >> 16) & 0xFFFF == y
    ensures Halves(w) == [SignExtend(x, 0x8000), SignExtend(y, 0x8000)]
  {
    hide SignExtend;
  }

  lemma UnpackHalves(d0: bv32, d1: bv32, w: bv32)
    requires w == PackHalves(d0, d1)
    requires BitWidth(d0) <= 16 && BitWidth(d1) <= 16
    ensures Halves(w) == [d0, d1]
  {
    hide *;
    SplitHalves(d0, d1, w);
    Range16(d0); Field16(d0); Range16(d1); Field16(d1);
    HalvesOf(w, d0 & 0xFFFF, d1 & 0xFFFF);
  }

  lemma SplitHalves(d0: bv32, d1: bv32, w: bv32)
    requires w == PackHalves(d0, d1)
    ensures w & 0xFFFF == d0 & 0xFFFF && (w >> 16) & 0xFFFF == d1 & 0xFFFF
  {}

  lemma OrderHalvesTwice(w: bv32, swap: bool)
    ensures OrderHalves(OrderHalves(w, swap), swap) == w
  {}

  /** The decoder reads back from a packed word exactly the differences that were packed. */
  lemma WordRoundTrip(v: Version, ds: seq<bv32>, swap: bool)
    requires Fits(v, ds, |ds|)
    ensures WordDiffs(v, ShapeNibble(v, |ds|), Stored(v, ds, swap), swap) == Some(ds)
  {
    if v.Steim1? {
      WordRoundTrip1(ds, swap);
    } else {
      WordRoundTrip2(ds, swap);
    }
  }

  lemma WordRoundTrip1(ds: seq<bv32>, swap: bool)
    requires Fits(Steim1, ds, |ds|)
    ensures WordDiffs(Steim1, ShapeNibble(Steim1, |ds|), Stored(Steim1, ds, swap), swap) == Some(ds)
  {
    hide SignExtend, BitWidth, Order, OrderHalves, Bytes, Halves, Pack4, PackHalves;
    match |ds|
    case 4 =>
      Unpack4(ds[0], ds[1], ds[2], ds[3], WordOf(ds));
      assert ds == [ds[0], ds[1], ds[2], ds[3]];
    case 2 =>
      OrderHalvesTwice(PackHalves(ds[0], ds[1]), swap);
      UnpackHalves(ds[0], ds[1], PackHalves(ds[0], ds[1]));
      assert ds == [ds[0], ds[1]];
    case 1 =>
      OrderTwice(ds[0], swap);
      assert ds == [ds[0]];
  }

  lemma WordRoundTrip2(ds: seq<bv32>, swap: bool)
    requires Fits(Steim2, ds, |ds|)
    ensures WordDiffs(Steim2, ShapeNibble(Steim2, |ds|), Stored(Steim2, ds, swap), swap) == Some(ds)
  {
    OrderTwice(WordOf(ds), swap);
    hide SignExtend, BitWidth, Order, Fours, Fives, Sixes, Bytes, Tens, Fifteens, Thirty, WordOf;
    if |ds| >= 5 {
      WordOfNibble3(ds);
    } else if |ds| == 4 {
      WordOfBytes(ds);
    } else {
      WordOfNibble2(ds);
    }
  }

  lemma WordOfNibble3(ds: seq<bv32>)
    requires 5 <= |ds| <= 7 && Fits(Steim2, ds, |ds|)
    ensures var w := WordOf(ds);
            match |ds| case 7 => w >> 30 == 2 && Fours(w) == ds case 6 => w >> 30 == 1 && Fives(w) == ds
                       case _ => w >> 30 == 0 && Sixes(w) == ds
  {
    hide SignExtend, BitWidth, Fours, Fives, Sixes, Pack5, Pack6, Pack7;
    var w := WordOf(ds);
    match |ds|
    case 7 =>
      Unpack7(ds[0], ds[1], ds[2], ds[3], ds[4], ds[5], ds[6], w);
      assert ds == [ds[0], ds[1], ds[2], ds[3], ds[4], ds[5], ds[6]];
    case 6 =>
      Unpack6(ds[0], ds[1], ds[2], ds[3], ds[4], ds[5], w);
      assert ds == [ds[0], ds[1], ds[2], ds[3], ds[4], ds[5]];
    case 5 =>
      Unpack5(ds[0], ds[1], ds[2], ds[3], ds[4], w);
      assert ds == [ds[0], ds[1], ds[2], ds[3], ds[4]];
  }

  lemma WordOfBytes(ds: seq<bv32>)
    requires |ds| == 4 && Fits(Steim2, ds, 4)
    ensures Bytes(WordOf(ds)) == ds
  {
    hide SignExtend, BitWidth, Bytes, Pack4;
    Unpack4(ds[0], ds[1], ds[2], ds[3], WordOf(ds));
    assert ds == [ds[0], ds[1], ds[2], ds[3]];
  }

  lemma WordOfNibble2(ds: seq<bv32>)
    requires 1 <= |ds| <= 3 && Fits(Steim2, ds, |ds|)
    ensures var w := WordOf(ds);
            match |ds| case 3 => w >> 30 == 3 && Tens(w) == ds case 2 => w >> 30 == 2 && Fifteens(w) == ds
                       case _ => w >> 30 == 1 && Thirty(w) == ds
  {
    hide SignExtend, BitWidth, Tens, Fifteens, Thirty, Pack1, Pack2, Pack3;
    var w := WordOf(ds);
    match |ds|
    case 3 =>
      Unpack3(ds[0], ds[1], ds[2], w);
      assert ds == [ds[0], ds[1], ds[2]];
    case 2 =>
      Unpack2(ds[0], ds[1], w);
      assert ds == [ds[0], ds[1]];
    case 1 =>
      Unpack1(ds[0], w);
      assert ds == [ds[0]];
  }
}
