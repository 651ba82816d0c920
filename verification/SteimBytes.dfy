/** The Steim formats as they are laid out in the bits of a stream (SEED Reference Manual v2.4, Appendix B, "The Steim
    Compression Algorithm"), and that this is what the decoder reads. */
module SteimBytes {
  import opened Options
  import opened SteimFormat
  import opened SteimShapes
  import opened Packer
  import opened Record3
  import F = SteimFormat

  // ---------------------------------------------------------------- bits

  /** The bits of a byte, highest first. */
  function Bits8(b: bv8): (r: seq<bool>)
    ensures |r| == 8
  {
    [b & 0x80 != 0, b & 0x40 != 0, b & 0x20 != 0, b & 0x10 != 0, b & 8 != 0, b & 4 != 0, b & 2 != 0, b & 1 != 0]
  }

  function Bits(s: seq<bv8>): (r: seq<bool>)
    ensures |r| == 8 * |s|
  {
    if s == [] then [] else Bits8(s[0]) + Bits(s[1..])
  }

  function OneIf(b: bool): bv32 { if b then 1 else 0 }

  function Pushed(acc: bv32, bit: bv32): bv32 { (acc << 1) | bit }

  /** Bits shifted in from the right, one after the other. */
  function ShiftIn(acc: bv32, bits: seq<bool>): bv32
    decreases |bits|
  {
    if bits == [] then acc else ShiftIn(Pushed(acc, OneIf(bits[0])), bits[1..])
  }

  /** The number that the bits stand for in two's complement: the first is the sign and fills the upper bits. */
  function Signed(bits: seq<bool>): bv32
    requires bits != []
  {
    ShiftIn(if bits[0] then 0xFFFF_FFFF else 0, bits)
  }

  /** The number that two bits stand for. */
  function Pair(high: bool, low: bool): (n: nat)
    ensures n < 4
  {
    (if high then 2 else 0) + (if low then 1 else 0)
  }

  // ---------------------------------------------------------------- the format

  /** Where the first field of a word begins and how wide the fields are that fill it from there. */
  datatype Layout = Layout(first: nat, width: nat)

  /** By the code in the control word and, for two of the Steim-2 codes, the two bits that begin the word. */
  function LayoutOf(v: Version, code: nat, dnib: nat): (l: Option<Layout>)
    ensures l.Some? ==> l.value.first < 32 && 0 < l.value.width
  {
    if code == 1 then Some(Layout(0, 8))
    else if v.Steim1? then
      if code == 2 then Some(Layout(0, 16)) else if code == 3 then Some(Layout(0, 32)) else None
    else if code == 2 then
      if dnib == 1 then Some(Layout(2, 30)) else if dnib == 2 then Some(Layout(2, 15))
      else if dnib == 3 then Some(Layout(2, 10)) else None
    else if code == 3 then
      if dnib == 0 then Some(Layout(2, 6)) else if dnib == 1 then Some(Layout(2, 5))
      else if dnib == 2 then Some(Layout(4, 4)) else None
    else None
  }

  /** Fields of one width, one after the other. */
  function Fields(bits: seq<bool>, width: nat): seq<bv32>
    requires 0 < width
    decreases |bits|
  {
    if |bits| < width then [] else [Signed(bits[..width])] + Fields(bits[width..], width)
  }

  /** The bytes of a word in big-endian order. In a little-endian stream numbers of several bytes are reversed. */
  function InOrder(b: seq<bv8>, v: Version, code: nat, big: bool): (r: seq<bv8>)
    requires |b| == 4
    ensures |r| == 4
  {
    if big || code == 1 then b
    else if v.Steim1? && code == 2 then [b[1], b[0], b[3], b[2]] else [b[3], b[2], b[1], b[0]]
  }

  /** The differences in a word of four bytes. Code 0 is a word without differences. */
  function WordMeaning(v: Version, code: nat, b: seq<bv8>, big: bool): Option<seq<bv32>>
    requires |b| == 4
  {
    if code == 0 then Some([])
    else
      var bits := Bits(InOrder(b, v, code, big));
      var l := LayoutOf(v, code, Pair(bits[0], bits[1]));
      if l.None? then None else Some(Fields(bits[l.value.first..], l.value.width))
  }

  /** The code of word w, 0 to 15, of a frame of 64 bytes: the control word comes first, and has the codes of four words
      in each byte, the first of them in the highest bits. */
  function Code(frame: seq<bv8>, w: nat, big: bool): (n: nat)
    requires |frame| == 64 && w < 16
    ensures n < 4
  {
    var bits := Bits8(frame[if big then w / 4 else 3 - w / 4]);
    Pair(bits[2 * (w % 4)], bits[2 * (w % 4) + 1])
  }

  /** The differences in words w to 15 of a frame. */
  function FrameMeaning(v: Version, frame: seq<bv8>, w: nat, big: bool): Option<seq<bv32>>
    requires |frame| == 64 && w <= 16
    decreases 16 - w
  {
    if w == 16 then Some([])
    else Append(WordMeaning(v, Code(frame, w, big), frame[4 * w..4 * w + 4], big), FrameMeaning(v, frame, w + 1, big))
  }

  /** Samples, each the sum of the one before and the next difference, up to a count. */
  function Sums(xs: seq<bv32>, ds: seq<bv32>, count: nat): (r: seq<bv32>)
    requires xs != []
    ensures r != []
    decreases |ds|
  {
    if ds == [] || |xs| >= count then xs else Sums(xs + [xs[|xs| - 1] + ds[0]], ds[1..], count)
  }

  /** The first count samples that n frames of a stream hold, or None for an undefined code before them. Word 1 of the
      first frame is the first sample, word 2 the last; the first difference is not used. */
  function Meaning(v: Version, s: seq<bv8>, n: nat, count: nat, big: bool): (r: Option<seq<bv32>>)
    requires 64 * n <= |s|
    ensures r.Some? && n > 0 && count > 0 ==> r.value != []
  {
    if n == 0 then Some([])
    else
      var before := Meaning(v, s, n - 1, count, big);
      if before.None? || |before.value| >= count then before
      else
        var d := FrameMeaning(v, s[64 * (n - 1)..64 * n], if n == 1 then 3 else 1, big);
        if d.None? then None
        else if n == 1 then Some(Sums([SampleAt(s, 4, big)], if d.value == [] then [] else d.value[1..], count))
        else Some(Sums(before.value, d.value, count))
  }

  /** The sample in the four bytes from the given one on. */
  function SampleAt(s: seq<bv8>, i: nat, big: bool): bv32
    requires i + 4 <= |s|
  {
    Signed(Bits(if big then s[i..i + 4] else [s[i + 3], s[i + 2], s[i + 1], s[i]]))
  }

  // ---------------------------------------------------------------- bits of words

  predicate Top(w: bv32) { w & 0x8000_0000 != 0 }

  function Shl(w: bv32): bv32 { w << 1 }

  /** The highest n bits of a word. */
  function TopBits(w: bv32, n: nat): (r: seq<bool>)
    ensures |r| == n
    decreases n
  {
    if n == 0 then [] else [Top(w)] + TopBits(Shl(w), n - 1)
  }

  function Shls(w: bv32, n: nat): bv32
    decreases n
  {
    if n == 0 then w else Shls(Shl(w), n - 1)
  }

  lemma TopBitsFirst(w: bv32, n: nat)
    requires n > 0
    ensures TopBits(w, n) == [Top(w)] + TopBits(Shl(w), n - 1) && Shls(w, n) == Shls(Shl(w), n - 1)
    ensures TopBits(w, n)[0] == Top(w) && TopBits(w, n)[1..] == TopBits(Shl(w), n - 1)
  {
    hide Top, Shl;
  }

  lemma {:induction false} TopBitsConcat(w: bv32, m: nat, n: nat)
    ensures TopBits(w, m + n) == TopBits(w, m) + TopBits(Shls(w, m), n)
    decreases m
  {
    hide *;
    if m == 0 {
      NoBits(w);
    } else {
      TopBitsFirst(w, m + n);
      TopBitsFirst(w, m);
      TopBitsConcat(Shl(w), m - 1, n);
      SumOfThree([Top(w)], TopBits(Shl(w), m - 1), TopBits(Shls(w, m), n));
    }
  }

  lemma SumOfThree<T>(a: seq<T>, b: seq<T>, c: seq<T>)
    ensures a + (b + c) == a + b + c
  {}

  lemma TopBitsSplit(w: bv32, m: nat, n: nat)
    ensures TopBits(w, m + n)[..m] == TopBits(w, m) && TopBits(w, m + n)[m..] == TopBits(Shls(w, m), n)
  {
    TopBitsConcat(w, m, n);
    hide TopBits, Shls;
  }

  lemma NoBits(w: bv32)
    ensures TopBits(w, 0) == [] && Shls(w, 0) == w
  {}

  /** For the widths that fields have and those they are made up of: the word without its highest n bits, a number with
      these shifted in, and the number that they are. */
  function Without(w: bv32, n: nat): bv32 {
    if n == 1 then w << 1 else if n == 2 then w << 2 else if n == 4 then w << 4 else if n == 5 then w << 5
    else if n == 6 then w << 6 else if n == 8 then w << 8 else if n == 10 then w << 10 else if n == 15 then w << 15
    else if n == 16 then w << 16 else if n == 30 then w << 30
    else 0
  }

  function With(acc: bv32, w: bv32, n: nat): bv32 {
    if n == 1 then (acc << 1) | (w >> 31) else if n == 2 then (acc << 2) | (w >> 30)
    else if n == 4 then (acc << 4) | (w >> 28) else if n == 5 then (acc << 5) | (w >> 27)
    else if n == 6 then (acc << 6) | (w >> 26) else if n == 8 then (acc << 8) | (w >> 24)
    else if n == 10 then (acc << 10) | (w >> 22) else if n == 15 then (acc << 15) | (w >> 17)
    else if n == 16 then (acc << 16) | (w >> 16) else if n == 30 then (acc << 30) | (w >> 2)
    else w
  }

  function Number(w: bv32, n: nat): bv32 {
    if n == 1 then SignExtend(w >> 31, 0x1) else if n == 2 then SignExtend(w >> 30, 0x2)
    else if n == 4 then SignExtend(w >> 28, 0x8) else if n == 5 then SignExtend(w >> 27, 0x10)
    else if n == 6 then SignExtend(w >> 26, 0x20) else if n == 8 then SignExtend(w >> 24, 0x80)
    else if n == 10 then SignExtend(w >> 22, 0x200) else if n == 15 then SignExtend(w >> 17, 0x4000)
    else if n == 16 then SignExtend(w >> 16, 0x8000) else if n == 30 then SignExtend(w >> 2, 0x20000000)
    else w
  }

  ghost predicate Known(n: nat) {
    forall acc: bv32, w: bv32 :: Is(acc, w, n)
  }

  ghost predicate Is(acc: bv32, w: bv32, n: nat) {
    ShiftIn(acc, TopBits(w, n)) == With(acc, w, n) && Shls(w, n) == Without(w, n)
  }

  ghost predicate Joins(acc: bv32, w: bv32, m: nat, n: nat) {
    With(With(acc, w, m), Without(w, m), n) == With(acc, w, m + n) && Without(Without(w, m), n) == Without(w, m + n)
  }

  lemma {:induction false} ShiftInConcat(acc: bv32, a: seq<bool>, b: seq<bool>)
    ensures ShiftIn(acc, a + b) == ShiftIn(ShiftIn(acc, a), b)
    decreases |a|
  {
    hide Pushed, OneIf;
    if a == [] {
      assert a + b == b;
    } else {
      assert (a + b)[1..] == a[1..] + b;
      ShiftInConcat(Pushed(acc, OneIf(a[0])), a[1..], b);
    }
  }

  lemma Bit()
    ensures Known(1)
  {
    forall acc: bv32, w: bv32 ensures Is(acc, w, 1) {
      TopBitsFirst(w, 1);
      assert TopBits(w, 1)[1..] == [];
      TopOne(w);
    }
  }

  lemma TopOne(w: bv32)
    ensures OneIf(Top(w)) == w >> 31
  {}

  lemma IsGives(acc: bv32, w: bv32, n: nat)
    ensures Is(acc, w, n) <==> ShiftIn(acc, TopBits(w, n)) == With(acc, w, n) && Shls(w, n) == Without(w, n)
  {
    hide ShiftIn, TopBits, Shls, With, Without;
  }

  lemma JoinsGives(acc: bv32, w: bv32, m: nat, n: nat)
    requires Joins(acc, w, m, n)
    ensures With(With(acc, w, m), Without(w, m), n) == With(acc, w, m + n)
    ensures Without(Without(w, m), n) == Without(w, m + n)
  {
    hide With, Without;
  }

  lemma JoinAt(acc: bv32, w: bv32, m: nat, n: nat)
    requires Is(acc, w, m) && Joins(acc, w, m, n) && Is(With(acc, w, m), Without(w, m), n)
    ensures Is(acc, w, m + n)
  {
    hide *;
    TopBitsConcat(w, m, n);
    ShlsSplit(w, m, n);
    ShiftInConcat(acc, TopBits(w, m), TopBits(Shls(w, m), n));
    IsGives(acc, w, m);
    IsGives(With(acc, w, m), Without(w, m), n);
    JoinsGives(acc, w, m, n);
    IsGives(acc, w, m + n);
  }

  lemma KnownGives(n: nat, acc: bv32, w: bv32)
    requires Known(n)
    ensures Is(acc, w, n)
  {
    hide Is;
  }

  lemma Join(m: nat, n: nat)
    requires Known(m) && Known(n) && forall acc: bv32, w: bv32 :: Joins(acc, w, m, n)
    ensures Known(m + n)
  {
    var k := m + n;
    forall acc: bv32, w: bv32 ensures Is(acc, w, k) {
      KnownGives(m, acc, w);
      KnownGives(n, With(acc, w, m), Without(w, m));
      hide *;
      JoinAt(acc, w, m, n);
    }
    hide Is, Joins;
  }

  lemma At1(acc: bv32, w: bv32) ensures With(acc, w, 1) == (acc << 1) | (w >> 31) && Without(w, 1) == w << 1 {}
  lemma At2(acc: bv32, w: bv32) ensures With(acc, w, 2) == (acc << 2) | (w >> 30) && Without(w, 2) == w << 2 {}
  lemma At4(acc: bv32, w: bv32) ensures With(acc, w, 4) == (acc << 4) | (w >> 28) && Without(w, 4) == w << 4 {}
  lemma At5(acc: bv32, w: bv32) ensures With(acc, w, 5) == (acc << 5) | (w >> 27) && Without(w, 5) == w << 5 {}
  lemma At6(acc: bv32, w: bv32) ensures With(acc, w, 6) == (acc << 6) | (w >> 26) && Without(w, 6) == w << 6 {}
  lemma At8(acc: bv32, w: bv32) ensures With(acc, w, 8) == (acc << 8) | (w >> 24) && Without(w, 8) == w << 8 {}
  lemma At10(acc: bv32, w: bv32) ensures With(acc, w, 10) == (acc << 10) | (w >> 22) && Without(w, 10) == w << 10 {}
  lemma At15(acc: bv32, w: bv32) ensures With(acc, w, 15) == (acc << 15) | (w >> 17) && Without(w, 15) == w << 15 {}
  lemma At16(acc: bv32, w: bv32) ensures With(acc, w, 16) == (acc << 16) | (w >> 16) && Without(w, 16) == w << 16 {}
  lemma At30(acc: bv32, w: bv32) ensures With(acc, w, 30) == (acc << 30) | (w >> 2) && Without(w, 30) == w << 30 {}
  lemma At32(acc: bv32, w: bv32) ensures With(acc, w, 32) == w && Without(w, 32) == 0 {}

  lemma MakeJoins(acc: bv32, w: bv32, m: nat, n: nat)
    requires With(With(acc, w, m), Without(w, m), n) == With(acc, w, m + n)
    requires Without(Without(w, m), n) == Without(w, m + n)
    ensures Joins(acc, w, m, n)
  {
    hide With, Without;
  }

  lemma Raw2(acc: bv32, w: bv32)
    ensures ((((acc << 1) | (w >> 31)) << 1) | ((w << 1) >> 31)) == (acc << 2) | (w >> 30) && (w << 1) << 1 == w << 2
  {}

  lemma Joins2(acc: bv32, w: bv32)
    ensures Joins(acc, w, 1, 1)
  {
    hide *;
    At1(acc, w);
    At1(With(acc, w, 1), Without(w, 1));
    At2(acc, w);
    Raw2(acc, w);
    MakeJoins(acc, w, 1, 1);
  }

  lemma Raw4(acc: bv32, w: bv32)
    ensures ((((acc << 2) | (w >> 30)) << 2) | ((w << 2) >> 30)) == (acc << 4) | (w >> 28) && (w << 2) << 2 == w << 4
  {}

  lemma Joins4(acc: bv32, w: bv32)
    ensures Joins(acc, w, 2, 2)
  {
    hide *;
    At2(acc, w);
    At2(With(acc, w, 2), Without(w, 2));
    At4(acc, w);
    Raw4(acc, w);
    MakeJoins(acc, w, 2, 2);
  }

  lemma Raw5(acc: bv32, w: bv32)
    ensures ((((acc << 4) | (w >> 28)) << 1) | ((w << 4) >> 31)) == (acc << 5) | (w >> 27) && (w << 4) << 1 == w << 5
  {}

  lemma Joins5(acc: bv32, w: bv32)
    ensures Joins(acc, w, 4, 1)
  {
    hide *;
    At4(acc, w);
    At1(With(acc, w, 4), Without(w, 4));
    At5(acc, w);
    Raw5(acc, w);
    MakeJoins(acc, w, 4, 1);
  }

  lemma Raw6(acc: bv32, w: bv32)
    ensures ((((acc << 4) | (w >> 28)) << 2) | ((w << 4) >> 30)) == (acc << 6) | (w >> 26) && (w << 4) << 2 == w << 6
  {}

  lemma Joins6(acc: bv32, w: bv32)
    ensures Joins(acc, w, 4, 2)
  {
    hide *;
    At4(acc, w);
    At2(With(acc, w, 4), Without(w, 4));
    At6(acc, w);
    Raw6(acc, w);
    MakeJoins(acc, w, 4, 2);
  }

  lemma Raw8(acc: bv32, w: bv32)
    ensures ((((acc << 4) | (w >> 28)) << 4) | ((w << 4) >> 28)) == (acc << 8) | (w >> 24) && (w << 4) << 4 == w << 8
  {}

  lemma Joins8(acc: bv32, w: bv32)
    ensures Joins(acc, w, 4, 4)
  {
    hide *;
    At4(acc, w);
    At4(With(acc, w, 4), Without(w, 4));
    At8(acc, w);
    Raw8(acc, w);
    MakeJoins(acc, w, 4, 4);
  }

  lemma Raw10(acc: bv32, w: bv32)
    ensures ((((acc << 8) | (w >> 24)) << 2) | ((w << 8) >> 30)) == (acc << 10) | (w >> 22) && (w << 8) << 2 == w << 10
  {}

  lemma Joins10(acc: bv32, w: bv32)
    ensures Joins(acc, w, 8, 2)
  {
    hide *;
    At8(acc, w);
    At2(With(acc, w, 8), Without(w, 8));
    At10(acc, w);
    Raw10(acc, w);
    MakeJoins(acc, w, 8, 2);
  }

  lemma Raw15(acc: bv32, w: bv32)
    ensures ((((acc << 10) | (w >> 22)) << 5) | ((w << 10) >> 27)) == (acc << 15) | (w >> 17)
            && (w << 10) << 5 == w << 15
  {}

  lemma Joins15(acc: bv32, w: bv32)
    ensures Joins(acc, w, 10, 5)
  {
    hide *;
    At10(acc, w);
    At5(With(acc, w, 10), Without(w, 10));
    At15(acc, w);
    Raw15(acc, w);
    MakeJoins(acc, w, 10, 5);
  }

  lemma Raw16(acc: bv32, w: bv32)
    ensures ((((acc << 8) | (w >> 24)) << 8) | ((w << 8) >> 24)) == (acc << 16) | (w >> 16) && (w << 8) << 8 == w << 16
  {}

  lemma Joins16(acc: bv32, w: bv32)
    ensures Joins(acc, w, 8, 8)
  {
    hide *;
    At8(acc, w);
    At8(With(acc, w, 8), Without(w, 8));
    At16(acc, w);
    Raw16(acc, w);
    MakeJoins(acc, w, 8, 8);
  }

  lemma Raw30(acc: bv32, w: bv32)
    ensures ((((acc << 15) | (w >> 17)) << 15) | ((w << 15) >> 17)) == (acc << 30) | (w >> 2)
            && (w << 15) << 15 == w << 30
  {}

  lemma Joins30(acc: bv32, w: bv32)
    ensures Joins(acc, w, 15, 15)
  {
    hide *;
    At15(acc, w);
    At15(With(acc, w, 15), Without(w, 15));
    At30(acc, w);
    Raw30(acc, w);
    MakeJoins(acc, w, 15, 15);
  }

  lemma Raw32(acc: bv32, w: bv32)
    ensures ((((acc << 16) | (w >> 16)) << 16) | ((w << 16) >> 16)) == w && (w << 16) << 16 == 0
  {}

  lemma Joins32(acc: bv32, w: bv32)
    ensures Joins(acc, w, 16, 16)
  {
    hide *;
    At16(acc, w);
    At16(With(acc, w, 16), Without(w, 16));
    At32(acc, w);
    Raw32(acc, w);
    MakeJoins(acc, w, 16, 16);
  }

  lemma AllKnown()
    ensures Known(4) && Known(5) && Known(6) && Known(8) && Known(10) && Known(15) && Known(16) && Known(30)
            && Known(32)
  {
    hide *;
    Bit();
    forall acc: bv32, w: bv32 ensures Joins(acc, w, 1, 1) { Joins2(acc, w); }
    Join(1, 1);
    forall acc: bv32, w: bv32 ensures Joins(acc, w, 2, 2) { Joins4(acc, w); }
    Join(2, 2);
    forall acc: bv32, w: bv32 ensures Joins(acc, w, 4, 1) { Joins5(acc, w); }
    Join(4, 1);
    forall acc: bv32, w: bv32 ensures Joins(acc, w, 4, 2) { Joins6(acc, w); }
    Join(4, 2);
    forall acc: bv32, w: bv32 ensures Joins(acc, w, 4, 4) { Joins8(acc, w); }
    Join(4, 4);
    forall acc: bv32, w: bv32 ensures Joins(acc, w, 8, 2) { Joins10(acc, w); }
    Join(8, 2);
    forall acc: bv32, w: bv32 ensures Joins(acc, w, 10, 5) { Joins15(acc, w); }
    Join(10, 5);
    forall acc: bv32, w: bv32 ensures Joins(acc, w, 8, 8) { Joins16(acc, w); }
    Join(8, 8);
    forall acc: bv32, w: bv32 ensures Joins(acc, w, 15, 15) { Joins30(acc, w); }
    Join(15, 15);
    forall acc: bv32, w: bv32 ensures Joins(acc, w, 16, 16) { Joins32(acc, w); }
    Join(16, 16);
  }

  lemma {:induction false} ShlsSplit(w: bv32, m: nat, n: nat)
    ensures Shls(w, m + n) == Shls(Shls(w, m), n)
    decreases m
  {
    hide Shl;
    if m > 0 {
      ShlsSplit(Shl(w), m - 1, n);
    }
  }

  // ---------------------------------------------------------------- fields

  function Fill(w: bv32): bv32 { if Top(w) then 0xFFFF_FFFF else 0 }

  /** Fields of this width are read as numbers. */
  ghost predicate Reads(n: nat) {
    n > 0 && forall w: bv32 :: Signed(TopBits(w, n)) == Number(w, n) && Shls(w, n) == Without(w, n)
  }

  lemma MakeReads(n: nat)
    requires n > 0 && Known(n) && forall w: bv32 :: With(Fill(w), w, n) == Number(w, n)
    ensures Reads(n)
  {
    forall w: bv32 ensures Signed(TopBits(w, n)) == Number(w, n) && Shls(w, n) == Without(w, n) {
      TopBitsFirst(w, n);
      assert Is(Fill(w), w, n);
      hide ShiftIn, TopBits, Shls, With, Without, Number;
    }
  }

  lemma Fills4(w: bv32) ensures With(Fill(w), w, 4) == Number(w, 4) {}
  lemma Fills5(w: bv32) ensures With(Fill(w), w, 5) == Number(w, 5) {}
  lemma Fills6(w: bv32) ensures With(Fill(w), w, 6) == Number(w, 6) {}
  lemma Fills8(w: bv32) ensures With(Fill(w), w, 8) == Number(w, 8) {}
  lemma Fills10(w: bv32) ensures With(Fill(w), w, 10) == Number(w, 10) {}
  lemma Fills15(w: bv32) ensures With(Fill(w), w, 15) == Number(w, 15) {}
  lemma Fills16(w: bv32) ensures With(Fill(w), w, 16) == Number(w, 16) {}
  lemma Fills30(w: bv32) ensures With(Fill(w), w, 30) == Number(w, 30) {}
  lemma Fills32(w: bv32) ensures With(Fill(w), w, 32) == Number(w, 32) {}

  lemma AllRead()
    ensures Reads(4) && Reads(5) && Reads(6) && Reads(8) && Reads(10) && Reads(15) && Reads(16) && Reads(30)
            && Reads(32)
  {
    hide *;
    AllKnown();
    forall w: bv32 ensures With(Fill(w), w, 4) == Number(w, 4) { Fills4(w); }
    MakeReads(4);
    forall w: bv32 ensures With(Fill(w), w, 5) == Number(w, 5) { Fills5(w); }
    MakeReads(5);
    forall w: bv32 ensures With(Fill(w), w, 6) == Number(w, 6) { Fills6(w); }
    MakeReads(6);
    forall w: bv32 ensures With(Fill(w), w, 8) == Number(w, 8) { Fills8(w); }
    MakeReads(8);
    forall w: bv32 ensures With(Fill(w), w, 10) == Number(w, 10) { Fills10(w); }
    MakeReads(10);
    forall w: bv32 ensures With(Fill(w), w, 15) == Number(w, 15) { Fills15(w); }
    MakeReads(15);
    forall w: bv32 ensures With(Fill(w), w, 16) == Number(w, 16) { Fills16(w); }
    MakeReads(16);
    forall w: bv32 ensures With(Fill(w), w, 30) == Number(w, 30) { Fills30(w); }
    MakeReads(30);
    forall w: bv32 ensures With(Fill(w), w, 32) == Number(w, 32) { Fills32(w); }
    MakeReads(32);
  }

  /** The numbers in c fields from the first bit of a word on. */
  function Numbers(w: bv32, width: nat, c: nat): seq<bv32>
    decreases c
  {
    if c == 0 then [] else [Number(w, width)] + Numbers(Without(w, width), width, c - 1)
  }

  lemma {:induction false} FieldsAre(w: bv32, width: nat, c: nat)
    requires Reads(width)
    ensures c * width >= 0 && Fields(TopBits(w, c * width), width) == Numbers(w, width, c)
    decreases c
  {
    hide Signed, TopBits, Shls, Number, Without;
    if c > 0 {
      assert c * width == width + (c - 1) * width;
      TopBitsSplit(w, width, (c - 1) * width);
      FieldsAre(Without(w, width), width, c - 1);
    } else {
      NoBits(w);
    }
  }

  /** Numbers found from the last to the first. */
  lemma NumbersFrom(ns: seq<bv32>, width: nat, i: nat, a: bv32, b: bv32)
    requires i < |ns| && Number(a, width) == ns[i] && Without(a, width) == b
    requires Numbers(b, width, |ns| - i - 1) == ns[i + 1..]
    ensures Numbers(a, width, |ns| - i) == ns[i..]
  {
    hide Number, Without;
  }

  lemma NoNumbers(w: bv32, width: nat)
    ensures Numbers(w, width, 0) == []
  {}

  lemma ItemsFours(w: bv32)
    ensures Number(w << 4, 4) == Fours(w)[0] && Without(w << 4, 4) == w << 8
    ensures Number(w << 8, 4) == Fours(w)[1] && Without(w << 8, 4) == w << 12
    ensures Number(w << 12, 4) == Fours(w)[2] && Without(w << 12, 4) == w << 16
    ensures Number(w << 16, 4) == Fours(w)[3] && Without(w << 16, 4) == w << 20
    ensures Number(w << 20, 4) == Fours(w)[4] && Without(w << 20, 4) == w << 24
    ensures Number(w << 24, 4) == Fours(w)[5] && Without(w << 24, 4) == w << 28
    ensures Number(w << 28, 4) == Fours(w)[6] && Without(w << 28, 4) == 0
  {}

  lemma NumbersFours(w: bv32)
    ensures Numbers(w << 4, 4, 7) == Fours(w)
  {
    hide *;
    ItemsFours(w);
    NoNumbers(0, 4);
    NumbersFrom(Fours(w), 4, 6, w << 28, 0);
    NumbersFrom(Fours(w), 4, 5, w << 24, w << 28);
    NumbersFrom(Fours(w), 4, 4, w << 20, w << 24);
    NumbersFrom(Fours(w), 4, 3, w << 16, w << 20);
    NumbersFrom(Fours(w), 4, 2, w << 12, w << 16);
    NumbersFrom(Fours(w), 4, 1, w << 8, w << 12);
    NumbersFrom(Fours(w), 4, 0, w << 4, w << 8);
  }

  lemma ItemsFives(w: bv32)
    ensures Number(w << 2, 5) == Fives(w)[0] && Without(w << 2, 5) == w << 7
    ensures Number(w << 7, 5) == Fives(w)[1] && Without(w << 7, 5) == w << 12
    ensures Number(w << 12, 5) == Fives(w)[2] && Without(w << 12, 5) == w << 17
    ensures Number(w << 17, 5) == Fives(w)[3] && Without(w << 17, 5) == w << 22
    ensures Number(w << 22, 5) == Fives(w)[4] && Without(w << 22, 5) == w << 27
    ensures Number(w << 27, 5) == Fives(w)[5] && Without(w << 27, 5) == 0
  {}

  lemma NumbersFives(w: bv32)
    ensures Numbers(w << 2, 5, 6) == Fives(w)
  {
    hide *;
    ItemsFives(w);
    NoNumbers(0, 5);
    NumbersFrom(Fives(w), 5, 5, w << 27, 0);
    NumbersFrom(Fives(w), 5, 4, w << 22, w << 27);
    NumbersFrom(Fives(w), 5, 3, w << 17, w << 22);
    NumbersFrom(Fives(w), 5, 2, w << 12, w << 17);
    NumbersFrom(Fives(w), 5, 1, w << 7, w << 12);
    NumbersFrom(Fives(w), 5, 0, w << 2, w << 7);
  }

  lemma ItemsSixes(w: bv32)
    ensures Number(w << 2, 6) == Sixes(w)[0] && Without(w << 2, 6) == w << 8
    ensures Number(w << 8, 6) == Sixes(w)[1] && Without(w << 8, 6) == w << 14
    ensures Number(w << 14, 6) == Sixes(w)[2] && Without(w << 14, 6) == w << 20
    ensures Number(w << 20, 6) == Sixes(w)[3] && Without(w << 20, 6) == w << 26
    ensures Number(w << 26, 6) == Sixes(w)[4] && Without(w << 26, 6) == 0
  {}

  lemma NumbersSixes(w: bv32)
    ensures Numbers(w << 2, 6, 5) == Sixes(w)
  {
    hide *;
    ItemsSixes(w);
    NoNumbers(0, 6);
    NumbersFrom(Sixes(w), 6, 4, w << 26, 0);
    NumbersFrom(Sixes(w), 6, 3, w << 20, w << 26);
    NumbersFrom(Sixes(w), 6, 2, w << 14, w << 20);
    NumbersFrom(Sixes(w), 6, 1, w << 8, w << 14);
    NumbersFrom(Sixes(w), 6, 0, w << 2, w << 8);
  }

  lemma ItemsTens(w: bv32)
    ensures Number(w << 2, 10) == Tens(w)[0] && Without(w << 2, 10) == w << 12
    ensures Number(w << 12, 10) == Tens(w)[1] && Without(w << 12, 10) == w << 22
    ensures Number(w << 22, 10) == Tens(w)[2] && Without(w << 22, 10) == 0
  {}

  lemma NumbersTens(w: bv32)
    ensures Numbers(w << 2, 10, 3) == Tens(w)
  {
    hide *;
    ItemsTens(w);
    NoNumbers(0, 10);
    NumbersFrom(Tens(w), 10, 2, w << 22, 0);
    NumbersFrom(Tens(w), 10, 1, w << 12, w << 22);
    NumbersFrom(Tens(w), 10, 0, w << 2, w << 12);
  }

  lemma RawFifteens(w: bv32)
    ensures Number(w << 2, 15) == SignExtend((w >> 15) & 0x7FFF, 0x4000) && Without(w << 2, 15) == w << 17
    ensures Number(w << 17, 15) == SignExtend(w & 0x7FFF, 0x4000) && Without(w << 17, 15) == 0
  {}

  lemma ItemsFifteens(w: bv32)
    ensures Fifteens(w) == [SignExtend((w >> 15) & 0x7FFF, 0x4000), SignExtend(w & 0x7FFF, 0x4000)]
  {
    hide SignExtend;
  }

  lemma NumbersFifteens(w: bv32)
    ensures Numbers(w << 2, 15, 2) == Fifteens(w)
  {
    hide *;
    RawFifteens(w);
    ItemsFifteens(w);
    NoNumbers(0, 15);
    NumbersFrom(Fifteens(w), 15, 1, w << 17, 0);
    NumbersFrom(Fifteens(w), 15, 0, w << 2, w << 17);
  }

  lemma ItemsThirty(w: bv32)
    ensures Number(w << 2, 30) == Thirty(w)[0] && Without(w << 2, 30) == 0
  {}

  lemma NumbersThirty(w: bv32)
    ensures Numbers(w << 2, 30, 1) == Thirty(w)
  {
    hide *;
    ItemsThirty(w);
    NoNumbers(0, 30);
    NumbersFrom(Thirty(w), 30, 0, w << 2, 0);
  }

  lemma RawBytes(x: bv32)
    ensures Number(x, 8) == SignExtend((x >> 24) & 0xFF, 0x80) && Without(x, 8) == x << 8
    ensures Number(x << 8, 8) == SignExtend((x >> 16) & 0xFF, 0x80) && Without(x << 8, 8) == x << 16
    ensures Number(x << 16, 8) == SignExtend((x >> 8) & 0xFF, 0x80) && Without(x << 16, 8) == x << 24
    ensures Number(x << 24, 8) == SignExtend(x & 0xFF, 0x80) && Without(x << 24, 8) == 0
  {}

  lemma SwappedBytes(w: bv32)
    ensures (Swap4(w) >> 24) & 0xFF == w & 0xFF && (Swap4(w) >> 16) & 0xFF == (w >> 8) & 0xFF
    ensures (Swap4(w) >> 8) & 0xFF == (w >> 16) & 0xFF && Swap4(w) & 0xFF == (w >> 24) & 0xFF
  {}

  lemma BytesAre(w: bv32)
    ensures F.Bytes(w) == [SignExtend(w & 0xFF, 0x80), SignExtend((w >> 8) & 0xFF, 0x80),
                           SignExtend((w >> 16) & 0xFF, 0x80), SignExtend((w >> 24) & 0xFF, 0x80)]
  {
    hide SignExtend;
  }

  lemma NumbersBytes(w: bv32)
    ensures Numbers(Swap4(w), 8, 4) == F.Bytes(w)
  {
    hide *;
    var x := Swap4(w);
    RawBytes(x);
    SwappedBytes(w);
    BytesAre(w);
    NoNumbers(0, 8);
    NumbersFrom(F.Bytes(w), 8, 3, x << 24, 0);
    NumbersFrom(F.Bytes(w), 8, 2, x << 16, x << 24);
    NumbersFrom(F.Bytes(w), 8, 1, x << 8, x << 16);
    NumbersFrom(F.Bytes(w), 8, 0, x, x << 8);
  }

  /** The halves of a word exchanged. */
  function Turned(w: bv32): bv32 { (w << 16) | (w >> 16) }

  lemma RawHalves(x: bv32)
    ensures Number(x, 16) == SignExtend((x >> 16) & 0xFFFF, 0x8000) && Without(x, 16) == x << 16
    ensures Number(x << 16, 16) == SignExtend(x & 0xFFFF, 0x8000) && Without(x << 16, 16) == 0
  {}

  lemma TurnedHalves(w: bv32)
    ensures (Turned(w) >> 16) & 0xFFFF == w & 0xFFFF && Turned(w) & 0xFFFF == (w >> 16) & 0xFFFF
  {}

  lemma HalvesAre(w: bv32)
    ensures Halves(w) == [SignExtend(w & 0xFFFF, 0x8000), SignExtend((w >> 16) & 0xFFFF, 0x8000)]
  {
    hide SignExtend;
  }

  lemma NumbersHalves(w: bv32)
    ensures Numbers(Turned(w), 16, 2) == Halves(w)
  {
    hide *;
    var x := Turned(w);
    RawHalves(x);
    TurnedHalves(w);
    HalvesAre(w);
    NoNumbers(0, 16);
    NumbersFrom(Halves(w), 16, 1, x << 16, 0);
    NumbersFrom(Halves(w), 16, 0, x, x << 16);
  }

  lemma NumbersWhole(w: bv32)
    ensures Numbers(w, 32, 1) == [w]
  {}

  // ---------------------------------------------------------------- words

  function Highest(w: bv32): bv8 { (w >> 24) as bv8 }

  function Two(w: bv32): (r: seq<bool>)
    ensures |r| == 2
  {
    [Top(w), Top(Shl(w))]
  }

  function Four(w: bv32): (r: seq<bool>)
    ensures |r| == 4
  {
    Two(w) + Two(w << 2)
  }

  lemma TwoBits(w: bv32)
    ensures TopBits(w, 2) == Two(w) && Shls(w, 2) == w << 2
  {
    TopBitsFirst(w, 2);
    TopBitsFirst(Shl(w), 1);
    NoBits(Shl(Shl(w)));
    TwoShifts(w);
    hide Top, Shl;
  }

  lemma TwoShifts(w: bv32)
    ensures Shl(Shl(w)) == w << 2
  {}

  lemma FourBits(w: bv32)
    ensures TopBits(w, 4) == Four(w) && Shls(w, 4) == w << 4
  {
    TwoBits(w);
    TwoBits(w << 2);
    TopBitsConcat(w, 2, 2);
    ShlsSplit(w, 2, 2);
    hide Top, Shl, Two, TopBits, Shls;
  }

  lemma EightBits(w: bv32)
    ensures TopBits(w, 8) == Bits8(Highest(w)) && Shls(w, 8) == w << 8
  {
    hide *;
    FourBits(w);
    FourBits(w << 4);
    TopBitsConcat(w, 4, 4);
    ShlsSplit(w, 4, 4);
    HighByte(w);
  }

  lemma HighByte(w: bv32)
    ensures Bits8(Highest(w)) == Four(w) + Four(w << 4) && (w << 4) << 4 == w << 8
  {}

  /** The word that four bytes are in big-endian order. */
  function Big(a: bv8, b: bv8, c: bv8, d: bv8): bv32 {
    ((a as bv32) << 24) | ((b as bv32) << 16) | ((c as bv32) << 8) | (d as bv32)
  }

  function Next(w: bv32): bv32 { w << 8 }

  /** The bytes of a word from the highest on. */
  ghost predicate HasBytes(s: seq<bv8>, w: bv32) {
    s == [] || (Highest(w) == s[0] && HasBytes(s[1..], Next(w)))
  }

  lemma BigBytes(a: bv8, b: bv8, c: bv8, d: bv8)
    ensures var w := Big(a, b, c, d);
            Highest(w) == a && Highest(Next(w)) == b && Highest(Next(Next(w))) == c && Highest(Next(Next(Next(w)))) == d
  {}

  lemma BigHasBytes(s: seq<bv8>)
    requires |s| == 4
    ensures HasBytes(s, Big(s[0], s[1], s[2], s[3]))
  {
    BigBytes(s[0], s[1], s[2], s[3]);
    hide Big, Highest, Next;
    assert s[1..][1..] == s[2..] && s[2..][1..] == s[3..] && s[3..][1..] == [];
    var w := Big(s[0], s[1], s[2], s[3]);
    assert HasBytes(s[3..], Next(Next(Next(w))));
    assert HasBytes(s[2..], Next(Next(w)));
    assert HasBytes(s[1..], Next(w));
  }

  lemma BitsFirst(s: seq<bv8>)
    ensures Bits(s) == if s == [] then [] else Bits8(s[0]) + Bits(s[1..])
  {
    hide Bits8;
  }

  lemma HighestFirst(w: bv32, n: nat)
    ensures TopBits(w, 8 + n) == Bits8(Highest(w)) + TopBits(Next(w), n)
  {
    hide *;
    EightBits(w);
    TopBitsConcat(w, 8, n);
    NextIs(w);
  }

  lemma NextIs(w: bv32)
    ensures Next(w) == w << 8
  {}

  lemma {:induction false} HasBits(s: seq<bv8>, w: bv32)
    requires HasBytes(s, w)
    ensures Bits(s) == TopBits(w, 8 * |s|)
  {
    BitsFirst(s);
    if s == [] {
      NoBits(w);
    } else {
      HighestFirst(w, 8 * |s| - 8);
      HasBits(s[1..], Next(w));
    }
    hide Bits8, Highest, Next, TopBits, Bits;
  }

  /** The bits of four bytes are those of the word that they are. */
  lemma BitsOfWord(s: seq<bv8>)
    requires |s| == 4
    ensures Bits(s) == TopBits(Big(s[0], s[1], s[2], s[3]), 32)
  {
    hide *;
    BigHasBytes(s);
    HasBits(s, Big(s[0], s[1], s[2], s[3]));
  }

  /** What a word holds under each code. */
  lemma FieldsFrom(w: bv32, first: nat, width: nat, c: nat)
    requires Reads(width) && first + c * width == 32 && 0 < width
    ensures Fields(TopBits(w, 32)[first..], width) == Numbers(Shls(w, first), width, c)
  {
    hide *;
    TopBitsSplit(w, first, 32 - first);
    FieldsAre(Shls(w, first), width, c);
    assert TopBits(w, 32)[first..] == TopBits(Shls(w, first), c * width);
  }

  /** The first two bits as a number. */
  lemma FirstPair(w: bv32)
    ensures var bits := TopBits(w, 32);
            && (Pair(bits[0], bits[1]) == 0 <==> w >> 30 == 0) && (Pair(bits[0], bits[1]) == 1 <==> w >> 30 == 1)
            && (Pair(bits[0], bits[1]) == 2 <==> w >> 30 == 2) && (Pair(bits[0], bits[1]) == 3 <==> w >> 30 == 3)
  {
    TopBitsFirst(w, 32);
    TopBitsFirst(Shl(w), 31);
    PairIs(w);
    hide Top, Shl, TopBits, Pair;
  }

  lemma PairIs(w: bv32)
    ensures (Pair(Top(w), Top(Shl(w))) == 0 <==> w >> 30 == 0) && (Pair(Top(w), Top(Shl(w))) == 1 <==> w >> 30 == 1)
    ensures (Pair(Top(w), Top(Shl(w))) == 2 <==> w >> 30 == 2) && (Pair(Top(w), Top(Shl(w))) == 3 <==> w >> 30 == 3)
  {}

  /** The word that is read under a code. */
  function Read(v: Version, code: nat, stored: bv32, big: bool): bv32 {
    if code == 1 then Swap4(stored)
    else if v.Steim1? && code == 2 then Turned(OrderHalves(stored, big))
    else Order(stored, big)
  }

  function BigOf(s: seq<bv8>): bv32
    requires |s| == 4
  {
    Big(s[0], s[1], s[2], s[3])
  }

  lemma MemoryBig(w: bv32)
    ensures Big((w & 0xff) as bv8, ((w >> 8) & 0xff) as bv8, ((w >> 16) & 0xff) as bv8, ((w >> 24) & 0xff) as bv8)
            == Swap4(w)
  {}

  lemma MemoryReversed(w: bv32)
    ensures Big(((w >> 24) & 0xff) as bv8, ((w >> 16) & 0xff) as bv8, ((w >> 8) & 0xff) as bv8, (w & 0xff) as bv8) == w
  {}

  lemma MemoryHalves(w: bv32)
    ensures Big(((w >> 8) & 0xff) as bv8, (w & 0xff) as bv8, ((w >> 24) & 0xff) as bv8, ((w >> 16) & 0xff) as bv8)
            == Turned(w)
  {}

  lemma HalvesTurned(w: bv32)
    ensures Turned(SwapHalves(w)) == Swap4(w)
  {}

  lemma StoredOrders(w: bv32)
    ensures var s := CrcBytes(w);
            && Big(s[0], s[1], s[2], s[3]) == Swap4(w) && Big(s[3], s[2], s[1], s[0]) == w
            && Big(s[1], s[0], s[3], s[2]) == Turned(w) && Turned(SwapHalves(w)) == Swap4(w)
  {
    MemoryBig(w);
    MemoryReversed(w);
    MemoryHalves(w);
    HalvesTurned(w);
    hide Big, Swap4, Turned, SwapHalves;
  }

  lemma ReadIs(v: Version, code: nat, stored: bv32, big: bool)
    ensures BigOf(InOrder(CrcBytes(stored), v, code, big)) == Read(v, code, stored, big)
  {
    StoredOrders(stored);
    hide Big, Swap4, Turned, SwapHalves, CrcBytes;
  }

  lemma ReadBits(v: Version, code: nat, stored: bv32, big: bool)
    ensures Bits(InOrder(CrcBytes(stored), v, code, big)) == TopBits(Read(v, code, stored, big), 32)
  {
    ReadIs(v, code, stored, big);
    BitsOfWord(InOrder(CrcBytes(stored), v, code, big));
    hide Bits, TopBits, Read, Big, InOrder, CrcBytes;
  }

  /** A code in the control word as a number. */
  predicate SameCode(nib: bv32, code: nat) {
    code < 4 && (nib == 0 <==> code == 0) && (nib == 1 <==> code == 1) && (nib == 2 <==> code == 2)
      && (nib == 3 <==> code == 3)
  }

  lemma WholeWord(w: bv32)
    ensures Fields(TopBits(w, 32)[0..], 8) == Numbers(w, 8, 4) && Fields(TopBits(w, 32)[0..], 16) == Numbers(w, 16, 2)
    ensures Fields(TopBits(w, 32)[0..], 32) == Numbers(w, 32, 1)
  {
    hide *;
    AllRead();
    NoBits(w);
    FieldsFrom(w, 0, 8, 4);
    FieldsFrom(w, 0, 16, 2);
    FieldsFrom(w, 0, 32, 1);
  }

  lemma PartWord(w: bv32)
    ensures Fields(TopBits(w, 32)[2..], 30) == Numbers(w << 2, 30, 1)
            && Fields(TopBits(w, 32)[2..], 15) == Numbers(w << 2, 15, 2)
    ensures Fields(TopBits(w, 32)[2..], 10) == Numbers(w << 2, 10, 3)
            && Fields(TopBits(w, 32)[2..], 6) == Numbers(w << 2, 6, 5)
    ensures Fields(TopBits(w, 32)[2..], 5) == Numbers(w << 2, 5, 6)
            && Fields(TopBits(w, 32)[4..], 4) == Numbers(w << 4, 4, 7)
  {
    hide *;
    AllRead();
    TwoBits(w);
    FourBits(w);
    FieldsFrom(w, 2, 30, 1);
    FieldsFrom(w, 2, 15, 2);
    FieldsFrom(w, 2, 10, 3);
    FieldsFrom(w, 2, 6, 5);
    FieldsFrom(w, 2, 5, 6);
    FieldsFrom(w, 4, 4, 7);
  }

  /** The decoder reads from a word what its bits mean. */
  lemma WordIs(v: Version, nib: bv32, code: nat, stored: bv32, big: bool)
    requires SameCode(nib, code)
    ensures WordDiffs(v, nib, stored, big) == WordMeaning(v, code, CrcBytes(stored), big)
  {
    var w := Read(v, code, stored, big);
    ReadBits(v, code, stored, big);
    FirstPair(w);
    WholeWord(w);
    PartWord(w);
    if code == 1 {
      NumbersBytes(stored);
    } else if v.Steim1? && code == 2 {
      NumbersHalves(OrderHalves(stored, big));
    } else {
      NumbersWhole(w);
      NumbersThirty(w);
      NumbersFifteens(w);
      NumbersTens(w);
      NumbersSixes(w);
      NumbersFives(w);
      NumbersFours(w);
    }
    hide Fields, Numbers, TopBits, Bits, InOrder, CrcBytes, Pair, F.Bytes, Halves, Thirty, Fifteens, Tens, Sixes, Fives,
         Fours, Order,
         OrderHalves, Swap4, Turned;
  }

  // ---------------------------------------------------------------- control words

  /** Two of the bits of a byte, the highest two first. */
  function TwoOf(b: bv8, q: nat): bv8 {
    if q == 0 then (b >> 6) & 3 else if q == 1 then (b >> 4) & 3 else if q == 2 then (b >> 2) & 3 else b & 3
  }

  predicate SameTwo(two: bv8, code: nat) {
    (two == 0 <==> code == 0) && (two == 1 <==> code == 1) && (two == 2 <==> code == 2) && (two == 3 <==> code == 3)
  }

  lemma TwoOfByte(b: bv8, q: nat)
    requires q < 4
    ensures SameTwo(TwoOf(b, q), Pair(Bits8(b)[2 * q], Bits8(b)[2 * q + 1]))
  {
    if q == 0 {} else if q == 1 {} else if q == 2 {} else {}
  }

  lemma NibbleOf0(ctrl: bv32, w: nat)
    requires w < 16 && w / 4 == 0
    ensures Nibble(ctrl, w) == TwoOf(((ctrl >> 24) & 0xff) as bv8, w % 4) as bv32
  {
    if w % 4 == 0 {} else if w % 4 == 1 {} else if w % 4 == 2 {} else {}
  }

  lemma NibbleOf1(ctrl: bv32, w: nat)
    requires w < 16 && w / 4 == 1
    ensures Nibble(ctrl, w) == TwoOf(((ctrl >> 16) & 0xff) as bv8, w % 4) as bv32
  {
    if w % 4 == 0 {} else if w % 4 == 1 {} else if w % 4 == 2 {} else {}
  }

  lemma NibbleOf2(ctrl: bv32, w: nat)
    requires w < 16 && w / 4 == 2
    ensures Nibble(ctrl, w) == TwoOf(((ctrl >> 8) & 0xff) as bv8, w % 4) as bv32
  {
    if w % 4 == 0 {} else if w % 4 == 1 {} else if w % 4 == 2 {} else {}
  }

  lemma NibbleOf3(ctrl: bv32, w: nat)
    requires w < 16 && w / 4 == 3
    ensures Nibble(ctrl, w) == TwoOf(((ctrl >> 0) & 0xff) as bv8, w % 4) as bv32
  {
    if w % 4 == 0 {} else if w % 4 == 1 {} else if w % 4 == 2 {} else {}
  }

  /** Byte q of a word, the highest first. */
  function ByteOf(w: bv32, q: nat): bv8 {
    if q == 0 then ((w >> 24) & 0xff) as bv8 else if q == 1 then ((w >> 16) & 0xff) as bv8
    else if q == 2 then ((w >> 8) & 0xff) as bv8 else (w & 0xff) as bv8
  }

  lemma SwapBytes(w: bv32)
    ensures ((Swap4(w) >> 24) & 0xff) as bv8 == (w & 0xff) as bv8
    ensures ((Swap4(w) >> 16) & 0xff) as bv8 == ((w >> 8) & 0xff) as bv8
    ensures ((Swap4(w) >> 8) & 0xff) as bv8 == ((w >> 16) & 0xff) as bv8
    ensures (Swap4(w) & 0xff) as bv8 == ((w >> 24) & 0xff) as bv8
  {}

  lemma ByteOfSwap(w: bv32, q: nat)
    requires q < 4
    ensures ByteOf(Swap4(w), q) == ByteOf(w, 3 - q)
  {
    SwapBytes(w);
    hide Swap4;
  }

  lemma MemoryByte(w: bv32, i: nat)
    requires i < 4
    ensures CrcBytes(w)[i] == ByteOf(w, 3 - i)
  {}

  lemma BytesOfOrdered(stored: bv32, big: bool, q: nat)
    requires q < 4
    ensures ByteOf(Order(stored, big), q) == CrcBytes(stored)[if big then q else 3 - q]
  {
    ByteOfSwap(stored, q);
    MemoryByte(stored, q);
    MemoryByte(stored, 3 - q);
    hide Swap4, ByteOf, CrcBytes;
  }

  lemma NibbleIs(ctrl: bv32, w: nat)
    requires w < 16
    ensures Nibble(ctrl, w) == TwoOf(ByteOf(ctrl, w / 4), w % 4) as bv32
  {
    if w / 4 == 0 {
      NibbleOf0(ctrl, w);
    } else if w / 4 == 1 {
      NibbleOf1(ctrl, w);
    } else if w / 4 == 2 {
      NibbleOf2(ctrl, w);
    } else {
      NibbleOf3(ctrl, w);
    }
    hide Nibble, TwoOf;
  }

  lemma WidenCode(two: bv8, code: nat)
    requires SameTwo(two, code) && code < 4
    ensures SameCode(two as bv32, code)
  {}

  /** The decoder takes the code of each word from the bits that hold it. */
  lemma CodeIs(frame: seq<bv8>, stored: bv32, w: nat, big: bool)
    requires |frame| == 64 && w < 16 && frame[0..4] == CrcBytes(stored)
    ensures SameCode(Nibble(Order(stored, big), w), Code(frame, w, big))
  {
    var q := if big then w / 4 else 3 - w / 4;
    var b := frame[q];
    assert frame[0..4][q] == b;
    BytesOfOrdered(stored, big, w / 4);
    NibbleIs(Order(stored, big), w);
    TwoOfByte(b, w % 4);
    hide SameTwo, SameCode, Order, Nibble, TwoOf, Bits8, Pair, ByteOf, CrcBytes;
    WidenCode(TwoOf(b, w % 4), Code(frame, w, big));
  }

  // ---------------------------------------------------------------- frames and streams

  lemma {:induction false} BytesAt(ws: seq<bv32>, i: nat)
    requires i < |ws|
    ensures BytesOf(ws)[4 * i..4 * i + 4] == CrcBytes(ws[i])
  {
    hide CrcBytes;
    if i > 0 {
      BytesAt(ws[1..], i - 1);
      assert BytesOf(ws)[4 * i..4 * i + 4] == BytesOf(ws[1..])[4 * (i - 1)..4 * (i - 1) + 4];
    }
  }

  lemma {:induction false} BytesConcat(a: seq<bv32>, b: seq<bv32>)
    ensures BytesOf(a + b) == BytesOf(a) + BytesOf(b)
  {
    hide CrcBytes;
    if a == [] {
      assert a + b == b;
    } else {
      assert (a + b)[1..] == a[1..] + b;
      BytesConcat(a[1..], b);
    }
  }

  lemma BytesSlice(ws: seq<bv32>, i: nat, j: nat)
    requires i <= j <= |ws|
    ensures BytesOf(ws)[4 * i..4 * j] == BytesOf(ws[i..j])
  {
    hide *;
    var a, b, c := ws[..i], ws[i..j], ws[j..];
    ThreeParts(ws, i, j);
    BytesConcat(a, b + c);
    BytesConcat(b, c);
    MiddlePart(BytesOf(ws), BytesOf(a), BytesOf(b), BytesOf(c), 4 * i, 4 * j);
  }

  lemma ThreeParts<T>(s: seq<T>, i: nat, j: nat)
    requires i <= j <= |s|
    ensures s == s[..i] + (s[i..j] + s[j..])
  {}

  lemma MiddlePart<T>(s: seq<T>, a: seq<T>, b: seq<T>, c: seq<T>, i: nat, j: nat)
    requires s == a + (b + c) && |a| == i && |b| == j - i
    ensures s[i..j] == b
  {}

  lemma AppendThree(a: Option<seq<bv32>>, b: Option<seq<bv32>>, c: Option<seq<bv32>>)
    ensures Append(Append(a, b), c) == Append(a, Append(b, c))
  {
    if a.Some? && b.Some? && c.Some? {
      assert a.value + b.value + c.value == a.value + (b.value + c.value);
    }
  }

  lemma AppendNothing(a: Option<seq<bv32>>)
    ensures Append(a, Some([])) == a && Append(Some([]), a) == a
  {
    if a.Some? {
      assert a.value + [] == a.value && [] + a.value == a.value;
    }
  }

  lemma FrameDiffsAt(v: Version, ctrl: bv32, body: seq<bv32>, start: nat, w: nat, big: bool)
    requires |body| == 16 && start <= w <= 16
    ensures FrameDiffs(v, ctrl, body, start, w, big)
            == if w == start then Some([])
               else Append(FrameDiffs(v, ctrl, body, start, w - 1, big),
                           WordDiffs(v, Nibble(ctrl, w - 1), body[w - 1], big))
  {
    hide WordDiffs, Nibble, Append;
  }

  lemma FrameMeaningAt(v: Version, frame: seq<bv8>, w: nat, big: bool)
    requires |frame| == 64 && w <= 16
    ensures FrameMeaning(v, frame, w, big)
            == if w == 16 then Some([])
               else Append(WordMeaning(v, Code(frame, w, big), frame[4 * w..4 * w + 4], big),
                           FrameMeaning(v, frame, w + 1, big))
  {
    hide WordMeaning, Code, Append;
  }

  /** The words of a frame up to w as the decoder reads them, and the others as their bits mean. */
  lemma {:induction false} FrameSplits(v: Version, body: seq<bv32>, start: nat, w: nat, big: bool)
    requires |body| == 16 && start <= w <= 16
    ensures FrameDiffs(v, Order(body[0], big), body, start, 16, big)
            == Append(FrameDiffs(v, Order(body[0], big), body, start, w, big), FrameMeaning(v, BytesOf(body), w, big))
    decreases 16 - w
  {
    hide *;
    var ctrl, frame := Order(body[0], big), BytesOf(body);
    FrameMeaningAt(v, frame, w, big);
    if w == 16 {
      AppendNothing(FrameDiffs(v, ctrl, body, start, 16, big));
    } else {
      FrameSplits(v, body, start, w + 1, big);
      FrameDiffsAt(v, ctrl, body, start, w + 1, big);
      BytesAt(body, 0);
      BytesAt(body, w);
      CodeIs(frame, body[0], w, big);
      WordIs(v, Nibble(ctrl, w), Code(frame, w, big), body[w], big);
      AppendThree(FrameDiffs(v, ctrl, body, start, w, big), WordDiffs(v, Nibble(ctrl, w), body[w], big),
                  FrameMeaning(v, frame, w + 1, big));
    }
  }

  /** The decoder reads from a frame what its bits mean. */
  lemma FrameIs(v: Version, ws: seq<bv32>, f: nat, big: bool)
    requires 16 * f + 16 <= |ws|
    ensures DiffsOfFrame(v, ws, f, big)
            == FrameMeaning(v, BytesOf(ws)[64 * f..64 * f + 64], if f == 0 then 3 else 1, big)
  {
    hide *;
    var body, start := ws[16 * f..16 * f + 16], if f == 0 then 3 else 1;
    DiffsOfFrameIs(v, ws, f, big);
    FrameSplits(v, body, start, start, big);
    FrameDiffsAt(v, Order(body[0], big), body, start, start, big);
    AppendNothing(FrameMeaning(v, BytesOf(body), start, big));
    BytesSlice(ws, 16 * f, 16 * f + 16);
  }

  lemma {:induction false} SumsAreExtend(xs: seq<bv32>, ds: seq<bv32>, count: nat)
    requires xs != []
    ensures Sums(xs, ds, count) == Extend(xs, ds, count)
    decreases |ds|
  {
    if |xs| < count && ds != [] {
      SumsAreExtend(xs + [xs[|xs| - 1] + ds[0]], ds[1..], count);
    }
  }

  lemma FourBytes(s: seq<bv8>, i: nat)
    requires i + 4 <= |s|
    ensures s[i..i + 4] == [s[i], s[i + 1], s[i + 2], s[i + 3]]
  {}

  /** The bytes of a number in the order of the stream. */
  lemma NumberIs(w: bv32, big: bool)
    ensures var m := CrcBytes(w); Signed(Bits(if big then m else [m[3], m[2], m[1], m[0]])) == Order(w, big)
  {
    var m := CrcBytes(w);
    StoredOrders(w);
    BitsOfWord(if big then m else [m[3], m[2], m[1], m[0]]);
    WholeNumber(Order(w, big));
    hide Signed, Bits, TopBits, Big, CrcBytes, Swap4;
  }

  lemma SampleFrom(s: seq<bv8>, i: nat, m: seq<bv8>, big: bool)
    requires i + 4 <= |s| && s[i..i + 4] == m
    ensures SampleAt(s, i, big) == Signed(Bits(if big then m else [m[3], m[2], m[1], m[0]]))
  {
    FourBytes(s, i);
    hide Signed, Bits;
  }

  lemma SampleIs(ws: seq<bv32>, i: nat, big: bool)
    requires i < |ws|
    ensures SampleAt(BytesOf(ws), 4 * i, big) == Order(ws[i], big)
  {
    hide *;
    BytesAt(ws, i);
    SampleFrom(BytesOf(ws), 4 * i, CrcBytes(ws[i]), big);
    NumberIs(ws[i], big);
  }

  lemma WholeNumber(w: bv32)
    ensures Signed(TopBits(w, 32)) == w
  {
    hide *;
    AllRead();
    ReadsGives(32, w);
    WholeIs(w);
  }

  lemma ReadsGives(n: nat, w: bv32)
    requires Reads(n)
    ensures n > 0 && Signed(TopBits(w, n)) == Number(w, n)
  {
    hide Signed, TopBits, Number;
  }

  lemma WholeIs(w: bv32)
    ensures Number(w, 32) == w
  {}

  lemma MeaningAt(v: Version, s: seq<bv8>, n: nat, count: nat, big: bool)
    requires 0 < n && 64 * n <= |s|
    ensures var before, d := Meaning(v, s, n - 1, count, big),
            FrameMeaning(v, s[64 * (n - 1)..64 * n], if n == 1 then 3 else 1, big);
            && (before.Some? && |before.value| < count && n > 1 ==> before.value != [])
            && Meaning(v, s, n, count, big)
               == if before.None? || |before.value| >= count then before
                  else if d.None? then None
                  else if n == 1 then Some(Sums([SampleAt(s, 4, big)], if d.value == [] then []
                                                else d.value[1..], count))
                  else Some(Sums(before.value, d.value, count))
  {
    hide FrameMeaning, Sums, SampleAt;
  }

  lemma DecodedAt(v: Version, ws: seq<bv32>, n: nat, count: nat, big: bool)
    requires 0 < n && 16 * n <= |ws|
    ensures var before, d := Decoded(v, ws, n - 1, count, big), DiffsOfFrame(v, ws, n - 1, big);
            && (before.Some? ==> |before.value| <= count && (n > 1 && count > 0 ==> before.value != []))
            && Decoded(v, ws, n, count, big)
               == if before.None? || |before.value| == count then before
                  else if d.None? then None
                  else if n == 1 then Some(Extend([Order(ws[1], big)], if d.value == [] then []
                                                  else d.value[1..], count))
                  else Some(Extend(before.value, d.value, count))
  {
    hide DiffsOfFrame, Extend, Order;
  }

  /** The decoder reads from a stream the samples that its bits mean. */
  lemma {:induction false} DecodedIs(v: Version, ws: seq<bv32>, n: nat, count: nat, big: bool)
    requires 16 * n <= |ws|
    ensures Decoded(v, ws, n, count, big) == Meaning(v, BytesOf(ws), n, count, big)
    decreases n
  {
    hide *;
    if n == 0 {
      NothingMeant(v, ws, count, big);
    } else {
      DecodedIs(v, ws, n - 1, count, big);
      DecodedAt(v, ws, n, count, big);
      MeaningAt(v, BytesOf(ws), n, count, big);
      FrameIs(v, ws, n - 1, big);
      var before, d := Decoded(v, ws, n - 1, count, big), DiffsOfFrame(v, ws, n - 1, big);
      if before.Some? && |before.value| < count && d.Some? {
        if n == 1 {
          SampleIs(ws, 1, big);
          SumsAreExtend([Order(ws[1], big)], if d.value == [] then [] else d.value[1..], count);
        } else {
          SumsAreExtend(before.value, d.value, count);
        }
      }
    }
  }

  lemma NothingMeant(v: Version, ws: seq<bv32>, count: nat, big: bool)
    ensures Decoded(v, ws, 0, count, big) == Meaning(v, BytesOf(ws), 0, count, big) == Some([])
  {}

  /** The differences that the first n frames of a stream hold. */
  function StreamMeaning(v: Version, s: seq<bv8>, n: nat, big: bool): Option<seq<bv32>>
    requires 64 * n <= |s|
  {
    if n == 0 then Some([])
    else
      Append(StreamMeaning(v, s, n - 1, big), FrameMeaning(v, s[64 * (n - 1)..64 * n], if n == 1 then 3 else 1, big))
  }

  lemma {:induction false} StreamIs(v: Version, ws: seq<bv32>, n: nat, big: bool)
    requires 16 * n <= |ws|
    ensures StreamDiffs(v, ws, n, big) == StreamMeaning(v, BytesOf(ws), n, big)
    decreases n
  {
    hide *;
    StreamAt(v, ws, n, big);
    if n > 0 {
      StreamIs(v, ws, n - 1, big);
      FrameIs(v, ws, n - 1, big);
    }
  }

  lemma StreamAt(v: Version, ws: seq<bv32>, n: nat, big: bool)
    requires 16 * n <= |ws|
    ensures StreamDiffs(v, ws, n, big)
            == if n == 0 then Some([]) else Append(StreamDiffs(v, ws, n - 1, big), DiffsOfFrame(v, ws, n - 1, big))
    ensures var s := BytesOf(ws);
            StreamMeaning(v, s, n, big)
            == if n == 0 then Some([])
               else Append(StreamMeaning(v, s, n - 1, big),
                           FrameMeaning(v, s[64 * (n - 1)..64 * n], if n == 1 then 3 else 1, big))
  {
    hide DiffsOfFrame, FrameMeaning, Append, BytesOf;
  }

  /** What the encoder writes, in the bits of the stream: the differences of the samples packed,
    the first and the last of
      these samples; and any number of the samples can be read from it. */
  lemma CarriedIs(v: Version, ws: seq<bv32>, n: nat, big: bool, xs: seq<bv32>, diff0: bv32, k: nat, count: nat)
    requires 16 * n <= |ws| && Carries(v, ws, n, big, xs, diff0, k) && 0 < count <= k
    ensures n > 0 && 0 < k <= |xs| && StreamMeaning(v, BytesOf(ws), n, big) == Some(Differences(xs, diff0)[..k])
    ensures SampleAt(BytesOf(ws), 4, big) == xs[0] && SampleAt(BytesOf(ws), 8, big) == xs[k - 1]
    ensures Meaning(v, BytesOf(ws), n, count, big) == Some(xs[..count])
  {
    hide *;
    CarriesGives(v, ws, n, big, xs, diff0, k);
    StreamIs(v, ws, n, big);
    SampleIs(ws, 1, big);
    SampleIs(ws, 2, big);
    DecodedCarried(v, ws, n, big, xs, diff0, k, count);
    DecodedIs(v, ws, n, count, big);
  }

  lemma BytesBack(b: seq<bv8>)
    requires |b| == 4
    ensures CrcBytes(CrcFrom(b)) == b
  {}

  lemma {:induction false} BytesOfWords(s: seq<bv8>)
    requires |s| % 4 == 0
    ensures BytesOf(WordsOf(s)) == s
  {
    hide CrcBytes, CrcFrom;
    if s != [] {
      BytesBack(s[..4]);
      BytesOfWords(s[4..]);
      assert WordsOf(s)[1..] == WordsOf(s[4..]);
    }
  }

  /** The payload of a record holds its samples in the bits of the format. */
  lemma PayloadMeans(v: Version, payload: seq<bv8>, xs: seq<bv32>)
    requires Carrying(v, payload, xs)
    ensures |payload| % 64 == 0 && Meaning(v, payload, |payload| / 64, |xs|, true) == Some(xs)
  {
    hide *;
    CarryingGives(v, payload, xs);
    WordsFill(payload);
    BytesOfWords(payload);
    DecodedIs(v, WordsOf(payload), |payload| / 64, |xs|, true);
  }

  lemma CarryingGives(v: Version, payload: seq<bv8>, xs: seq<bv32>)
    requires Carrying(v, payload, xs)
    ensures |payload| % 64 == 0 && xs != []
    ensures Decoded(v, WordsOf(payload), |payload| / 64, |xs|, true) == Some(xs)
  {
    hide Decoded, WordsOf;
  }

  lemma WordsFill(s: seq<bv8>)
    requires |s| % 64 == 0
    ensures |s| % 4 == 0 && 16 * (|s| / 64) <= |WordsOf(s)|
  {}

  // ---------------------------------------------------------------- which differences a word can hold

  lemma NumberFits4(w: bv32) ensures BitWidth(Number(w, 4)) <= 4 {}
  lemma NumberFits5(w: bv32) ensures BitWidth(Number(w, 5)) <= 5 {}
  lemma NumberFits6(w: bv32) ensures BitWidth(Number(w, 6)) <= 6 {}
  lemma NumberFits8(w: bv32) ensures BitWidth(Number(w, 8)) <= 8 {}
  lemma NumberFits10(w: bv32) ensures BitWidth(Number(w, 10)) <= 10 {}
  lemma NumberFits15(w: bv32) ensures BitWidth(Number(w, 15)) <= 15 {}
  lemma NumberFits16(w: bv32) ensures BitWidth(Number(w, 16)) <= 16 {}
  lemma NumberFits30(w: bv32) ensures BitWidth(Number(w, 30)) <= 30 {}

  lemma NumberFits(w: bv32, n: nat)
    requires n == 4 || n == 5 || n == 6 || n == 8 || n == 10 || n == 15 || n == 16 || n == 30 || n == 32
    ensures BitWidth(Number(w, n)) <= n
  {
    NumberFits4(w);
    NumberFits5(w);
    NumberFits6(w);
    NumberFits8(w);
    NumberFits10(w);
    NumberFits15(w);
    NumberFits16(w);
    NumberFits30(w);
    WidthBound(Steim1, [Number(w, n)], 0);
    hide BitWidth, Number;
  }

  lemma {:induction false} NumbersFit(w: bv32, n: nat, c: nat)
    requires n == 4 || n == 5 || n == 6 || n == 8 || n == 10 || n == 15 || n == 16 || n == 30 || n == 32
    ensures |Numbers(w, n, c)| == c && forall i :: 0 <= i < c ==> BitWidth(Numbers(w, n, c)[i]) <= n
    decreases c
  {
    hide BitWidth, Number, Without;
    if c > 0 {
      NumberFits(w, n);
      NumbersFit(Without(w, n), n, c - 1);
    }
  }

  predicate IsShape(v: Version, c: nat, width: nat) {
    Allowed(v, c) && ShapeBits(v, c) == width
  }

  lemma MeaningOf(v: Version, code: nat, b: seq<bv8>, big: bool, w: bv32)
    requires |b| == 4 && code != 0 && w == Read(v, code, CrcFrom(b), big)
    ensures var bits := TopBits(w, 32); var l := LayoutOf(v, code, Pair(bits[0], bits[1]));
            WordMeaning(v, code, b, big)
            == if l.None? then None else Some(Fields(bits[l.value.first..], l.value.width))
  {
    BytesBack(b);
    ReadBits(v, code, CrcFrom(b), big);
    hide Fields, TopBits, Bits, InOrder, CrcBytes, CrcFrom, Pair, Read, LayoutOf;
  }

  /** The differences in a word are the numbers of some shape. */
  lemma LayoutNumbers(v: Version, code: nat, dnib: nat, w: bv32) returns (x: bv32, c: nat)
    requires LayoutOf(v, code, dnib).Some?
    ensures var l := LayoutOf(v, code, dnib).value;
            Fields(TopBits(w, 32)[l.first..], l.width) == Numbers(x, l.width, c) && IsShape(v, c, l.width)
  {
    WholeWord(w);
    PartWord(w);
    hide Fields, Numbers, TopBits;
    var l := LayoutOf(v, code, dnib).value;
    c := if l.width == 15 then 2 else (32 - l.first) / l.width;
    x := if l.first == 0 then w else if l.first == 2 then w << 2 else w << 4;
  }

  lemma ShapeWidths(v: Version, c: nat, n: nat)
    requires IsShape(v, c, n)
    ensures c > 0 && (n == 4 || n == 5 || n == 6 || n == 8 || n == 10 || n == 15 || n == 16 || n == 30 || n == 32)
  {}

  lemma MakeFits(v: Version, ds: seq<bv32>, n: nat)
    requires IsShape(v, |ds|, n) && forall i :: 0 <= i < |ds| ==> BitWidth(ds[i]) <= n
    ensures Fits(v, ds, |ds|)
  {
    hide BitWidth;
  }

  lemma MeaningFits(v: Version, code: nat, b: seq<bv8>, big: bool)
    requires |b| == 4 && 0 < code < 4
    ensures var m := WordMeaning(v, code, b, big); m.Some? ==> m.value != [] && Fits(v, m.value, |m.value|)
  {
    hide *;
    var m := WordMeaning(v, code, b, big);
    if m.Some? {
      var w := Read(v, code, CrcFrom(b), big);
      MeaningOf(v, code, b, big, w);
      var bits := TopBits(w, 32);
      var dnib := Pair(bits[0], bits[1]);
      var width := LayoutOf(v, code, dnib).value.width;
      var x, c := LayoutNumbers(v, code, dnib, w);
      ShapeWidths(v, c, width);
      NumbersFit(x, width, c);
      MakeFits(v, m.value, width);
    }
  }

  /** Some word of the format holds exactly these differences. */
  ghost predicate Holdable(v: Version, ds: seq<bv32>, big: bool) {
    exists code: nat, b: seq<bv8> :: code < 4 && |b| == 4 && WordMeaning(v, code, b, big) == Some(ds)
  }

  /** The packer's test for a shape is exactly whether some word of the format holds the differences. */
  lemma FitsExactly(v: Version, ds: seq<bv32>, big: bool)
    requires ds != []
    ensures Fits(v, ds, |ds|) <==> Holdable(v, ds, big)
  {
    hide WordMeaning, Fits, WordDiffs, Stored, CrcBytes;
    if Fits(v, ds, |ds|) {
      WordRoundTrip(v, ds, big);
      ShapeCode(v, |ds|, ds);
      var nib, code := ShapeNibble(v, |ds|), if ShapeNibble(v, |ds|) == 1 then 1
        else if ShapeNibble(v, |ds|) == 2 then 2 else 3;
      WordIs(v, nib, code, Stored(v, ds, big), big);
      assert |CrcBytes(Stored(v, ds, big))| == 4;
    }
    if Holdable(v, ds, big) {
      var code: nat, b :| code < 4 && |b| == 4 && WordMeaning(v, code, b, big) == Some(ds);
      if code == 0 {
        NothingHeld(v, b, big);
      } else {
        MeaningFits(v, code, b, big);
      }
    }
  }

  lemma ShapeCode(v: Version, c: nat, ds: seq<bv32>)
    requires Fits(v, ds, c)
    ensures Allowed(v, c) && 1 <= ShapeNibble(v, c) <= 3
  {
    hide BitWidth;
  }

  lemma NothingHeld(v: Version, b: seq<bv8>, big: bool)
    requires |b| == 4
    ensures WordMeaning(v, 0, b, big) == Some([])
  {}
}
