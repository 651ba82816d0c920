/** CRC-32C: the slice-by-8 computation over tables refines the bit-by-bit definition. */
module Crc {

  const POLYNOMIAL: bv32 := 0x82F63B78

  function Xor(a: bv32, b: bv32): bv32 { a ^ b }

  /** The lowest byte, and the others shifted down. */
  function Low(c: bv32): bv32 { c & 0xff }
  function Rest(c: bv32): bv32 { c >> 8 }

  // ---------------------------------------------------------------- the definition

  /** Shift out one bit, section 12.1 of RFC 3720 in reflected form. */
  function BitStep(c: bv32): bv32 {
    if c & 1 == 1 then (c >> 1) ^ POLYNOMIAL else c >> 1
  }

  function BitSteps(n: nat, c: bv32): bv32 {
    if n == 0 then c else BitSteps(n - 1, BitStep(c))
  }

  /** Shift out k bytes. */
  function ByteSteps(k: nat, c: bv32): bv32 {
    BitSteps(8 * k, c)
  }

  /** Take in the bytes one after the other. */
  function Fold(data: seq<bv8>, c: bv32): bv32 {
    if data == [] then c else Fold(data[1..], ByteSteps(1, Xor(c, data[0] as bv32)))
  }

  /** The CRC of data that continues data whose CRC is previous. */
  function Checksum(data: seq<bv8>, previous: bv32): bv32 {
    Not(Fold(data, Not(previous)))
  }

  function Not(c: bv32): bv32 { !c }

  /** The lookup tables, each from the one before. */
  function Table(k: nat, i: bv32): bv32 {
    if k == 0 then ByteSteps(1, i) else Xor(Rest(Table(k - 1, i)), Table(0, Low(Table(k - 1, i))))
  }

  // ---------------------------------------------------------------- linearity

  function Half(c: bv32): bv32 { c >> 1 }

  ghost predicate Even(c: bv32) { c & 1 == 0 }

  lemma HalfXor(a: bv32, b: bv32)
    ensures Half(Xor(a, b)) == Xor(Half(a), Half(b)) && (Even(Xor(a, b)) <==> Even(a) == Even(b))
  {}

  lemma StepByParity(c: bv32)
    ensures BitStep(c) == if Even(c) then Half(c) else Xor(Half(c), POLYNOMIAL)
  {}

  lemma CancelBits(x: bv32, y: bv32, p: bv32, xp: bv32, yp: bv32)
    requires xp == x ^ p && yp == y ^ p
    ensures xp ^ yp == x ^ y
  {}

  lemma CancelBoth(x: bv32, y: bv32, p: bv32)
    ensures Xor(Xor(x, p), Xor(y, p)) == Xor(x, y)
  {
    CancelBits(x, y, p, Xor(x, p), Xor(y, p));
  }

  lemma MoveRightBits(x: bv32, y: bv32, p: bv32)
    ensures x ^ (y ^ p) == (x ^ y) ^ p
  {}

  lemma MoveRight(x: bv32, y: bv32, p: bv32)
    ensures Xor(x, Xor(y, p)) == Xor(Xor(x, y), p)
  {
    MoveRightBits(x, y, p);
  }

  lemma MoveLeft(x: bv32, y: bv32, p: bv32)
    ensures Xor(Xor(x, p), y) == Xor(Xor(x, y), p)
  {
    hide *;
    XorSwaps(Xor(x, p), y);
    MoveRight(y, x, p);
    XorSwaps(y, x);
  }

  lemma BitStepLinear(a: bv32, b: bv32)
    ensures BitStep(Xor(a, b)) == Xor(BitStep(a), BitStep(b))
  {
    hide *;
    HalfXor(a, b);
    StepByParity(a);
    StepByParity(b);
    StepByParity(Xor(a, b));
    CancelBoth(Half(a), Half(b), POLYNOMIAL);
    MoveLeft(Half(a), Half(b), POLYNOMIAL);
    MoveRight(Half(a), Half(b), POLYNOMIAL);
  }

  lemma {:induction false} BitStepsLinear(n: nat, a: bv32, b: bv32)
    ensures BitSteps(n, Xor(a, b)) == Xor(BitSteps(n, a), BitSteps(n, b))
  {
    hide BitStep, Xor;
    if n > 0 {
      BitStepLinear(a, b);
      BitStepsLinear(n - 1, BitStep(a), BitStep(b));
    }
  }

  lemma {:induction false} BitStepsCompose(m: nat, n: nat, c: bv32)
    ensures BitSteps(m + n, c) == BitSteps(n, BitSteps(m, c))
  {
    hide BitStep;
    if m > 0 {
      BitStepsCompose(m - 1, n, BitStep(c));
    }
  }

  lemma Linear(k: nat, a: bv32, b: bv32)
    ensures ByteSteps(k, Xor(a, b)) == Xor(ByteSteps(k, a), ByteSteps(k, b))
  {
    hide BitSteps, Xor;
    BitStepsLinear(8 * k, a, b);
  }

  lemma Compose(j: nat, k: nat, c: bv32)
    ensures ByteSteps(j + k, c) == ByteSteps(k, ByteSteps(j, c))
  {
    hide BitSteps;
    BitStepsCompose(8 * j, 8 * k, c);
    assert 8 * j + 8 * k == 8 * (j + k);
  }

  // ---------------------------------------------------------------- shifting out zero bits

  lemma HalfStep(c: bv32)
    requires Even(c)
    ensures BitStep(c) == Half(c)
  {}

  lemma LowBits(c: bv32)
    requires Low(c) == 0
    ensures Even(c) && Even(Half(c)) && Even(Half(Half(c))) && Even(Half(Half(Half(c))))
    ensures var d := Half(Half(Half(Half(c))));
            Even(d) && Even(Half(d)) && Even(Half(Half(d))) && Even(Half(Half(Half(d))))
              && Half(Half(Half(Half(d)))) == Rest(c)
  {}

  lemma FourHalves(c: bv32)
    requires Even(c) && Even(Half(c)) && Even(Half(Half(c))) && Even(Half(Half(Half(c))))
    ensures BitSteps(4, c) == Half(Half(Half(Half(c))))
  {
    hide BitStep, Half, Even;
    HalfStep(c);
    HalfStep(Half(c));
    HalfStep(Half(Half(c)));
    HalfStep(Half(Half(Half(c))));
    assert BitSteps(4, c) == BitSteps(3, Half(c)) == BitSteps(2, Half(Half(c)));
    assert BitSteps(1, Half(Half(Half(c)))) == BitSteps(0, Half(Half(Half(Half(c)))));
  }

  lemma ZeroByte(c: bv32)
    requires Low(c) == 0
    ensures ByteSteps(1, c) == Rest(c)
  {
    hide BitSteps, Half, Even, Low, Rest;
    LowBits(c);
    BitStepsCompose(4, 4, c);
    FourHalves(c);
    FourHalves(Half(Half(Half(Half(c)))));
  }

  function High(c: bv32): bv32 { c & 0xffffff00 }

  lemma SplitLow(c: bv32)
    ensures c == Xor(High(c), Low(c)) && Low(High(c)) == 0 && Rest(High(c)) == Rest(c)
  {}

  /** One byte: the upper bits shift down, the low byte is looked up. */
  lemma ByteStep(c: bv32)
    ensures ByteSteps(1, c) == Xor(Rest(c), Table(0, Low(c)))
  {
    hide ByteSteps, High, Low, Rest, Xor;
    SplitLow(c);
    Linear(1, High(c), Low(c));
    ZeroByte(High(c));
  }

  /** The k-th table shifts a byte through k + 1 bytes. */
  lemma {:induction false} TableIs(k: nat, i: bv32)
    ensures Table(k, i) == ByteSteps(k + 1, i)
  {
    hide ByteSteps, Low, Rest, Xor;
    if k > 0 {
      TableIs(k - 1, i);
      Compose(k, 1, i);
      ByteStep(Table(k - 1, i));
    }
  }

  // ---------------------------------------------------------------- bytes and words

  function Byte(b: bv8): bv32 { b as bv32 }

  lemma LowOfXor(c: bv32, b: bv8)
    ensures Low(Xor(c, Byte(b))) == Xor(Low(c), Byte(b)) && Rest(Xor(c, Byte(b))) == Rest(c)
  {}

  /** The table step on one byte takes it in. */
  lemma ByteIn(c: bv32, b: bv8)
    ensures Xor(Rest(c), Table(0, Xor(Low(c), Byte(b)))) == ByteSteps(1, Xor(c, Byte(b)))
  {
    hide *;
    LowOfXor(c, b);
    ByteStep(Xor(c, Byte(b)));
  }

  /** Four bytes read as a little-endian word. */
  function Word(b0: bv8, b1: bv8, b2: bv8, b3: bv8): bv32 {
    (b0 as bv32) | ((b1 as bv32) << 8) | ((b2 as bv32) << 16) | ((b3 as bv32) << 24)
  }

  /** A word less its first byte, and back in the place it had. */
  lemma WordParts(c: bv32, b0: bv8, b1: bv8, b2: bv8, b3: bv8)
    ensures var w := Word(b1, b2, b3, 0);
            Xor(c, Word(b0, b1, b2, b3)) == Xor(Xor(c, Byte(b0)), w << 8) && Low(w << 8) == 0 && Rest(w << 8) == w
  {}

  lemma NoWord(c: bv32)
    ensures Xor(c, Word(0, 0, 0, 0)) == c
  {}

  /** Shifting a byte out of a word leaves the others to be taken in. */
  lemma WordStep(c: bv32, b0: bv8, b1: bv8, b2: bv8, b3: bv8)
    ensures ByteSteps(1, Xor(c, Word(b0, b1, b2, b3))) == Xor(ByteSteps(1, Xor(c, Byte(b0))), Word(b1, b2, b3, 0))
  {
    hide ByteSteps, Low, Rest, Xor, Byte, Word;
    WordParts(c, b0, b1, b2, b3);
    Linear(1, Xor(c, Byte(b0)), Word(b1, b2, b3, 0) << 8);
    ZeroByte(Word(b1, b2, b3, 0) << 8);
  }

  /** Taking in a word at once is taking in its bytes. */
  lemma WordIn(c: bv32, b0: bv8, b1: bv8, b2: bv8, b3: bv8)
    ensures ByteSteps(4, Xor(c, Word(b0, b1, b2, b3)))
            == ByteSteps(1, Xor(ByteSteps(1,
                                          Xor(ByteSteps(1, Xor(ByteSteps(1, Xor(c, Byte(b0))), Byte(b1))), Byte(b2))),
                                            Byte(b3)))
  {
    hide ByteSteps, Xor, Byte, Word;
    var x := Xor(c, Word(b0, b1, b2, b3));
    Compose(1, 3, x);
    WordStep(c, b0, b1, b2, b3);
    var c1 := ByteSteps(1, Xor(c, Byte(b0)));
    Compose(1, 2, Xor(c1, Word(b1, b2, b3, 0)));
    WordStep(c1, b1, b2, b3, 0);
    var c2 := ByteSteps(1, Xor(c1, Byte(b1)));
    Compose(1, 1, Xor(c2, Word(b2, b3, 0, 0)));
    WordStep(c2, b2, b3, 0, 0);
    var c3 := ByteSteps(1, Xor(c2, Byte(b2)));
    WordStep(c3, b3, 0, 0, 0);
    NoWord(ByteSteps(1, Xor(c3, Byte(b3))));
  }

  lemma FoldOne(data: seq<bv8>, c: bv32)
    requires data != []
    ensures Fold(data, c) == Fold(data[1..], ByteSteps(1, Xor(c, Byte(data[0]))))
  {
    hide ByteSteps, Xor;
  }

  lemma FoldFour(data: seq<bv8>, c: bv32)
    requires |data| == 4
    ensures Fold(data, c) == ByteSteps(4, Xor(c, Word(data[0], data[1], data[2], data[3])))
  {
    hide ByteSteps, Xor, Word, Byte;
    WordIn(c, data[0], data[1], data[2], data[3]);
    var c1 := ByteSteps(1, Xor(c, Byte(data[0])));
    var c2 := ByteSteps(1, Xor(c1, Byte(data[1])));
    var c3 := ByteSteps(1, Xor(c2, Byte(data[2])));
    FoldOne(data, c);
    FoldOne(data[1..], c1);
    FoldOne(data[2..], c2);
    FoldOne(data[3..], c3);
    assert data[1..][1..] == data[2..] && data[2..][1..] == data[3..] && data[3..][1..] == [];
  }

  lemma {:induction false} FoldConcat(a: seq<bv8>, b: seq<bv8>, c: bv32)
    ensures Fold(a + b, c) == Fold(b, Fold(a, c))
  {
    hide ByteSteps, Xor;
    if a == [] {
      assert a + b == b;
    } else {
      assert (a + b)[1..] == a[1..] + b;
      FoldConcat(a[1..], b, ByteSteps(1, Xor(c, a[0] as bv32)));
    }
  }

  // ---------------------------------------------------------------- slices

  /** Shifting out k + 1 bytes: the lowest by its table, the others by k. */
  lemma Slice(k: nat, c: bv32)
    ensures ByteSteps(k + 1, c) == Xor(Table(k, Low(c)), ByteSteps(k, Rest(c)))
  {
    hide ByteSteps, Low, Rest, Xor;
    Compose(1, k, c);
    ByteStep(c);
    Linear(k, Rest(c), Table(0, Low(c)));
    Compose(1, k, Low(c));
    TableIs(k, Low(c));
    assert Table(0, Low(c)) == ByteSteps(1, Low(c));
    XorSwaps(ByteSteps(k, Rest(c)), Table(k, Low(c)));
  }

  lemma XorSwaps(a: bv32, b: bv32)
    ensures Xor(a, b) == Xor(b, a)
  {}

  /** The bytes of a word, lowest first. */
  function Byte0(c: bv32): bv32 { c & 0xff }
  function Byte1(c: bv32): bv32 { (c >> 8) & 0xff }
  function Byte2(c: bv32): bv32 { (c >> 16) & 0xff }
  function Byte3(c: bv32): bv32 { (c >> 24) & 0xff }

  function Xor4(a: bv32, b: bv32, c: bv32, d: bv32): bv32 { Xor(a, Xor(b, Xor(c, d))) }

  lemma FourRests(c: bv32)
    ensures Low(c) == Byte0(c) && Low(Rest(c)) == Byte1(c) && Low(Rest(Rest(c))) == Byte2(c)
            && Low(Rest(Rest(Rest(c)))) == Byte3(c)
    ensures Rest(Rest(Rest(Rest(c)))) == 0
  {}

  lemma NoSteps(k: nat)
    ensures ByteSteps(k, 0) == 0
  {
    assert Xor(0, 0) == 0;
    Linear(k, 0, 0);
    hide ByteSteps;
  }

  lemma Xor4Is(a: bv32, b: bv32, c: bv32, d: bv32)
    ensures Xor4(a, b, c, d) == Xor(a, Xor(b, Xor(c, d)))
  {
    hide Xor;
  }

  lemma XorNothing(d: bv32)
    ensures Xor(d, 0) == d
  {}

  /** Four table look-ups shift a word out through k + 4 bytes. */
  lemma FourSlices(k: nat, c: bv32)
    ensures ByteSteps(k + 4, c)
            == Xor4(Table(k + 3, Byte0(c)), Table(k + 2, Byte1(c)), Table(k + 1, Byte2(c)), Table(k, Byte3(c)))
  {
    hide *;
    FourRests(c);
    Slice(k + 3, c);
    Slice(k + 2, Rest(c));
    Slice(k + 1, Rest(Rest(c)));
    Slice(k, Rest(Rest(Rest(c))));
    NoSteps(k);
    XorNothing(Table(k, Byte3(c)));
    Xor4Is(Table(k + 3, Byte0(c)), Table(k + 2, Byte1(c)), Table(k + 1, Byte2(c)), Table(k, Byte3(c)));
  }

  // ---------------------------------------------------------------- the computation

  /** s_crc_generic_sb1 on the bytes from start on */
  method Sb1(input: seq<bv8>, start: nat, length: int, previous: bv32) returns (crc: bv32)
    requires length > 0 ==> start + length <= |input|
    ensures crc == if length > 0 then Fold(input[start..start + length], previous) else previous
  {
    hide *;
    crc := previous;
    var i := start;
    NoBytes(input, start, previous);
    while i - start < length
      invariant start <= i && (i == start || i <= start + length)
      invariant i == start ==> crc == previous
      invariant i <= |input| ==> crc == Fold(input[start..i], previous)
    {
      OneMore(input, start, i, previous);
      ByteIn(crc, input[i]);
      crc := Xor(Rest(crc), Table(0, Xor(Low(crc), Byte(input[i]))));
      i := i + 1;
    }
  }

  lemma NoBytes(input: seq<bv8>, start: nat, c: bv32)
    ensures start <= |input| ==> Fold(input[start..start], c) == c
  {}

  lemma OneMore(input: seq<bv8>, start: nat, i: nat, c: bv32)
    requires start <= i < |input|
    ensures Fold(input[start..i + 1], c) == ByteSteps(1, Xor(Fold(input[start..i], c), Byte(input[i])))
  {
    var one := [input[i]];
    FoldConcat(input[start..i], one, c);
    FoldOne(one, Fold(input[start..i], c));
    assert input[start..i + 1] == input[start..i] + one;
  }

  lemma FourMore(input: seq<bv8>, start: nat, i: nat, c: bv32)
    requires start <= i && i + 4 <= |input|
    ensures Fold(input[start..i + 4], c) == ByteSteps(4, Xor(Fold(input[start..i], c), WordAt(input, i)))
  {
    var four := input[i..i + 4];
    FoldConcat(input[start..i], four, c);
    FoldFour(four, Fold(input[start..i], c));
    assert input[start..i + 4] == input[start..i] + four;
    hide ByteSteps, Word, Xor, Fold;
  }

  /** *current, with the pointer i bytes into the input on a little-endian host */
  function WordAt(input: seq<bv8>, i: nat): bv32
    requires i + 4 <= |input|
  {
    Word(input[i], input[i + 1], input[i + 2], input[i + 3])
  }

  /** s_crc_generic_sb4 */
  method Sb4(input: seq<bv8>, start: nat, length: int, previous: bv32) returns (crc: bv32)
    requires length > 0 ==> start + length <= |input|
    ensures crc == if length > 0 then Fold(input[start..start + length], previous) else previous
  {
    hide *;
    crc := previous;
    var i, remaining := start, length;
    NoBytes(input, start, previous);
    while remaining >= 4
      invariant i - start == length - remaining && start <= i && (i == start || remaining >= 0)
      invariant i == start ==> crc == previous
      invariant i <= |input| ==> crc == Fold(input[start..i], previous)
    {
      FourMore(input, start, i, previous);
      crc := Xor(crc, WordAt(input, i));
      FourSlices(0, crc);
      crc := Xor4(Table(3, Byte0(crc)), Table(2, Byte1(crc)), Table(1, Byte2(crc)), Table(0, Byte3(crc)));
      i := i + 4;
      remaining := remaining - 4;
    }
    if length > 0 {
      FoldParts(input, start, i, start + length, previous);
    }
    crc := Sb1(input, i, remaining, crc);
  }

  lemma FoldParts(input: seq<bv8>, i: nat, j: nat, k: nat, c: bv32)
    requires i <= j <= k <= |input|
    ensures Fold(input[i..k], c) == Fold(input[j..k], Fold(input[i..j], c))
    ensures j == k ==> Fold(input[j..k], Fold(input[i..j], c)) == Fold(input[i..j], c)
  {
    FoldConcat(input[i..j], input[j..k], c);
    assert input[i..k] == input[i..j] + input[j..k];
  }

  lemma EightMore(input: seq<bv8>, start: nat, i: nat, c: bv32)
    requires start <= i && i + 8 <= |input|
    ensures Fold(input[start..i + 8], c)
            == Xor(ByteSteps(8, Xor(WordAt(input, i), Fold(input[start..i], c))), ByteSteps(4, WordAt(input, i + 4)))
  {
    hide *;
    var f, w, v := Fold(input[start..i], c), WordAt(input, i), WordAt(input, i + 4);
    FourMore(input, start, i, c);
    FourMore(input, start, i + 4, c);
    Linear(4, ByteSteps(4, Xor(f, w)), v);
    Compose(4, 4, Xor(f, w));
    XorSwaps(f, w);
  }

  /** s_crc_generic_sb8 */
  method Sb8(input: seq<bv8>, start: nat, length: int, previous: bv32) returns (crc: bv32)
    requires length > 0 ==> start + length <= |input|
    ensures crc == if length > 0 then Fold(input[start..start + length], previous) else previous
  {
    hide *;
    crc := previous;
    var i, remaining := start, length;
    NoBytes(input, start, previous);
    while remaining >= 8
      invariant i - start == length - remaining && start <= i && (i == start || remaining >= 0)
      invariant i == start ==> crc == previous
      invariant i <= |input| ==> crc == Fold(input[start..i], previous)
    {
      EightMore(input, start, i, previous);
      var c1, c2 := Xor(WordAt(input, i), crc), WordAt(input, i + 4);
      FourSlices(4, c1);
      FourSlices(0, c2);
      var t1 := Xor4(Table(7, Byte0(c1)), Table(6, Byte1(c1)), Table(5, Byte2(c1)), Table(4, Byte3(c1)));
      var t2 := Xor4(Table(3, Byte0(c2)), Table(2, Byte1(c2)), Table(1, Byte2(c2)), Table(0, Byte3(c2)));
      crc := Xor(t1, t2);
      i := i + 8;
      remaining := remaining - 8;
    }
    if length > 0 {
      FoldParts(input, start, i, start + length, previous);
    }
    crc := Sb4(input, i, remaining, crc);
  }

  /** The bytes before the first aligned word of a buffer at an address of this alignment. */
  function Leading(alignment: nat): nat
    requires alignment < 4
  {
    (4 - alignment) % 4
  }

  /** The largest value of a C int. */
  const INT_MAX := 0x7fff_ffff

  /** How far the computation reads: the buffer, or the leading bytes when the buffer is shorter than they are. */
  function Reach(length: nat, leading: nat): nat {
    if length < leading then leading else length
  }

  /** s_crc_generic_align: remaining is a size_t, so it is positive unless length equals the leading bytes. */
  method Align(input: seq<bv8>, length: int, previous: bv32, alignment: nat) returns (crc: bv32, start: nat, left: int)
    requires alignment < 4 && 0 < length <= INT_MAX && Reach(length, Leading(alignment)) <= |input|
    ensures start <= |input| && crc == Fold(input[..start], previous) && left == length - start
    ensures start == if length == Leading(alignment) then 0 else Leading(alignment)
  {
    hide Fold;
    var leading := Leading(alignment);
    var remaining := (length - leading) % 0x1_0000_0000_0000_0000;
    NoBytes(input, 0, previous);
    assert input[0..0] == input[..0];
    crc, start, left := previous, 0, length;
    if leading != 0 && remaining > 0 {
      crc := Sb1(input, 0, leading, crc);
      assert input[0..leading] == input[..leading];
      start := leading;
      left := length - leading;
    }
  }

  /** ms_crc32c of length bytes at an address of this alignment, on a host of either endianness */
  method Crc32c(memory: seq<bv8>, length: int, previous: bv32, alignment: nat, bigendian: bool) returns (crc: bv32)
    requires alignment < 4 && length <= INT_MAX
    requires length > 0 ==> Reach(length, if bigendian then 0 else Leading(alignment)) <= |memory|
    ensures crc == if length <= 0 then 0
                   else Checksum(memory[..Reach(length, if bigendian then 0 else Leading(alignment))], previous)
  {
    hide Fold;
    if length <= 0 {
      return 0;
    }
    assert memory[0..length] == memory[..length];
    if bigendian {
      crc := Sb1(memory, 0, length, Not(previous));
    } else {
      var start, left;
      crc, start, left := Align(memory, length, Not(previous), alignment);
      if left >= 0 {
        FoldParts(memory, 0, start, length, Not(previous));
        assert memory[0..start] == memory[..start];
      }
      crc := Sb8(memory, start, left, crc);
    }
    crc := Not(crc);
  }

  // ---------------------------------------------------------------- what the CRC is for

  lemma NotNot(c: bv32)
    ensures Not(Not(c)) == c
  {}

  /** The CRC of data in parts: each part continues the CRC of those before it. */
  lemma Chained(a: seq<bv8>, b: seq<bv8>, previous: bv32)
    ensures Checksum(a + b, previous) == Checksum(b, Checksum(a, previous))
  {
    FoldConcat(a, b, Not(previous));
    NotNot(Fold(a, Not(previous)));
    hide Fold, Not;
  }

  /** One set bit and no other is not lost in a byte step. */
  lemma LowestBit()
    ensures ByteSteps(1, 1) == 0xF26B8303
  {
    assert BitSteps(8, 1) == BitSteps(7, 0x82F63B78) == BitSteps(6, 0x417B1DBC) == BitSteps(5, 0x20BD8EDE)
        == BitSteps(4, 0x105EC76F) == BitSteps(3, 0x8AD958CF) == BitSteps(2, 0xC79A971F) == BitSteps(1, 0xE13B70F7);
    assert BitSteps(1, 0xE13B70F7) == BitSteps(0, 0xF26B8303);
  }

  lemma XorDiffers(x: bv32, y: bv32)
    requires y != 0
    ensures Xor(x, y) != x
  {}

  lemma LastByteMatters(data: seq<bv8>, c: bv32)
    ensures Fold(data + [1], c) != Fold(data + [0], c)
  {
    assert Byte(0) == 0 && Byte(1) == 1;
    assert [0 as bv8][1..] == [] && [1 as bv8][1..] == [];
    hide ByteSteps, Xor, Byte;
    var f := Fold(data, c);
    FoldConcat(data, [0], c);
    FoldConcat(data, [1], c);
    FoldOne([0], f);
    FoldOne([1], f);
    XorNothing(f);
    Linear(1, f, 1);
    LowestBit();
    XorDiffers(ByteSteps(1, f), ByteSteps(1, 1));
  }

  /** Whatever follows the buffer in memory, the fast computation gives the CRC of the buffer. */
  ghost predicate Reliable(data: seq<bv8>, leading: nat, previous: bv32) {
    forall rest: seq<bv8> :: Reach(|data|, leading) <= |data + rest|
      ==> Checksum((data + rest)[..Reach(|data|, leading)], previous) == Checksum(data, previous)
  }

  lemma ReliableAt(data: seq<bv8>, leading: nat, previous: bv32, rest: seq<bv8>)
    requires Reliable(data, leading, previous) && Reach(|data|, leading) <= |data + rest|
    ensures Checksum((data + rest)[..Reach(|data|, leading)], previous) == Checksum(data, previous)
  {}

  /** That is so exactly when the buffer is no shorter than the bytes that precede its first aligned word. */
  lemma ReliableExactly(data: seq<bv8>, leading: nat, previous: bv32)
    requires data != []
    ensures Reliable(data, leading, previous) <==> |data| >= leading
  {
    hide Fold, Not;
    if |data| >= leading {
      forall rest: seq<bv8> | Reach(|data|, leading) <= |data + rest|
        ensures Checksum((data + rest)[..Reach(|data|, leading)], previous) == Checksum(data, previous)
      {
        assert (data + rest)[..|data|] == data;
      }
    } else {
      var pad := seq(leading - |data| - 1, _ => 0 as bv8);
      var x := data + pad;
      assert (data + (pad + [0]))[..leading] == x + [0] && (data + (pad + [1]))[..leading] == x + [1];
      LastByteMatters(x, Not(previous));
      NotDiffers(Fold(x + [0], Not(previous)), Fold(x + [1], Not(previous)));
      if Reliable(data, leading, previous) {
        ReliableAt(data, leading, previous, pad + [0]);
        ReliableAt(data, leading, previous, pad + [1]);
        assert false;
      }
    }
  }

  lemma NotDiffers(a: bv32, b: bv32)
    requires a != b
    ensures Not(a) != Not(b)
  {
    NotNot(a);
    NotNot(b);
    hide Not;
  }
}
