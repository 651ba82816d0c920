/** Bytes and the numbers they stand for. Bits are taken one at a time, so that no conversion between
    bit-vectors and integers is needed. */
module Bytes {

  function Double(b: bv8, odd: bool): bv8 {
    (b << 1) | (if odd then 1 else 0)
  }

  /** The number that the lowest k bits stand for. */
  function ValueOf(b: bv8, k: nat): (n: int)
    ensures 0 <= n < Pow2(k)
  {
    if k == 0 then 0 else (if b & 1 != 0 then 1 else 0) + 2 * ValueOf(b >> 1, k - 1)
  }

  function Pow2(k: nat): (p: int)
    ensures p > 0
  {
    if k == 0 then 1 else 2 * Pow2(k - 1)
  }

  /** The byte with the lowest k bits of a number. */
  function BitsOf(n: int, k: nat): bv8
    requires 0 <= n
  {
    if k == 0 then 0 else Double(BitsOf(n / 2, k - 1), n % 2 == 1)
  }

  lemma DoubleBits(b: bv8, odd: bool)
    requires b < 0x80
    ensures Double(b, odd) >> 1 == b && (Double(b, odd) & 1 != 0 <==> odd)
  {}

  lemma DoubleBound(b: bv8, odd: bool)
    ensures b == 0 ==> Double(b, odd) < 2
    ensures b < 2 ==> Double(b, odd) < 4
    ensures b < 4 ==> Double(b, odd) < 8
    ensures b < 8 ==> Double(b, odd) < 0x10
    ensures b < 0x10 ==> Double(b, odd) < 0x20
    ensures b < 0x20 ==> Double(b, odd) < 0x40
    ensures b < 0x40 ==> Double(b, odd) < 0x80
  {}

  function Bound(k: nat): bv8 {
    if k == 0 then 1 else if k == 1 then 2 else if k == 2 then 4 else if k == 3 then 8
    else if k == 4 then 0x10 else if k == 5 then 0x20 else if k == 6 then 0x40 else 0x80
  }

  lemma {:induction false} BitsBound(n: int, k: nat)
    requires 0 <= n && k < 8
    ensures BitsOf(n, k) < Bound(k)
  {
    hide Double;
    if k > 0 {
      BitsBound(n / 2, k - 1);
      DoubleBound(BitsOf(n / 2, k - 1), n % 2 == 1);
    }
  }

  lemma {:induction false} BitsBack(n: int, k: nat)
    requires 0 <= n < Pow2(k) && k <= 8
    ensures ValueOf(BitsOf(n, k), k) == n
  {
    hide Double;
    if k > 0 {
      BitsBack(n / 2, k - 1);
      BitsBound(n / 2, k - 1);
      assert Bound(k - 1) <= 0x80;
      DoubleBits(BitsOf(n / 2, k - 1), n % 2 == 1);
    }
  }

  lemma Powers()
    ensures Pow2(8) == 256
  {
    assert Pow2(8) == 2 * Pow2(7) == 4 * Pow2(6) == 8 * Pow2(5) == 16 * Pow2(4) == 32 * Pow2(3) == 64 * Pow2(2)
           == 128 * Pow2(1);
  }

  /** The number that a byte stands for. */
  function Value(b: bv8): (n: int)
    ensures 0 <= n < 256
  {
    Powers();
    ValueOf(b, 8)
  }

  /** The byte that stands for a number. */
  function Byte(n: int): (b: bv8)
    requires 0 <= n < 256
    ensures Value(b) == n
  {
    Powers();
    BitsBack(n, 8);
    BitsOf(n, 8)
  }

  // ---------------------------------------------------------------- little-endian numbers

  /** A number in k bytes, lowest first. */
  function Le(n: int, k: nat): (s: seq<bv8>)
    requires n >= 0
    ensures |s| == k
  {
    if k == 0 then [] else [Byte(n % 256)] + Le(n / 256, k - 1)
  }

  function FromLe(s: seq<bv8>): (n: int)
    ensures n >= 0
  {
    if s == [] then 0 else Value(s[0]) + 256 * FromLe(s[1..])
  }

  function Pow256(k: nat): (p: int)
    ensures p > 0
  {
    if k == 0 then 1 else 256 * Pow256(k - 1)
  }

  lemma {:induction false} LeReads(n: int, k: nat)
    requires 0 <= n < Pow256(k)
    ensures FromLe(Le(n, k)) == n
  {
    hide Byte, Value;
    if k > 0 {
      LeReads(n / 256, k - 1);
      assert Le(n, k)[1..] == Le(n / 256, k - 1);
    }
  }

  lemma Sizes()
    ensures Pow256(1) == 0x100 && Pow256(2) == 0x1_0000 && Pow256(4) == 0x1_0000_0000
  {
    assert Pow256(3) == 256 * Pow256(2) && Pow256(2) == 256 * Pow256(1);
  }
}
