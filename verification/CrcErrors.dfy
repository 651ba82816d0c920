/** Which changes of its data a CRC-32C always detects, and its check value. */
module CrcErrors {
  import opened Crc

  // ---------------------------------------------------------------- no two states meet

  lemma BitStepInjective(a: bv32, b: bv32)
    requires BitStep(a) == BitStep(b)
    ensures a == b
  {}

  lemma {:induction false} BitStepsInjective(n: nat, a: bv32, b: bv32)
    requires BitSteps(n, a) == BitSteps(n, b)
    ensures a == b
    decreases n
  {
    hide BitStep;
    if n > 0 {
      BitStepsInjective(n - 1, BitStep(a), BitStep(b));
      BitStepInjective(a, b);
    }
  }

  lemma ByteStepsInjective(k: nat, a: bv32, b: bv32)
    requires ByteSteps(k, a) == ByteSteps(k, b)
    ensures a == b
  {
    hide BitSteps;
    BitStepsInjective(8 * k, a, b);
  }

  lemma XorInjective(a: bv32, b: bv32, p: bv32)
    requires Xor(a, p) == Xor(b, p) || Xor(p, a) == Xor(p, b)
    ensures a == b
  {}

  /** The same data leads from different states to different states. */
  lemma {:induction false} FoldInjective(data: seq<bv8>, a: bv32, b: bv32)
    requires Fold(data, a) == Fold(data, b)
    ensures a == b
  {
    hide ByteSteps, Xor, Byte;
    if data != [] {
      var p := Byte(data[0]);
      FoldOne(data, a);
      FoldOne(data, b);
      FoldInjective(data[1..], ByteSteps(1, Xor(a, p)), ByteSteps(1, Xor(b, p)));
      ByteStepsInjective(1, Xor(a, p), Xor(b, p));
      XorInjective(a, b, p);
    }
  }

  lemma WordInjective(a: bv8, b: bv8, c: bv8, d: bv8, a': bv8, b': bv8, c': bv8, d': bv8)
    requires Word(a, b, c, d) == Word(a', b', c', d')
    ensures a == a' && b == b' && c == c' && d == d'
  {}

  /** Different runs of four bytes lead from one state to different states. */
  lemma FourDiffer(x: seq<bv8>, y: seq<bv8>, c: bv32)
    requires |x| == |y| == 4 && Fold(x, c) == Fold(y, c)
    ensures x == y
  {
    hide *;
    FoldFour(x, c);
    FoldFour(y, c);
    var w, v := Word(x[0], x[1], x[2], x[3]), Word(y[0], y[1], y[2], y[3]);
    ByteStepsInjective(4, Xor(c, w), Xor(c, v));
    XorInjective(w, v, c);
    WordInjective(x[0], x[1], x[2], x[3], y[0], y[1], y[2], y[3]);
  }

  /** And so do shorter ones. */
  lemma RunsDiffer(x: seq<bv8>, y: seq<bv8>, c: bv32)
    requires |x| == |y| <= 4 && Fold(x, c) == Fold(y, c)
    ensures x == y
  {
    var z: seq<bv8> := seq(4 - |x|, _ => 0);
    hide Fold;
    FoldConcat(x, z, c);
    FoldConcat(y, z, c);
    FourDiffer(x + z, y + z, c);
    assert (x + z)[..|x|] == x && (y + z)[..|y|] == y;
  }

  // ---------------------------------------------------------------- errors

  /** A change within four adjacent bytes changes the CRC, whatever comes before and after. */
  lemma BurstDetected(a: seq<bv8>, x: seq<bv8>, y: seq<bv8>, b: seq<bv8>, previous: bv32)
    requires |x| == |y| <= 4 && x != y
    ensures Checksum(a + x + b, previous) != Checksum(a + y + b, previous)
  {
    hide *;
    var c := Fold(a, Not(previous));
    ChecksumParts(a, x, b, previous);
    ChecksumParts(a, y, b, previous);
    if Fold(b, Fold(x, c)) == Fold(b, Fold(y, c)) {
      FoldInjective(b, Fold(x, c), Fold(y, c));
      RunsDiffer(x, y, c);
    }
    NotDiffersUnless(Fold(b, Fold(x, c)), Fold(b, Fold(y, c)));
  }

  lemma NotDiffersUnless(a: bv32, b: bv32)
    ensures Not(a) == Not(b) ==> a == b
  {
    if a != b {
      NotDiffers(a, b);
    }
    hide Not;
  }

  lemma ChecksumParts(a: seq<bv8>, x: seq<bv8>, b: seq<bv8>, previous: bv32)
    ensures Checksum(a + x + b, previous) == Not(Fold(b, Fold(x, Fold(a, Not(previous)))))
  {
    FoldConcat(a + x, b, Not(previous));
    FoldConcat(a, x, Not(previous));
    hide Fold, Not;
  }

  /** A zero byte in front of the data changes the CRC, of any data. */
  lemma LeadingZeroDetected(data: seq<bv8>)
    ensures Checksum([0] + data, 0) != Checksum(data, 0)
  {
    hide *;
    var zero: seq<bv8> := [0];
    var c := Not(0);
    ChecksumParts([], zero, data, 0);
    ChecksumParts([], [], data, 0);
    assert [] + zero + data == zero + data && [] + [] + data == data;
    NoData(c);
    ZeroMoves();
    if Fold(data, Fold(zero, c)) == Fold(data, c) {
      FoldInjective(data, Fold(zero, c), c);
    }
    NotDiffersUnless(Fold(data, Fold(zero, c)), Fold(data, c));
  }

  lemma NoData(c: bv32)
    ensures Fold([], c) == c
  {}

  lemma ZeroMoves()
    ensures Fold([0], Not(0)) != Not(0)
  {
    FoldOne([0], Not(0));
    Zero0();
    assert Xor(0xFFFF_FFFF, Byte(0)) == 0xFFFF_FFFF && Not(0) == 0xFFFF_FFFF;
    NoData(0xad82_acae);
    hide Fold, ByteSteps;
    assert ([0 as bv8])[1..] == [];
  }

  // ---------------------------------------------------------------- the check value

  lemma Zero0() ensures ByteSteps(1, 0xffffffff) == 0xad82acae {}
  lemma Zero1() ensures ByteSteps(1, 0xad82acae) == 0xe9e882d {}
  lemma Zero2() ensures ByteSteps(1, 0xe9e882d) == 0x9f9b5c85 {}
  lemma Zero3() ensures ByteSteps(1, 0x9f9b5c85) == 0xb798b438 {}
  lemma Zero4() ensures ByteSteps(1, 0xb798b438) == 0xba8d89ca {}
  lemma Zero5() ensures ByteSteps(1, 0xba8d89ca) == 0xa8d58375 {}
  lemma Zero6() ensures ByteSteps(1, 0xa8d58375) == 0x44c19592 {}
  lemma Zero7() ensures ByteSteps(1, 0x44c19592) == 0x73d74d75 {}
  lemma Zero8() ensures ByteSteps(1, 0x73d74d75) == 0x441a975c {}
  lemma Zero9() ensures ByteSteps(1, 0x441a975c) == 0x1c220f94 {}
  lemma Zero10() ensures ByteSteps(1, 0x1c220f94) == 0x552e4907 {}
  lemma Zero11() ensures ByteSteps(1, 0x552e4907) == 0xd49f4aa2 {}
  lemma Zero12() ensures ByteSteps(1, 0xd49f4aa2) == 0x43a45a1b {}
  lemma Zero13() ensures ByteSteps(1, 0x43a45a1b) == 0x8994c80e {}
  lemma Zero14() ensures ByteSteps(1, 0x8994c80e) == 0xacf12bef {}
  lemma Zero15() ensures ByteSteps(1, 0xacf12bef) == 0xbd8f6515 {}
  lemma Zero16() ensures ByteSteps(1, 0xbd8f6515) == 0x25125c16 {}
  lemma Zero17() ensures ByteSteps(1, 0x25125c16) == 0x36da32db {}
  lemma Zero18() ensures ByteSteps(1, 0x36da32db) == 0x4a6c90a2 {}
  lemma Zero19() ensures ByteSteps(1, 0x4a6c90a2) == 0x433aa9c1 {}
  lemma Zero20() ensures ByteSteps(1, 0x433aa9c1) == 0x31a59f6e {}
  lemma Zero21() ensures ByteSteps(1, 0x31a59f6e) == 0xcd8f89da {}
  lemma Zero22() ensures ByteSteps(1, 0xcd8f89da) == 0xb8fc461a {}
  lemma Zero23() ensures ByteSteps(1, 0xb8fc461a) == 0x7b041311 {}
  lemma Zero24() ensures ByteSteps(1, 0x7b041311) == 0xe24e407f {}
  lemma Zero25() ensures ByteSteps(1, 0xe24e407f) == 0x2f692669 {}
  lemma Zero26() ensures ByteSteps(1, 0x2f692669) == 0x195b2188 {}
  lemma Zero27() ensures ByteSteps(1, 0x195b2188) == 0x8363896 {}
  lemma Zero28() ensures ByteSteps(1, 0x8363896) == 0xb4012dc7 {}
  lemma Zero29() ensures ByteSteps(1, 0xb4012dc7) == 0x17f34302 {}
  lemma Zero30() ensures ByteSteps(1, 0x17f34302) == 0xe12c83b4 {}
  lemma Zero31() ensures ByteSteps(1, 0xe12c83b4) == 0x756ec955 {}

  function Zeros(n: nat): (s: seq<bv8>)
    ensures |s| == n
  {
    seq(n, _ => 0)
  }

  lemma ZeroStep(n: nat, c: bv32, d: bv32)
    requires n > 0 && ByteSteps(1, c) == d
    ensures Fold(Zeros(n), c) == Fold(Zeros(n - 1), d)
  {
    FoldOne(Zeros(n), c);
    assert Zeros(n)[1..] == Zeros(n - 1);
    assert Xor(c, Byte(0)) == c;
    hide Fold, ByteSteps;
  }

  lemma Eight0()
    ensures Fold(Zeros(32), 0xffffffff) == Fold(Zeros(24), 0x73d74d75)
  {
    hide *;
    Zero0();
    ZeroStep(32, 0xffffffff, 0xad82acae);
    Zero1();
    ZeroStep(31, 0xad82acae, 0xe9e882d);
    Zero2();
    ZeroStep(30, 0xe9e882d, 0x9f9b5c85);
    Zero3();
    ZeroStep(29, 0x9f9b5c85, 0xb798b438);
    Zero4();
    ZeroStep(28, 0xb798b438, 0xba8d89ca);
    Zero5();
    ZeroStep(27, 0xba8d89ca, 0xa8d58375);
    Zero6();
    ZeroStep(26, 0xa8d58375, 0x44c19592);
    Zero7();
    ZeroStep(25, 0x44c19592, 0x73d74d75);
  }

  lemma Eight1()
    ensures Fold(Zeros(24), 0x73d74d75) == Fold(Zeros(16), 0xbd8f6515)
  {
    hide *;
    Zero8();
    ZeroStep(24, 0x73d74d75, 0x441a975c);
    Zero9();
    ZeroStep(23, 0x441a975c, 0x1c220f94);
    Zero10();
    ZeroStep(22, 0x1c220f94, 0x552e4907);
    Zero11();
    ZeroStep(21, 0x552e4907, 0xd49f4aa2);
    Zero12();
    ZeroStep(20, 0xd49f4aa2, 0x43a45a1b);
    Zero13();
    ZeroStep(19, 0x43a45a1b, 0x8994c80e);
    Zero14();
    ZeroStep(18, 0x8994c80e, 0xacf12bef);
    Zero15();
    ZeroStep(17, 0xacf12bef, 0xbd8f6515);
  }

  lemma Eight2()
    ensures Fold(Zeros(16), 0xbd8f6515) == Fold(Zeros(8), 0x7b041311)
  {
    hide *;
    Zero16();
    ZeroStep(16, 0xbd8f6515, 0x25125c16);
    Zero17();
    ZeroStep(15, 0x25125c16, 0x36da32db);
    Zero18();
    ZeroStep(14, 0x36da32db, 0x4a6c90a2);
    Zero19();
    ZeroStep(13, 0x4a6c90a2, 0x433aa9c1);
    Zero20();
    ZeroStep(12, 0x433aa9c1, 0x31a59f6e);
    Zero21();
    ZeroStep(11, 0x31a59f6e, 0xcd8f89da);
    Zero22();
    ZeroStep(10, 0xcd8f89da, 0xb8fc461a);
    Zero23();
    ZeroStep(9, 0xb8fc461a, 0x7b041311);
  }

  lemma Eight3()
    ensures Fold(Zeros(8), 0x7b041311) == Fold(Zeros(0), 0x756ec955)
  {
    hide *;
    Zero24();
    ZeroStep(8, 0x7b041311, 0xe24e407f);
    Zero25();
    ZeroStep(7, 0xe24e407f, 0x2f692669);
    Zero26();
    ZeroStep(6, 0x2f692669, 0x195b2188);
    Zero27();
    ZeroStep(5, 0x195b2188, 0x8363896);
    Zero28();
    ZeroStep(4, 0x8363896, 0xb4012dc7);
    Zero29();
    ZeroStep(3, 0xb4012dc7, 0x17f34302);
    Zero30();
    ZeroStep(2, 0x17f34302, 0xe12c83b4);
    Zero31();
    ZeroStep(1, 0xe12c83b4, 0x756ec955);
  }

  /** The CRC of 32 zero bytes, section B.4 of RFC 3720. */
  lemma CheckValue()
    ensures Checksum(Zeros(32), 0) == 0x8A91_36AA
  {
    hide *;
    Eight0();
    Eight1();
    Eight2();
    Eight3();
    NoZeros(0x756ec955);
    CheckIs();
    ChecksumIs(Zeros(32), 0);
  }

  lemma NoZeros(c: bv32)
    ensures Fold(Zeros(0), c) == c
  {}

  lemma CheckIs()
    ensures Not(0) == 0xffffffff && Not(0x756ec955) == 0x8A91_36AA
  {}

  lemma ChecksumIs(data: seq<bv8>, previous: bv32)
    ensures Checksum(data, previous) == Not(Fold(data, Not(previous)))
  {
    hide Fold, Not;
  }
}
