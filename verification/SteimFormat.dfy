/** The Steim-1 and Steim-2 frame formats (SEED Reference Manual v2.4, Appendix B, "The Steim
    Compression Algorithm") as a meaning of 32-bit words: which differences a word, a frame and a
    stream of frames hold, and which samples those differences integrate to.

    A C int32_t is a bv32 in two's complement, so sums and differences wrap as the machine's do.
    Words are the values a little-endian host reads from memory; with swap set, the stream itself is
    big-endian. */
module SteimFormat {
  import opened Options

  datatype Version = Steim1 | Steim2

  // ---------------------------------------------------------------- words

  /** ms_gswap4 */
  function Swap4(w: bv32): bv32 {
    (w << 24) | ((w & 0xFF00) << 8) | ((w >> 8) & 0xFF00) | (w >> 24)
  }

  /** A word as stored for, or as read from, the stream. */
  function Order(w: bv32, swap: bool): bv32 {
    if swap then Swap4(w) else w
  }

  lemma OrderTwice(w: bv32, swap: bool)
    ensures Order(Order(w, swap), swap) == w
  {}

  /** ms_gswap2 on each 16-bit half. */
  function SwapHalves(w: bv32): bv32 {
    ((w & 0x00FF_00FF) << 8) | ((w >> 8) & 0x00FF_00FF)
  }

  function OrderHalves(w: bv32, swap: bool): bv32 {
    if swap then SwapHalves(w) else w
  }

  /** a <= b for the signed values of two 32-bit words. */
  predicate SignedLe(a: bv32, b: bv32) {
    (a ^ 0x8000_0000) <= (b ^ 0x8000_0000)
  }

  /** lo <= v <= hi for signed values. */
  predicate Between(lo: bv32, v: bv32, hi: bv32) {
    SignedLe(lo, v) && SignedLe(v, hi)
  }

  /** The BITWIDTH macro: the smallest of its widths that holds the value. */
  function BitWidth(v: bv32): nat {
    if Between(0xFFFF_FFF8, v, 7) then 4
    else if Between(0xFFFF_FFF0, v, 15) then 5
    else if Between(0xFFFF_FFE0, v, 31) then 6
    else if Between(0xFFFF_FF80, v, 127) then 8
    else if Between(0xFFFF_FE00, v, 511) then 10
    else if Between(0xFFFF_C000, v, 16383) then 15
    else if Between(0xFFFF_8000, v, 32767) then 16
    else if Between(0xE000_0000, v, 0x1FFF_FFFF) then 30
    else 32
  }

  /** Sign extension of a field whose sign bit is given. */
  function SignExtend(x: bv32, sign: bv32): bv32 {
    (x ^ sign) - sign
  }

  /** The bit offset of slot w's two bits in the control word, 30 - 2 * w. */
  function NibbleShift(w: nat): bv32 {
    if w == 0 then 30 else if w == 1 then 28 else if w == 2 then 26 else if w == 3 then 24
    else if w == 4 then 22 else if w == 5 then 20 else if w == 6 then 18 else if w == 7 then 16
    else if w == 8 then 14 else if w == 9 then 12 else if w == 10 then 10 else if w == 11 then 8
    else if w == 12 then 6 else if w == 13 then 4 else if w == 14 then 2 else 0
  }

  function Nibble(ctrl: bv32, w: nat): bv32 {
    (ctrl >> NibbleShift(w)) & 3
  }

  function SetNibble(ctrl: bv32, w: nat, n: bv32): bv32 {
    ctrl | (n << NibbleShift(w))
  }

  lemma NibbleBits(ctrl: bv32, s: bv32, t: bv32, n: bv32)
    requires s <= 30 && t <= 30 && s & 1 == 0 && t & 1 == 0 && n <= 3
    ensures s != t ==> ((ctrl | (n << s)) >> t) & 3 == (ctrl >> t) & 3
    ensures s == t && (ctrl >> t) & 3 == 0 ==> ((ctrl | (n << s)) >> t) & 3 == n
  {}

  lemma NibbleShifts(w: nat, v: nat)
    requires w < 16 && v < 16
    ensures NibbleShift(w) <= 30 && NibbleShift(w) & 1 == 0
    ensures w != v ==> NibbleShift(w) != NibbleShift(v)
  {}

  /** Setting an unset nibble sets it and touches no other. */
  lemma SetNibbleSets(ctrl: bv32, w: nat, n: bv32, v: nat)
    requires w < 16 && v < 16 && n <= 3
    ensures v != w ==> Nibble(SetNibble(ctrl, w, n), v) == Nibble(ctrl, v)
    ensures Nibble(ctrl, w) == 0 ==> Nibble(SetNibble(ctrl, w, n), w) == n
  {
    NibbleShifts(w, v);
    NibbleShifts(v, w);
    hide NibbleShift;
    NibbleBits(ctrl, NibbleShift(w), NibbleShift(v), n);
    NibbleBits(ctrl, NibbleShift(w), NibbleShift(w), n);
  }

  // ---------------------------------------------------------------- the differences in one word

  /** Four bytes in memory order. */
  function Bytes(w: bv32): (r: seq<bv32>)
    ensures |r| == 4
  {
    [SignExtend(w & 0xFF, 0x80), SignExtend((w >> 8) & 0xFF, 0x80),
     SignExtend((w >> 16) & 0xFF, 0x80), SignExtend((w >> 24) & 0xFF, 0x80)]
  }

  /** Two 16-bit halves in memory order. */
  function Halves(w: bv32): (r: seq<bv32>)
    ensures |r| == 2
  {
    [SignExtend(w & 0xFFFF, 0x8000), SignExtend((w >> 16) & 0xFFFF, 0x8000)]
  }

  function Tens(w: bv32): (r: seq<bv32>)
    ensures |r| == 3
  {
    [SignExtend((w >> 20) & 0x3FF, 0x200), SignExtend((w >> 10) & 0x3FF, 0x200), SignExtend(w & 0x3FF, 0x200)]
  }

  function Fifteens(w: bv32): (r: seq<bv32>)
    ensures |r| == 2
  {
    [SignExtend((w >> 15) & 0x7FFF, 0x4000), SignExtend(w & 0x7FFF, 0x4000)]
  }

  function Thirty(w: bv32): (r: seq<bv32>)
    ensures |r| == 1
  {
    [SignExtend(w & 0x3FFF_FFFF, 0x2000_0000)]
  }

  function Sixes(w: bv32): (r: seq<bv32>)
    ensures |r| == 5
  {
    [SignExtend((w >> 24) & 0x3F, 0x20), SignExtend((w >> 18) & 0x3F, 0x20), SignExtend((w >> 12) & 0x3F, 0x20),
     SignExtend((w >> 6) & 0x3F, 0x20), SignExtend(w & 0x3F, 0x20)]
  }

  function Fives(w: bv32): (r: seq<bv32>)
    ensures |r| == 6
  {
    [SignExtend((w >> 25) & 0x1F, 0x10), SignExtend((w >> 20) & 0x1F, 0x10), SignExtend((w >> 15) & 0x1F, 0x10),
     SignExtend((w >> 10) & 0x1F, 0x10), SignExtend((w >> 5) & 0x1F, 0x10), SignExtend(w & 0x1F, 0x10)]
  }

  function Fours(w: bv32): (r: seq<bv32>)
    ensures |r| == 7
  {
    [SignExtend((w >> 24) & 0xF, 0x8), SignExtend((w >> 20) & 0xF, 0x8), SignExtend((w >> 16) & 0xF, 0x8),
     SignExtend((w >> 12) & 0xF, 0x8), SignExtend((w >> 8) & 0xF, 0x8), SignExtend((w >> 4) & 0xF, 0x8),
     SignExtend(w & 0xF, 0x8)]
  }

  /** The differences a stored word holds under its nibble; None for the two undefined codes. */
  function WordDiffs(v: Version, nib: bv32, stored: bv32, swap: bool): (r: Option<seq<bv32>>)
    ensures r.Some? ==> |r.value| <= (if v.Steim1? then 4 else 7)
  {
    var w := Order(stored, swap);
    if nib == 0 then Some([])
    else if nib == 1 then Some(Bytes(stored))
    else if v.Steim1? then
      if nib == 2 then Some(Halves(OrderHalves(stored, swap))) else Some([w])
    else if nib == 2 then
      if w >> 30 == 1 then Some(Thirty(w))
      else if w >> 30 == 2 then Some(Fifteens(w))
      else if w >> 30 == 3 then Some(Tens(w))
      else None
    else
      if w >> 30 == 0 then Some(Sixes(w))
      else if w >> 30 == 1 then Some(Fives(w))
      else if w >> 30 == 2 then Some(Fours(w))
      else None
  }

  // ---------------------------------------------------------------- the differences in frames

  function Append(a: Option<seq<bv32>>, b: Option<seq<bv32>>): Option<seq<bv32>> {
    if a.Some? && b.Some? then Some(a.value + b.value) else None
  }

  /** The first slot of frame f that holds differences: the first frame also carries X0 and Xn. */
  function FirstSlot(f: nat): nat {
    if f == 0 then 3 else 1
  }

  /** The number of difference slots in n frames. */
  function Slots(n: nat): nat {
    if n == 0 then 0 else 15 * n - 2
  }

  /** The differences in slots start..w of one frame with the given control word. */
  function FrameDiffs(v: Version, ctrl: bv32, body: seq<bv32>, start: nat, w: nat, swap: bool): (r: Option<seq<bv32>>)
    requires |body| == 16 && start <= w <= 16
    ensures r.Some? ==> |r.value| <= (if v.Steim1? then 4 else 7) * (w - start)
    decreases w
  {
    if w == start then Some([])
    else Append(FrameDiffs(v, ctrl, body, start, w - 1, swap), WordDiffs(v, Nibble(ctrl, w - 1), body[w - 1], swap))
  }

  /** All the differences of frame f of a stream. */
  function DiffsOfFrame(v: Version, ws: seq<bv32>, f: nat, swap: bool): (r: Option<seq<bv32>>)
    requires 16 * f + 16 <= |ws|
  {
    FrameDiffs(v, Order(ws[16 * f], swap), ws[16 * f..16 * f + 16], FirstSlot(f), 16, swap)
  }

  /** All the differences of the first n frames of a stream. */
  function StreamDiffs(v: Version, ws: seq<bv32>, n: nat, swap: bool): (r: Option<seq<bv32>>)
    requires 16 * n <= |ws|
    ensures r.Some? ==> |r.value| <= (if v.Steim1? then 4 else 7) * Slots(n)
  {
    if n == 0 then Some([]) else Append(StreamDiffs(v, ws, n - 1, swap), DiffsOfFrame(v, ws, n - 1, swap))
  }

  /** Filling slot w of a frame appends that word's differences. */
  lemma {:induction false} FrameDiffsFrame(v: Version, ctrl: bv32, ctrl': bv32, body: seq<bv32>, body': seq<bv32>,
                                           start: nat, w: nat, swap: bool)
    requires |body| == |body'| == 16 && start <= w <= 16
    requires forall i :: start <= i < w ==> body[i] == body'[i] && Nibble(ctrl, i) == Nibble(ctrl', i)
    ensures FrameDiffs(v, ctrl, body, start, w, swap) == FrameDiffs(v, ctrl', body', start, w, swap)
  {
    hide WordDiffs, Nibble;
    if start < w {
      FrameDiffsFrame(v, ctrl, ctrl', body, body', start, w - 1, swap);
    }
  }

  lemma FrameGrows(v: Version, ctrl: bv32, ctrl': bv32, body: seq<bv32>, body': seq<bv32>, start: nat, w: nat,
                   swap: bool,
                   ds: seq<bv32>, a: nat, b: nat, c: nat)
    requires |body| == |body'| == 16 && start <= w < 16 && a <= b <= c <= |ds|
    requires forall i :: start <= i < w ==> body[i] == body'[i] && Nibble(ctrl, i) == Nibble(ctrl', i)
    requires FrameDiffs(v, ctrl, body, start, w, swap) == Some(ds[a..b])
    requires WordDiffs(v, Nibble(ctrl', w), body'[w], swap) == Some(ds[b..c])
    ensures FrameDiffs(v, ctrl', body', start, w + 1, swap) == Some(ds[a..c])
  {
    hide WordDiffs, Nibble;
    FrameDiffsFrame(v, ctrl, ctrl', body, body', start, w, swap);
    assert ds[a..b] + ds[b..c] == ds[a..c];
  }

  lemma FrameStarts(v: Version, ctrl: bv32, body: seq<bv32>, start: nat, swap: bool, ds: seq<bv32>, a: nat)
    requires |body| == 16 && start <= 16 && a <= |ds|
    ensures FrameDiffs(v, ctrl, body, start, start, swap) == Some(ds[a..a])
  {
    assert ds[a..a] == [];
  }

  /** Slots with an unset nibble hold nothing. */
  lemma {:induction false} FrameDiffsUnset(v: Version, ctrl: bv32, body: seq<bv32>, start: nat, w: nat, end: nat,
                                           swap: bool)
    requires |body| == 16 && start <= w <= end <= 16
    requires forall i :: w <= i < end ==> Nibble(ctrl, i) == 0
    ensures FrameDiffs(v, ctrl, body, start, end, swap) == FrameDiffs(v, ctrl, body, start, w, swap)
    decreases end
  {
    hide Nibble;
    if w < end {
      FrameDiffsUnset(v, ctrl, body, start, w, end - 1, swap);
      var a := FrameDiffs(v, ctrl, body, start, w, swap);
      assert a.Some? ==> a.value + [] == a.value;
    }
  }

  /** The differences of n frames depend only on those frames' words. */
  lemma {:induction false} StreamDiffsFrame(v: Version, ws: seq<bv32>, ws': seq<bv32>, n: nat, swap: bool)
    requires 16 * n <= |ws| && 16 * n <= |ws'| && ws[..16 * n] == ws'[..16 * n]
    ensures StreamDiffs(v, ws, n, swap) == StreamDiffs(v, ws', n, swap)
  {
    hide FrameDiffs, Order;
    if n > 0 {
      assert ws[..16 * (n - 1)] == ws[..16 * n][..16 * (n - 1)] == ws'[..16 * (n - 1)];
      StreamDiffsFrame(v, ws, ws', n - 1, swap);
      assert ws[16 * (n - 1)] == ws[..16 * n][16 * (n - 1)] == ws'[16 * (n - 1)];
      assert ws[16 * (n - 1)..16 * n] == ws[..16 * n][16 * (n - 1)..] == ws'[16 * (n - 1)..16 * n];
    }
  }

  /** Xn is not in any difference slot. */
  lemma {:induction false} StreamDiffsXn(v: Version, ws: seq<bv32>, n: nat, swap: bool, x: bv32)
    requires 0 < n && 16 * n <= |ws|
    ensures StreamDiffs(v, ws[2 := x], n, swap) == StreamDiffs(v, ws, n, swap)
    ensures DiffsOfFrame(v, ws[2 := x], 0, swap) == DiffsOfFrame(v, ws, 0, swap)
  {
    hide Order, FrameDiffs, Nibble;
    var ws' := ws[2 := x];
    if n > 1 {
      StreamDiffsXn(v, ws, n - 1, swap, x);
      assert ws'[16 * (n - 1)..16 * n] == ws[16 * (n - 1)..16 * n];
    } else {
      var ctrl := Order(ws[0], swap);
      assert forall i :: 3 <= i < 16 ==> ws'[0..16][i] == ws[0..16][i];
      FrameDiffsFrame(v, ctrl, ctrl, ws[0..16], ws'[0..16], 3, 16, swap);
      assert StreamDiffs(v, ws', 0, swap) == StreamDiffs(v, ws, 0, swap);
    }
  }

  /** One more frame appends its differences. */
  lemma StreamGrows(v: Version, ws: seq<bv32>, ws': seq<bv32>, f: nat, swap: bool, ds: seq<bv32>, a: nat, b: nat)
    requires 16 * f + 16 <= |ws| && |ws'| == |ws| && ws[..16 * f] == ws'[..16 * f] && a <= b <= |ds|
    requires StreamDiffs(v, ws, f, swap) == Some(ds[..a]) && DiffsOfFrame(v, ws', f, swap) == Some(ds[a..b])
    ensures StreamDiffs(v, ws', f + 1, swap) == Some(ds[..b])
    ensures f > 0 ==> DiffsOfFrame(v, ws', 0, swap) == DiffsOfFrame(v, ws, 0, swap) && ws'[1] == ws[1]
  {
    hide FrameDiffs, Order;
    StreamDiffsFrame(v, ws, ws', f, swap);
    assert ds[..a] + ds[a..b] == ds[..b];
    if f > 0 {
      assert ws[0..16] == ws[..16 * f][0..16] == ws'[0..16];
      assert ws[0] == ws[..16 * f][0] == ws'[0] && ws[1] == ws[..16 * f][1] == ws'[1];
    }
  }

  // ---------------------------------------------------------------- samples

  /** Wrap-around arithmetic: adding a difference back undoes it. */
  function Plus(a: bv32, b: bv32): bv32 {
    a + b
  }

  function Minus(a: bv32, b: bv32): bv32 {
    a - b
  }

  lemma PlusDifference(a: bv32, b: bv32)
    ensures Plus(a, b - a) == b
  {}

  lemma PlusMinus(a: bv32, b: bv32)
    ensures Plus(a, Minus(b, a)) == b
  {
    hide Plus;
    PlusDifference(a, b);
    assert Minus(b, a) == b - a;
  }

  /** The difference sequence of a run of samples; diff0 relates the first to its unknown predecessor. */
  function Differences(xs: seq<bv32>, diff0: bv32): (ds: seq<bv32>)
    ensures |ds| == |xs|
  {
    seq(|xs|, i requires 0 <= i < |xs| => if i == 0 then diff0 else Minus(xs[i], xs[i - 1]))
  }

  /** Integrate differences onto samples, up to count samples. */
  function Extend(xs: seq<bv32>, ds: seq<bv32>, count: nat): (r: seq<bv32>)
    requires xs != []
    ensures |xs| <= |r| && r[..|xs|] == xs
    ensures |xs| <= count ==> |r| <= count
    decreases |ds|
  {
    if |xs| >= count || ds == [] then xs
    else Extend(xs + [Plus(xs[|xs| - 1], ds[0])], ds[1..], count)
  }

  /** What n frames decode to when count samples are wanted: the first frame starts at X0 and ignores
      its first difference, and frames past the wanted count are not read. */
  function Decoded(v: Version, ws: seq<bv32>, n: nat, count: nat, swap: bool): (r: Option<seq<bv32>>)
    requires 16 * n <= |ws|
    ensures r.Some? ==> |r.value| <= count && (n > 0 && count > 0 ==> r.value != [])
  {
    if n == 0 then Some([])
    else
      var before := Decoded(v, ws, n - 1, count, swap);
      if before.None? || |before.value| == count then before
      else
        var d := DiffsOfFrame(v, ws, n - 1, swap);
        if d.None? then None
        else if n == 1 then Some(Extend([Order(ws[1], swap)], if d.value == [] then [] else d.value[1..], count))
        else Some(Extend(before.value, d.value, count))
  }

  lemma DifferenceBack(xs: seq<bv32>, diff0: bv32, i: nat)
    requires 0 < i < |xs|
    ensures Plus(xs[i - 1], Differences(xs, diff0)[i]) == xs[i]
  {
    PlusMinus(xs[i - 1], xs[i]);
    hide Plus, Minus;
  }

  /** Integrating the differences of a run reproduces the run. */
  lemma {:induction false} ExtendDifferences(xs: seq<bv32>, diff0: bv32, from: nat, to: nat, count: nat)
    requires 0 < from <= to <= |xs| && from <= count
    ensures Extend(xs[..from], Differences(xs, diff0)[from..to], count) == xs[..if to < count then to else count]
    decreases |xs| - from
  {
    hide *;
    var ds := Differences(xs, diff0);
    if from < to && from < count {
      ExtendOne(xs, diff0, from, to, count);
      ExtendDifferences(xs, diff0, from + 1, to, count);
    } else {
      ExtendDone(xs[..from], ds[from..to], count);
    }
  }

  lemma ExtendOne(xs: seq<bv32>, diff0: bv32, from: nat, to: nat, count: nat)
    requires 0 < from < to <= |xs| && from < count
    ensures var ds := Differences(xs, diff0);
            Extend(xs[..from], ds[from..to], count) == Extend(xs[..from + 1], ds[from + 1..to], count)
  {
    hide *;
    var ds := Differences(xs, diff0);
    var here, there := xs[..from], ds[from..to];
    ExtendStep(here, there, count);
    DifferenceBack(xs, diff0, from);
    assert here[|here| - 1] == xs[from - 1] && there[0] == ds[from] && there[1..] == ds[from + 1..to];
    assert here + [xs[from]] == xs[..from + 1];
  }

  lemma ExtendStep(xs: seq<bv32>, ds: seq<bv32>, count: nat)
    requires 0 < |xs| < count && ds != []
    ensures Extend(xs, ds, count) == Extend(xs + [Plus(xs[|xs| - 1], ds[0])], ds[1..], count)
  {}

  lemma ExtendDone(xs: seq<bv32>, ds: seq<bv32>, count: nat)
    requires xs != [] && (|xs| >= count || ds == [])
    ensures Extend(xs, ds, count) == xs
  {}

  /** A stream carries the first k samples of xs: its differences, its X0 and its Xn are theirs. */
  ghost predicate Carries(v: Version, ws: seq<bv32>, n: nat, swap: bool, xs: seq<bv32>, diff0: bv32, k: nat)
    requires 16 * n <= |ws|
  {
    && 0 < n && 0 < k <= |xs|
    && StreamDiffs(v, ws, n, swap) == Some(Differences(xs, diff0)[..k])
    && DiffsOfFrame(v, ws, 0, swap) != Some([])
    && Order(ws[1], swap) == xs[0] && Order(ws[2], swap) == xs[k - 1]
  }

  lemma DiffsOfFrameIs(v: Version, ws: seq<bv32>, f: nat, swap: bool)
    requires 16 * f + 16 <= |ws|
    ensures DiffsOfFrame(v, ws, f, swap)
            == FrameDiffs(v, Order(ws[16 * f], swap), ws[16 * f..16 * f + 16], if f == 0 then 3 else 1, 16, swap)
  {
    hide FrameDiffs, Order;
  }

  lemma DecodedNothing(v: Version, ws: seq<bv32>, count: nat, swap: bool)
    ensures Decoded(v, ws, 0, count, swap) == Some([])
  {}

  lemma DecodedStep(v: Version, ws: seq<bv32>, n: nat, count: nat, swap: bool, xs: seq<bv32>)
    requires 16 * n + 16 <= |ws|
    requires Decoded(v, ws, n, count, swap) == Some(xs) && |xs| < count && (n > 0 ==> xs != [])
    ensures var d := DiffsOfFrame(v, ws, n, swap);
            Decoded(v, ws, n + 1, count, swap) ==
            if d.None? then None
            else if n == 0 then Some(Extend([Order(ws[1], swap)], if d.value == [] then [] else d.value[1..], count))
            else Some(Extend(xs, d.value, count))
  {
    hide DiffsOfFrame, Order, Extend;
  }

  /** How many differences the first m frames hold. */
  function Held(v: Version, ws: seq<bv32>, m: nat, swap: bool): nat
    requires 16 * m <= |ws|
  {
    if StreamDiffs(v, ws, m, swap).Some? then |StreamDiffs(v, ws, m, swap).value| else 0
  }

  /** Frame m holds the differences of xs between the counts of m and of m + 1 frames. */
  ghost predicate Holding(v: Version, ws: seq<bv32>, m: nat, swap: bool, xs: seq<bv32>, diff0: bv32)
    requires 16 * m + 16 <= |ws|
  {
    var a, b := Held(v, ws, m, swap), Held(v, ws, m + 1, swap);
    a <= b <= |xs| && DiffsOfFrame(v, ws, m, swap) == Some(Differences(xs, diff0)[a..b])
  }

  lemma FrameHolds(v: Version, ws: seq<bv32>, n: nat, m: nat, swap: bool, xs: seq<bv32>, diff0: bv32, k: nat)
    requires 16 * n <= |ws| && Carries(v, ws, n, swap, xs, diff0, k) && 0 < m <= n
    ensures var a, b := Held(v, ws, m - 1, swap), Held(v, ws, m, swap);
            && (m == 1 <==> a == 0) && 0 < b && Holding(v, ws, m - 1, swap, xs, diff0)
  {
    hide *;
    var ds := Differences(xs, diff0);
    CarriesGives(v, ws, n, swap, xs, diff0, k);
    StreamDiffsPrefix(v, ws, m, n, swap);
    StreamDiffsPrefix(v, ws, m - 1, n, swap);
    HeldIs(v, ws, m, swap);
    HeldIs(v, ws, m - 1, swap);
    StreamDiffsStep(v, ws, m - 1, swap);
    MiddleOf(ds, k, StreamDiffs(v, ws, m - 1, swap).value, DiffsOfFrame(v, ws, m - 1, swap).value);
    MakeHolding(v, ws, m - 1, swap, xs, diff0);
  }

  lemma CarriesGives(v: Version, ws: seq<bv32>, n: nat, swap: bool, xs: seq<bv32>, diff0: bv32, k: nat)
    requires 16 * n <= |ws| && Carries(v, ws, n, swap, xs, diff0, k)
    ensures 0 < n && 0 < k <= |xs| && StreamDiffs(v, ws, n, swap) == Some(Differences(xs, diff0)[..k])
    ensures DiffsOfFrame(v, ws, 0, swap) != Some([])
    ensures Order(ws[1], swap) == xs[0] && Order(ws[2], swap) == xs[k - 1]
  {
    hide StreamDiffs, DiffsOfFrame, Differences, Order;
  }

  lemma HeldIs(v: Version, ws: seq<bv32>, m: nat, swap: bool)
    requires 16 * m <= |ws| && StreamDiffs(v, ws, m, swap).Some?
    ensures Held(v, ws, m, swap) == |StreamDiffs(v, ws, m, swap).value| && Held(v, ws, 0, swap) == 0
  {
    assert StreamDiffs(v, ws, 0, swap) == Some([]);
    hide StreamDiffs;
  }

  lemma StreamDiffsStep(v: Version, ws: seq<bv32>, n: nat, swap: bool)
    requires 16 * n + 16 <= |ws| && StreamDiffs(v, ws, n + 1, swap).Some?
    ensures StreamDiffs(v, ws, n, swap).Some? && DiffsOfFrame(v, ws, n, swap).Some?
    ensures StreamDiffs(v, ws, n + 1, swap).value == StreamDiffs(v, ws, n, swap).value
            + DiffsOfFrame(v, ws, n, swap).value
  {
    hide DiffsOfFrame;
  }

  lemma MiddleOf<T>(ds: seq<T>, k: nat, before: seq<T>, here: seq<T>)
    requires k <= |ds| && before + here <= ds[..k]
    ensures |before| + |here| <= k && here == ds[|before|..|before| + |here|]
  {
    assert here == (before + here)[|before|..] == ds[..k][..|before| + |here|][|before|..];
  }

  lemma MakeHolding(v: Version, ws: seq<bv32>, m: nat, swap: bool, xs: seq<bv32>, diff0: bv32)
    requires 16 * m + 16 <= |ws|
    requires var a, b := Held(v, ws, m, swap), Held(v, ws, m + 1, swap);
             a <= b <= |xs| && DiffsOfFrame(v, ws, m, swap) == Some(Differences(xs, diff0)[a..b])
    ensures Holding(v, ws, m, swap, xs, diff0)
  {
    hide Held, DiffsOfFrame, Differences;
  }

  function Least(a: nat, b: nat): nat {
    if a < b then a else b
  }

  /** After m frames the decoder has the samples those frames hold, or as many as were wanted. */
  ghost predicate DecodesTo(v: Version, ws: seq<bv32>, m: nat, count: nat, swap: bool, xs: seq<bv32>)
    requires 16 * m <= |ws|
  {
    Held(v, ws, m, swap) <= |xs| && Decoded(v, ws, m, count, swap) == Some(xs[..Least(Held(v, ws, m, swap), count)])
  }

  lemma DecodedFirst(v: Version, ws: seq<bv32>, n: nat, swap: bool, xs: seq<bv32>, diff0: bv32, k: nat, count: nat)
    requires 16 * n <= |ws| && Carries(v, ws, n, swap, xs, diff0, k) && 0 < count
    ensures DecodesTo(v, ws, 1, count, swap, xs)
  {
    hide *;
    CarriesGives(v, ws, n, swap, xs, diff0, k);
    FrameHolds(v, ws, n, 1, swap, xs, diff0, k);
    HoldingGives(v, ws, 0, swap, xs, diff0);
    var ds, b := Differences(xs, diff0), Held(v, ws, 1, swap);
    DecodedNothing(v, ws, count, swap);
    DecodedStep(v, ws, 0, count, swap, []);
    assert ds[0..b][1..] == ds[1..b] && xs[..1] == [xs[0]];
    ExtendDifferences(xs, diff0, 1, b, count);
    MakeDecodesTo(v, ws, 1, count, swap, xs);
  }

  lemma HoldingGives(v: Version, ws: seq<bv32>, m: nat, swap: bool, xs: seq<bv32>, diff0: bv32)
    requires 16 * m + 16 <= |ws| && Holding(v, ws, m, swap, xs, diff0)
    ensures var a, b := Held(v, ws, m, swap), Held(v, ws, m + 1, swap);
            a <= b <= |xs| && DiffsOfFrame(v, ws, m, swap) == Some(Differences(xs, diff0)[a..b])
  {
    hide Held, DiffsOfFrame, Differences;
  }

  lemma MakeDecodesTo(v: Version, ws: seq<bv32>, m: nat, count: nat, swap: bool, xs: seq<bv32>)
    requires 16 * m <= |ws| && Held(v, ws, m, swap) <= |xs|
    requires var b := Held(v, ws, m, swap);
             Decoded(v, ws, m, count, swap) == Some(xs[..if b < count then b else count])
    ensures DecodesTo(v, ws, m, count, swap, xs)
  {
    hide Held, Decoded;
  }

  lemma DecodedNext(v: Version, ws: seq<bv32>, m: nat, swap: bool, xs: seq<bv32>, diff0: bv32, count: nat)
    requires 0 < count && 0 < m && 16 * m + 16 <= |ws| && 0 < Held(v, ws, m, swap)
    requires Holding(v, ws, m, swap, xs, diff0) && DecodesTo(v, ws, m, count, swap, xs)
    ensures DecodesTo(v, ws, m + 1, count, swap, xs)
  {
    hide DiffsOfFrame, Differences, Extend, Order, Decoded, Held, StreamDiffs, Carries;
    var a, b := Held(v, ws, m, swap), Held(v, ws, m + 1, swap);
    if a < count {
      DecodedStep(v, ws, m, count, swap, xs[..a]);
      ExtendDifferences(xs, diff0, a, b, count);
    } else {
      DecodedFull(v, ws, m, count, swap, xs[..count]);
    }
  }

  lemma {:induction false} DecodedPrefix(v: Version, ws: seq<bv32>, n: nat, m: nat, swap: bool, xs: seq<bv32>,
                                         diff0: bv32, k: nat, count: nat)
    requires 16 * n <= |ws| && Carries(v, ws, n, swap, xs, diff0, k) && 0 < count && 0 < m <= n
    ensures DecodesTo(v, ws, m, count, swap, xs)
    decreases m
  {
    hide Decoded, Held, StreamDiffs, DiffsOfFrame, Order, Differences, DecodesTo, Holding;
    if m == 1 {
      DecodedFirst(v, ws, n, swap, xs, diff0, k, count);
    } else {
      DecodedPrefix(v, ws, n, m - 1, swap, xs, diff0, k, count);
      FrameHolds(v, ws, n, m - 1, swap, xs, diff0, k);
      FrameHolds(v, ws, n, m, swap, xs, diff0, k);
      DecodedNext(v, ws, m - 1, swap, xs, diff0, count);
    }
  }

  /** Decoding a stream that carries k samples gives exactly the first count of them, for every count up to k. */
  lemma DecodedCarried(v: Version, ws: seq<bv32>, n: nat, swap: bool, xs: seq<bv32>, diff0: bv32, k: nat, count: nat)
    requires 16 * n <= |ws| && Carries(v, ws, n, swap, xs, diff0, k) && 0 < count <= k
    ensures Decoded(v, ws, n, count, swap) == Some(xs[..count])
  {
    DecodedPrefix(v, ws, n, n, swap, xs, diff0, k, count);
    hide StreamDiffs, Differences, Decoded;
    assert Held(v, ws, n, swap) == k;
  }

  lemma DecodedFull(v: Version, ws: seq<bv32>, n: nat, count: nat, swap: bool, xs: seq<bv32>)
    requires 16 * n + 16 <= |ws| && Decoded(v, ws, n, count, swap) == Some(xs) && |xs| == count
    ensures Decoded(v, ws, n + 1, count, swap) == Some(xs)
  {
    hide DiffsOfFrame, Extend;
  }

  lemma {:induction false} StreamDiffsPrefix(v: Version, ws: seq<bv32>, m: nat, n: nat, swap: bool)
    requires 16 * n <= |ws| && m <= n && StreamDiffs(v, ws, n, swap).Some?
    ensures StreamDiffs(v, ws, m, swap).Some?
    ensures var a, b := StreamDiffs(v, ws, m, swap).value, StreamDiffs(v, ws, n, swap).value; a <= b
    ensures 0 < m && DiffsOfFrame(v, ws, 0, swap) != Some([]) ==> StreamDiffs(v, ws, m, swap).value != []
    decreases n
  {
    hide FrameDiffs, DiffsOfFrame;
    if m < n {
      StreamDiffsPrefix(v, ws, m, n - 1, swap);
    } else if n > 0 {
      StreamDiffsPrefix(v, ws, n - 1, n - 1, swap);
    }
  }
}
