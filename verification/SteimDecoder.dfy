/** msr_decode_steim1 and msr_decode_steim2, which differ only in how one word is read. */
module SteimDecoder {
  import opened Options
  import opened SteimFormat

  method PushAll(diff: array<bv32>, at: nat, vals: seq<bv32>) returns (diffidx: nat)
    requires at + |vals| <= diff.Length
    modifies diff
    ensures diffidx == at + |vals| && diff[..diffidx] == old(diff[..at]) + vals
  {
    diffidx := at;
    for idx := 0 to |vals|
      invariant diffidx == at + idx && diff[..diffidx] == old(diff[..at]) + vals[..idx]
    {
      diff[diffidx] := vals[idx];
      diffidx := diffidx + 1;
    }
  }

  /** The decode switch: the differences of one word, or -1 for an undefined code. */
  method DecodeWord(v: Version, nib: bv32, stored: bv32, swap: bool, diff: array<bv32>, at: nat) returns (diffidx: int)
    requires at + (if v.Steim1? then 4 else 7) <= diff.Length && nib <= 3
    modifies diff
    ensures var d := WordDiffs(v, nib, stored, swap);
            if d.None? then diffidx == -1
            else diffidx == at + |d.value| && diff[..diffidx] == old(diff[..at]) + d.value
  {
    hide Order, OrderHalves, Bytes, Halves, Thirty, Fifteens, Tens, Sixes, Fives, Fours;
    diffidx := at;
    if nib == 1 {
      diffidx := PushAll(diff, at, Bytes(stored));
    } else if nib == 2 && v.Steim1? {
      diffidx := PushAll(diff, at, Halves(OrderHalves(stored, swap)));
    } else if nib == 3 && v.Steim1? {
      diffidx := PushAll(diff, at, [Order(stored, swap)]);
    } else if nib == 2 {
      var w := Order(stored, swap);
      match w >> 30 {
        case 0 => diffidx := -1;
        case 1 => diffidx := PushAll(diff, at, Thirty(w));
        case 2 => diffidx := PushAll(diff, at, Fifteens(w));
        case _ => diffidx := PushAll(diff, at, Tens(w));
      }
    } else if nib == 3 {
      var w := Order(stored, swap);
      match w >> 30 {
        case 0 => diffidx := PushAll(diff, at, Sixes(w));
        case 1 => diffidx := PushAll(diff, at, Fives(w));
        case 2 => diffidx := PushAll(diff, at, Fours(w));
        case _ => diffidx := -1;
      }
    }
  }

  /** The word loop over one frame, copied out of the stream; -1 for an undefined code. */
  method DecodeFrame(v: Version, frame: seq<bv32>, start: nat, swap: bool, diff: array<bv32>) returns (diffidx: int)
    requires |frame| == 16 && 1 <= start <= 3 && diff.Length == (if v.Steim1? then 60 else 105)
    modifies diff
    ensures var d := FrameDiffs(v, Order(frame[0], swap), frame, start, 16, swap);
            if d.None? then diffidx == -1 else diffidx == |d.value| && diff[..diffidx] == d.value
  {
    hide *;
    var ctrl := Order(frame[0], swap);
    diffidx := 0;
    FrameDiffsStart(v, ctrl, frame, start, swap);
    for widx := start to 16
      invariant 0 <= diffidx <= diff.Length
      invariant FrameDiffs(v, ctrl, frame, start, widx, swap) == Some(diff[..diffidx])
    {
      NibbleRange(ctrl, widx);
      FrameDiffsStep(v, ctrl, frame, start, widx, swap, diff[..diffidx]);
      assert |diff[..diffidx]| == diffidx <= (if v.Steim1? then 4 else 7) * (widx - start);
      diffidx := DecodeWord(v, Nibble(ctrl, widx), frame[widx], swap, diff, diffidx);
      if diffidx < 0 {
        FrameDiffsNone(v, ctrl, frame, start, widx + 1, 16, swap);
        return;
      }
    }
  }

  lemma FrameDiffsStart(v: Version, ctrl: bv32, body: seq<bv32>, start: nat, swap: bool)
    requires |body| == 16 && start <= 16
    ensures FrameDiffs(v, ctrl, body, start, start, swap) == Some([])
  {}

  lemma FrameDiffsStep(v: Version, ctrl: bv32, body: seq<bv32>, start: nat, w: nat, swap: bool, ds: seq<bv32>)
    requires |body| == 16 && start <= w < 16 && FrameDiffs(v, ctrl, body, start, w, swap) == Some(ds)
    ensures var d := WordDiffs(v, Nibble(ctrl, w), body[w], swap);
            FrameDiffs(v, ctrl, body, start, w + 1, swap) == if d.None? then None else Some(ds + d.value)
  {
    hide WordDiffs, Nibble;
  }

  lemma NibbleRange(ctrl: bv32, w: nat)
    ensures Nibble(ctrl, w) <= 3
  {
    hide NibbleShift;
  }

  lemma {:induction false} FrameDiffsNone(v: Version, ctrl: bv32, body: seq<bv32>, start: nat, w: nat, end: nat,
                                          swap: bool)
    requires |body| == 16 && start <= w <= end <= 16 && FrameDiffs(v, ctrl, body, start, w, swap).None?
    ensures FrameDiffs(v, ctrl, body, start, end, swap).None?
    decreases end
  {
    hide WordDiffs, Nibble;
    if w < end {
      FrameDiffsNone(v, ctrl, body, start, w, end - 1, swap);
    }
  }

  /** Integrate the differences from index from on onto the samples already decoded. */
  method Integrate(output: array<bv32>, outputidx: nat, diff: array<bv32>, from: nat, diffidx: nat, samplecount: nat)
    returns (end: nat)
    requires 0 < outputidx && outputidx <= samplecount <= output.Length && from <= diffidx <= diff.Length
    requires output as object != diff
    modifies output
    ensures end <= samplecount
    ensures output[..end] == Extend(old(output[..outputidx]), diff[from..diffidx], samplecount)
    ensures forall i :: samplecount <= i < output.Length ==> output[i] == old(output[i])
  {
    hide Plus, Extend;
    end := outputidx;
    var idx := from;
    while idx < diffidx && end < samplecount
      invariant from <= idx <= diffidx && 0 < end <= samplecount
      invariant Extend(output[..end], diff[idx..diffidx], samplecount)
                == Extend(old(output[..outputidx]), diff[from..diffidx], samplecount)
      invariant forall i :: samplecount <= i < output.Length ==> output[i] == old(output[i])
      decreases diffidx - idx
    {
      ghost var before := output[..end];
      ExtendStep(before, diff[idx..diffidx], samplecount);
      assert diff[idx..diffidx][1..] == diff[idx + 1..diffidx];
      output[end] := Plus(output[end - 1], diff[idx]);
      end, idx := end + 1, idx + 1;
      assert output[..end] == before + [Plus(before[|before| - 1], diff[idx - 1])];
    }
    ExtendDone(output[..end], diff[idx..diffidx], samplecount);
  }

  /** One step of the frame loop: decode frame frameidx and integrate its differences; -1 for an undefined code. */
  method DecodeNext(v: Version, input: seq<bv32>, frameidx: nat, samplecount: nat, output: array<bv32>, outputidx: nat,
                    diff: array<bv32>, swap: bool)
    returns (end: int)
    requires 16 * frameidx + 16 <= |input| && outputidx < samplecount <= output.Length && output as object != diff
    requires diff.Length == (if v.Steim1? then 60 else 105) && (frameidx > 0 ==> outputidx > 0)
    requires Decoded(v, input, frameidx, samplecount, swap) == Some(output[..outputidx])
    modifies output, diff
    ensures var d := Decoded(v, input, frameidx + 1, samplecount, swap);
            if d.None? then end == -1 else 0 < end <= samplecount && d == Some(output[..end])
    ensures forall i :: samplecount <= i < output.Length ==> output[i] == old(output[i])
  {
    hide *;
    var frame := input[16 * frameidx..16 * frameidx + 16];
    var from, at := 0, outputidx;
    ghost var before := output[..outputidx];
    DiffsOfFrameIs(v, input, frameidx, swap);
    DecodedStep(v, input, frameidx, samplecount, swap, before);
    var diffidx := DecodeFrame(v, frame, if frameidx == 0 then 3 else 1, swap, diff);
    if diffidx < 0 {
      return -1;
    }
    ghost var ds := diff[..diffidx];
    if frameidx == 0 {
      output[0] := Order(frame[1], swap);
      at := 1;
      assert output[..1] == [Order(input[1], swap)];
      if diffidx > 0 {
        from := 1;
      }
    }
    assert diff[from..diffidx] == ds[from..];
    DecodedOnto(v, input, frameidx, samplecount, swap, before, ds, from);
    end := Integrate(output, at, diff, from, diffidx, samplecount);
  }

  /** The decoder. Callers ask for at least one sample. intact is false when the last wanted sample was
      reached and differs from Xn, which the source logs as a failed integrity check. */
  method DecodeSteim(v: Version, input: seq<bv32>, inputlength: nat, samplecount: nat, output: array<bv32>,
                     outputlength: nat, swap: bool) returns (samples: int, intact: bool)
    requires inputlength <= 4 * |input| && outputlength <= 4 * output.Length && 0 < samplecount
    modifies output
    ensures inputlength / 64 == 0 ==> samples == 0
    ensures inputlength / 64 > 0 ==>
              if outputlength < 4 * samplecount then samples == -1
              else
                var d := Decoded(v, input, inputlength / 64, samplecount, swap);
                if d.None? then samples == -1
                else
                  && samples == |d.value| && output[..samples] == d.value
                  && intact == (samples < samplecount || output[samples - 1] == Order(input[2], swap))
    ensures forall i :: samplecount <= i < output.Length ==> output[i] == old(output[i])
  {
    hide *;
    samples, intact := 0, true;
    var maxframes := inputlength / 64;
    if maxframes == 0 {
      return;
    }
    if outputlength < 4 * samplecount {
      return -1, true;
    }
    var diff := new bv32[if v.Steim1? then 60 else 105];
    var xn: bv32 := 0;
    var frameidx, outputidx := 0, 0;
    DecodedNothing(v, input, samplecount, swap);
    while frameidx < maxframes && outputidx < samplecount
      invariant frameidx <= maxframes && 0 <= outputidx <= samplecount
                && (frameidx > 0 ==> outputidx > 0 && xn == Order(input[2], swap))
      invariant Decoded(v, input, frameidx, samplecount, swap) == Some(output[..outputidx])
      invariant forall i :: samplecount <= i < output.Length ==> output[i] == old(output[i])
      decreases maxframes - frameidx
    {
      if frameidx == 0 {
        xn := Order(input[2], swap);
      }
      var end := DecodeNext(v, input, frameidx, samplecount, output, outputidx, diff, swap);
      if end < 0 {
        DecodedNone(v, input, frameidx + 1, maxframes, samplecount, swap);
        return -1, true;
      }
      frameidx, outputidx := frameidx + 1, end;
    }
    DecodedEnough(v, input, frameidx, maxframes, samplecount, swap);
    samples := outputidx;
    if outputidx == samplecount && output[outputidx - 1] != xn {
      intact := false;
    }
  }

  /** A frame that decodes: its differences, all but the first frame's first, go onto the samples before it. */
  lemma DecodedOnto(v: Version, ws: seq<bv32>, n: nat, count: nat, swap: bool, xs: seq<bv32>, ds: seq<bv32>, from: nat)
    requires 16 * n + 16 <= |ws| && DiffsOfFrame(v, ws, n, swap) == Some(ds)
    requires Decoded(v, ws, n, count, swap) == Some(xs) && |xs| < count && (n > 0 ==> xs != [])
    requires from <= |ds| && from == if n == 0 && ds != [] then 1 else 0
    ensures Decoded(v, ws, n + 1, count, swap)
            == Some(Extend(if n == 0 then [Order(ws[1], swap)] else xs, ds[from..], count))
  {
    hide *;
    DecodedStep(v, ws, n, count, swap, xs);
    assert from == 0 ==> ds[from..] == ds;
  }

  lemma {:induction false} DecodedNone(v: Version, ws: seq<bv32>, n: nat, m: nat, count: nat, swap: bool)
    requires n <= m && 16 * m <= |ws| && Decoded(v, ws, n, count, swap).None?
    ensures Decoded(v, ws, m, count, swap).None?
    decreases m
  {
    hide DiffsOfFrame, Extend;
    if n < m {
      DecodedNone(v, ws, n, m - 1, count, swap);
    }
  }

  /** Frames past the wanted count change nothing. */
  lemma {:induction false} DecodedEnough(v: Version, ws: seq<bv32>, n: nat, m: nat, count: nat, swap: bool)
    requires n <= m && 16 * m <= |ws| && Decoded(v, ws, n, count, swap).Some?
    requires n < m ==> |Decoded(v, ws, n, count, swap).value| == count
    ensures Decoded(v, ws, m, count, swap) == Decoded(v, ws, n, count, swap)
    decreases m
  {
    hide DiffsOfFrame, Extend;
    if n < m {
      DecodedEnough(v, ws, n, m - 1, count, swap);
    }
  }
}
