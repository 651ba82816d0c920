/** msr_encode_steim1 and msr_encode_steim2, which differ only in the shapes a word may take. */
module SteimEncoder {
  import opened Options
  import opened SteimFormat
  import opened SteimShapes
  import opened SteimBuffer

  /** The first n widths are all at most bits. */
  predicate Within(widths: seq<nat>, n: nat, bits: nat) {
    n <= |widths| && forall i :: 0 <= i < n ==> widths[i] <= bits
  }

  /** The chain of shape tests, densest first. */
  method TestShapes(v: Version, widths: seq<nat>, ghost rest: seq<bv32>) returns (packed: nat)
    requires forall c :: Allowed(v, c) ==> (Fits(v, rest, c) <==> Within(widths, c, ShapeBits(v, c)))
    requires v.Steim1? ==> Fits(v, rest, 1)
    ensures packed == Greedy(v, rest)
  {
    assert v.Steim1? ==> !Fits(v, rest, 7) && !Fits(v, rest, 6) && !Fits(v, rest, 5) && !Fits(v, rest, 3);
    hide Fits, Within;
    if v.Steim1? {
      if Within(widths, 4, 8) { packed := 4; }
      else if Within(widths, 2, 16) { packed := 2; }
      else { packed := 1; }
    }
    else if Within(widths, 7, 4) { packed := 7; }
    else if Within(widths, 6, 5) { packed := 6; }
    else if Within(widths, 5, 6) { packed := 5; }
    else if Within(widths, 4, 8) { packed := 4; }
    else if Within(widths, 3, 10) { packed := 3; }
    else if Within(widths, 2, 15) { packed := 2; }
    else if Within(widths, 1, 30) { packed := 1; }
    else { packed := 0; }
  }

  /** Choose the shape of the next word from the waiting differences; 0 when none fits. */
  method ChooseShape(v: Version, buf: DiffBuffer) returns (packed: nat)
    requires buf.Valid() && buf.packedsamples == 0 && buf.capacity == Densest(v) && buf.outputsamples < |buf.input|
    requires buf.diffcount == if |buf.input| - buf.outputsamples < Densest(v) then |buf.input| - buf.outputsamples
             else Densest(v)
    ensures packed <= buf.diffcount
    ensures packed == Greedy(v, Differences(buf.input, buf.diff0)[buf.outputsamples..])
    ensures packed > 0 ==> Allowed(v, packed) && Fits(v, buf.diffs[..packed], packed)
                           && buf.diffs[..packed]
                              == Differences(buf.input, buf.diff0)[buf.outputsamples..buf.outputsamples + packed]
  {
    hide BitWidth, Differences, Greedy;
    ghost var waiting, rest := buf.Waiting(), Differences(buf.input, buf.diff0)[buf.outputsamples..];
    WidthBound(v, rest, 0);
    FitsWithin(v, rest, waiting, buf.bitwidth[..buf.diffcount]);
    packed := TestShapes(v, buf.bitwidth[..buf.diffcount], rest);
    assert buf.diffs[..packed] == waiting[..packed] == rest[..packed];
  }

  lemma FitsWithin(v: Version, rest: seq<bv32>, waiting: seq<bv32>, widths: seq<nat>)
    requires |waiting| == |widths| == (if |rest| < Densest(v) then |rest| else Densest(v))
             && waiting == rest[..|waiting|]
    requires forall i :: 0 <= i < |widths| ==> widths[i] == BitWidth(waiting[i])
    ensures forall c :: Allowed(v, c) ==> (Fits(v, rest, c) <==> Within(widths, c, ShapeBits(v, c)))
  {
    hide BitWidth, ShapeBits;
    forall c | Allowed(v, c) ensures Fits(v, rest, c) <==> Within(widths, c, ShapeBits(v, c)) {
      assert forall i :: 0 <= i < |widths| ==> widths[i] == BitWidth(rest[i]);
    }
  }

  /** The encoder and the output it writes share no memory. */
  ghost predicate Apart(buf: DiffBuffer, output: array<bv32>) {
    output as object != buf.diffs && output as object != buf.bitwidth
  }

  lemma ApartGives(buf: DiffBuffer, output: array<bv32>)
    requires Apart(buf, output)
    ensures output as object != buf.diffs && output as object != buf.bitwidth
  {}

  lemma NibbleIsSet(v: Version, ctrl: bv32, widx: nat, packed: nat)
    requires widx < 16 && Allowed(v, packed) && Nibble(ctrl, widx) == 0
    ensures var now := SetNibble(ctrl, widx, ShapeNibble(v, packed));
            && Nibble(now, widx) == ShapeNibble(v, packed)
            && forall s :: 0 <= s < 16 && s != widx ==> Nibble(now, s) == Nibble(ctrl, s)
  {
    hide Nibble, SetNibble;
    forall s: nat | s < 16
      ensures Nibble(SetNibble(ctrl, widx, ShapeNibble(v, packed)), s)
              == if s == widx then ShapeNibble(v, packed) else Nibble(ctrl, s)
    {
      SetNibbleSets(ctrl, widx, ShapeNibble(v, packed), s);
    }
  }

  /** One step of the word loop: fill slot widx of the frame at base with the next differences. */
  method EncodeWord(v: Version, buf: DiffBuffer, output: array<bv32>, base: nat, widx: nat, swap: bool)
    returns (ok: bool)
    requires buf.Valid() && buf.capacity == Densest(v) && buf.diffcount < Densest(v) && Apart(buf, output)
    requires buf.outputsamples < |buf.input| && base + 16 <= output.Length && 1 <= widx < 16
             && Nibble(output[base], widx) == 0
    modifies output, buf`diffcount, buf`packedsamples, buf`inputidx, buf`outputsamples, buf.diffs, buf.bitwidth
    ensures buf.Valid() && (ok ==> buf.diffcount < Densest(v))
    ensures var ds, was := Differences(buf.input, buf.diff0), old(buf.outputsamples);
            && buf.outputsamples == was + Greedy(v, ds[was..])
            && ok == (Greedy(v, ds[was..]) > 0)
            && (ok ==> WordDiffs(v, Nibble(output[base], widx), output[base + widx], swap)
                       == Some(ds[was..buf.outputsamples]))
    ensures forall s :: 0 <= s < 16 && s != widx ==> Nibble(output[base], s) == Nibble(old(output[base]), s)
    ensures forall i :: 0 <= i < output.Length && i != base && i != base + widx ==> output[i] == old(output[i])
  {
    hide *;
    ApartGives(buf, output);
    buf.Refill();
    var packed := ChooseShape(v, buf);
    buf.Bounds();
    if packed == 0 {
      return false;
    }
    var ds := buf.diffs[..packed];
    WordRoundTrip(v, ds, swap);
    NibbleIsSet(v, output[base], widx, packed);
    output[base + widx] := Stored(v, ds, swap);
    output[base] := SetNibble(output[base], widx, ShapeNibble(v, packed));
    buf.Consume(packed);
    ok := true;
  }

  /** Slots up to widx of frame f are filled and hold the differences from index was on, greedily cut. */
  ghost predicate Filled(v: Version, buf: DiffBuffer, output: array<bv32>, f: nat, widx: nat, swap: bool, was: nat)
    requires buf.Valid() && 16 * f + 16 <= output.Length && FirstSlot(f) <= widx <= 16
    reads buf, buf.diffs, buf.bitwidth, output
  {
    var ds, w := Differences(buf.input, buf.diff0), Slots(f) + (widx - FirstSlot(f));
    && buf.capacity == Densest(v) && buf.diffcount < Densest(v)
    && was <= buf.outputsamples == Reach(v, ds, w)
    && (widx > FirstSlot(f) ==> was < buf.outputsamples && !Stuck(v, ds, w - 1))
    && (forall s :: widx <= s < 16 ==> Nibble(output[16 * f], s) == 0)
    && FrameDiffs(v, output[16 * f], output[16 * f..16 * f + 16], FirstSlot(f), widx, swap)
       == Some(ds[was..buf.outputsamples])
  }

  method FillSlot(v: Version, buf: DiffBuffer, output: array<bv32>, f: nat, widx: nat, swap: bool, ghost was: nat)
    returns (ok: bool)
    requires buf.Valid() && Apart(buf, output) && 16 * f + 16 <= output.Length && FirstSlot(f) <= widx < 16
    requires Filled(v, buf, output, f, widx, swap, was) && buf.outputsamples < |buf.input|
    modifies output, buf`diffcount, buf`packedsamples, buf`inputidx, buf`outputsamples, buf.diffs, buf.bitwidth
    ensures buf.Valid() && (ok ==> was < buf.outputsamples && Filled(v, buf, output, f, widx + 1, swap, was))
    ensures !ok ==> Stuck(v, Differences(buf.input, buf.diff0), Slots(f) + (widx - FirstSlot(f)))
    ensures forall i :: 0 <= i < 16 * f ==> output[i] == old(output[i])
    ensures f == 0 ==> output[1] == old(output[1])
  {
    hide *;
    var base := 16 * f;
    ghost var ctrl, body, at := output[base], output[base..base + 16], buf.outputsamples;
    FilledGives(v, buf, output, f, widx, swap, was);
    ok := EncodeWord(v, buf, output, base, widx, swap);
    buf.Bounds();
    if ok {
      FilledNext(v, buf, output, f, widx, swap, was, at, ctrl, body);
    }
  }

  lemma FilledGives(v: Version, buf: DiffBuffer, output: array<bv32>, f: nat, widx: nat, swap: bool, was: nat)
    requires buf.Valid() && 16 * f + 16 <= output.Length && FirstSlot(f) <= widx < 16
    requires Filled(v, buf, output, f, widx, swap, was) && buf.outputsamples < |buf.input|
    ensures buf.capacity == Densest(v) && buf.diffcount < Densest(v) && was <= buf.outputsamples
    ensures 1 <= widx && (f == 0 ==> 3 <= widx)
    ensures forall s :: widx <= s < 16 ==> Nibble(output[16 * f], s) == 0
    ensures var ds, w := Differences(buf.input, buf.diff0), Slots(f) + (widx - FirstSlot(f));
            && buf.outputsamples == Reach(v, ds, w) && (Greedy(v, ds[buf.outputsamples..]) == 0 <==> Stuck(v, ds, w))
            && FrameDiffs(v, output[16 * f], output[16 * f..16 * f + 16], FirstSlot(f), widx, swap)
               == Some(ds[was..buf.outputsamples])
  {
    hide Differences, Nibble, Greedy, FrameDiffs, Reach, BitWidth;
    ReachStep(v, Differences(buf.input, buf.diff0), Slots(f) + (widx - FirstSlot(f)));
  }

  lemma FilledNext(v: Version, buf: DiffBuffer, output: array<bv32>, f: nat, widx: nat, swap: bool, was: nat,
                   at: nat, ctrl: bv32, body: seq<bv32>)
    requires buf.Valid() && 16 * f + 16 <= output.Length && FirstSlot(f) <= widx < 16 && |body| == 16
    requires buf.capacity == Densest(v) && buf.diffcount < Densest(v) && was <= at < |buf.input|
             && buf.outputsamples <= |buf.input|
    requires var ds, w := Differences(buf.input, buf.diff0), Slots(f) + (widx - FirstSlot(f));
             && at == Reach(v, ds, w) && buf.outputsamples == at + Greedy(v, ds[at..]) && at < buf.outputsamples
             && FrameDiffs(v, ctrl, body, FirstSlot(f), widx, swap) == Some(ds[was..at])
             && WordDiffs(v, Nibble(output[16 * f], widx), output[16 * f + widx], swap)
                == Some(ds[at..buf.outputsamples])
    requires forall s :: 0 <= s < 16 && s != widx ==> Nibble(output[16 * f], s) == Nibble(ctrl, s)
    requires forall s :: widx <= s < 16 ==> Nibble(ctrl, s) == 0
    requires forall s :: 1 <= s < widx ==> output[16 * f + s] == body[s]
    ensures Filled(v, buf, output, f, widx + 1, swap, was)
  {
    hide BitWidth, Differences, WordDiffs, Nibble, Greedy, FrameDiffs, Reach, DiffBuffer.Valid;
    var ds := Differences(buf.input, buf.diff0);
    ReachStep(v, ds, Slots(f) + (widx - FirstSlot(f)));
    FrameGrows(v, ctrl, output[16 * f], body, output[16 * f..16 * f + 16], FirstSlot(f), widx, swap, ds, was, at,
               buf.outputsamples);
  }

  /** The word loop over the cleared frame f: fill its slots until it or the data is exhausted. */
  method FillFrame(v: Version, buf: DiffBuffer, output: array<bv32>, f: nat, swap: bool) returns (ok: bool)
    requires buf.Valid() && buf.capacity == Densest(v) && buf.diffcount < Densest(v) && Apart(buf, output)
    requires 16 * f + 16 <= output.Length && buf.outputsamples < |buf.input|
    requires buf.outputsamples == Reach(v, Differences(buf.input, buf.diff0), Slots(f))
    requires forall s :: 0 <= s < 16 ==> Nibble(output[16 * f], s) == 0
    modifies output, buf`diffcount, buf`packedsamples, buf`inputidx, buf`outputsamples, buf.diffs, buf.bitwidth
    ensures buf.Valid() && (ok ==> Filled(v, buf, output, f, 16, swap, old(buf.outputsamples)))
    ensures !ok ==> Stuck(v, Differences(buf.input, buf.diff0), Slots(f + 1) - 1)
    ensures output[..16 * f] == old(output[..16 * f])
    ensures f == 0 ==> output[1] == old(output[1])
  {
    hide BitWidth, Differences, WordDiffs, Nibble, Order, Greedy, FrameDiffs, Reach, Stuck, Filled, DiffBuffer.Holds;
    ghost var ds, was := Differences(buf.input, buf.diff0), buf.outputsamples;
    var widx := FirstSlot(f);
    FilledStart(v, buf, output, f, swap);
    while widx < 16 && buf.outputsamples < |buf.input|
      invariant FirstSlot(f) <= widx <= 16 && buf.Valid() && Filled(v, buf, output, f, widx, swap, was)
      invariant widx > FirstSlot(f) ==> was < buf.outputsamples
      invariant forall i :: 0 <= i < 16 * f ==> output[i] == old(output[i])
      invariant f == 0 ==> output[1] == old(output[1])
      decreases 16 - widx
    {
      ok := FillSlot(v, buf, output, f, widx, swap, was);
      if !ok {
        ReachStays(v, ds, Slots(f) + (widx - FirstSlot(f)), Slots(f + 1) - 1);
        return;
      }
      widx := widx + 1;
    }
    FilledUp(v, buf, output, f, widx, swap, was);
    assert output[..16 * f] == old(output[..16 * f]);
    ok := true;
  }

  lemma FilledStart(v: Version, buf: DiffBuffer, output: array<bv32>, f: nat, swap: bool)
    requires buf.Valid() && buf.capacity == Densest(v) && buf.diffcount < Densest(v) && 16 * f + 16 <= output.Length
    requires buf.outputsamples == Reach(v, Differences(buf.input, buf.diff0), Slots(f))
    requires forall s :: 0 <= s < 16 ==> Nibble(output[16 * f], s) == 0
    ensures Filled(v, buf, output, f, FirstSlot(f), swap, buf.outputsamples)
  {
    hide BitWidth, Differences, WordDiffs, Nibble, Order, Greedy, FrameDiffs, Reach, Stuck;
    FrameStarts(v, output[16 * f], output[16 * f..16 * f + 16], FirstSlot(f), swap,
                Differences(buf.input, buf.diff0), buf.outputsamples);
  }

  /** Once the data is exhausted the remaining slots of the frame stay empty. */
  lemma FilledUp(v: Version, buf: DiffBuffer, output: array<bv32>, f: nat, widx: nat, swap: bool, was: nat)
    requires buf.Valid() && 16 * f + 16 <= output.Length && FirstSlot(f) <= widx <= 16
    requires Filled(v, buf, output, f, widx, swap, was) && (widx < 16 ==> was < buf.outputsamples == |buf.input|)
    ensures Filled(v, buf, output, f, 16, swap, was)
  {
    hide BitWidth, Differences, WordDiffs, Nibble, Order, Greedy, FrameDiffs, Reach, Stuck;
    if widx < 16 {
      var ds, w := Differences(buf.input, buf.diff0), Slots(f) + (widx - FirstSlot(f));
      ReachStays(v, ds, w, Slots(f + 1) - 1);
      ReachStays(v, ds, w, Slots(f + 1));
      ReachStep(v, ds, Slots(f + 1) - 1);
      FrameDiffsUnset(v, output[16 * f], output[16 * f..16 * f + 16], FirstSlot(f), widx, 16, swap);
    }
  }

  /** One frame: clear it, set X0 in the first, fill the slots, put the control word in stream order. */
  method EncodeFrame(v: Version, buf: DiffBuffer, output: array<bv32>, f: nat, swap: bool) returns (ok: bool)
    requires buf.Valid() && buf.capacity == Densest(v) && buf.diffcount < Densest(v) && Apart(buf, output)
    requires 16 * f + 16 <= output.Length && buf.outputsamples < |buf.input|
    requires buf.outputsamples == Reach(v, Differences(buf.input, buf.diff0), Slots(f))
    modifies output, buf`diffcount, buf`packedsamples, buf`inputidx, buf`outputsamples, buf.diffs, buf.bitwidth
    ensures buf.Valid() && (ok ==> buf.diffcount < Densest(v))
    ensures output[..16 * f] == old(output[..16 * f])
    ensures var ds := Differences(buf.input, buf.diff0);
            if ok then
              && buf.outputsamples == Reach(v, ds, Slots(f + 1)) && !Stuck(v, ds, Slots(f + 1) - 1)
              && old(buf.outputsamples) < buf.outputsamples
              && DiffsOfFrame(v, output[..], f, swap) == Some(ds[old(buf.outputsamples)..buf.outputsamples])
            else Stuck(v, ds, Slots(f + 1) - 1)
    ensures ok && f == 0 ==> Order(output[1], swap) == buf.input[0]
  {
    hide BitWidth, Differences, WordDiffs, Nibble, Order, Greedy, FrameDiffs, Reach, Stuck;
    var base := 16 * f;
    ClearFrame(output, base);
    if f == 0 {
      output[base + 1] := Order(buf.input[0], swap);
      OrderTwice(buf.input[0], swap);
    }
    ok := FillFrame(v, buf, output, f, swap);
    if ok {
      ghost var ctrl, body := output[base], output[base..base + 16];
      output[base] := Order(output[base], swap);
      OrderTwice(ctrl, swap);
      FrameDiffsFrame(v, ctrl, ctrl, body, output[base..base + 16], FirstSlot(f), 16, swap);
      assert output[..][base..base + 16] == output[base..base + 16];
    }
  }

  method ClearFrame(output: array<bv32>, base: nat)
    requires base + 16 <= output.Length
    modifies output
    ensures output[..base] == old(output[..base]) && forall s :: 0 <= s < 16 ==> Nibble(output[base], s) == 0
  {
    forall i | base <= i < base + 16 {
      output[i] := 0;
    }
  }

  /** msr_encode_steim2. A caller gives at least one frame's room, as msr_pack_data checks. */
  method EncodeSteim(v: Version, input: seq<bv32>, output: array<bv32>, outputlength: nat, diff0: bv32, swap: bool)
    returns (samples: int, byteswritten: nat)
    requires outputlength <= 4 * output.Length && (input != [] ==> outputlength >= 64)
    modifies output
    ensures input == [] ==> samples == 0 && byteswritten == 0
    ensures input != [] ==>
              var ds, slots := Differences(input, diff0), Slots(outputlength / 64);
              if Stuck(v, ds, slots - 1) then samples == -1
              else
                && samples == Reach(v, ds, slots)
                && byteswritten % 64 == 0 && byteswritten <= outputlength
                && Carries(v, output[..], byteswritten / 64, swap, input, diff0, samples)
                && (samples < |input| ==> byteswritten / 64 == outputlength / 64)
  {
    hide *;
    if input == [] {
      return 0, 0;
    }
    var maxframes := outputlength / 64;
    DensestBounds(v);
    var buf := new DiffBuffer(input, diff0, Densest(v));
    ghost var ds := Differences(input, diff0);
    NothingYet(v, output[..], swap, ds);
    var f := 0;
    while f < maxframes && buf.outputsamples < |input|
      invariant f <= maxframes && buf.Valid() && buf.diffcount < Densest(v) && buf.outputsamples <= |input|
      invariant buf.outputsamples == Reach(v, ds, Slots(f))
                && (f > 0 ==> buf.outputsamples > 0 && !Stuck(v, ds, Slots(f) - 1))
      invariant StreamDiffs(v, output[..], f, swap) == Some(ds[..buf.outputsamples])
      invariant f > 0 ==> DiffsOfFrame(v, output[..], 0, swap) != Some([]) && Order(output[1], swap) == input[0]
      decreases maxframes - f
    {
      ghost var ws, at := output[..], buf.outputsamples;
      FreshApart(buf, output);
      SlotsGrow(f, f + 1);
      var ok := EncodeFrame(v, buf, output, f, swap);
      buf.Bounds();
      if !ok {
        StuckLater(v, ds, f, maxframes);
        return -1, 0;
      }
      assert ws[..16 * f] == output[..16 * f] == output[..][..16 * f];
      StreamGrows(v, ws, output[..], f, swap, ds, at, buf.outputsamples);
      f := f + 1;
    }
    if f < maxframes {
      NothingMore(v, ds, f, maxframes);
    }
    ghost var ws := output[..];
    output[2] := Order(input[buf.outputsamples - 1], swap);
    assert output[..] == ws[2 := output[2]];
    CarriesWithXn(v, ws, f, swap, input, diff0, buf.outputsamples);
    samples, byteswritten := buf.outputsamples, 64 * f;
  }

  lemma DensestBounds(v: Version)
    ensures 1 < Densest(v)
  {}

  lemma FreshApart(buf: DiffBuffer, output: array<bv32>)
    requires output as object != buf.diffs && output as object != buf.bitwidth
    ensures Apart(buf, output)
  {}

  lemma NothingYet(v: Version, ws: seq<bv32>, swap: bool, ds: seq<bv32>)
    ensures Slots(0) == Reach(v, ds, 0) == 0 && StreamDiffs(v, ws, 0, swap) == Some(ds[..0])
  {
    assert ds[..0] == [];
  }

  lemma SlotsGrow(f: nat, g: nat)
    requires f < g
    ensures 0 <= Slots(f) < Slots(f + 1) <= Slots(g)
  {}

  lemma StuckLater(v: Version, ds: seq<bv32>, f: nat, maxframes: nat)
    requires f < maxframes && Slots(f + 1) > 0 && Stuck(v, ds, Slots(f + 1) - 1)
    ensures Slots(maxframes) > 0 && Stuck(v, ds, Slots(maxframes) - 1)
  {
    hide *;
    SlotsGrow(f, maxframes);
    ReachStays(v, ds, Slots(f + 1) - 1, Slots(maxframes) - 1);
  }

  lemma StuckMeansLeft(v: Version, ds: seq<bv32>, w: nat)
    ensures Stuck(v, ds, w) ==> Reach(v, ds, w) < |ds|
  {
    hide Reach, Greedy;
  }

  /** With the data used up, further frames would hold nothing. */
  lemma NothingMore(v: Version, ds: seq<bv32>, f: nat, maxframes: nat)
    requires f < maxframes && Reach(v, ds, Slots(f)) == |ds|
    ensures Slots(maxframes) > 0 && !Stuck(v, ds, Slots(maxframes) - 1) && Reach(v, ds, Slots(maxframes)) == |ds|
  {
    hide *;
    SlotsGrow(f, maxframes);
    StuckMeansLeft(v, ds, Slots(maxframes) - 1);
    ReachStays(v, ds, Slots(f), Slots(maxframes) - 1);
    ReachStays(v, ds, Slots(f), Slots(maxframes));
  }

  /** Storing the last sample completes the stream. */
  lemma CarriesWithXn(v: Version, ws: seq<bv32>, n: nat, swap: bool, xs: seq<bv32>, diff0: bv32, k: nat)
    requires 0 < n && 16 * n <= |ws| && 0 < k <= |xs| && StreamDiffs(v, ws, n, swap)
             == Some(Differences(xs, diff0)[..k])
    requires DiffsOfFrame(v, ws, 0, swap) != Some([]) && Order(ws[1], swap) == xs[0]
    ensures Carries(v, ws[2 := Order(xs[k - 1], swap)], n, swap, xs, diff0, k)
  {
    hide Differences, StreamDiffs, DiffsOfFrame, Order;
    OrderTwice(xs[k - 1], swap);
    StreamDiffsXn(v, ws, n, swap, Order(xs[k - 1], swap));
  }
}
