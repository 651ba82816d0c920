/** The sliding difference buffer that both Steim encoders pack from. */
module SteimBuffer {
  import opened SteimFormat

  class DiffBuffer {
    const input: seq<bv32>
    const diff0: bv32
    const capacity: nat
    const diffs: array<bv32>
    const bitwidth: array<nat>
    var diffcount: nat       // differences waiting in the buffer
    var packedsamples: nat   // where the waiting differences start
    var inputidx: nat        // differences computed from the input so far
    var outputsamples: nat   // differences already packed

    /** Packed, buffered and unread differences add up to the sample count, and the buffer holds the next ones. */
    ghost predicate Valid()
      reads this, diffs, bitwidth
    {
      && input != [] && 0 < capacity && diffs.Length == bitwidth.Length == capacity && diffs as object != bitwidth
      && packedsamples + diffcount <= capacity
      && outputsamples + diffcount == inputidx + 1 <= |input|
      && Holds(packedsamples, outputsamples, diffcount)
    }

    /** Positions at..at + n hold the differences from index from on, with their widths. */
    ghost predicate Holds(at: nat, from: nat, n: nat)
      requires at + n <= diffs.Length == bitwidth.Length && from + n <= |input|
      reads diffs, bitwidth
    {
      forall j :: at <= j < at + n ==>
        diffs[j] == Differences(input, diff0)[j - at + from] && bitwidth[j] == BitWidth(diffs[j])
    }

    constructor (input: seq<bv32>, diff0: bv32, capacity: nat)
      requires input != [] && 0 < capacity
      ensures Valid() && fresh(diffs) && fresh(bitwidth)
      ensures this.input == input && this.diff0 == diff0 && this.capacity == capacity
      ensures outputsamples == 0 && diffcount == 1
    {
      this.input := input;
      this.diff0 := diff0;
      this.capacity := capacity;
      diffs := new bv32[capacity](_ => 0);
      bitwidth := new nat[capacity](_ => 0);
      diffcount, packedsamples, inputidx, outputsamples := 1, 0, 0, 0;
      new;
      diffs[0] := diff0;
      bitwidth[0] := BitWidth(diff0);
      hide BitWidth;
    }

    lemma Bounds()
      requires Valid()
      ensures input != [] && outputsamples + diffcount <= |input|
      ensures packedsamples + diffcount <= capacity == diffs.Length == bitwidth.Length
    {
      hide Holds;
    }

    /** Move the waiting differences to the front, then read as many more as fit. */
    method Refill()
      requires Valid() && diffcount < capacity
      modifies this`diffcount, this`packedsamples, this`inputidx, diffs, bitwidth
      ensures Valid() && packedsamples == 0
      ensures diffcount == if |input| - outputsamples < capacity then |input| - outputsamples else capacity
    {
      Shift();
      while diffcount < capacity && inputidx < |input| - 1
        invariant Valid() && packedsamples == 0
        decreases |input| - inputidx
      {
        ReadNext();
      }
    }

    lemma DifferenceAt(i: nat)
      requires 0 < i < |input|
      ensures Differences(input, diff0)[i] == Minus(input[i], input[i - 1])
    {
      hide Minus;
    }

    method ReadNext()
      requires Valid() && packedsamples == 0 && diffcount < capacity && inputidx < |input| - 1
      modifies this`diffcount, this`inputidx, diffs, bitwidth
      ensures Valid() && diffcount == old(diffcount) + 1 && inputidx == old(inputidx) + 1
    {
      hide BitWidth, Differences, Minus;
      var d := Minus(input[inputidx + 1], input[inputidx]);
      DifferenceAt(inputidx + 1);
      diffs[diffcount] := d;
      bitwidth[diffcount] := BitWidth(d);
      diffcount, inputidx := diffcount + 1, inputidx + 1;
    }

    method Shift()
      requires Valid()
      modifies this`packedsamples, diffs, bitwidth
      ensures Valid() && packedsamples == 0
    {
      hide BitWidth, Differences;
      ghost var d, b := diffs[..], bitwidth[..];
      for idx := 0 to diffcount
        invariant packedsamples == old(packedsamples)
        invariant forall j :: 0 <= j < idx ==> diffs[j] == d[packedsamples + j] && bitwidth[j] == b[packedsamples + j]
        invariant forall j :: packedsamples + idx <= j < capacity ==> diffs[j] == d[j] && bitwidth[j] == b[j]
      {
        diffs[idx] := diffs[packedsamples + idx];
        bitwidth[idx] := bitwidth[packedsamples + idx];
      }
      packedsamples := 0;
    }

    /** The waiting differences, once they are at the front. */
    ghost function Waiting(): (r: seq<bv32>)
      requires Valid() && packedsamples == 0
      reads this, diffs, bitwidth
      ensures |r| == diffcount
      ensures r == Differences(input, diff0)[outputsamples..outputsamples + diffcount]
      ensures forall i :: 0 <= i < diffcount ==> bitwidth[i] == BitWidth(r[i])
    {
      diffs[..diffcount]
    }

    /** Count the first n waiting differences as packed. */
    method Consume(n: nat)
      requires Valid() && packedsamples == 0 && n <= diffcount
      modifies this`diffcount, this`packedsamples, this`outputsamples
      ensures Valid() && outputsamples == old(outputsamples) + n && diffcount == old(diffcount) - n
              && packedsamples == n
    {
      diffcount, outputsamples, packedsamples := diffcount - n, outputsamples + n, n;
    }
  }
}
