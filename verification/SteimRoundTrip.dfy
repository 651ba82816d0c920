/** What the two Steim codecs promise together. */
module SteimRoundTrip {
  import opened SteimFormat
  import opened SteimShapes
  import opened SteimEncoder
  import opened SteimDecoder

  /** Encoding fails exactly where Steim-2 meets, within the room it has, a difference of more than 30 bits;
      otherwise it packs some first k samples, and decoding any count of them up to k from the bytes
      written gives exactly those samples. k is less than the number of samples only when every frame is
      used, and decoding all k passes the integrity check against Xn. */
  method EncodeDecode(v: Version, input: seq<bv32>, maxbytes: nat, diff0: bv32, swap: bool, count: nat)
    returns (k: int, frames: nat, decoded: seq<bv32>, intact: bool)
    requires input != [] && 64 <= maxbytes
    ensures var ds, slots := Differences(input, diff0), Slots(maxbytes / 64);
            k == -1 <==> v.Steim2? && Reach(v, ds, slots - 1) < |ds| && BitWidth(ds[Reach(v, ds, slots - 1)]) > 30
    ensures k != -1 ==>
              && 1 <= k <= |input| && frames <= maxbytes / 64
              && (k < |input| ==> frames == maxbytes / 64)
              && (0 < count <= k ==> decoded == input[..count] && (count == k ==> intact))
    ensures Representable(v, Differences(input, diff0)) ==> k >= 1
  {
    hide *;
    SlotsGrow(0, maxbytes / 64);
    var output := new bv32[(maxbytes + 3) / 4](_ => 0);
    k, frames := EncodeSteim(v, input, output, maxbytes, diff0, swap);
    frames := frames / 64;
    decoded, intact := [], true;
    if k != -1 {
      CarriesGives(v, output[..], frames, swap, input, diff0, k);
    }
    StuckMeans(v, Differences(input, diff0), Slots(maxbytes / 64) - 1);
    NeverTooWide(v, Differences(input, diff0), Reach(v, Differences(input, diff0), Slots(maxbytes / 64) - 1));
    if 0 < count <= k {
      var back := new bv32[count](_ => 0);
      DecodedCarried(v, output[..], frames, swap, input, diff0, k, count);
      var n;
      n, intact := DecodeSteim(v, output[..], 64 * frames, count, back, 4 * count, swap);
      decoded := back[..];
      assert back[..n] == decoded;
    }
  }

  lemma NeverTooWide(v: Version, ds: seq<bv32>, i: nat)
    requires i <= |ds|
    ensures Representable(v, ds) && v.Steim2? && i < |ds| ==> BitWidth(ds[i]) <= 30
  {
    hide BitWidth;
  }

  /** No stream of n frames holds as many samples as the record packer asks for before it packs without
      being told to flush, so an unflushed record always uses all its frames. */
  lemma CapacityBelowMaximum(v: Version, ws: seq<bv32>, n: nat, swap: bool, xs: seq<bv32>, diff0: bv32, k: nat)
    requires 16 * n <= |ws| && Carries(v, ws, n, swap, xs, diff0, k)
    ensures k < n * (if v.Steim1? then 60 else 105)
  {
    hide StreamDiffs, DiffsOfFrame, Order, Differences;
    assert |StreamDiffs(v, ws, n, swap).value| == k;
  }
}
