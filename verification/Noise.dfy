/** Payload bits flipped on the air: how many of them a deinterleaved block meets, and where. */
module Noise {
  import opened Bits
  import opened Interleaver

  function Weight(e: seq<bool>): nat {
    if e == [] then 0 else Weight(e[..|e| - 1]) + Count(e[|e| - 1])
  }

  /** Bits flipped over several bursts. */
  function Flips(noise: seq<seq<bool>>): nat {
    if noise == [] then 0 else Flips(noise[..|noise| - 1]) + Weight(noise[|noise| - 1])
  }

  ghost predicate ValidNoise(noise: seq<seq<bool>>, n: nat) {
    |noise| == n && forall b :: 0 <= b < n ==> |noise[b]| == PAYLOAD_BITS
  }

  /** A payload as heard; the stealing flags are taken to arrive. */
  function Noisy(burst: BurstPayload, noise: seq<bool>): (r: BurstPayload)
    requires burst.Valid() && |noise| == PAYLOAD_BITS
    ensures r.Valid()
  {
    BurstPayload(Xor(burst.data, noise), burst.hl, burst.hu)
  }

  function NoisyBursts(bursts: seq<BurstPayload>, noise: seq<seq<bool>>): (r: seq<BurstPayload>)
    requires ValidBursts(bursts, |noise|) && ValidNoise(noise, |noise|)
    ensures ValidBursts(r, |noise|)
  {
    seq(|noise|, b requires 0 <= b < |noise| => Noisy(bursts[b], noise[b]))
  }

  lemma QuietIsUnchanged(burst: BurstPayload)
    requires burst.Valid()
    ensures Noisy(burst, Zeros(PAYLOAD_BITS)) == burst
  {
    assert Xor(burst.data, Zeros(PAYLOAD_BITS)) == burst.data;
  }

  // ----- Weights -----

  /** A word and the same word with `e` added differ in as many bits as `e` has ones. */
  lemma {:induction false} AddedErrorsAreDistance(a: seq<bool>, e: seq<bool>)
    requires |a| == |e|
    ensures Hamming(a, Xor(a, e)) == Weight(e)
  {
    if e != [] {
      var n := |e| - 1;
      AddedErrorsAreDistance(a[..n], e[..n]);
      HammingConcat(a[..n], Xor(a[..n], e[..n]), [a[n]], [a[n] != e[n]]);
      assert a == a[..n] + [a[n]] && Xor(a, e) == Xor(a[..n], e[..n]) + [a[n] != e[n]];
      assert Hamming([a[n]], [a[n] != e[n]]) == Count(e[n]);
    }
  }

  lemma {:induction false} WeightConcat(a: seq<bool>, b: seq<bool>)
    ensures Weight(a + b) == Weight(a) + Weight(b)
  {
    if b == [] {
      assert a + b == a;
    } else {
      var n := |b| - 1;
      assert (a + b)[..|a| + n] == a + b[..n];
      WeightConcat(a, b[..n]);
    }
  }

  /** Errors on the first `n` bits are counted there. */
  lemma ErrorsInFront(a: seq<bool>, e: seq<bool>, n: nat)
    requires |a| == |e| && n <= |e|
    ensures Hamming(a[..n], Xor(a, e)[..n]) == Weight(e[..n]) <= Weight(e)
  {
    AddedErrorsAreDistance(a[..n], e[..n]);
    assert Xor(a, e)[..n] == Xor(a[..n], e[..n]);
    WeightConcat(e[..n], e[n..]);
    assert e == e[..n] + e[n..];
  }

  /** Errors of weight zero change nothing. */
  lemma NoErrors(a: seq<bool>, e: seq<bool>)
    requires |a| == |e| && Weight(e) == 0
    ensures Xor(a, e) == a
  {
    AddedErrorsAreDistance(a, e);
    HammingZero(a, Xor(a, e));
  }

  lemma {:induction false} ClearOne(e: seq<bool>, i: nat)
    requires i < |e|
    ensures Weight(e) == Weight(e[i := false]) + Count(e[i])
  {
    var n := |e| - 1;
    var c := e[i := false];
    if i == n {
      assert c[..n] == e[..n];
    } else {
      ClearOne(e[..n], i);
      assert c[..n] == e[..n][i := false];
    }
  }

  lemma {:induction false} ClearFlip(noise: seq<seq<bool>>, b: nat, j: nat)
    requires b < |noise| && j < |noise[b]|
    ensures Flips(noise) == Flips(noise[b := noise[b][j := false]]) + Count(noise[b][j])
  {
    var n := |noise| - 1;
    var c := noise[b := noise[b][j := false]];
    if b == n {
      ClearOne(noise[b], j);
      assert c[..n] == noise[..n];
    } else {
      ClearFlip(noise[..n], b, j);
      assert c[..n] == noise[..n][b := noise[..n][b][j := false]];
    }
  }

  lemma {:induction false} WeightOfZeros(e: seq<bool>)
    requires forall j :: 0 <= j < |e| ==> !e[j]
    ensures Weight(e) == 0
  {
    if e != [] {
      WeightOfZeros(e[..|e| - 1]);
    }
  }

  lemma {:induction false} NothingFlipped(noise: seq<seq<bool>>)
    requires forall b, j :: 0 <= b < |noise| && 0 <= j < |noise[b]| ==> !noise[b][j]
    ensures Flips(noise) == 0
  {
    if noise != [] {
      WeightOfZeros(noise[|noise| - 1]);
      NothingFlipped(noise[..|noise| - 1]);
    }
  }

  // ----- Gathering -----

  /** Different places of the bursts, one for each bit of `e`, which reads the noise there. */
  ghost predicate Gathers(noise: seq<seq<bool>>, places: seq<(nat, nat)>, e: seq<bool>) {
    && |places| == |e|
    && (forall k :: 0 <= k < |e| ==> places[k].0 < |noise| && places[k].1 < |noise[places[k].0]| &&
                                     e[k] == noise[places[k].0][places[k].1])
    && (forall k, l :: 0 <= k < l < |e| ==> places[k] != places[l])
  }

  /** Every flipped bit is read. */
  ghost predicate Covers(noise: seq<seq<bool>>, places: seq<(nat, nat)>) {
    forall b, j :: 0 <= b < |noise| && 0 <= j < |noise[b]| && noise[b][j] ==> (b, j) in places
  }

  /** Reading different places meets at most every flip, and exactly every flip when all are read. */
  lemma {:induction false} GatheredWeight(noise: seq<seq<bool>>, places: seq<(nat, nat)>, e: seq<bool>)
    requires Gathers(noise, places, e)
    ensures Weight(e) <= Flips(noise)
    ensures Covers(noise, places) ==> Weight(e) == Flips(noise)
    decreases |e|
  {
    if e == [] {
      if Covers(noise, places) {
        NothingFlipped(noise);
      }
    } else {
      var n := |e| - 1;
      var (b, j) := places[n];
      var rest := noise[b := noise[b][j := false]];
      ClearFlip(noise, b, j);
      assert Gathers(rest, places[..n], e[..n]);
      if Covers(noise, places) {
        RestIsCovered(noise, places);
      }
      GatheredWeight(rest, places[..n], e[..n]);
    }
  }

  lemma RestIsCovered(noise: seq<seq<bool>>, places: seq<(nat, nat)>)
    requires places != [] && Covers(noise, places)
    requires var p := places[|places| - 1]; p.0 < |noise| && p.1 < |noise[p.0]|
    ensures var p := places[|places| - 1];
            Covers(noise[p.0 := noise[p.0][p.1 := false]], places[..|places| - 1])
  {
    var n := |places| - 1;
    var (b, j) := places[n];
    var rest := noise[b := noise[b][j := false]];
    forall c, i | 0 <= c < |rest| && 0 <= i < |rest[c]| && rest[c][i]
      ensures (c, i) in places[..n]
    {
      assert noise[c][i] && (c, i) != places[n];
      assert (c, i) in places;
      assert places == places[..n] + [places[n]];
    }
  }

  // ----- Through the deinterleavers -----

  /** The flips as the diagonal deinterleaver lays them over the block. */
  function DiagonalNoise(noise: seq<seq<bool>>): (e: seq<bool>)
    requires ValidNoise(noise, 8)
    ensures |e| == CODED_BITS
  {
    seq(CODED_BITS, k requires 0 <= k < CODED_BITS => noise[k % 8][Position(k)])
  }

  function RectangularNoise(noise: seq<seq<bool>>): (e: seq<bool>)
    requires ValidNoise(noise, 4)
    ensures |e| == CODED_BITS
  {
    seq(CODED_BITS, k requires 0 <= k < CODED_BITS => noise[k % 4][Position(k)])
  }

  lemma DiagonalHearsNoise(bursts: seq<BurstPayload>, noise: seq<seq<bool>>)
    requires ValidBursts(bursts, 8) && ValidNoise(noise, 8)
    ensures Undiagonal(NoisyBursts(bursts, noise)) == Xor(Undiagonal(bursts), DiagonalNoise(noise))
  {
    hide Position;
  }

  lemma RectangularHearsNoise(bursts: seq<BurstPayload>, noise: seq<seq<bool>>)
    requires ValidBursts(bursts, 4) && ValidNoise(noise, 4)
    ensures Unrectangular(NoisyBursts(bursts, noise)) == Xor(Unrectangular(bursts), RectangularNoise(noise))
  {
    hide Position;
  }

  /** A block meets at most the flips of its eight bursts; the others fall on its neighbours. */
  lemma DiagonalNoiseWeighs(noise: seq<seq<bool>>)
    requires ValidNoise(noise, 8)
    ensures Weight(DiagonalNoise(noise)) <= Flips(noise)
  {
    hide Position, Weight, Flips;
    var places := seq(CODED_BITS, k requires 0 <= k < CODED_BITS => (k % 8, Position(k)));
    forall k, l | 0 <= k < l < CODED_BITS
      ensures places[k] != places[l]
    {
      PositionsAreDistinct(k, l, 8);
    }
    GatheredWeight(noise, places, DiagonalNoise(noise));
  }

  /** The rectangular deinterleaver keeps the number of flips. */
  lemma RectangularNoiseWeighs(noise: seq<seq<bool>>)
    requires ValidNoise(noise, 4)
    ensures Weight(RectangularNoise(noise)) == Flips(noise)
  {
    hide Position, Weight, Flips;
    var places := seq(CODED_BITS, k requires 0 <= k < CODED_BITS => (k % 4, Position(k)));
    forall k, l | 0 <= k < l < CODED_BITS
      ensures places[k] != places[l]
    {
      PositionsAreDistinct(k, l, 4);
    }
    forall b, j | 0 <= b < 4 && 0 <= j < PAYLOAD_BITS
      ensures (b, j) in places
    {
      RectangularOrigin(b, j);
      assert places[Origin(b + 4 * (j % 2), j / 2)] == (b, j);
    }
    GatheredWeight(noise, places, RectangularNoise(noise));
  }
}
