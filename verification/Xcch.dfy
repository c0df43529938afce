/** One control block over four ciphered normal bursts, and back. */
module Xcch {
  import opened Bits
  import opened Octets
  import opened Interleaver
  import opened FrameNumbers
  import opened A5
  import opened Noise
  import C = ControlCodec

  datatype CipherContext = CipherContext(algorithm: Algorithm, key: seq<bv8>, direction: Direction) {
    predicate Valid() {
      |key| == KEY_OCTETS
    }
  }

  datatype DecodedBlock = DecodedBlock(data: seq<bv8>, good: bool)

  function NothingDecoded(): DecodedBlock {
    DecodedBlock(seq(C.CONTROL_OCTETS, _ => 0), false)
  }

  /** Training sequence code 2. */
  const TRAINING: seq<bool> :=
    [false, true, false, false, false, false, true, true, true, false, true, true, true,
     false, true, false, false, true, false, false, false, false, true, true, true, false]

  /** In how many of its sixteen middle places the sequence differs from itself moved by `shift`. */
  function Differences(shift: nat): nat
    requires shift <= 5
  {
    Count(TRAINING[5] != TRAINING[5 + shift]) + Count(TRAINING[6] != TRAINING[6 + shift]) +
    Count(TRAINING[7] != TRAINING[7 + shift]) + Count(TRAINING[8] != TRAINING[8 + shift]) +
    Count(TRAINING[9] != TRAINING[9 + shift]) + Count(TRAINING[10] != TRAINING[10 + shift]) +
    Count(TRAINING[11] != TRAINING[11 + shift]) + Count(TRAINING[12] != TRAINING[12 + shift]) +
    Count(TRAINING[13] != TRAINING[13 + shift]) + Count(TRAINING[14] != TRAINING[14 + shift]) +
    Count(TRAINING[15] != TRAINING[15 + shift]) + Count(TRAINING[16] != TRAINING[16 + shift]) +
    Count(TRAINING[17] != TRAINING[17 + shift]) + Count(TRAINING[18] != TRAINING[18 + shift]) +
    Count(TRAINING[19] != TRAINING[19 + shift]) + Count(TRAINING[20] != TRAINING[20 + shift])
  }

  /** What makes it a training sequence: its last ten bits repeat its first ten, and its sixteen middle bits differ
      from themselves moved by one to five places in exactly half of the places. */
  lemma TrainingCanBeLocated()
    ensures |TRAINING| == 26 && TRAINING[..10] == TRAINING[16..]
    ensures Differences(1) == Differences(2) == Differences(3) == Differences(4) == Differences(5) == 8
  {
  }

  /** The payload under the keystream of its frame. */
  function Ciphered(payload: BurstPayload, c: CipherContext, frame: nat): (r: BurstPayload)
    requires payload.Valid() && c.Valid() && !c.algorithm.A52?
    ensures r.Valid()
  {
    var stream := KeyStream(c.algorithm, c.key, CountFromFrameNumber(frame), c.direction);
    BurstPayload(Xor(payload.data, stream.bits), payload.hl, payload.hu)
  }

  /** One burst from clear payload to deciphered payload. */
  function Carried(payload: BurstPayload, frame: nat, tx: CipherContext, rx: CipherContext): (r: BurstPayload)
    requires payload.Valid() && tx.Valid() && rx.Valid() && !tx.algorithm.A52? && !rx.algorithm.A52?
    ensures r.Valid()
  {
    Ciphered(UnpackNormalBurst(PackNormalBurst(Ciphered(payload, tx, frame), TRAINING)), rx, frame)
  }

  function CarriedBlock(bursts: seq<BurstPayload>, frames: seq<nat>, tx: CipherContext, rx: CipherContext)
    : (r: seq<BurstPayload>)
    requires ValidBursts(bursts, 4) && |frames| == 4
    requires tx.Valid() && rx.Valid() && !tx.algorithm.A52? && !rx.algorithm.A52?
    ensures ValidBursts(r, 4)
  {
    seq(4, i requires 0 <= i < 4 => Carried(bursts[i], frames[i], tx, rx))
  }

  ghost function Transported(clear: seq<bv8>, frames: seq<nat>, tx: CipherContext, rx: CipherContext): DecodedBlock
    requires |clear| == C.CONTROL_OCTETS && |frames| == 4 && tx.Valid() && rx.Valid()
  {
    hide Carried, Rectangular, Unrectangular, C.EncodeControl, C.DecodeControl;
    if tx.algorithm.A52? || rx.algorithm.A52? then NothingDecoded()
    else
      var bursts := Rectangular(C.EncodeControl(Unpack(clear)));
      var r := C.DecodeControl(Unrectangular(CarriedBlock(bursts, frames, tx, rx)));
      DecodedBlock(Pack(r.bits), r.good)
  }

  method CipherPayload(payload: BurstPayload, c: CipherContext, frame: nat) returns (ok: bool, result: BurstPayload)
    requires payload.Valid() && c.Valid()
    ensures ok == !c.algorithm.A52?
    ensures ok ==> result == Ciphered(payload, c, frame)
  {
    hide KeyStream, CountFromFrameNumber;
    var data := new bool[PAYLOAD_BITS](i requires 0 <= i < PAYLOAD_BITS => payload.data[i]);
    assert data[..] == payload.data;
    ok := Apply(data, c.algorithm, c.key, CountFromFrameNumber(frame), c.direction);
    result := BurstPayload(data[..], payload.hl, payload.hu);
  }

  method Transport(clear: seq<bv8>, frames: seq<nat>, tx: CipherContext, rx: CipherContext)
    returns (result: DecodedBlock)
    requires |clear| == C.CONTROL_OCTETS && |frames| == 4 && tx.Valid() && rx.Valid()
    ensures result == Transported(clear, frames, tx, rx)
  {
    hide Ciphered, Rectangular, Unrectangular, PackNormalBurst, UnpackNormalBurst, C.EncodeControl, C.DecodeControl;
    var information := C.UnpackControl(clear);
    var coded := C.EncodeControlBlock(information);
    var start := InterleaveSacch(coded);
    var bursts := new BurstPayload[4](i requires 0 <= i < 4 => start[i]);
    for index := 0 to 4
      invariant index > 0 ==> !tx.algorithm.A52? && !rx.algorithm.A52?
      invariant forall i :: index <= i < 4 ==> bursts[i] == start[i]
      invariant forall i :: 0 <= i < index ==> bursts[i] == Carried(start[i], frames[i], tx, rx)
    {
      var sent, ciphered := CipherPayload(bursts[index], tx, frames[index]);
      if !sent {
        return NothingDecoded();
      }
      var air := PackNormalBurst(ciphered, TRAINING);
      var heard, deciphered := CipherPayload(UnpackNormalBurst(air), rx, frames[index]);
      if !heard {
        return NothingDecoded();
      }
      bursts[index] := deciphered;
    }
    assert bursts[..] == CarriedBlock(start, frames, tx, rx);
    var received := DeinterleaveSacch(bursts[..]);
    var decoded := C.DecodeControlBlock(received);
    var data := C.PackControl(decoded.bits);
    return DecodedBlock(data, decoded.good);
  }

  /** Whatever the two contexts are, each burst leaves under the keystream of its own frame and meets that of the same
      frame at the other end; the flags are neither ciphered nor changed. */
  lemma EachBurstHasItsOwnStreams(bursts: seq<BurstPayload>, frames: seq<nat>, tx: CipherContext, rx: CipherContext,
                                  i: nat, j: nat)
    requires ValidBursts(bursts, 4) && |frames| == 4 && i < 4 && j < PAYLOAD_BITS
    requires tx.Valid() && rx.Valid() && !tx.algorithm.A52? && !rx.algorithm.A52?
    ensures var sent := KeyStream(tx.algorithm, tx.key, CountFromFrameNumber(frames[i]), tx.direction);
            var met := KeyStream(rx.algorithm, rx.key, CountFromFrameNumber(frames[i]), rx.direction);
            var r := CarriedBlock(bursts, frames, tx, rx)[i];
            r.data[j] == ((bursts[i].data[j] != sent.bits[j]) != met.bits[j]) &&
            r.hl == bursts[i].hl && r.hu == bursts[i].hu
  {
    hide KeyStream, CountFromFrameNumber, PackNormalBurst, UnpackNormalBurst;
    NormalBurstRoundTrip(Ciphered(bursts[i], tx, frames[i]), TRAINING);
  }

  lemma CarriedIsIdentity(payload: BurstPayload, frame: nat, c: CipherContext)
    requires payload.Valid() && c.Valid() && !c.algorithm.A52?
    ensures Carried(payload, frame, c, c) == payload
  {
    hide KeyStream, CountFromFrameNumber;
    var stream := KeyStream(c.algorithm, c.key, CountFromFrameNumber(frame), c.direction);
    NormalBurstRoundTrip(Ciphered(payload, c, frame), TRAINING);
    XorTwice(payload.data, stream.bits);
  }

  /** The ciphered path is the identity: for every block, frames, key and direction, equal A5/0 or A5/1 contexts
      return the same 23 octets, good. */
  lemma TransportIsIdentity(clear: seq<bv8>, frames: seq<nat>, c: CipherContext)
    requires |clear| == C.CONTROL_OCTETS && |frames| == 4 && c.Valid() && !c.algorithm.A52?
    ensures Transported(clear, frames, c, c) == DecodedBlock(clear, true)
  {
    hide Carried, Rectangular, Unrectangular, C.EncodeControl, C.DecodeControl;
    var information := Unpack(clear);
    var bursts := Rectangular(C.EncodeControl(information));
    forall i | 0 <= i < 4
      ensures Carried(bursts[i], frames[i], c, c) == bursts[i]
    {
      CarriedIsIdentity(bursts[i], frames[i], c);
    }
    assert CarriedBlock(bursts, frames, c, c) == bursts;
    RectangularRoundTrip(C.EncodeControl(information));
    C.ControlRoundTrip(information);
    PackUnpack(clear);
  }

  // ----- The path with bits flipped on the air -----

  /** One burst, some of its payload bits flipped between the two ends. */
  function CarriedThrough(payload: BurstPayload, frame: nat, c: CipherContext, noise: seq<bool>): (r: BurstPayload)
    requires payload.Valid() && c.Valid() && !c.algorithm.A52? && |noise| == PAYLOAD_BITS
    ensures r.Valid()
  {
    Ciphered(Noisy(UnpackNormalBurst(PackNormalBurst(Ciphered(payload, c, frame), TRAINING)), noise), c, frame)
  }

  function HeardBlock(clear: seq<bv8>, frames: seq<nat>, c: CipherContext, noise: seq<seq<bool>>)
    : (r: seq<BurstPayload>)
    requires |clear| == C.CONTROL_OCTETS && |frames| == 4 && c.Valid() && !c.algorithm.A52? && ValidNoise(noise, 4)
    ensures ValidBursts(r, 4)
  {
    var bursts := Rectangular(C.EncodeControl(Unpack(clear)));
    seq(4, i requires 0 <= i < 4 => CarriedThrough(bursts[i], frames[i], c, noise[i]))
  }

  /** Deciphering leaves exactly the flips of the air. */
  lemma NoiseCommutesWithCipher(payload: BurstPayload, frame: nat, c: CipherContext, noise: seq<bool>)
    requires payload.Valid() && c.Valid() && !c.algorithm.A52? && |noise| == PAYLOAD_BITS
    ensures CarriedThrough(payload, frame, c, noise) == Noisy(payload, noise)
  {
    hide KeyStream, CountFromFrameNumber;
    var stream := KeyStream(c.algorithm, c.key, CountFromFrameNumber(frame), c.direction);
    NormalBurstRoundTrip(Ciphered(payload, c, frame), TRAINING);
    assert Xor(Xor(Xor(payload.data, stream.bits), noise), stream.bits) == Xor(payload.data, noise);
  }

  /** Up to three payload bits flipped over the four ciphered bursts: the block comes back, good, the flips counted. */
  lemma TransportCorrectsThreeFlips(clear: seq<bv8>, frames: seq<nat>, c: CipherContext, noise: seq<seq<bool>>)
    requires |clear| == C.CONTROL_OCTETS && |frames| == 4 && c.Valid() && !c.algorithm.A52?
    requires ValidNoise(noise, 4) && Flips(noise) <= 3
    ensures C.DecodeControl(Unrectangular(HeardBlock(clear, frames, c, noise))) ==
            C.DecodedControl(Unpack(clear), true, Flips(noise))
  {
    hide CarriedThrough, Rectangular, Unrectangular, RectangularNoise, Noisy, Flips, C.EncodeControl, C.DecodeControl;
    var coded, e := C.EncodeControl(Unpack(clear)), RectangularNoise(noise);
    var bursts := Rectangular(coded);
    forall i | 0 <= i < 4
      ensures CarriedThrough(bursts[i], frames[i], c, noise[i]) == Noisy(bursts[i], noise[i])
    {
      NoiseCommutesWithCipher(bursts[i], frames[i], c, noise[i]);
    }
    assert HeardBlock(clear, frames, c, noise) == NoisyBursts(bursts, noise);
    RectangularHearsNoise(bursts, noise);
    RectangularRoundTrip(coded);
    RectangularNoiseWeighs(noise);
    AddedErrorsAreDistance(coded, e);
    C.ControlCorrectsThreeErrors(Unpack(clear), Xor(coded, e));
  }

  /** Without flips the noisy path is the path of the transport itself. */
  lemma QuietPathIsTransport(clear: seq<bv8>, frames: seq<nat>, c: CipherContext)
    requires |clear| == C.CONTROL_OCTETS && |frames| == 4 && c.Valid() && !c.algorithm.A52?
    ensures var quiet := seq(4, _ => Zeros(PAYLOAD_BITS));
            HeardBlock(clear, frames, c, quiet) ==
            CarriedBlock(Rectangular(C.EncodeControl(Unpack(clear))), frames, c, c)
  {
    hide Ciphered, Noisy, Rectangular, PackNormalBurst, UnpackNormalBurst, C.EncodeControl;
    var bursts := Rectangular(C.EncodeControl(Unpack(clear)));
    forall i | 0 <= i < 4
      ensures CarriedThrough(bursts[i], frames[i], c, Zeros(PAYLOAD_BITS)) == Carried(bursts[i], frames[i], c, c)
    {
      QuietIsUnchanged(UnpackNormalBurst(PackNormalBurst(Ciphered(bursts[i], c, frames[i]), TRAINING)));
    }
  }
}
