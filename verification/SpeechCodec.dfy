/** Channel coding of full-rate speech frames (TS 45.003, section 3.1): packing, importance order,
    three parity bits, the interleaved class-1 word, and the code over it. */
module SpeechCodec {
  import opened Bits
  import opened Convolution
  import opened Viterbi
  import opened FreeDistance
  import opened Polynomial
  import opened Octets
  import opened Importance

  const FRAME_OCTETS := 33
  const CLASS1_BITS := 182
  const PROTECTED_BITS := 378
  const UNCODED_BITS := 189

  /** D^3 + D + 1 over the fifty most important bits. */
  const SPEECH_PARITY := Generator({0, 2, 3}, 3)
  const ALL_ONES := [true, true, true]
  const SIGNATURE := [true, true, false, true]

  datatype DecodedSpeech = DecodedSpeech(frame: seq<bv8>, good: bool, corrected: nat)
  datatype Unpacked = BadSignature | Serial(bits: seq<bool>)

  // ----- Packed frames -----

  function UnpackSpeech(frame: seq<bv8>): (r: Unpacked)
    requires |frame| == FRAME_OCTETS
    ensures r.Serial? ==> |r.bits| == SPEECH_BITS
  {
    if frame[0] >> 4 != 0x0d then BadSignature else Serial(Unpack(frame)[4..])
  }

  function PackSpeech(serial: seq<bool>): (frame: seq<bv8>)
    requires |serial| == SPEECH_BITS
    ensures |frame| == FRAME_OCTETS
  {
    Pack(SIGNATURE + serial)
  }

  lemma SignatureBits(x: bv8)
    ensures x >> 4 == 0x0d <==> BitAt(x, 0) && BitAt(x, 1) && !BitAt(x, 2) && BitAt(x, 3)
  {
  }

  lemma SignatureIsFirstFourBits(frame: seq<bv8>)
    requires |frame| == FRAME_OCTETS
    ensures frame[0] >> 4 == 0x0d <==> Unpack(frame)[..4] == SIGNATURE
  {
    SignatureBits(frame[0]);
    var b := Unpack(frame)[..4];
    assert b == SIGNATURE <==> b[0] && b[1] && !b[2] && b[3];
  }

  /** Packing and unpacking are inverse on signed frames. */
  lemma PackAfterUnpack(frame: seq<bv8>)
    requires |frame| == FRAME_OCTETS && UnpackSpeech(frame).Serial?
    ensures PackSpeech(UnpackSpeech(frame).bits) == frame
  {
    SignatureIsFirstFourBits(frame);
    assert Unpack(frame) == SIGNATURE + Unpack(frame)[4..];
    PackUnpack(frame);
  }

  lemma UnpackAfterPack(serial: seq<bool>)
    requires |serial| == SPEECH_BITS
    ensures UnpackSpeech(PackSpeech(serial)) == Serial(serial)
    ensures PackSpeech(serial)[0] >> 4 == 0x0d
  {
    UnpackPack(SIGNATURE + serial);
    SignatureIsFirstFourBits(PackSpeech(serial));
    assert (SIGNATURE + serial)[4..] == serial && (SIGNATURE + serial)[..4] == SIGNATURE;
  }

  /** Bit k of the frame's speech is the bit four places later in the packed octets, most significant bits first. */
  lemma SpeechBitPlace(frame: seq<bv8>, k: nat)
    requires |frame| == FRAME_OCTETS && k < SPEECH_BITS && frame[0] >> 4 == 0x0d
    ensures UnpackSpeech(frame).Serial? && UnpackSpeech(frame).bits[k] == BitAt(frame[(k + 4) / 8], (k + 4) % 8)
  {
  }

  // ----- Parity -----

  ghost predicate ParityAccepts(d: seq<bool>, parity: seq<bool>)
    requires |d| >= 50 && |parity| == 3
  {
    Remainder(SPEECH_PARITY, d[..50] + parity) == ALL_ONES
  }

  function SpeechParity(d: seq<bool>): (p: seq<bool>)
    requires |d| >= 50
    ensures |p| == 3
  {
    Xor(Remainder(SPEECH_PARITY, d[..50] + Zeros(3)), ALL_ONES)
  }

  /** One of the eight candidates is accepted, and only one. */
  lemma SpeechParityIsUnique(d: seq<bool>, parity: seq<bool>)
    requires |d| >= 50 && |parity| == 3
    ensures ParityAccepts(d, parity) <==> parity == SpeechParity(d)
    ensures Remainder(SPEECH_PARITY, d[..50] + parity) == [true, true, true] <==> parity == SpeechParity(d)
  {
    CheckBitsAdd(SPEECH_PARITY, d[..50], parity);
    var r := Remainder(SPEECH_PARITY, d[..50] + Zeros(3));
    var sum := Xor(r, parity);
    assert sum == ALL_ONES <==> sum[0] && sum[1] && sum[2];
    assert parity == SpeechParity(d) <==>
           parity[0] == !r[0] && parity[1] == !r[1] && parity[2] == !r[2];
  }

  // ----- What the parity checks -----

  /** The ones of the word at the powers of D whose number modulo 7 is one of these. */
  function AtPowers(w: seq<bool>, powers: set<nat>): (c: seq<bool>)
    ensures |c| == |w|
  {
    seq(|w|, i requires 0 <= i < |w| => w[i] && (|w| - 1 - i) % 7 in powers)
  }

  /** Of the powers p, p - 2 and p - 3 an even number is chosen, whatever p is. */
  predicate Balanced(powers: set<nat>) {
    Even(powers, 0, 5, 4) && Even(powers, 1, 6, 5) && Even(powers, 2, 0, 6) && Even(powers, 3, 1, 0) &&
    Even(powers, 4, 2, 1) && Even(powers, 5, 3, 2) && Even(powers, 6, 4, 3)
  }

  predicate Even(powers: set<nat>, p: nat, q: nat, r: nat) {
    ((p in powers) != (q in powers)) == (r in powers)
  }

  lemma BalancedBelow(powers: set<nat>, p: nat)
    requires 3 <= p && Balanced(powers)
    ensures Even(powers, p % 7, (p - 2) % 7, (p - 3) % 7)
  {
    hide Even;
    LowerPowers(p);
  }

  function Inverted(w: seq<bool>, i: nat): (f: seq<bool>)
    requires i < |w|
    ensures |f| == |w|
  {
    w[i := !w[i]]
  }

  lemma StepInvertsThree(w: seq<bool>, i: nat)
    requires i + 3 < |w|
    ensures Step(SPEECH_PARITY, w, i) == if w[i] then Inverted(Inverted(Inverted(w, i), i + 2), i + 3) else w
  {
  }

  lemma InvertedAtPowers(w: seq<bool>, i: nat, powers: set<nat>)
    requires i < |w|
    ensures OddOnes(AtPowers(Inverted(w, i), powers)) ==
            (OddOnes(AtPowers(w, powers)) != ((|w| - 1 - i) % 7 in powers))
  {
    hide OddOnes;
    var c := AtPowers(w, powers);
    if (|w| - 1 - i) % 7 in powers {
      FlipTurnsParity(c, i);
      assert AtPowers(Inverted(w, i), powers) == c[i := !c[i]];
    } else {
      assert AtPowers(Inverted(w, i), powers) == c;
    }
  }

  lemma StepKeepsBalance(w: seq<bool>, i: nat, powers: set<nat>)
    requires i + 3 < |w| && Balanced(powers)
    ensures OddOnes(AtPowers(Step(SPEECH_PARITY, w, i), powers)) == OddOnes(AtPowers(w, powers))
  {
    hide OddOnes, AtPowers, Inverted, Step, Balanced;
    StepInvertsThree(w, i);
    var a := Inverted(w, i);
    InvertedAtPowers(w, i, powers);
    InvertedAtPowers(a, i + 2, powers);
    InvertedAtPowers(Inverted(a, i + 2), i + 3, powers);
    BalancedBelow(powers, |w| - 1 - i);
  }

  lemma LowerPowers(p: nat)
    requires 3 <= p
    ensures (p - 2) % 7 == (p % 7 + 5) % 7 && (p - 3) % 7 == (p % 7 + 4) % 7
  {
  }

  lemma {:induction false} DivisionKeepsBalance(w: seq<bool>, n: nat, powers: set<nat>)
    requires n + 3 <= |w| && Balanced(powers)
    ensures OddOnes(AtPowers(Divide(SPEECH_PARITY, w, n), powers)) == OddOnes(AtPowers(w, powers))
  {
    hide OddOnes, AtPowers, Step, Balanced;
    if n > 0 {
      DivisionKeepsBalance(w, n - 1, powers);
      StepKeepsBalance(Divide(SPEECH_PARITY, w, n - 1), n - 1, powers);
    }
  }

  lemma RemainderBit(w: seq<bool>, j: nat, powers: set<nat>)
    requires 3 <= |w| && j < 3 && Balanced(powers)
    requires forall p :: 0 <= p < 3 ==> (p in powers <==> p == 2 - j)
    ensures Remainder(SPEECH_PARITY, w)[j] == OddOnes(AtPowers(w, powers))
  {
    hide OddOnes, Divide, Balanced;
    var n := |w| - 3;
    var d := Divide(SPEECH_PARITY, w, n);
    DivisionKeepsBalance(w, n, powers);
    DivisionClears(SPEECH_PARITY, w, n);
    OddOnesOfSingle(AtPowers(d, powers), n + j);
  }

  lemma SumsAreBalanced()
    ensures Balanced({2, 4, 5, 6}) && Balanced({1, 3, 4, 5}) && Balanced({0, 3, 5, 6})
  {
  }

  /** The parity bits are those of a Hamming code of length seven, repeated: each sums the bits at four of the
      seven residues of the power of D. */
  lemma RemainderIsThreeSums(w: seq<bool>)
    requires 3 <= |w|
    ensures Remainder(SPEECH_PARITY, w) ==
            [OddOnes(AtPowers(w, {2, 4, 5, 6})), OddOnes(AtPowers(w, {1, 3, 4, 5})), OddOnes(AtPowers(w, {0, 3, 5, 6}))]
  {
    hide OddOnes, AtPowers, Remainder, Balanced;
    SumsAreBalanced();
    RemainderBit(w, 0, {2, 4, 5, 6});
    RemainderBit(w, 1, {1, 3, 4, 5});
    RemainderBit(w, 2, {0, 3, 5, 6});
  }

  // ----- The class-1 word -----

  /** u(k) = d(2k) rising from the front, d(2k+1) falling from the back, parity in the middle, zero tail. */
  function Uncoded(d: seq<bool>): (u: seq<bool>)
    requires |d| == SPEECH_BITS
    ensures |u| == UNCODED_BITS
  {
    var parity := SpeechParity(d);
    seq(UNCODED_BITS, i requires 0 <= i < UNCODED_BITS =>
      if i <= 90 then d[2 * i]
      else if i < 94 then parity[i - 91]
      else if i <= 184 then d[2 * (184 - i) + 1]
      else false)
  }

  /** The 182 protected bits back from the word. */
  function Class1(u: seq<bool>): (d: seq<bool>)
    requires |u| == UNCODED_BITS
    ensures |d| == CLASS1_BITS
  {
    seq(CLASS1_BITS, i requires 0 <= i < CLASS1_BITS => if i % 2 == 0 then u[i / 2] else u[184 - i / 2])
  }

  function EncodeSpeech(frame: seq<bv8>): (coded: seq<bool>)
    requires |frame| == FRAME_OCTETS
    ensures |coded| == CODED_BITS
  {
    match UnpackSpeech(frame)
    case BadSignature => Zeros(CODED_BITS)
    case Serial(serial) =>
      var d := ImportanceOrder(serial);
      Encode(Uncoded(d)) + d[CLASS1_BITS..]
  }

  /** Frame, verdict and error count from the decoded word `u` and the unprotected bits. */
  ghost function Assemble(u: seq<bool>, rest: seq<bool>, cost: nat): (r: DecodedSpeech)
    requires |u| == UNCODED_BITS && |rest| == SPEECH_BITS - CLASS1_BITS
    ensures |r.frame| == FRAME_OCTETS
  {
    DecodedSpeech(PackSpeech(SerialOrder(Class1(u) + rest)),
                  ParityAccepts(Class1(u), u[91..94]) && u[185..] == Zeros(4),
                  cost)
  }

  ghost function DecodeSpeech(coded: seq<bool>): (r: DecodedSpeech)
    requires |coded| == CODED_BITS
    ensures |r.frame| == FRAME_OCTETS
  {
    DecoderIsOptimal(coded, UNCODED_BITS);
    var p := Decoded(coded, UNCODED_BITS);
    Assemble(p.bits, coded[PROTECTED_BITS..], p.cost)
  }

  /** The coded block is the coding of the one word that takes the protected bits in pairs from its two ends, leaves
      all ones when the fifty most important bits and its middle three are divided, and ends in four zeros;
      the unprotected bits follow it. */
  lemma SpeechBlockIsTheOneWord(frame: seq<bv8>, u: seq<bool>)
    requires |frame| == FRAME_OCTETS && UnpackSpeech(frame).Serial? && |u| == UNCODED_BITS
    ensures var d := ImportanceOrder(UnpackSpeech(frame).bits);
            EncodeSpeech(frame)[378..] == d[182..] &&
            (Encode(u) == EncodeSpeech(frame)[..378] <==>
             (forall k :: 0 <= k <= 90 ==> u[k] == d[2 * k] && u[184 - k] == d[2 * k + 1]) &&
             Remainder(SPEECH_PARITY, d[..50] + u[91..94]) == [true, true, true] && u[185..] == Zeros(4))
  {
    hide Encode, Remainder, SpeechParity, ImportanceOrder, UnpackSpeech, Uncoded;
    var d := ImportanceOrder(UnpackSpeech(frame).bits);
    assert EncodeSpeech(frame)[..378] == Encode(Uncoded(d));
    if Encode(u) == Encode(Uncoded(d)) {
      EncodeIsInjective(u, Uncoded(d));
    }
    SpeechParityIsUnique(d, u[91..94]);
    UncodedInFigures(d, u);
  }

  lemma UncodedInFigures(d: seq<bool>, u: seq<bool>)
    requires |d| == SPEECH_BITS && |u| == UNCODED_BITS
    ensures u == Uncoded(d) <==>
            (forall k :: 0 <= k <= 90 ==> u[k] == d[2 * k] && u[184 - k] == d[2 * k + 1]) &&
            u[91..94] == SpeechParity(d) && u[185..] == Zeros(4)
  {
    hide SpeechParity, Uncoded;
    var v := Uncoded(d);
    UncodedPlaces(d);
    if (forall k :: 0 <= k <= 90 ==> u[k] == d[2 * k] && u[184 - k] == d[2 * k + 1]) &&
       u[91..94] == SpeechParity(d) && u[185..] == Zeros(4) {
      forall i | 0 <= i < UNCODED_BITS
        ensures u[i] == v[i]
      {
        if 91 <= i < 94 {
          assert u[91..94][i - 91] == v[91..94][i - 91];
        } else if 94 <= i <= 184 {
          assert u[184 - (184 - i)] == d[2 * (184 - i) + 1] == v[184 - (184 - i)];
        } else if 185 <= i {
          assert u[185..][i - 185] == v[185..][i - 185];
        }
      }
    }
  }

  lemma UncodedPlaces(d: seq<bool>)
    requires |d| == SPEECH_BITS
    ensures forall k :: 0 <= k <= 90 ==> Uncoded(d)[k] == d[2 * k] && Uncoded(d)[184 - k] == d[2 * k + 1]
    ensures Uncoded(d)[91..94] == SpeechParity(d) && Uncoded(d)[185..] == Zeros(4)
  {
    hide SpeechParity;
  }

  lemma UncodedIsTerminated(d: seq<bool>)
    requires |d| == SPEECH_BITS
    ensures End(0, Uncoded(d)) == 0 && Uncoded(d)[185..] == Zeros(4)
    ensures Class1(Uncoded(d)) == d[..CLASS1_BITS]
    ensures Uncoded(d)[91..94] == SpeechParity(d)
  {
    hide End, SpeechParity;
    var u := Uncoded(d);
    ZeroTail(u);
    forall i | 0 <= i < CLASS1_BITS
      ensures Class1(u)[i] == d[i]
    {
    }
  }

  lemma ParityOfPrefix(d: seq<bool>)
    requires |d| == SPEECH_BITS
    ensures SpeechParity(d[..CLASS1_BITS]) == SpeechParity(d)
  {
    assert d[..CLASS1_BITS][..50] == d[..50];
  }

  lemma AssembleUncoded(d: seq<bool>, cost: nat)
    requires |d| == SPEECH_BITS
    ensures Assemble(Uncoded(d), d[CLASS1_BITS..], cost) == DecodedSpeech(PackSpeech(SerialOrder(d)), true, cost)
  {
    UncodedIsTerminated(d);
    ParityOfPrefix(d);
    SpeechParityIsUnique(d[..CLASS1_BITS], Uncoded(d)[91..94]);
    assert d[..CLASS1_BITS] + d[CLASS1_BITS..] == d;
  }

  /** The frame with other unprotected bits. */
  ghost function WithUnprotected(frame: seq<bv8>, rest: seq<bool>): (r: seq<bv8>)
    requires |frame| == FRAME_OCTETS && UnpackSpeech(frame).Serial? && |rest| == SPEECH_BITS - CLASS1_BITS
    ensures |r| == FRAME_OCTETS
  {
    PackSpeech(SerialOrder(ImportanceOrder(UnpackSpeech(frame).bits)[..CLASS1_BITS] + rest))
  }

  /** Up to three errors in the 378 protected bits: the frame comes back good, with the unprotected bits as received. */
  lemma ProtectedBitsAreCorrected(frame: seq<bv8>, received: seq<bool>)
    requires |frame| == FRAME_OCTETS && UnpackSpeech(frame).Serial? && |received| == CODED_BITS
    requires Hamming(EncodeSpeech(frame)[..PROTECTED_BITS], received[..PROTECTED_BITS]) <= 3
    ensures DecodeSpeech(received) ==
            DecodedSpeech(WithUnprotected(frame, received[PROTECTED_BITS..]), true,
                          Hamming(EncodeSpeech(frame)[..PROTECTED_BITS], received[..PROTECTED_BITS]))
  {
    var d := ImportanceOrder(UnpackSpeech(frame).bits);
    var u := Uncoded(d);
    var e := d[..CLASS1_BITS] + received[PROTECTED_BITS..];
    assert EncodeSpeech(frame)[..PROTECTED_BITS] == Encode(u);
    UncodedIsTerminated(d);
    CorrectsThreeErrors(received, u);
    UncodedOfClass1(d, e);
    AssembleUncoded(e, Hamming(Encode(u), received[..PROTECTED_BITS]));
    assert e[CLASS1_BITS..] == received[PROTECTED_BITS..];
  }

  /** The word depends on the protected bits alone. */
  lemma UncodedOfClass1(d: seq<bool>, e: seq<bool>)
    requires |d| == |e| == SPEECH_BITS && d[..CLASS1_BITS] == e[..CLASS1_BITS]
    ensures Uncoded(d) == Uncoded(e)
  {
    hide SpeechParity;
    ParityOfPrefix(d);
    ParityOfPrefix(e);
    assert forall k :: 0 <= k < CLASS1_BITS ==> d[k] == d[..CLASS1_BITS][k] && e[k] == e[..CLASS1_BITS][k];
  }

  /** With its own unprotected bits a frame is itself. */
  lemma OwnUnprotectedBits(frame: seq<bv8>)
    requires |frame| == FRAME_OCTETS && UnpackSpeech(frame).Serial?
    ensures WithUnprotected(frame, EncodeSpeech(frame)[PROTECTED_BITS..]) == frame
  {
    hide SerialOrder, PackSpeech, Uncoded;
    var serial := UnpackSpeech(frame).bits;
    var d := ImportanceOrder(serial);
    assert EncodeSpeech(frame)[PROTECTED_BITS..] == d[CLASS1_BITS..];
    assert d[..CLASS1_BITS] + d[CLASS1_BITS..] == d;
    SerialAfterImportance(serial);
    PackAfterUnpack(frame);
  }

  /** Up to three errors in the 378 protected bits and none in the other 78: the frame comes back exactly. */
  lemma SpeechCorrectsThreeErrors(frame: seq<bv8>, received: seq<bool>)
    requires |frame| == FRAME_OCTETS && UnpackSpeech(frame).Serial? && |received| == CODED_BITS
    requires Hamming(EncodeSpeech(frame)[..PROTECTED_BITS], received[..PROTECTED_BITS]) <= 3
    requires received[PROTECTED_BITS..] == EncodeSpeech(frame)[PROTECTED_BITS..]
    ensures DecodeSpeech(received) ==
            DecodedSpeech(frame, true, Hamming(EncodeSpeech(frame)[..PROTECTED_BITS], received[..PROTECTED_BITS]))
  {
    hide WithUnprotected, EncodeSpeech, DecodeSpeech, UnpackSpeech;
    ProtectedBitsAreCorrected(frame, received);
    OwnUnprotectedBits(frame);
  }

  lemma SpeechRoundTrip(frame: seq<bv8>)
    requires |frame| == FRAME_OCTETS && UnpackSpeech(frame).Serial?
    ensures DecodeSpeech(EncodeSpeech(frame)) == DecodedSpeech(frame, true, 0)
  {
    var c := EncodeSpeech(frame);
    HammingZero(c[..PROTECTED_BITS], c[..PROTECTED_BITS]);
    SpeechCorrectsThreeErrors(frame, c);
  }

  lemma PairOfClass1(u: seq<bool>, k: nat)
    requires |u| == UNCODED_BITS && k < 91
    ensures Class1(u)[2 * k] == u[k] && Class1(u)[2 * k + 1] == u[184 - k]
  {
  }

  lemma Class1Places(u: seq<bool>)
    requires |u| == UNCODED_BITS
    ensures forall k :: 0 <= k < 91 ==> Class1(u)[2 * k] == u[k] && Class1(u)[2 * k + 1] == u[184 - k]
  {
    hide Class1;
    forall k | 0 <= k < 91
      ensures Class1(u)[2 * k] == u[k] && Class1(u)[2 * k + 1] == u[184 - k]
    {
      PairOfClass1(u, k);
    }
  }

  lemma AcceptedIsUncoded(u: seq<bool>, rest: seq<bool>)
    requires |u| == UNCODED_BITS && |rest| == SPEECH_BITS - CLASS1_BITS
    requires ParityAccepts(Class1(u), u[91..94]) && u[185..] == Zeros(4)
    ensures u == Uncoded(Class1(u) + rest)
  {
    hide SpeechParity, ParityAccepts, Class1;
    var d := Class1(u) + rest;
    SpeechParityIsUnique(Class1(u), u[91..94]);
    ParityOfPrefix(d);
    assert d[..CLASS1_BITS] == Class1(u);
    Class1Places(u);
    forall i | 0 <= i < UNCODED_BITS
      ensures u[i] == Uncoded(d)[i]
    {
      if 91 <= i < 94 {
        assert u[91..94][i - 91] == u[i];
      } else if 185 <= i {
        assert u[185..][i - 185] == u[i];
      }
    }
  }

  /** A good verdict names a nearest frame: it re-encodes to exactly `corrected` protected bits from what
      was received, and no signed frame is nearer there. */
  lemma GoodSpeechIsNearest(received: seq<bool>, other: seq<bv8>)
    requires |received| == CODED_BITS && DecodeSpeech(received).good
    requires |other| == FRAME_OCTETS && UnpackSpeech(other).Serial?
    ensures var r := DecodeSpeech(received);
            Hamming(EncodeSpeech(r.frame)[..PROTECTED_BITS], received[..PROTECTED_BITS]) == r.corrected
            <= Hamming(EncodeSpeech(other)[..PROTECTED_BITS], received[..PROTECTED_BITS])
  {
    DecoderIsOptimal(received, UNCODED_BITS);
    var u := Decoded(received, UNCODED_BITS).bits;
    var d := Class1(u) + received[PROTECTED_BITS..];
    AcceptedIsUncoded(u, received[PROTECTED_BITS..]);
    UnpackAfterPack(SerialOrder(d));
    ImportanceAfterSerial(d);
    assert EncodeSpeech(PackSpeech(SerialOrder(d)))[..PROTECTED_BITS] == Encode(u);
    var e := ImportanceOrder(UnpackSpeech(other).bits);
    UncodedIsTerminated(e);
    assert EncodeSpeech(other)[..PROTECTED_BITS] == Encode(Uncoded(e));
  }

  // ----- An idle period -----

  lemma {:induction false} ZerosEncodeToZeros(n: nat)
    ensures Encode(Zeros(n)) == Zeros(2 * n)
  {
  }

  lemma ZeroWordIsRefused()
    ensures !ParityAccepts(Zeros(CLASS1_BITS), Zeros(3))
  {
    var w := Zeros(CLASS1_BITS)[..50] + Zeros(3);
    LowWordIsItsRemainder(SPEECH_PARITY, w, 50);
    assert !Remainder(SPEECH_PARITY, w)[0];
  }

  /** Silence on the air, with up to three errors in its protected part, is never taken for speech. */
  lemma IdleIsNotGood(received: seq<bool>)
    requires |received| == CODED_BITS && Hamming(Zeros(PROTECTED_BITS), received[..PROTECTED_BITS]) <= 3
    ensures !DecodeSpeech(received).good
  {
    var u := Zeros(UNCODED_BITS);
    ZerosEndAtZero(UNCODED_BITS);
    ZerosEncodeToZeros(UNCODED_BITS);
    assert Encode(u) == Zeros(PROTECTED_BITS);
    CorrectsThreeErrors(received, u);
    assert Class1(u) == Zeros(CLASS1_BITS) && u[91..94] == Zeros(3);
    ZeroWordIsRefused();
  }

  // ----- The loops -----

  /** Inverting the three bits the generator reaches. */
  method AddSpeechGenerator(work: array<bool>, i: nat)
    requires work.Length == 53 && i < 50 && work[i]
    modifies work
    ensures work[..] == Step(SPEECH_PARITY, old(work[..]), i)
  {
    hide Step;
    StepInvertsThree(work[..], i);
    ghost var before := work[..];
    work[i] := !work[i];
    work[i + 2] := !work[i + 2];
    work[i + 3] := !work[i + 3];
    assert work[..] == Inverted(Inverted(Inverted(before, i), i + 2), i + 3);
  }

  function Value(p: seq<bool>): (v: nat)
    requires |p| == 3
    ensures v < 8
  {
    4 * Count(p[0]) + 2 * Count(p[1]) + Count(p[2])
  }

  lemma SevenIsAllOnes(r: seq<bool>)
    requires |r| == 3
    ensures Value(r) == 7 <==> r == ALL_ONES
  {
    assert r == ALL_ONES <==> r[0] && r[1] && r[2];
  }

  method PolynomialRemainder(word: seq<bool>) returns (remainder: nat)
    requires |word| == 53
    ensures remainder < 8
    ensures remainder == 7 <==> Remainder(SPEECH_PARITY, word) == ALL_ONES
  {
    hide Step, Value;
    var work := new bool[53](i requires 0 <= i < 53 => word[i]);
    assert work[..] == word;
    for i := 0 to 50
      invariant work[..] == Divide(SPEECH_PARITY, word, i)
    {
      if !work[i] {
        StepInvertsThree(work[..], i);
        continue;
      }
      AddSpeechGenerator(work, i);
    }
    remainder := Value(work[50..]);
    SevenIsAllOnes(work[50..]);
  }

  /** The three bits of a candidate, most significant first. */
  function CandidateBits(candidate: nat): (p: seq<bool>)
    requires candidate < 8
    ensures |p| == 3
  {
    [candidate / 4 % 2 == 1, candidate / 2 % 2 == 1, candidate % 2 == 1]
  }

  lemma CandidatesAreAllParities(p: seq<bool>)
    requires |p| == 3
    ensures CandidateBits(Value(p)) == p
  {
  }

  /** The search over the eight candidates always succeeds, with the unique parity. */
  method ParityFor(d: seq<bool>) returns (parity: seq<bool>)
    requires |d| == SPEECH_BITS
    ensures parity == SpeechParity(d)
  {
    hide CandidateBits, SpeechParity;
    parity := [false, false, false];
    var found := false;
    var candidate := 0;
    CandidatesAreAllParities(SpeechParity(d));
    while candidate < 8 && !found
      invariant found ==> parity == SpeechParity(d)
      invariant !found ==> candidate <= Value(SpeechParity(d))
      decreases 8 - candidate, !found
    {
      var bits := CandidateBits(candidate);
      SpeechParityIsUnique(d, bits);
      var remainder := PolynomialRemainder(d[..50] + bits);
      if remainder == 7 {
        parity, found := bits, true;
      } else {
        candidate := candidate + 1;
      }
    }
  }

  /** The word after the first `k` steps from both ends, before the parity is put in the middle. */
  function FromBothEnds(d: seq<bool>, k: nat, i: nat): bool
    requires |d| == SPEECH_BITS && k <= 91
  {
    if i < k then d[2 * i] else if 184 - k < i <= 184 then d[2 * (184 - i) + 1] else false
  }

  ghost predicate EndsFilled(d: seq<bool>, k: nat, word: seq<bool>)
    requires |d| == SPEECH_BITS && k <= 91
  {
    |word| == UNCODED_BITS && forall i :: 0 <= i < UNCODED_BITS ==> word[i] == FromBothEnds(d, k, i)
  }

  lemma FillEnds(d: seq<bool>, k: nat, word: seq<bool>)
    requires |d| == SPEECH_BITS && k < 91 && EndsFilled(d, k, word)
    ensures EndsFilled(d, k + 1, word[k := d[2 * k]][184 - k := d[2 * k + 1]])
  {
  }

  method MakeUncoded(d: seq<bool>) returns (u: seq<bool>)
    requires |d| == SPEECH_BITS
    ensures u == Uncoded(d)
  {
    hide SpeechParity, Uncoded, EndsFilled;
    var parity := ParityFor(d);
    var word := new bool[UNCODED_BITS](_ => false);
    NothingFilled(d, word[..]);
    for k := 0 to 91
      invariant EndsFilled(d, k, word[..])
    {
      ghost var before := word[..];
      FillEnds(d, k, before);
      word[k] := d[2 * k];
      word[184 - k] := d[2 * k + 1];
      assert word[..] == before[k := d[2 * k]][184 - k := d[2 * k + 1]];
    }
    ghost var ends := word[..];
    word[91], word[92], word[93] := parity[0], parity[1], parity[2];
    u := word[..];
    EndsAndParity(d, ends);
    assert u == ends[91 := parity[0]][92 := parity[1]][93 := parity[2]];
  }

  lemma NothingFilled(d: seq<bool>, word: seq<bool>)
    requires |d| == SPEECH_BITS && |word| == UNCODED_BITS && forall i :: 0 <= i < UNCODED_BITS ==> !word[i]
    ensures EndsFilled(d, 0, word)
  {
  }

  lemma EndsAndParity(d: seq<bool>, ends: seq<bool>)
    requires |d| == SPEECH_BITS && |ends| == UNCODED_BITS && EndsFilled(d, 91, ends)
    ensures var p := SpeechParity(d); ends[91 := p[0]][92 := p[1]][93 := p[2]] == Uncoded(d)
  {
    hide SpeechParity;
  }

  method EncodeSpeechFrame(frame: seq<bv8>, importance: array<nat>) returns (coded: seq<bool>)
    requires |frame| == FRAME_OCTETS && importance[..] == ImportanceMap()
    ensures coded == EncodeSpeech(frame)
  {
    if frame[0] >> 4 != 0x0d {
      return Zeros(CODED_BITS);
    }
    var serial := new bool[SPEECH_BITS];
    for k := 0 to SPEECH_BITS
      invariant forall j :: 0 <= j < k ==> serial[j] == Unpack(frame)[j + 4]
    {
      serial[k] := BitAt(frame[(k + 4) / 8], (k + 4) % 8);
    }
    ghost var bits := serial[..];
    assert UnpackSpeech(frame) == Serial(bits);
    var d := ReorderByImportance(serial[..], importance);
    var u := MakeUncoded(d);
    var convolutional := ConvolutionalEncode(u);
    coded := convolutional + d[CLASS1_BITS..];
  }

  method PackSpeechBits(serial: seq<bool>) returns (frame: seq<bv8>)
    requires |serial| == SPEECH_BITS
    ensures frame == PackSpeech(serial)
  {
    var packed := new bv8[FRAME_OCTETS](_ => 0);
    packed[0] := 0xd0;
    ghost var start := packed[..];
    SignatureBits(start[0]);
    assert Unpack(start)[..4] == SIGNATURE by {
      SignatureIsFirstFourBits(start);
    }
    assert Unpack(start)[4..] == Zeros(SPEECH_BITS) by {
      forall j | 4 <= j < 264
        ensures !Unpack(start)[j]
      {
        if j < 8 {
          assert !BitAt(0xd0, 4) && !BitAt(0xd0, 5) && !BitAt(0xd0, 6) && !BitAt(0xd0, 7);
        }
      }
    }
    PackInto(serial, packed, 4);
    frame := packed[..];
    PackUnpack(frame);
  }

  method DecodeSpeechBlock(coded: seq<bool>, importance: array<nat>) returns (result: DecodedSpeech)
    requires |coded| == CODED_BITS && importance[..] == ImportanceMap()
    ensures result == DecodeSpeech(coded)
  {
    hide Class1, Decoded, ImportanceMap, PackSpeech, Remainder, SerialOrder;
    DecoderIsOptimal(coded, UNCODED_BITS);
    var bits, distance := ConvolutionalDecode(coded, UNCODED_BITS);
    var d := RecoverBits(bits, coded[PROTECTED_BITS..]);
    var word := d[..50] + bits[91..94];
    assert d[..50] == Class1(bits)[..50];
    var remainder := PolynomialRemainder(word);
    var tailClear := !bits[185] && !bits[186] && !bits[187] && !bits[188];
    assert bits[185..] == Zeros(4) <==> tailClear by {
      assert bits[185..] == [bits[185], bits[186], bits[187], bits[188]];
    }
    var serial := ReorderSerially(d, importance);
    var frame := PackSpeechBits(serial);
    result := DecodedSpeech(frame, remainder == 7 && tailClear, distance);
  }

  /** The first 2k protected bits are back in their places. */
  ghost predicate PairsBack(u: seq<bool>, k: nat, d: seq<bool>)
    requires |u| == UNCODED_BITS && k <= 91
  {
    |d| == SPEECH_BITS && d[..2 * k] == Class1(u)[..2 * k]
  }

  lemma PairComesBack(u: seq<bool>, k: nat, d: seq<bool>)
    requires |u| == UNCODED_BITS && k < 91 && PairsBack(u, k, d)
    ensures PairsBack(u, k + 1, d[2 * k := u[k]][2 * k + 1 := u[184 - k]])
  {
    hide Class1;
    PairOfClass1(u, k);
    var after, class1 := d[2 * k := u[k]][2 * k + 1 := u[184 - k]], Class1(u);
    assert after[..2 * k] == d[..2 * k];
    assert after[..2 * k + 2] == after[..2 * k] + [u[k], u[184 - k]];
    assert class1[..2 * k + 2] == class1[..2 * k] + [class1[2 * k], class1[2 * k + 1]];
  }

  method RecoverBits(bits: seq<bool>, rest: seq<bool>) returns (d: seq<bool>)
    requires |bits| == UNCODED_BITS && |rest| == SPEECH_BITS - CLASS1_BITS
    ensures d == Class1(bits) + rest
  {
    hide Class1, PairsBack;
    var result := new bool[SPEECH_BITS](_ => false);
    NoPairsBack(bits, result[..]);
    for k := 0 to 91
      invariant PairsBack(bits, k, result[..])
    {
      ghost var before := result[..];
      PairComesBack(bits, k, before);
      result[2 * k] := bits[k];
      result[2 * k + 1] := bits[184 - k];
      assert result[..] == before[2 * k := bits[k]][2 * k + 1 := bits[184 - k]];
    }
    AllPairsBack(bits, result[..]);
    d := RecoverRest(result, Class1(bits), rest);
  }

  lemma NoPairsBack(u: seq<bool>, d: seq<bool>)
    requires |u| == UNCODED_BITS && |d| == SPEECH_BITS
    ensures PairsBack(u, 0, d)
  {
  }

  lemma AllPairsBack(u: seq<bool>, d: seq<bool>)
    requires |u| == UNCODED_BITS && PairsBack(u, 91, d)
    ensures |d| == SPEECH_BITS && d[..CLASS1_BITS] == Class1(u)
  {
    hide Class1;
  }

  /** The unprotected bits follow the protected ones. */
  method RecoverRest(result: array<bool>, ghost class1: seq<bool>, rest: seq<bool>) returns (d: seq<bool>)
    requires result.Length == SPEECH_BITS && result[..CLASS1_BITS] == class1
    requires |rest| == SPEECH_BITS - CLASS1_BITS
    modifies result
    ensures d == class1 + rest
  {
    for k := 0 to |rest|
      invariant result[..CLASS1_BITS + k] == class1 + rest[..k]
    {
      result[CLASS1_BITS + k] := rest[k];
      assert result[..CLASS1_BITS + k + 1] == result[..CLASS1_BITS + k] + [rest[k]];
    }
    d := result[..];
  }
}
