/** The coded block of SACCH and FACCH: Fire code, zero tail and convolutional code. */
module ControlCodec {
  import opened Bits
  import opened Convolution
  import opened Viterbi
  import opened FreeDistance
  import opened Polynomial
  import opened FireCode
  import opened Octets

  const CONTROL_OCTETS := 23

  datatype DecodedControl = DecodedControl(bits: seq<bool>, good: bool, corrected: nat)

  function Uncoded(information: seq<bool>): (u: seq<bool>)
    requires |information| == INFORMATION_BITS
    ensures |u| == 228
  {
    information + Parity(information) + Zeros(4)
  }

  function EncodeControl(information: seq<bool>): (coded: seq<bool>)
    requires |information| == INFORMATION_BITS
    ensures |coded| == CODED_BITS
  {
    Encode(Uncoded(information))
  }

  ghost function DecodeControl(coded: seq<bool>): (r: DecodedControl)
    requires |coded| == CODED_BITS
    ensures |r.bits| == INFORMATION_BITS
  {
    DecoderIsOptimal(coded, 228);
    var p := Decoded(coded, 228);
    DecodedControl(p.bits[..INFORMATION_BITS],
                   FireAccepts(p.bits[..WORD_BITS]) && p.bits[WORD_BITS..] == Zeros(4),
                   p.cost)
  }

  method EncodeControlBlock(information: seq<bool>) returns (coded: seq<bool>)
    requires |information| == INFORMATION_BITS
    ensures coded == EncodeControl(information)
  {
    var parity := FireParity(information);
    coded := ConvolutionalEncode(information + parity + Zeros(4));
  }

  method DecodeControlBlock(coded: seq<bool>) returns (result: DecodedControl)
    requires |coded| == CODED_BITS
    ensures result == DecodeControl(coded)
  {
    DecoderIsOptimal(coded, 228);
    var bits, distance := ConvolutionalDecode(coded, 228);
    var accepted := FireCheck(bits[..WORD_BITS]);
    var tail := bits[WORD_BITS..];
    var tailClear := true;
    for k := 0 to |tail|
      invariant tailClear == forall j :: 0 <= j < k ==> !tail[j]
    {
      tailClear := tailClear && !tail[k];
    }
    assert tailClear <==> tail == Zeros(4) by {
      if tailClear {
        assert tail == Zeros(4);
      }
    }
    result := DecodedControl(bits[..INFORMATION_BITS], accepted && tailClear, distance);
  }

  /** The coded block is the coding of the one word that begins with the information, leaves all ones when its first
      224 bits are divided, and ends in four zeros. */
  lemma BlockIsTheOneWord(information: seq<bool>, u: seq<bool>)
    requires |information| == INFORMATION_BITS && |u| == 228
    ensures Encode(u) == EncodeControl(information) <==>
            u[..184] == information && Remainder(FIRE, u[..224]) == Ones(40) && u[224..] == Zeros(4)
  {
    hide Encode, Remainder, Parity;
    if Encode(u) == EncodeControl(information) {
      EncodeIsInjective(u, Uncoded(information));
    }
    var parity := u[184..224];
    assert u == u[..184] + parity + u[224..] && u[..224] == u[..184] + parity;
    ParityIsUnique(u[..184], parity);
    assert u == Uncoded(information) <==>
           u[..184] == information && parity == Parity(information) && u[224..] == Zeros(4);
  }

  /** A transmitted block ends in the all-zero state and passes the Fire check. */
  lemma UncodedIsTerminated(information: seq<bool>)
    requires |information| == INFORMATION_BITS
    ensures End(0, Uncoded(information)) == 0
    ensures FireAccepts(Uncoded(information)[..WORD_BITS])
  {
    var u := Uncoded(information);
    assert u[224..] == Zeros(4);
    ZeroTail(u);
    assert u[..WORD_BITS] == information + Parity(information);
    ParityIsUnique(information, Parity(information));
  }

  /** Up to three errors anywhere in the 456 bits are corrected, counted and reported good. */
  lemma ControlCorrectsThreeErrors(information: seq<bool>, received: seq<bool>)
    requires |information| == INFORMATION_BITS && |received| == CODED_BITS
    requires Hamming(EncodeControl(information), received) <= 3
    ensures DecodeControl(received) ==
            DecodedControl(information, true, Hamming(EncodeControl(information), received))
  {
    var u := Uncoded(information);
    UncodedIsTerminated(information);
    assert received[..2 * 228] == received;
    CorrectsThreeErrors(received, u);
    assert u[..INFORMATION_BITS] == information;
    assert u[WORD_BITS..] == Zeros(4);
  }

  /** A clean block decodes to itself. */
  lemma ControlRoundTrip(information: seq<bool>)
    requires |information| == INFORMATION_BITS
    ensures DecodeControl(EncodeControl(information)) == DecodedControl(information, true, 0)
  {
    HammingZero(EncodeControl(information), EncodeControl(information));
    ControlCorrectsThreeErrors(information, EncodeControl(information));
  }

  /** The tail condition of the decoder never decides: the traceback starts in state 0. */
  lemma TailCheckAlwaysHolds(coded: seq<bool>)
    requires |coded| == CODED_BITS
    ensures Decoded(coded, 228).Path? && |Decoded(coded, 228).bits| == 228
    ensures DecodeControl(coded).good == FireAccepts(Decoded(coded, 228).bits[..WORD_BITS])
  {
    DecoderIsOptimal(coded, 228);
  }

  lemma AcceptedIsUncoded(bits: seq<bool>)
    requires |bits| == 228 && FireAccepts(bits[..WORD_BITS]) && bits[WORD_BITS..] == Zeros(4)
    ensures bits == Uncoded(bits[..INFORMATION_BITS])
  {
    var information, parity := bits[..INFORMATION_BITS], bits[INFORMATION_BITS..WORD_BITS];
    assert bits[..WORD_BITS] == information + parity;
    ParityIsUnique(information, parity);
  }

  /** A good verdict names a nearest block: the result re-encodes to exactly `corrected` bits from what
      was received, and no other control block is nearer. */
  lemma GoodIsNearest(received: seq<bool>, other: seq<bool>)
    requires |received| == CODED_BITS && |other| == INFORMATION_BITS
    requires DecodeControl(received).good
    ensures var r := DecodeControl(received);
            Hamming(EncodeControl(r.bits), received) == r.corrected <= Hamming(EncodeControl(other), received)
  {
    DecoderIsOptimal(received, 228);
    AcceptedIsUncoded(Decoded(received, 228).bits);
    assert received[..2 * 228] == received;
    UncodedIsTerminated(other);
  }

  // ----- Octet form -----

  method UnpackControl(packed: seq<bv8>) returns (bits: seq<bool>)
    requires |packed| == CONTROL_OCTETS
    ensures bits == Unpack(packed)
  {
    var result := new bool[INFORMATION_BITS];
    for k := 0 to INFORMATION_BITS
      invariant forall j :: 0 <= j < k ==> result[j] == Unpack(packed)[j]
    {
      result[k] := BitAt(packed[k / 8], k % 8);
    }
    bits := result[..];
  }

  method PackControl(bits: seq<bool>) returns (packed: seq<bv8>)
    requires |bits| == INFORMATION_BITS
    ensures packed == Pack(bits)
  {
    var result := new bv8[CONTROL_OCTETS](_ => 0);
    assert Unpack(result[..]) == Zeros(INFORMATION_BITS);
    PackInto(bits, result, 0);
    packed := result[..];
    assert Unpack(packed) == bits;
    PackUnpack(packed);
  }
}
