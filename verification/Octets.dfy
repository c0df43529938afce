/** Octets as strings of eight bits, most significant bit first. */
module Octets {
  import opened Bits

  /** The mask 1 << (7 - i). */
  function Mask(i: nat): bv8
    requires i < 8
  {
    if i == 0 then 0x80 else if i == 1 then 0x40 else if i == 2 then 0x20 else if i == 3 then 0x10
    else if i == 4 then 0x08 else if i == 5 then 0x04 else if i == 6 then 0x02 else 0x01
  }

  predicate BitAt(x: bv8, i: nat)
    requires i < 8
  {
    x & Mask(i) != 0
  }

  /** The bits of `octets`, in transmission order. */
  function Unpack(octets: seq<bv8>): (bits: seq<bool>)
    ensures |bits| == 8 * |octets|
  {
    seq(8 * |octets|, k requires 0 <= k < 8 * |octets| => BitAt(octets[k / 8], k % 8))
  }

  function Place(b: bool, i: nat): bv8
    requires i < 8
  {
    if b then Mask(i) else 0
  }

  function Octet(b: seq<bool>): bv8
    requires |b| == 8
  {
    Place(b[0], 0) | Place(b[1], 1) | Place(b[2], 2) | Place(b[3], 3) |
    Place(b[4], 4) | Place(b[5], 5) | Place(b[6], 6) | Place(b[7], 7)
  }

  function Pack(bits: seq<bool>): (octets: seq<bv8>)
    requires |bits| % 8 == 0
    ensures |octets| == |bits| / 8
  {
    seq(|bits| / 8, i requires 0 <= i < |bits| / 8 => Octet(bits[8 * i..8 * i + 8]))
  }

  /** An octet is the number its bits spell, most significant first. */
  lemma OctetIsItsNumber(x: bv8)
    ensures x as nat == 128 * Count(BitAt(x, 0)) + 64 * Count(BitAt(x, 1)) + 32 * Count(BitAt(x, 2)) +
                        16 * Count(BitAt(x, 3)) + 8 * Count(BitAt(x, 4)) + 4 * Count(BitAt(x, 5)) +
                        2 * Count(BitAt(x, 6)) + Count(BitAt(x, 7))
  {
  }

  lemma OctetHasItsBits(b: seq<bool>, i: nat)
    requires |b| == 8 && i < 8
    ensures BitAt(Octet(b), i) == b[i]
  {
  }

  /** An octet is determined by its bits. */
  lemma SameBitsSameOctet(x: bv8, y: bv8)
    requires forall i :: 0 <= i < 8 ==> BitAt(x, i) == BitAt(y, i)
    ensures x == y
  {
    assert BitAt(x, 0) == BitAt(y, 0) && BitAt(x, 1) == BitAt(y, 1);
    assert BitAt(x, 2) == BitAt(y, 2) && BitAt(x, 3) == BitAt(y, 3);
    assert BitAt(x, 4) == BitAt(y, 4) && BitAt(x, 5) == BitAt(y, 5);
    assert BitAt(x, 6) == BitAt(y, 6) && BitAt(x, 7) == BitAt(y, 7);
  }

  lemma SameBitsSameOctets(a: seq<bv8>, b: seq<bv8>)
    requires |a| == |b| && Unpack(a) == Unpack(b)
    ensures a == b
  {
    forall i | 0 <= i < |a|
      ensures a[i] == b[i]
    {
      forall j | 0 <= j < 8
        ensures BitAt(a[i], j) == BitAt(b[i], j)
      {
        var k := 8 * i + j;
        assert k / 8 == i && k % 8 == j;
        assert Unpack(a)[k] == BitAt(a[i], j) && Unpack(b)[k] == BitAt(b[i], j);
      }
      SameBitsSameOctet(a[i], b[i]);
    }
  }

  lemma UnpackPack(bits: seq<bool>)
    requires |bits| % 8 == 0
    ensures Unpack(Pack(bits)) == bits
  {
    forall k | 0 <= k < |bits|
      ensures Unpack(Pack(bits))[k] == bits[k]
    {
      var i := k / 8;
      OctetHasItsBits(bits[8 * i..8 * i + 8], k % 8);
    }
  }

  lemma PackUnpack(octets: seq<bv8>)
    ensures Pack(Unpack(octets)) == octets
  {
    UnpackPack(Unpack(octets));
    SameBitsSameOctets(Pack(Unpack(octets)), octets);
  }

  lemma OrMask(x: bv8, i: nat, b: bool, j: nat)
    requires i < 8 && j < 8
    ensures BitAt(x | Place(b, i), j) == (BitAt(x, j) || (b && i == j))
  {
  }

  lemma SetOneBit(octets: seq<bv8>, at: nat, b: bool, j: nat)
    requires at < 8 * |octets| && j < 8 * |octets|
    ensures Unpack(octets[at / 8 := octets[at / 8] | Place(b, at % 8)])[j] == (Unpack(octets)[j] || (j == at && b))
  {
    if j / 8 == at / 8 {
      OrMask(octets[at / 8], at % 8, b, j % 8);
    }
  }

  /** One more bit of the string goes into its place. */
  lemma OneMoreBit(before: seq<bv8>, head: seq<bool>, bits: seq<bool>, k: nat)
    requires k < |bits| && 8 * |before| == |head| + |bits|
    requires Unpack(before) == head + bits[..k] + Zeros(|bits| - k)
    ensures var at := |head| + k;
            Unpack(before[at / 8 := before[at / 8] | Place(bits[k], at % 8)]) ==
            head + bits[..k + 1] + Zeros(|bits| - k - 1)
  {
    hide Unpack;
    var at := |head| + k;
    var after := Unpack(before[at / 8 := before[at / 8] | Place(bits[k], at % 8)]);
    forall j | 0 <= j < |after|
      ensures after[j] == (Unpack(before)[j] || (j == at && bits[k]))
    {
      SetOneBit(before, at, bits[k], j);
    }
  }

  /** Setting bit after bit of a buffer whose rest is zero packs the string. */
  method PackInto(bits: seq<bool>, octets: array<bv8>, start: nat)
    requires octets.Length * 8 == start + |bits|
    requires Unpack(octets[..])[start..] == Zeros(|bits|)
    modifies octets
    ensures Unpack(octets[..]) == old(Unpack(octets[..]))[..start] + bits
  {
    hide Unpack, Place;
    ghost var head := Unpack(octets[..])[..start];
    for k := 0 to |bits|
      invariant Unpack(octets[..]) == head + bits[..k] + Zeros(|bits| - k)
    {
      var at := start + k;
      ghost var before := octets[..];
      OneMoreBit(before, head, bits, k);
      octets[at / 8] := octets[at / 8] | Place(bits[k], at % 8);
      assert octets[..] == before[at / 8 := before[at / 8] | Place(bits[k], at % 8)];
    }
  }

  /** Bit `i` of an octet, least significant first. */
  function LowBit(x: bv8, i: nat): bool
    requires i < 8
  {
    x & (if i == 0 then 0x01 else if i == 1 then 0x02 else if i == 2 then 0x04 else if i == 3 then 0x08
         else if i == 4 then 0x10 else if i == 5 then 0x20 else if i == 6 then 0x40 else 0x80) != 0
  }

  /** The bits of `octets`, least significant bit of each first. */
  function LowBits(octets: seq<bv8>): (bits: seq<bool>)
    ensures |bits| == 8 * |octets|
  {
    seq(8 * |octets|, k requires 0 <= k < 8 * |octets| => LowBit(octets[k / 8], k % 8))
  }

  /** The octet with the given bits, least significant first. */
  function LowOctet(b: seq<bool>): bv8
    requires |b| == 8
  {
    Place(b[7], 0) | Place(b[6], 1) | Place(b[5], 2) | Place(b[4], 3) |
    Place(b[3], 4) | Place(b[2], 5) | Place(b[1], 6) | Place(b[0], 7)
  }

  lemma LowOctetHasItsBits(b: seq<bool>, i: nat)
    requires |b| == 8 && i < 8
    ensures LowBit(LowOctet(b), i) == b[i]
  {
  }

  lemma LowBitIsBitAt(x: bv8, i: nat)
    requires i < 8
    ensures LowBit(x, i) == BitAt(x, 7 - i)
  {
  }

  lemma LowBitsDetermineOctet(x: bv8, y: bv8)
    requires forall i :: 0 <= i < 8 ==> LowBit(x, i) == LowBit(y, i)
    ensures x == y
  {
    forall i | 0 <= i < 8
      ensures BitAt(x, i) == BitAt(y, i)
    {
      LowBitIsBitAt(x, 7 - i);
      LowBitIsBitAt(y, 7 - i);
    }
    SameBitsSameOctet(x, y);
  }
}
