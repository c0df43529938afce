/** 32-bit words as strings of bits, bit 0 first. The bit-vector facts are kept apart from the reasoning about bits. */
module Words {
  import opened Bits
  import opened Octets

  const WIDTH := 32

  function Mask32(j: nat): bv32
    requires j < WIDTH
  {
    if j == 0 then 0x00000001
    else if j == 1 then 0x00000002
    else if j == 2 then 0x00000004
    else if j == 3 then 0x00000008
    else if j == 4 then 0x00000010
    else if j == 5 then 0x00000020
    else if j == 6 then 0x00000040
    else if j == 7 then 0x00000080
    else if j == 8 then 0x00000100
    else if j == 9 then 0x00000200
    else if j == 10 then 0x00000400
    else if j == 11 then 0x00000800
    else if j == 12 then 0x00001000
    else if j == 13 then 0x00002000
    else if j == 14 then 0x00004000
    else if j == 15 then 0x00008000
    else if j == 16 then 0x00010000
    else if j == 17 then 0x00020000
    else if j == 18 then 0x00040000
    else if j == 19 then 0x00080000
    else if j == 20 then 0x00100000
    else if j == 21 then 0x00200000
    else if j == 22 then 0x00400000
    else if j == 23 then 0x00800000
    else if j == 24 then 0x01000000
    else if j == 25 then 0x02000000
    else if j == 26 then 0x04000000
    else if j == 27 then 0x08000000
    else if j == 28 then 0x10000000
    else if j == 29 then 0x20000000
    else if j == 30 then 0x40000000
    else 0x80000000
  }

  // ----- Operations -----

  function Sum(x: bv32, y: bv32): bv32 { x ^ y }
  function Down(x: bv32): bv32 { x >> 1 }
  function Above(x: bv32): bv32 { x << 1 }
  function Common(x: bv32, y: bv32): bv32 { x & y }
  function Either(x: bv32, y: bv32): bv32 { x | y }
  predicate Odd(x: bv32) { x & 1 != 0 }

  // ----- Bits -----

  predicate Has(x: bv32, places: bv32) {
    x & places != 0
  }

  predicate Bit32(x: bv32, j: nat)
    requires j < WIDTH
  {
    Has(x, Mask32(j))
  }

  function WordBits(x: bv32): (r: seq<bool>)
    ensures |r| == WIDTH
  {
    seq(WIDTH, j requires 0 <= j < WIDTH => Bit32(x, j))
  }

  predicate OnePlace(m: bv32) {
    m != 0 && m & (m - 1) == 0
  }

  lemma MaskIsOnePlace(j: nat)
    requires j < WIDTH
    ensures OnePlace(Mask32(j))
  {
  }

  lemma MaskMovesUp(j: nat)
    requires j < WIDTH - 1
    ensures Mask32(j + 1) == Mask32(j) << 1
  {
    if j < 8 {
    } else if j < 16 {
    } else if j < 24 {
    } else {
    }
  }

  lemma HasBelow(x: bv32, m: bv32)
    ensures Has(x >> 1, m) == Has(x, m << 1)
  {
  }

  lemma SumHas(x: bv32, y: bv32, m: bv32)
    requires OnePlace(m)
    ensures Has(x ^ y, m) == (Has(x, m) != Has(y, m))
  {
  }

  lemma HasAbove(x: bv32, m: bv32)
    requires OnePlace(m) && m != 0x8000_0000
    ensures Has(Above(x), m << 1) == Has(x, m)
  {
  }

  lemma NothingEnters(x: bv32)
    ensures !Has(Above(x), Mask32(0))
  {
  }

  lemma AboveBit(x: bv32, j: nat)
    requires j < WIDTH
    ensures Bit32(Above(x), j) == (j > 0 && Bit32(x, j - 1))
  {
    hide Has, Mask32, OnePlace, Above;
    if j > 0 {
      MaskIsOnePlace(j - 1);
      MaskBelowTop(j - 1);
      MaskMovesUp(j - 1);
      HasAbove(x, Mask32(j - 1));
    } else {
      NothingEnters(x);
    }
  }

  lemma MaskBelowTop(j: nat)
    requires j < WIDTH - 1
    ensures Mask32(j) != 0x8000_0000
  {
  }

  lemma CommonHas(x: bv32, y: bv32, m: bv32)
    requires OnePlace(m)
    ensures Has(Common(x, y), m) == (Has(x, m) && Has(y, m))
  {
    hide Common, OnePlace, Has;
    CommonRegroups(x, y, m);
    PlaceOrNothing(x, m);
    HasIsCommon(Common(x, y), m);
    HasIsCommon(y, m);
  }

  lemma CommonRegroups(x: bv32, y: bv32, m: bv32)
    ensures Common(Common(x, y), m) == Common(y, Common(x, m)) && Common(y, 0) == 0
  {
  }

  lemma PlaceOrNothing(x: bv32, m: bv32)
    requires OnePlace(m)
    ensures Common(x, m) == if Has(x, m) then m else 0
  {
  }

  lemma HasIsCommon(x: bv32, m: bv32)
    ensures Has(x, m) <==> Common(x, m) != 0
  {
  }

  lemma CommonOfEither(x: bv32, y: bv32, m: bv32)
    ensures Common(Either(x, y), m) == Either(Common(x, m), Common(y, m))
  {
  }

  lemma NothingInEither(x: bv32, y: bv32)
    ensures Either(x, y) == 0 <==> x == 0 && y == 0
  {
  }

  lemma EitherHas(x: bv32, y: bv32, m: bv32)
    ensures Has(Either(x, y), m) == (Has(x, m) || Has(y, m))
  {
    hide Either;
    CommonOfEither(x, y, m);
    NothingInEither(Common(x, m), Common(y, m));
  }

  lemma ComplementHas(x: bv32, m: bv32)
    requires OnePlace(m)
    ensures Has(!x, m) == !Has(x, m)
  {
  }

  lemma SumBit(x: bv32, y: bv32, j: nat)
    requires j < WIDTH
    ensures Bit32(Sum(x, y), j) == (Bit32(x, j) != Bit32(y, j))
  {
    hide Has, Mask32, OnePlace;
    MaskIsOnePlace(j);
    SumHas(x, y, Mask32(j));
  }

  lemma DownBit(x: bv32, j: nat)
    requires j < WIDTH
    ensures Bit32(Down(x), j) == (j + 1 < WIDTH && Bit32(x, j + 1))
  {
    hide Has, Mask32;
    if j < WIDTH - 1 {
      MaskMovesUp(j);
      HasBelow(x, Mask32(j));
    } else {
      TopIsEmpty(x);
    }
  }

  lemma TopIsEmpty(x: bv32)
    ensures !Has(x >> 1, Mask32(31))
  {
  }

  lemma LowestBit(x: bv32)
    ensures Bit32(x, 0) == Odd(x)
  {
  }

  lemma OctetBit(octet: bv8, j: nat)
    requires j < WIDTH
    ensures Bit32(octet as bv32, j) == (j < 8 && LowBit(octet, j))
  {
  }

  lemma FullWordBits()
    ensures WordBits(0xffff_ffff) == Ones(WIDTH)
  {
    forall j | 0 <= j < WIDTH
      ensures Bit32(0xffff_ffff, j)
    {
      MaskIsOnePlace(j);
    }
  }

  lemma ComplementBits(x: bv32)
    ensures WordBits(!x) == Xor(WordBits(x), Ones(WIDTH))
  {
    hide Has, Mask32, OnePlace;
    forall j | 0 <= j < WIDTH
      ensures WordBits(!x)[j] == !WordBits(x)[j]
    {
      MaskIsOnePlace(j);
      ComplementHas(x, Mask32(j));
    }
  }

  // ----- Words as octets -----

  /** Octet `i` of the word, least significant first. */
  function OctetOf(x: bv32, i: nat): bv8
    requires i < 4
  {
    (if i == 0 then x & 0xff else if i == 1 then (x >> 8) & 0xff else if i == 2 then (x >> 16) & 0xff
     else (x >> 24) & 0xff) as bv8
  }

  lemma OctetOfBit(x: bv32, i: nat, j: nat)
    requires i < 4 && j < 8
    ensures LowBit(OctetOf(x, i), j) == Bit32(x, 8 * i + j)
  {
    if i == 0 {
    } else if i == 1 {
    } else if i == 2 {
    } else {
    }
  }

  lemma OctetsDetermineWord(x: bv32, y: bv32)
    requires OctetOf(x, 0) == OctetOf(y, 0) && OctetOf(x, 1) == OctetOf(y, 1)
    requires OctetOf(x, 2) == OctetOf(y, 2) && OctetOf(x, 3) == OctetOf(y, 3)
    ensures x == y
  {
  }

  /** A word is determined by its bits. */
  lemma BitsDetermineWord(x: bv32, y: bv32)
    requires WordBits(x) == WordBits(y)
    ensures x == y
  {
    hide OctetOf, LowBit, Bit32;
    forall i | 0 <= i < 4
      ensures OctetOf(x, i) == OctetOf(y, i)
    {
      forall j | 0 <= j < 8
        ensures LowBit(OctetOf(x, i), j) == LowBit(OctetOf(y, i), j)
      {
        OctetOfBit(x, i, j);
        OctetOfBit(y, i, j);
        assert WordBits(x)[8 * i + j] == WordBits(y)[8 * i + j];
      }
      LowBitsDetermineOctet(OctetOf(x, i), OctetOf(y, i));
    }
    OctetsDetermineWord(x, y);
  }

  /** Four octets as a word, least significant first. */
  function Joined(b: seq<bv8>): bv32
    requires |b| == 4
  {
    (b[0] as bv32) | ((b[1] as bv32) << 8) | ((b[2] as bv32) << 16) | ((b[3] as bv32) << 24)
  }

  lemma JoinedOctet(b: seq<bv8>, i: nat)
    requires |b| == 4 && i < 4
    ensures OctetOf(Joined(b), i) == b[i]
  {
  }

  lemma JoinedBits(b: seq<bv8>)
    requires |b| == 4
    ensures WordBits(Joined(b)) == LowBits(b)
  {
    hide OctetOf, Joined, LowBit, Bit32;
    forall k | 0 <= k < WIDTH
      ensures WordBits(Joined(b))[k] == LowBits(b)[k]
    {
      JoinedOctet(b, k / 8);
      OctetOfBit(Joined(b), k / 8, k % 8);
    }
  }
}
