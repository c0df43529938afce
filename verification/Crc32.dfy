/** The reflected CRC-32 of the subscription image, computed in a shift register an octet at a time,
    and the polynomial division it amounts to. The division is stated on bit strings; a 32-bit word is its string
    of bits, bit 0 first. */
module Crc32 {
  import opened Bits
  import opened Octets
  import opened Polynomial
  import opened Words

  /** The generator; its taps are distances from the leading term. */
  const CRC := Generator({0, 6, 9, 10, 16, 20, 21, 22, 24, 25, 27, 28, 30, 31, 32}, WIDTH)

  /** The constant 0xedb88320, one bit shifted out of the generator. */
  const REFLECTED: bv32 := 0xedb88320

  /** The taps are exactly the set bits of the constant the shift register adds. */
  lemma TapsAreReflectedConstant(j: nat)
    requires j < WIDTH
    ensures REFLECTED & Mask32(j) != 0 <==> j + 1 in CRC.taps
  {
  }

  // ----- The shift register -----

  /** crc >> 1, with the constant added when a one falls out. */
  function Shift(r: seq<bool>): (s: seq<bool>)
    requires |r| == WIDTH
    ensures |s| == WIDTH
  {
    seq(WIDTH, j requires 0 <= j < WIDTH => (j + 1 < WIDTH && r[j + 1]) != (r[0] && j + 1 in CRC.taps))
  }

  /** crc ^ octet. */
  function XorOctet(r: seq<bool>, octet: bv8): (s: seq<bool>)
    requires |r| == WIDTH
    ensures |s| == WIDTH
  {
    seq(WIDTH, j requires 0 <= j < WIDTH => r[j] != (j < 8 && LowBit(octet, j)))
  }

  function Shifts(r: seq<bool>, n: nat): (s: seq<bool>)
    requires |r| == WIDTH
    ensures |s| == WIDTH
  {
    if n == 0 then r else Shift(Shifts(r, n - 1))
  }

  /** The register after the octets. */
  function Register(octets: seq<bv8>): (r: seq<bool>)
    ensures |r| == WIDTH
  {
    if octets == [] then Ones(WIDTH)
    else Shifts(XorOctet(Register(octets[..|octets| - 1]), octets[|octets| - 1]), 8)
  }

  /** The complemented register. */
  function Checksum(octets: seq<bv8>): (r: seq<bool>)
    ensures |r| == WIDTH
  {
    Xor(Register(octets), Ones(WIDTH))
  }

  // ----- The same on 32-bit words -----

  function Constant(odd: bool): bv32 {
    if odd then REFLECTED else 0
  }

  function ShiftedWord(x: bv32): bv32 {
    Sum(Down(x), Constant(Odd(x)))
  }

  function WordWithOctet(x: bv32, octet: bv8): bv32 {
    Sum(x, octet as bv32)
  }

  lemma ConstantBit(odd: bool, j: nat)
    requires j < WIDTH
    ensures Bit32(Constant(odd), j) == (odd && j + 1 in CRC.taps)
  {
    hide Mask32;
    TapsAreReflectedConstant(j);
  }

  lemma ShiftedWordBit(x: bv32, j: nat)
    requires j < WIDTH
    ensures Bit32(ShiftedWord(x), j) == ((j + 1 < WIDTH && Bit32(x, j + 1)) != (Bit32(x, 0) && j + 1 in CRC.taps))
  {
    hide Bit32, Constant, Sum, Down, Odd;
    SumBit(Down(x), Constant(Odd(x)), j);
    DownBit(x, j);
    LowestBit(x);
    ConstantBit(Odd(x), j);
  }

  /** Shifting the word and adding the constant is the shift of its bits. */
  lemma ShiftedWordBits(x: bv32)
    ensures WordBits(ShiftedWord(x)) == Shift(WordBits(x))
  {
    hide Bit32, ShiftedWord;
    forall j | 0 <= j < WIDTH
      ensures WordBits(ShiftedWord(x))[j] == Shift(WordBits(x))[j]
    {
      ShiftedWordBit(x, j);
    }
  }

  lemma WordWithOctetBits(x: bv32, octet: bv8)
    ensures WordBits(WordWithOctet(x, octet)) == XorOctet(WordBits(x), octet)
  {
    hide Bit32, LowBit, Sum;
    forall j | 0 <= j < WIDTH
      ensures WordBits(WordWithOctet(x, octet))[j] == XorOctet(WordBits(x), octet)[j]
    {
      SumBit(x, octet as bv32, j);
      OctetBit(octet, j);
    }
  }

  /** The loops over octets and bits, on the word. */
  method ComputeChecksum(octets: seq<bv8>) returns (checksum: bv32)
    ensures WordBits(checksum) == Checksum(octets)
  {
    hide Shift, XorOctet, WordBits, ShiftedWord, WordWithOctet;
    var crc: bv32 := 0xffff_ffff;
    FullWordBits();
    for i := 0 to |octets|
      invariant WordBits(crc) == Register(octets[..i])
    {
      assert octets[..i + 1][..i] == octets[..i];
      WordWithOctetBits(crc, octets[i]);
      crc := WordWithOctet(crc, octets[i]);
      ghost var start := WordBits(crc);
      for bit := 0 to 8
        invariant WordBits(crc) == Shifts(start, bit)
      {
        ShiftedWordBits(crc);
        crc := ShiftedWord(crc);
      }
    }
    assert octets[..|octets|] == octets;
    ComplementBits(crc);
    checksum := !crc;
  }

  // ----- Division -----

  /** The register's initial ones, added to the first 32 bits of the word. */
  function Preset(w: seq<bool>): (r: seq<bool>)
    ensures |r| == |w|
  {
    seq(|w|, i requires 0 <= i < |w| => w[i] != (i < WIDTH))
  }

  /** Window invariant: `n` bits are divided; the next 32 positions hold register plus message, of which
      the register already contains the next `ahead`; beyond them nothing has changed. */
  ghost predicate Window(w: seq<bool>, n: nat, ahead: nat, r: seq<bool>)
    requires |r| == WIDTH && n + WIDTH <= |w|
  {
    var d := Divide(CRC, Preset(w), n);
    && (forall j :: 0 <= j < WIDTH ==> d[n + j] == (r[j] != (j >= ahead && w[n + j])))
    && (forall i :: n + WIDTH <= i < |w| ==> d[i] == w[i])
  }

  lemma WindowShifts(w: seq<bool>, n: nat, ahead: nat, r: seq<bool>)
    requires |r| == WIDTH && n + WIDTH < |w| && 0 < ahead <= 8
    requires Window(w, n, ahead, r)
    ensures Window(w, n + 1, ahead - 1, Shift(r))
  {
    hide Preset;
    var d, e, s := Divide(CRC, Preset(w), n), Divide(CRC, Preset(w), n + 1), Shift(r);
    assert e == Step(CRC, d, n);
    assert d[n] == r[0];
    forall j | 0 <= j < WIDTH
      ensures e[n + 1 + j] == (s[j] != (j >= ahead - 1 && w[n + 1 + j]))
    {
      assert e[n + 1 + j] == (d[n + 1 + j] != (d[n] && j + 1 in CRC.taps));
    }
  }

  lemma {:induction false} WindowShiftsOctet(w: seq<bool>, n: nat, r: seq<bool>, k: nat)
    requires |r| == WIDTH && n + 8 + WIDTH <= |w| && k <= 8
    requires Window(w, n, 8, r)
    ensures Window(w, n + k, 8 - k, Shifts(r, k))
  {
    if k > 0 {
      WindowShiftsOctet(w, n, r, k - 1);
      WindowShifts(w, n + k - 1, 8 - (k - 1), Shifts(r, k - 1));
    }
  }

  lemma WindowTakesOctet(w: seq<bool>, n: nat, r: seq<bool>, octet: bv8)
    requires |r| == WIDTH && n + WIDTH <= |w|
    requires forall j :: 0 <= j < 8 ==> w[n + j] == LowBit(octet, j)
    requires Window(w, n, 0, r)
    ensures Window(w, n, 8, XorOctet(r, octet))
  {
    hide Divide, Preset, LowBit;
  }

  /** The octet-wise register is the remainder so far of the bit-wise division. */
  lemma {:induction false} RegisterIsDivision(octets: seq<bv8>, w: seq<bool>)
    requires 8 * |octets| + WIDTH <= |w|
    requires LowBits(octets) <= w
    ensures Window(w, 8 * |octets|, 0, Register(octets))
  {
    hide Window, XorOctet, Shifts, LowBit;
    if octets == [] {
      WindowStarts(w);
    } else {
      var before, octet, n := octets[..|octets| - 1], octets[|octets| - 1], 8 * (|octets| - 1);
      assert LowBits(before) <= w by {
        assert forall k :: 0 <= k < n ==> LowBits(before)[k] == LowBits(octets)[k];
      }
      RegisterIsDivision(before, w);
      forall j | 0 <= j < 8
        ensures w[n + j] == LowBit(octet, j)
      {
        assert (n + j) / 8 == |octets| - 1 && (n + j) % 8 == j;
        assert w[n + j] == LowBits(octets)[n + j];
      }
      WindowTakesOctet(w, n, Register(before), octet);
      WindowShiftsOctet(w, n, XorOctet(Register(before), octet), 8);
    }
  }

  lemma WindowStarts(w: seq<bool>)
    requires WIDTH <= |w|
    ensures Window(w, 0, 0, Ones(WIDTH))
  {
  }

  /** A protected word is accepted when the division of the preset word leaves all ones. */
  ghost predicate Accepts(w: seq<bool>)
    requires WIDTH <= |w|
  {
    Remainder(CRC, Preset(w)) == Ones(WIDTH)
  }

  /** Comparing a stored checksum with the computed one is that acceptance test. */
  lemma ChecksumIsAcceptance(octets: seq<bv8>, stored: seq<bool>)
    requires |stored| == WIDTH
    ensures stored == Checksum(octets) <==> Accepts(LowBits(octets) + stored)
  {
    hide Register, LowBit, Divide;
    var w, n, r := LowBits(octets) + stored, 8 * |octets|, Register(octets);
    RegisterIsDivision(octets, w);
    var remainder := Remainder(CRC, Preset(w));
    assert forall j :: 0 <= j < WIDTH ==> remainder[j] == (r[j] != stored[j]);
    if stored == Checksum(octets) {
      assert remainder == Ones(WIDTH);
    }
    if remainder == Ones(WIDTH) {
      assert forall j :: 0 <= j < WIDTH ==> remainder[j];
      assert stored == Checksum(octets);
    }
  }

  /** In figures: the stored word is the checksum exactly when message and word, the first 32 bits inverted, leave
      all ones on division by the CRC-32 polynomial. */
  lemma ChecksumInFigures(octets: seq<bv8>, stored: seq<bool>)
    requires |stored| == WIDTH
    ensures var w := Xor(LowBits(octets) + stored, Ones(32) + Zeros(8 * |octets|));
            var g := Generator({0, 6, 9, 10, 16, 20, 21, 22, 24, 25, 27, 28, 30, 31, 32}, 32);
            stored == Checksum(octets) <==> Remainder(g, w) == Ones(32)
  {
    hide Remainder, Checksum, LowBits;
    var w := LowBits(octets) + stored;
    ChecksumIsAcceptance(octets, stored);
    assert Preset(w) == Xor(w, Ones(32) + Zeros(8 * |octets|));
  }

  function ShiftedWords(x: bv32, n: nat): bv32 {
    if n == 0 then x else ShiftedWord(ShiftedWords(x, n - 1))
  }

  lemma {:induction false} ShiftedWordsBits(x: bv32, n: nat)
    ensures WordBits(ShiftedWords(x, n)) == Shifts(WordBits(x), n)
  {
    hide WordBits, ShiftedWord, Shift;
    if n > 0 {
      ShiftedWordsBits(x, n - 1);
      ShiftedWordBits(ShiftedWords(x, n - 1));
    }
  }

  lemma RegisterTakes(octets: seq<bv8>, octet: bv8, x: bv32)
    requires WordBits(x) == Register(octets)
    ensures WordBits(ShiftedWords(WordWithOctet(x, octet), 8)) == Register(octets + [octet])
  {
    hide WordBits, ShiftedWords, WordWithOctet, XorOctet, Shifts;
    assert (octets + [octet])[..|octets|] == octets;
    WordWithOctetBits(x, octet);
    ShiftedWordsBits(WordWithOctet(x, octet), 8);
  }

  lemma RegisterMoves(octets: seq<bv8>, k: nat, x: bv32, y: bv32)
    requires k < |octets| && WordBits(x) == Register(octets[..k])
    requires ShiftedWords(WordWithOctet(x, octets[k]), 8) == y
    ensures WordBits(y) == Register(octets[..k + 1])
  {
    hide Register, WordBits, ShiftedWords, WordWithOctet;
    RegisterTakes(octets[..k], octets[k], x);
    assert octets[..k] + [octets[k]] == octets[..k + 1];
  }

  // The register after each of the nine digits.
  lemma FirstDigits()
    ensures ShiftedWords(WordWithOctet(0xffffffff, 0x31), 8) == 0x7c231048
    ensures ShiftedWords(WordWithOctet(0x7c231048, 0x32), 8) == 0xb0acbb32
    ensures ShiftedWords(WordWithOctet(0xb0acbb32, 0x33), 8) == 0x77b79c2d
    ensures ShiftedWords(WordWithOctet(0x77b79c2d, 0x34), 8) == 0x641c1f5c
    ensures ShiftedWords(WordWithOctet(0x641c1f5c, 0x35), 8) == 0x340ac5e3
  {
  }

  lemma LastDigits()
    ensures ShiftedWords(WordWithOctet(0x340ac5e3, 0x36), 8) == 0xf68d2c9e
    ensures ShiftedWords(WordWithOctet(0xf68d2c9e, 0x37), 8) == 0xaffc9660
    ensures ShiftedWords(WordWithOctet(0xaffc9660, 0x38), 8) == 0x651f2550
    ensures ShiftedWords(WordWithOctet(0x651f2550, 0x39), 8) == 0x340bc6d9
  {
  }

  /** The check value of the standard checksum: that of the nine digits "123456789" is 0xcbf43926. */
  lemma CheckValue()
    ensures Checksum([0x31, 0x32, 0x33, 0x34, 0x35, 0x36, 0x37, 0x38, 0x39]) == WordBits(0xcbf4_3926)
  {
    hide Register, WordBits, ShiftedWords, WordWithOctet;
    var digits: seq<bv8> := [0x31, 0x32, 0x33, 0x34, 0x35, 0x36, 0x37, 0x38, 0x39];
    FirstDigits();
    LastDigits();
    NothingRegistered();
    assert digits[..0] == [];
    RegisterMoves(digits, 0, 0xffffffff, 0x7c231048);
    RegisterMoves(digits, 1, 0x7c231048, 0xb0acbb32);
    RegisterMoves(digits, 2, 0xb0acbb32, 0x77b79c2d);
    RegisterMoves(digits, 3, 0x77b79c2d, 0x641c1f5c);
    RegisterMoves(digits, 4, 0x641c1f5c, 0x340ac5e3);
    RegisterMoves(digits, 5, 0x340ac5e3, 0xf68d2c9e);
    RegisterMoves(digits, 6, 0xf68d2c9e, 0xaffc9660);
    RegisterMoves(digits, 7, 0xaffc9660, 0x651f2550);
    RegisterMoves(digits, 8, 0x651f2550, 0x340bc6d9);
    assert digits[..9] == digits;
    ComplementBits(0x340b_c6d9);
    ComplementOfLast();
  }

  lemma NothingRegistered()
    ensures WordBits(0xffff_ffff) == Register([])
  {
    FullWordBits();
  }

  lemma ComplementOfLast()
    ensures !(0x340b_c6d9 as bv32) == 0xcbf4_3926
  {
  }

  /** An error burst of up to 32 bits, anywhere in message and checksum, is never accepted. */
  lemma BurstIsRefused(w: seq<bool>, e: seq<bool>, at: nat)
    requires WIDTH <= |w| == |e| && Accepts(w) && IsBurst(e, at, WIDTH)
    ensures !Accepts(Xor(w, e))
  {
    hide Remainder;
    assert Preset(Xor(w, e)) == Xor(Preset(w), e);
    BurstChangesRemainder(CRC, Preset(w), e, at);
  }
}
