/** A5/1 as three strings of bits that are shifted, which is what the masked 32-bit words of the program amount to. */
module A5Registers {
  import opened Bits
  import opened Integers
  import opened Octets
  import opened FrameNumbers
  import opened Words
  import opened A5

  /** Registers of 19, 22 and 23 places; new bits enter at place 0. */
  datatype Shifters = Shifters(a: seq<bool>, b: seq<bool>, c: seq<bool>) {
    predicate Valid() {
      |a| == 19 && |b| == 22 && |c| == 23
    }

    /** Feedback by x^19 + x^18 + x^17 + x^14 + 1, x^22 + x^21 + 1 and x^23 + x^22 + x^21 + x^8 + 1. */
    function FeedA(): bool requires Valid() { (a[13] != a[16]) != (a[17] != a[18]) }
    function FeedB(): bool requires Valid() { b[20] != b[21] }
    function FeedC(): bool requires Valid() { (c[7] != c[20]) != (c[21] != c[22]) }

    /** All three move, and an input bit is added to what enters them. */
    function Fed(input: bool): (s: Shifters)
      requires Valid()
      ensures s.Valid()
    {
      Shifters([FeedA() != input] + a[..18], [FeedB() != input] + b[..21], [FeedC() != input] + c[..22])
    }

    /** At least two of the three places 8, 10 and 10 hold a one. */
    predicate Vote()
      requires Valid()
    {
      Count(a[8]) + Count(b[10]) + Count(c[10]) >= 2
    }

    /** Stop and go: those that agree with the vote move. */
    function Stepped(): (s: Shifters)
      requires Valid()
      ensures s.Valid()
    {
      Shifters(if a[8] == Vote() then [FeedA()] + a[..18] else a,
               if b[10] == Vote() then [FeedB()] + b[..21] else b,
               if c[10] == Vote() then [FeedC()] + c[..22] else c)
    }

    /** The sum of the oldest bits. */
    function Output(): bool
      requires Valid()
    {
      (a[18] != b[21]) != c[22]
    }
  }

  /** The registers after a string of bits has been fed in. */
  function Loaded(bits: seq<bool>): (s: Shifters)
    ensures s.Valid()
  {
    if bits == [] then Shifters(Zeros(19), Zeros(22), Zeros(23))
    else Loaded(bits[..|bits| - 1]).Fed(bits[|bits| - 1])
  }

  function Steps(s: Shifters, n: nat): (r: Shifters)
    requires s.Valid()
    ensures r.Valid()
  {
    if n == 0 then s else Steps(s, n - 1).Stepped()
  }

  /** The lowest `n` bits of a number, least significant first. */
  function LowestBits(count: nat, n: nat): (bits: seq<bool>)
    ensures |bits| == n
  {
    seq(n, i requires 0 <= i < n => NumberBit(count, i))
  }

  // ----- The words hold those strings -----

  function View(r: Registers): (s: Shifters)
    ensures s.Valid()
  {
    Shifters(WordBits(r.r1)[..19], WordBits(r.r2)[..22], WordBits(r.r3)[..23])
  }

  lemma MaskBits(j: nat)
    requires j < WIDTH
    ensures Bit32(R1_MASK, j) == (j < 19) && Bit32(R2_MASK, j) == (j < 22) && Bit32(R3_MASK, j) == (j < 23)
  {
  }

  lemma AllMaskBits()
    ensures forall j :: 0 <= j < WIDTH ==> Bit32(R1_MASK, j) == (j < 19)
    ensures forall j :: 0 <= j < WIDTH ==> Bit32(R2_MASK, j) == (j < 22)
    ensures forall j :: 0 <= j < WIDTH ==> Bit32(R3_MASK, j) == (j < 23)
  {
    hide Bit32;
    forall j | 0 <= j < WIDTH
      ensures Bit32(R1_MASK, j) == (j < 19) && Bit32(R2_MASK, j) == (j < 22) && Bit32(R3_MASK, j) == (j < 23)
    {
      MaskBits(j);
    }
  }

  lemma ValueBit(b: bool, j: nat)
    requires j < WIDTH
    ensures Bit32(Value(b), j) == (j == 0 && b)
  {
  }

  lemma MovedIsMasked(reg: bv32, mask: bv32, low: bv32)
    ensures MovedUp(reg, mask, low) == Either(Common(Above(reg), mask), low)
  {
  }

  /** What moving up leaves at place `j`. */
  lemma MovedBit(reg: bv32, mask: bv32, low: bool, j: nat)
    requires j < WIDTH
    ensures Bit32(MovedUp(reg, mask, Value(low)), j) ==
            ((j > 0 && Bit32(reg, j - 1) && Bit32(mask, j)) || (j == 0 && low))
  {
    hide Mask32, Has, OnePlace, MovedUp, Either, Common, Above, Value;
    MaskIsOnePlace(j);
    MovedIsMasked(reg, mask, Value(low));
    EitherHas(Common(Above(reg), mask), Value(low), Mask32(j));
    CommonHas(Above(reg), mask, Mask32(j));
    AboveBit(reg, j);
    ValueBit(low, j);
  }

  lemma TapsAreSums()
    ensures R1_TAPS == Sum(Sum(Mask32(13), Mask32(16)), Sum(Mask32(17), Mask32(18)))
    ensures R2_TAPS == Sum(Mask32(20), Mask32(21))
    ensures R3_TAPS == Sum(Sum(Mask32(7), Mask32(20)), Sum(Mask32(21), Mask32(22)))
  {
  }

  lemma ParityOfTwo(x: bv32, j: nat, k: nat)
    requires j < WIDTH && k < WIDTH
    ensures Parity(Masked(x, Sum(Mask32(j), Mask32(k)))) == Value(Bit32(x, j) != Bit32(x, k))
  {
    hide Parity, Masked, Sum, Mask32, Value, Bit32;
    MaskedAdds(x, Mask32(j), Mask32(k));
    ParityAdds(Masked(x, Mask32(j)), Masked(x, Mask32(k)));
    ParityOfPlace(x, j);
    ParityOfPlace(x, k);
    ValueAdds(Bit32(x, j), Bit32(x, k));
  }

  lemma ParityOfFour(x: bv32, i: nat, j: nat, k: nat, l: nat)
    requires i < WIDTH && j < WIDTH && k < WIDTH && l < WIDTH
    ensures Parity(Masked(x, Sum(Sum(Mask32(i), Mask32(j)), Sum(Mask32(k), Mask32(l))))) ==
            Value((Bit32(x, i) != Bit32(x, j)) != (Bit32(x, k) != Bit32(x, l)))
  {
    hide Parity, Masked, Sum, Mask32, Value, Bit32;
    var a, b := Sum(Mask32(i), Mask32(j)), Sum(Mask32(k), Mask32(l));
    MaskedAdds(x, a, b);
    ParityAdds(Masked(x, a), Masked(x, b));
    ParityOfTwo(x, i, j);
    ParityOfTwo(x, k, l);
    ValueAdds(Bit32(x, i) != Bit32(x, j), Bit32(x, k) != Bit32(x, l));
  }

  /** What enters each register. */
  lemma FeedbackBits(r: Registers)
    ensures Parity(r.r1 & R1_TAPS) == Value(View(r).FeedA())
    ensures Parity(r.r2 & R2_TAPS) == Value(View(r).FeedB())
    ensures Parity(r.r3 & R3_TAPS) == Value(View(r).FeedC())
  {
    hide Parity, Sum, Mask32, Value, Bit32;
    TapsAreSums();
    ParityOfFour(r.r1, 13, 16, 17, 18);
    ParityOfTwo(r.r2, 20, 21);
    ParityOfFour(r.r3, 7, 20, 21, 22);
  }

  /** A clocked word is its string moved one place. */
  lemma MovedView(reg: bv32, mask: bv32, low: bool, n: nat)
    requires 0 < n <= WIDTH && forall j :: 0 <= j < WIDTH ==> Bit32(mask, j) == (j < n)
    ensures WordBits(MovedUp(reg, mask, Value(low)))[..n] == [low] + WordBits(reg)[..n - 1]
  {
    hide MovedUp, Value, Bit32;
    forall j | 0 <= j < n
      ensures WordBits(MovedUp(reg, mask, Value(low)))[j] == ([low] + WordBits(reg)[..n - 1])[j]
    {
      MovedBit(reg, mask, low, j);
    }
  }

  lemma ClockedViews(r: Registers)
    ensures WordBits(Clock(r.r1, R1_MASK, R1_TAPS))[..19] == [View(r).FeedA()] + View(r).a[..18]
    ensures WordBits(Clock(r.r2, R2_MASK, R2_TAPS))[..22] == [View(r).FeedB()] + View(r).b[..21]
    ensures WordBits(Clock(r.r3, R3_MASK, R3_TAPS))[..23] == [View(r).FeedC()] + View(r).c[..22]
  {
    hide Parity, MovedUp, Value, Bit32, WordBits, Shifters.FeedA, Shifters.FeedB, Shifters.FeedC;
    FeedbackBits(r);
    AllMaskBits();
    MovedView(r.r1, R1_MASK, View(r).FeedA(), 19);
    MovedView(r.r2, R2_MASK, View(r).FeedB(), 22);
    MovedView(r.r3, R3_MASK, View(r).FeedC(), 23);
  }

  lemma AbsorbedBits(x: bv32, input: bool, n: nat)
    requires 0 < n <= WIDTH
    ensures WordBits(Sum(x, Value(input)))[..n] == [WordBits(x)[0] != input] + WordBits(x)[1..n]
  {
    hide Value, Bit32, Sum;
    var y := Sum(x, Value(input));
    forall j | 0 <= j < n
      ensures WordBits(y)[..n][j] == ([WordBits(x)[0] != input] + WordBits(x)[1..n])[j]
    {
      SumBit(x, Value(input), j);
      ValueBit(input, j);
    }
  }

  /** Clocking all registers and absorbing a bit is feeding it. */
  lemma FeedingIsViewed(r: Registers, input: bool)
    ensures View(r.ClockedAll().Absorbed(input)) == View(r).Fed(input)
  {
    hide Clock, WordBits, Sum, Value, Shifters.FeedA, Shifters.FeedB, Shifters.FeedC;
    var x := r.ClockedAll();
    ClockedViews(r);
    AbsorbedBits(x.r1, input, 19);
    AbsorbedBits(x.r2, input, 22);
    AbsorbedBits(x.r3, input, 23);
    FedFrom(WordBits(x.r1), 19, View(r).FeedA(), View(r).a[..18]);
    FedFrom(WordBits(x.r2), 22, View(r).FeedB(), View(r).b[..21]);
    FedFrom(WordBits(x.r3), 23, View(r).FeedC(), View(r).c[..22]);
  }

  lemma FedFrom(w: seq<bool>, n: nat, low: bool, rest: seq<bool>)
    requires 0 < n <= |w| && w[..n] == [low] + rest
    ensures w[0] == low && w[1..n] == rest
  {
    assert w[..n][0] == low && w[..n][1..] == rest;
  }

  lemma PlaceEight(x: bv32)
    ensures (x >> 8) & 1 == Value(Bit32(x, 8))
  {
  }

  lemma PlaceTen(x: bv32)
    ensures (x >> 10) & 1 == Value(Bit32(x, 10))
  {
  }

  lemma MajorityVotes(a: bool, b: bool, c: bool)
    ensures Majority(Value(a), Value(b), Value(c)) == Value(Count(a) + Count(b) + Count(c) >= 2)
  {
  }

  lemma ValuesDiffer(a: bool, b: bool)
    ensures Value(a) == Value(b) <==> a == b
  {
  }

  /** Irregular clocking is stop and go. */
  lemma SteppingIsViewed(r: Registers)
    ensures View(r.ClockedIrregularly()) == View(r).Stepped()
  {
    hide Clock, Majority, Value, Bit32, Shifters.FeedA, Shifters.FeedB, Shifters.FeedC;
    var v := View(r);
    PlaceEight(r.r1);
    PlaceTen(r.r2);
    PlaceTen(r.r3);
    MajorityVotes(v.a[8], v.b[10], v.c[10]);
    ValuesDiffer(v.a[8], v.Vote());
    ValuesDiffer(v.b[10], v.Vote());
    ValuesDiffer(v.c[10], v.Vote());
    ClockedViews(r);
  }

  lemma OutputPlaces(x: bv32, y: bv32, z: bv32)
    ensures (((x >> 18) ^ (y >> 21) ^ (z >> 22)) & 1 == 1) == ((Bit32(x, 18) != Bit32(y, 21)) != Bit32(z, 22))
  {
  }

  lemma OutputIsViewed(r: Registers)
    ensures r.Output() == View(r).Output()
  {
    hide Bit32;
    OutputPlaces(r.r1, r.r2, r.r3);
  }

  // ----- The whole generator -----

  lemma NothingLoaded()
    ensures View(Registers(0, 0, 0)) == Loaded([])
  {
    forall j | 0 <= j < WIDTH
      ensures !Bit32(0, j)
    {
    }
  }

  lemma {:induction false} KeyIsFed(key: seq<bv8>, n: nat)
    requires |key| == KEY_OCTETS && n <= 64
    ensures View(KeyLoaded(key, n)) == Loaded(LowBits(key)[..n])
  {
    hide Registers.ClockedAll, Registers.Absorbed, View, Shifters.Fed, LowBit;
    if n == 0 {
      NothingLoaded();
    } else {
      var bits := LowBits(key)[..n];
      KeyIsFed(key, n - 1);
      FeedingIsViewed(KeyLoaded(key, n - 1), bits[n - 1]);
      assert bits[..n - 1] == LowBits(key)[..n - 1];
    }
  }

  lemma {:induction false} CountIsFed(key: seq<bv8>, count: nat, n: nat)
    requires |key| == KEY_OCTETS && n <= 22
    ensures View(CountLoaded(key, count, n)) == Loaded(LowBits(key) + LowestBits(count, n))
  {
    hide Registers.ClockedAll, Registers.Absorbed, View, Shifters.Fed, LowBit, NumberBit, KeyLoaded;
    var bits := LowBits(key) + LowestBits(count, n);
    if n == 0 {
      KeyIsFed(key, 64);
      assert bits == LowBits(key)[..64];
    } else {
      CountIsFed(key, count, n - 1);
      FeedingIsViewed(CountLoaded(key, count, n - 1), NumberBit(count, n - 1));
      assert bits[..|bits| - 1] == LowBits(key) + LowestBits(count, n - 1);
    }
  }

  lemma {:induction false} MixingIsStepping(r: Registers, n: nat)
    ensures View(Mixed(r, n)) == Steps(View(r), n)
  {
    hide Registers.ClockedIrregularly, View, Shifters.Stepped;
    if n > 0 {
      MixingIsStepping(r, n - 1);
      SteppingIsViewed(Mixed(r, n - 1));
    }
  }

  /** The generator of the program is A5/1: the key's 64 bits and the COUNT's 22 are fed in, least significant first;
      bit i of the downlink stream is the output after 101 + i steps, bit i of the uplink stream after 215 + i. */
  lemma StreamIsA51(key: seq<bv8>, count: nat, i: nat)
    requires |key| == KEY_OCTETS && i < PAYLOAD_BITS
    ensures var loaded := Loaded(LowBits(key) + LowestBits(count % 0x40_0000, 22));
            KeyStream(A51, key, count, Downlink).bits[i] == Steps(loaded, 101 + i).Output() &&
            KeyStream(A51, key, count, Uplink).bits[i] == Steps(loaded, 215 + i).Output()
  {
    hide KeyStream, CountLoaded, Mixed, Registers.Output, View, Shifters.Output, Steps, Loaded, LowestBits, LowBits;
    var c := count % 0x40_0000;
    var r := CountLoaded(key, c, 22);
    StreamBitIsOutput(key, count, i);
    CountIsFed(key, c, 22);
    MixingIsStepping(r, 101 + i);
    MixingIsStepping(r, 215 + i);
    OutputIsViewed(Mixed(r, 101 + i));
    OutputIsViewed(Mixed(r, 215 + i));
  }
}
