/** The A5/1 keystream generator and burst ciphering. */
module A5 {
  import opened Bits
  import opened Integers
  import opened Octets
  import opened FrameNumbers
  import opened Words

  const R1_MASK: bv32 := 0x07ffff
  const R2_MASK: bv32 := 0x3fffff
  const R3_MASK: bv32 := 0x7fffff
  const R1_TAPS: bv32 := 0x072000
  const R2_TAPS: bv32 := 0x300000
  const R3_TAPS: bv32 := 0x700080
  const KEY_OCTETS := 8

  datatype Algorithm = A50 | A51 | A52
  datatype Stream = NoStream | Stream(bits: seq<bool>)

  // ----- Registers -----

  function Fold16(value: bv32): bv32 { Sum(value, Down16(value)) }
  function Fold8(value: bv32): bv32 { Sum(value, Down8(value)) }
  function Fold4(value: bv32): bv32 { Sum(value, Down4(value)) }

  function Down16(x: bv32): bv32 { x >> 16 }
  function Down8(x: bv32): bv32 { x >> 8 }
  function Down4(x: bv32): bv32 { x >> 4 }
  function Nibble(x: bv32): bv32 { x & 0x0f }

  /** Parity by folding the word onto its last four bits and looking the rest up. */
  function Parity(value: bv32): bv32 {
    Looked(Nibble(Fold4(Fold8(Fold16(value)))))
  }

  function Looked(v: bv32): bv32 {
    if v <= 0x0f then ((0x6996 as bv32) >> v) & 1 else 0
  }

  /** The register one place up, with `low` let in below. */
  function MovedUp(reg: bv32, mask: bv32, low: bv32): bv32 {
    ((reg << 1) & mask) | low
  }

  function Clock(reg: bv32, mask: bv32, taps: bv32): bv32 {
    MovedUp(reg, mask, Parity(reg & taps))
  }

  function Majority(a: bv32, b: bv32, c: bv32): bv32 {
    (a & b) | (a & c) | (b & c)
  }

  datatype Registers = Registers(r1: bv32, r2: bv32, r3: bv32) {
    /** Nothing outside the 19, 22 and 23 bits of the registers. */
    predicate Valid() {
      r1 & !R1_MASK == 0 && r2 & !R2_MASK == 0 && r3 & !R3_MASK == 0
    }

    function ClockedAll(): Registers {
      Registers(Clock(r1, R1_MASK, R1_TAPS), Clock(r2, R2_MASK, R2_TAPS), Clock(r3, R3_MASK, R3_TAPS))
    }

    function Vote(): bv32 {
      Majority((r1 >> 8) & 1, (r2 >> 10) & 1, (r3 >> 10) & 1)
    }

    function ClockedIrregularly(): Registers {
      var vote := Vote();
      Registers(if (r1 >> 8) & 1 == vote then Clock(r1, R1_MASK, R1_TAPS) else r1,
                if (r2 >> 10) & 1 == vote then Clock(r2, R2_MASK, R2_TAPS) else r2,
                if (r3 >> 10) & 1 == vote then Clock(r3, R3_MASK, R3_TAPS) else r3)
    }

    /** A key or COUNT bit enters the low end of all three registers. */
    function Absorbed(input: bool): Registers {
      Registers(Sum(r1, Value(input)), Sum(r2, Value(input)), Sum(r3, Value(input)))
    }

    function Output(): bool {
      ((r1 >> 18) ^ (r2 >> 21) ^ (r3 >> 22)) & 1 == 1
    }
  }

  function KeyLoaded(key: seq<bv8>, n: nat): Registers
    requires |key| == KEY_OCTETS && n <= 64
  {
    if n == 0 then Registers(0, 0, 0)
    else KeyLoaded(key, n - 1).ClockedAll().Absorbed(LowBit(key[(n - 1) / 8], (n - 1) % 8))
  }

  function CountLoaded(key: seq<bv8>, count: nat, n: nat): Registers
    requires |key| == KEY_OCTETS && n <= 22
  {
    if n == 0 then KeyLoaded(key, 64)
    else CountLoaded(key, count, n - 1).ClockedAll().Absorbed(NumberBit(count, n - 1))
  }

  function Mixed(r: Registers, n: nat): Registers {
    if n == 0 then r else Mixed(r, n - 1).ClockedIrregularly()
  }

  /** The 228 bits of A5/1: the registers are mixed a hundred times, then clocked once before each output. */
  function A51Bits(key: seq<bv8>, count: nat): (bits: seq<bool>)
    requires |key| == KEY_OCTETS
    ensures |bits| == 228
  {
    var start := CountLoaded(key, count, 22);
    seq(228, i requires 0 <= i < 228 => Mixed(start, 101 + i).Output())
  }

  function KeyStream(selected: Algorithm, key: seq<bv8>, count: nat, direction: Direction): (s: Stream)
    requires |key| == KEY_OCTETS
    ensures s.Stream? ==> |s.bits| == PAYLOAD_BITS
    ensures s.NoStream? <==> selected.A52?
  {
    match selected
    case A50 => Stream(Zeros(PAYLOAD_BITS))
    case A51 =>
      var both := A51Bits(key, count % 0x40_0000);
      Stream(if direction.Downlink? then both[..PAYLOAD_BITS] else both[PAYLOAD_BITS..])
    case A52 => NoStream
  }

  // ----- Facts -----

  lemma ParityIsABit(x: bv32)
    ensures Parity(x) <= 1
  {
  }

  // ----- Parity is the exclusive or of all bits -----

  lemma SumCommutes(a: bv32, b: bv32)
    ensures Sum(a, b) == Sum(b, a)
  {
  }

  lemma SumAssociates(a: bv32, b: bv32, c: bv32)
    ensures Sum(Sum(a, b), c) == Sum(a, Sum(b, c))
  {
  }

  lemma Regroup(a: bv32, b: bv32, c: bv32, d: bv32)
    ensures Sum(Sum(a, b), Sum(c, d)) == Sum(Sum(a, c), Sum(b, d))
  {
    hide Sum;
    SumAssociates(a, b, Sum(c, d));
    SumAssociates(b, c, d);
    SumCommutes(b, c);
    SumAssociates(c, b, d);
    SumAssociates(a, c, Sum(b, d));
  }

  lemma Down16Adds(a: bv32, b: bv32)
    ensures Down16(Sum(a, b)) == Sum(Down16(a), Down16(b))
  {
  }

  lemma Down8Adds(a: bv32, b: bv32)
    ensures Down8(Sum(a, b)) == Sum(Down8(a), Down8(b))
  {
  }

  lemma Down4Adds(a: bv32, b: bv32)
    ensures Down4(Sum(a, b)) == Sum(Down4(a), Down4(b))
  {
  }

  lemma NibbleAdds(a: bv32, b: bv32)
    ensures Nibble(Sum(a, b)) == Sum(Nibble(a), Nibble(b))
  {
  }

  lemma FoldsAdd(a: bv32, b: bv32)
    ensures Fold16(Sum(a, b)) == Sum(Fold16(a), Fold16(b))
    ensures Fold8(Sum(a, b)) == Sum(Fold8(a), Fold8(b))
    ensures Fold4(Sum(a, b)) == Sum(Fold4(a), Fold4(b))
  {
    hide Sum, Down16, Down8, Down4;
    Down16Adds(a, b);
    Down8Adds(a, b);
    Down4Adds(a, b);
    Regroup(a, b, Down16(a), Down16(b));
    Regroup(a, b, Down8(a), Down8(b));
    Regroup(a, b, Down4(a), Down4(b));
  }

  predicate Small(x: bv32) {
    x <= 0x0f
  }

  lemma NibbleIsSmall(x: bv32)
    ensures Small(Nibble(x))
  {
  }

  /** The sixteen entries of the table are the parities of their indices. */
  lemma TableAdds(a: bv32, b: bv32)
    requires Small(a) && Small(b)
    ensures Looked(Sum(a, b)) == Sum(Looked(a), Looked(b))
  {
  }

  lemma ParityAdds(a: bv32, b: bv32)
    ensures Parity(Sum(a, b)) == Sum(Parity(a), Parity(b))
  {
    hide Sum, Fold16, Fold8, Fold4, Nibble, Looked, Small;
    var a1, b1 := Fold16(a), Fold16(b);
    var a2, b2 := Fold8(a1), Fold8(b1);
    FoldsAdd(a, b);
    FoldsAdd(a1, b1);
    FoldsAdd(a2, b2);
    NibbleAdds(Fold4(a2), Fold4(b2));
    NibbleIsSmall(Fold4(a2));
    NibbleIsSmall(Fold4(b2));
    TableAdds(Nibble(Fold4(a2)), Nibble(Fold4(b2)));
  }

  lemma ParityOfPlaces(j: nat)
    requires j < WIDTH
    ensures Parity(Mask32(j)) == 1 && Parity(0) == 0
  {
    if j < 8 {
    } else if j < 16 {
    } else if j < 24 {
    } else {
    }
  }

  function Value(b: bool): bv32 {
    if b then 1 else 0
  }

  lemma ValueAdds(a: bool, b: bool)
    ensures Sum(Value(a), Value(b)) == Value(a != b)
  {
  }

  function Masked(x: bv32, places: bv32): bv32 { x & places }

  function LowPlaces(n: nat): bv32
    requires n <= WIDTH
    decreases n
  {
    if n == 0 then 0 else Sum(LowPlaces(n - 1), Mask32(n - 1))
  }

  lemma AllPlaces(x: bv32)
    ensures Masked(x, LowPlaces(32)) == x
  {
    assert LowPlaces(2) == 0x3 && LowPlaces(4) == 0xf && LowPlaces(6) == 0x3f && LowPlaces(8) == 0xff;
    assert LowPlaces(10) == 0x3ff && LowPlaces(12) == 0xfff && LowPlaces(14) == 0x3fff && LowPlaces(16) == 0xffff;
    assert LowPlaces(18) == 0x3_ffff && LowPlaces(20) == 0xf_ffff && LowPlaces(22) == 0x3f_ffff;
    assert LowPlaces(24) == 0xff_ffff && LowPlaces(26) == 0x3ff_ffff;
    assert LowPlaces(28) == 0xfff_ffff && LowPlaces(30) == 0x3fff_ffff;
  }

  lemma NoPlaces(x: bv32)
    ensures Masked(x, LowPlaces(0)) == 0
  {
  }

  lemma MaskedAdds(x: bv32, a: bv32, b: bv32)
    ensures Masked(x, Sum(a, b)) == Sum(Masked(x, a), Masked(x, b))
  {
  }

  lemma MaskedPlace(x: bv32, m: bv32)
    requires OnePlace(m)
    ensures Masked(x, m) == if Has(x, m) then m else 0
  {
  }

  lemma ParityOfPlace(x: bv32, j: nat)
    requires j < WIDTH
    ensures Parity(Masked(x, Mask32(j))) == Value(Bit32(x, j))
  {
    hide Parity, Mask32, Has, Masked, OnePlace;
    MaskIsOnePlace(j);
    MaskedPlace(x, Mask32(j));
    ParityOfPlaces(j);
  }

  lemma {:induction false} ParityOfLowPlaces(x: bv32, n: nat)
    requires n <= WIDTH
    ensures Parity(Masked(x, LowPlaces(n))) == Value(OddOnes(WordBits(x)[..n]))
  {
    hide Parity, Mask32, Masked, Sum, Value, Bit32;
    if n == 0 {
      NoPlaces(x);
      ParityOfPlaces(0);
      ValueOfNone(x);
    } else {
      ParityOfLowPlaces(x, n - 1);
      MaskedAdds(x, LowPlaces(n - 1), Mask32(n - 1));
      ParityAdds(Masked(x, LowPlaces(n - 1)), Masked(x, Mask32(n - 1)));
      ParityOfPlace(x, n - 1);
      ValueAdds(OddOnes(WordBits(x)[..n - 1]), Bit32(x, n - 1));
      assert WordBits(x)[..n][..n - 1] == WordBits(x)[..n - 1];
    }
  }

  lemma ValueOfNone(x: bv32)
    ensures Value(OddOnes(WordBits(x)[..0])) == 0
  {
  }

  /** Folding and looking up is the exclusive or of all 32 bits. */
  lemma ParityIsXorOfBits(x: bv32)
    ensures Parity(x) == if OddOnes(WordBits(x)) then 1 else 0
  {
    hide Parity, Masked, WordBits, OddOnes, LowPlaces;
    ParityOfLowPlaces(x, 32);
    AllPlaces(x);
    assert WordBits(x)[..32] == WordBits(x);
  }

  // ----- Registers stay inside their lengths -----

  /** Every step keeps the registers inside their lengths, so the masks lose nothing that was kept. */
  lemma StepsKeepRegistersValid(r: Registers, input: bool)
    requires r.Valid()
    ensures r.ClockedAll().Valid() && r.ClockedIrregularly().Valid() && r.Absorbed(input).Valid()
  {
    hide Clock;
    ClockStaysInside(r.r1, R1_MASK, R1_TAPS);
    ClockStaysInside(r.r2, R2_MASK, R2_TAPS);
    ClockStaysInside(r.r3, R3_MASK, R3_TAPS);
  }

  lemma ClockStaysInside(reg: bv32, mask: bv32, taps: bv32)
    requires mask & 1 == 1
    ensures Clock(reg, mask, taps) & !mask == 0
  {
    hide Parity;
    ParityIsABit(reg & taps);
    OrStaysInside(reg << 1, mask, Parity(reg & taps));
  }

  lemma OrStaysInside(x: bv32, mask: bv32, p: bv32)
    requires mask & 1 == 1 && p <= 1
    ensures ((x & mask) | p) & !mask == 0
  {
  }

  lemma {:induction false} MixedIsValid(r: Registers, n: nat)
    requires r.Valid()
    ensures Mixed(r, n).Valid()
  {
    if n > 0 {
      MixedIsValid(r, n - 1);
      StepsKeepRegistersValid(Mixed(r, n - 1), false);
    }
  }

  lemma {:induction false} KeyLoadedIsValid(key: seq<bv8>, n: nat)
    requires |key| == KEY_OCTETS && n <= 64
    ensures KeyLoaded(key, n).Valid()
  {
    if n > 0 {
      hide Registers.Valid, Registers.ClockedAll, Registers.ClockedIrregularly, Registers.Absorbed;
      KeyLoadedIsValid(key, n - 1);
      StepsKeepRegistersValid(KeyLoaded(key, n - 1), false);
      StepsKeepRegistersValid(KeyLoaded(key, n - 1).ClockedAll(), LowBit(key[(n - 1) / 8], (n - 1) % 8));
    }
  }

  lemma {:induction false} CountLoadedIsValid(key: seq<bv8>, count: nat, n: nat)
    requires |key| == KEY_OCTETS && n <= 22
    ensures CountLoaded(key, count, n).Valid()
  {
    hide Registers.Valid, Registers.ClockedAll, Registers.ClockedIrregularly, Registers.Absorbed;
    if n == 0 {
      KeyLoadedIsValid(key, 64);
    } else {
      CountLoadedIsValid(key, count, n - 1);
      StepsKeepRegistersValid(CountLoaded(key, count, n - 1), false);
      StepsKeepRegistersValid(CountLoaded(key, count, n - 1).ClockedAll(), NumberBit(count, n - 1));
    }
  }

  /** At every point of every generation the registers hold 19, 22 and 23 bits. */
  lemma GeneratorStaysValid(key: seq<bv8>, count: nat, n: nat)
    requires |key| == KEY_OCTETS
    ensures Mixed(CountLoaded(key, count, 22), n).Valid()
  {
    CountLoadedIsValid(key, count, 22);
    MixedIsValid(CountLoaded(key, count, 22), n);
  }

  /** The stop-and-go clock moves at least two of the three registers. */
  lemma AtLeastTwoMove(r: Registers)
    ensures var v := r.Vote();
            var a, b, c := (r.r1 >> 8) & 1 == v, (r.r2 >> 10) & 1 == v, (r.r3 >> 10) & 1 == v;
            (a && b) || (a && c) || (b && c)
  {
    var a, b, c := (r.r1 >> 8) & 1, (r.r2 >> 10) & 1, (r.r3 >> 10) & 1;
    MajorityAgrees(a, b, c);
  }

  lemma MajorityAgrees(a: bv32, b: bv32, c: bv32)
    requires a <= 1 && b <= 1 && c <= 1
    ensures var v := Majority(a, b, c); (a == v && b == v) || (a == v && c == v) || (b == v && c == v)
  {
  }

  // ----- Distinct COUNTs -----

  function Up(h: bv32): bv32 { h << 1 }
  predicate Part(a: bv32, b: bv32) { a & !b == 0 }

  /** All places but the `n` lowest. */
  function High(n: nat): bv32
    decreases n
  {
    if n == 0 then 0xffff_ffff else Up(High(n - 1))
  }

  lemma {:induction false} HighShrinks(n: nat, m: nat)
    requires n <= m
    ensures Part(High(m), High(n)) && Part(Up(High(m)), High(m))
    decreases m
  {
    hide Part, Up;
    if m == 0 {
      EverythingIsPart(High(0), Up(High(0)));
    } else {
      HighShrinks(if n == m then n - 1 else n, m - 1);
      ShiftShrinks(High(m - 1));
      if n == m {
        EverythingIsPart(High(m), High(m));
      } else {
        Within(High(m), High(m - 1), High(n));
      }
    }
  }

  lemma EverythingIsPart(h: bv32, x: bv32)
    ensures Part(h, h) && Part(x, 0xffff_ffff)
  {
  }

  lemma ShiftShrinks(h: bv32)
    requires Part(Up(h), h)
    ensures Part(Up(Up(h)), Up(h))
  {
  }

  lemma Within(a: bv32, b: bv32, c: bv32)
    requires Part(a, b) && Part(b, c)
    ensures Part(a, c)
  {
  }

  predicate AgreeOn(r: bv32, s: bv32, places: bv32) {
    (r ^ s) & places == 0
  }

  predicate Inside(r: bv32) {
    r & !R2_MASK == 0
  }

  predicate IsBit(p: bv32) {
    p <= 1
  }

  function Fed(x: bv32, input: bool): bv32 {
    x ^ if input then 1 else 0
  }

  function R2Parity(r: bv32): bv32 {
    Parity(r & R2_TAPS)
  }

  /** The second register clocked, and an input bit fed to it. */
  function StepR2(r: bv32, input: bool): bv32 {
    Fed(MovedUp(r, R2_MASK, R2Parity(r)), input)
  }

  lemma R2ParityIsABit(r: bv32)
    ensures IsBit(R2Parity(r))
  {
    hide Parity;
    ParityIsABit(r & R2_TAPS);
  }

  lemma DifferenceRises(r: bv32, s: bv32, places: bv32, mask: bv32, p: bv32, q: bv32, a: bool, b: bool)
    requires AgreeOn(r, s, places) && IsBit(p) && IsBit(q)
    ensures AgreeOn(Fed(MovedUp(r, mask, p), a), Fed(MovedUp(s, mask, q), b), Up(places))
  {
  }

  lemma ShiftLosesNothing(r: bv32, s: bv32, p: bv32, q: bv32, a: bool, b: bool)
    requires Inside(r) && Inside(s) && IsBit(p) && IsBit(q)
    requires AgreeOn(r, s, 0xffe0_0000) && Fed(MovedUp(r, R2_MASK, p), a) == Fed(MovedUp(s, R2_MASK, q), b)
    ensures r == s
  {
  }

  lemma InputIsRecovered(x: bv32, a: bool, b: bool)
    requires Fed(x, a) == Fed(x, b)
    ensures a == b
  {
  }

  /** A step moves a difference one place up; what enters below may differ. */
  lemma StepRaisesDifference(r: bv32, s: bv32, places: bv32, a: bool, b: bool)
    requires AgreeOn(r, s, places)
    ensures AgreeOn(StepR2(r, a), StepR2(s, b), Up(places))
  {
    hide MovedUp, R2Parity, AgreeOn, Fed, IsBit, Up;
    R2ParityIsABit(r);
    R2ParityIsABit(s);
    DifferenceRises(r, s, places, R2_MASK, R2Parity(r), R2Parity(s), a, b);
  }

  /** While the top places agree nothing that differs is shifted out, so a step loses nothing. */
  lemma StepLosesNothing(r: bv32, s: bv32, a: bool, b: bool)
    requires Inside(r) && Inside(s) && AgreeOn(r, s, 0xffe0_0000) && StepR2(r, a) == StepR2(s, b)
    ensures r == s && a == b
  {
    hide MovedUp, R2Parity, AgreeOn, Fed, IsBit, Inside;
    R2ParityIsABit(r);
    R2ParityIsABit(s);
    ShiftLosesNothing(r, s, R2Parity(r), R2Parity(s), a, b);
    InputIsRecovered(MovedUp(r, R2_MASK, R2Parity(r)), a, b);
  }

  /** The second register when `n` COUNT bits have been loaded. */
  function R2Loaded(key: seq<bv8>, count: nat, n: nat): bv32
    requires |key| == KEY_OCTETS && n <= 22
  {
    CountLoaded(key, count, n).r2
  }

  lemma R2AfterStep(key: seq<bv8>, count: nat, n: nat)
    requires |key| == KEY_OCTETS && 0 < n <= 22
    ensures R2Loaded(key, count, n) == StepR2(R2Loaded(key, count, n - 1), NumberBit(count, n - 1))
  {
    hide MovedUp, Parity, NumberBit, KeyLoaded;
  }

  lemma R2Starts(key: seq<bv8>, c: nat, d: nat)
    requires |key| == KEY_OCTETS
    ensures R2Loaded(key, c, 0) == R2Loaded(key, d, 0) && AgreeOn(R2Loaded(key, c, 0), R2Loaded(key, d, 0), High(0))
  {
    hide KeyLoaded;
  }

  lemma R2StaysInside(key: seq<bv8>, count: nat, n: nat)
    requires |key| == KEY_OCTETS && n <= 22
    ensures Inside(R2Loaded(key, count, n))
  {
    hide CountLoaded;
    CountLoadedIsValid(key, count, n);
  }

  /** After `n` COUNT bits the second register differs for two COUNTs at most in its `n` lowest places. */
  lemma {:induction false} LoadingAgreesAbove(key: seq<bv8>, c: nat, d: nat, n: nat)
    requires |key| == KEY_OCTETS && n <= 22
    ensures AgreeOn(R2Loaded(key, c, n), R2Loaded(key, d, n), High(n))
  {
    hide R2Loaded, StepR2, AgreeOn, NumberBit, Up;
    if n == 0 {
      R2Starts(key, c, d);
    } else {
      LoadingAgreesAbove(key, c, d, n - 1);
      R2AfterStep(key, c, n);
      R2AfterStep(key, d, n);
      StepRaisesDifference(R2Loaded(key, c, n - 1), R2Loaded(key, d, n - 1), High(n - 1),
                           NumberBit(c, n - 1), NumberBit(d, n - 1));
    }
  }

  lemma TopPlaces(r: bv32, s: bv32, n: nat)
    requires n <= 21 && AgreeOn(r, s, High(n))
    ensures AgreeOn(r, s, 0xffe0_0000)
  {
    hide High, Part;
    HighShrinks(n, 21);
    HighOf21();
    AgreeOnFewer(r, s, High(n), 0xffe0_0000);
  }

  lemma AgreeOnFewer(r: bv32, s: bv32, places: bv32, fewer: bv32)
    requires AgreeOn(r, s, places) && Part(fewer, places)
    ensures AgreeOn(r, s, fewer)
  {
  }

  lemma HighOf21()
    ensures High(21) == 0xffe0_0000
  {
    assert High(2) == 0xffff_fffc && High(4) == 0xffff_fff0 && High(6) == 0xffff_ffc0 && High(8) == 0xffff_ff00;
    assert High(10) == 0xffff_fc00 && High(12) == 0xffff_f000 && High(14) == 0xffff_c000 && High(16) == 0xffff_0000;
    assert High(18) == 0xfffc_0000 && High(20) == 0xfff0_0000;
  }

  /** The second register after loading determines every COUNT bit. */
  lemma {:induction false} CountBitsAreRecovered(key: seq<bv8>, c: nat, d: nat, n: nat)
    requires |key| == KEY_OCTETS && n <= 22
    requires R2Loaded(key, c, n) == R2Loaded(key, d, n)
    ensures forall i :: 0 <= i < n ==> NumberBit(c, i) == NumberBit(d, i)
  {
    hide R2Loaded, StepR2, AgreeOn, High, NumberBit, Inside;
    if n > 0 {
      var r, s := R2Loaded(key, c, n - 1), R2Loaded(key, d, n - 1);
      R2AfterStep(key, c, n);
      R2AfterStep(key, d, n);
      R2StaysInside(key, c, n - 1);
      R2StaysInside(key, d, n - 1);
      LoadingAgreesAbove(key, c, d, n - 1);
      TopPlaces(r, s, n - 1);
      StepLosesNothing(r, s, NumberBit(c, n - 1), NumberBit(d, n - 1));
      CountBitsAreRecovered(key, c, d, n - 1);
    }
  }

  /** A number below 2^n is its n lowest bits. */
  lemma {:induction false} BitsDetermineCount(c: nat, d: nat, n: nat)
    requires forall i :: 0 <= i < n ==> NumberBit(c, i) == NumberBit(d, i)
    ensures c % PowerOfTwo(n) == d % PowerOfTwo(n)
  {
    if n > 0 {
      var p := PowerOfTwo(n - 1);
      BitsDetermineCount(c, d, n - 1);
      assert NumberBit(c, n - 1) == NumberBit(d, n - 1);
      OneMoreBit(c, p, NumberBit(c, n - 1));
      OneMoreBit(d, p, NumberBit(d, n - 1));
    }
  }

  lemma OneMoreBit(c: nat, p: nat, bit: bool)
    requires 0 < p && bit == (c / p % 2 == 1)
    ensures c % (2 * p) == c % p + if bit then p else 0
  {
    var q, r := c / p, c % p;
    var h := q / 2;
    assert c == p * q + r;
    assert p * (2 * h) == 2 * p * h;
    assert p * (2 * h + 1) == 2 * p * h + p;
    Quotient(c, h, if bit then p + r else r, 2 * p);
  }

  lemma TwoTo22()
    ensures PowerOfTwo(22) == 0x40_0000
  {
    assert PowerOfTwo(2) == 4 && PowerOfTwo(4) == 16 && PowerOfTwo(6) == 64 && PowerOfTwo(8) == 256;
    assert PowerOfTwo(10) == 1024 && PowerOfTwo(12) == 4096 && PowerOfTwo(14) == 0x4000 && PowerOfTwo(16) == 0x1_0000;
    assert PowerOfTwo(18) == 0x4_0000 && PowerOfTwo(20) == 0x10_0000;
  }

  /** For one key, different COUNTs load different registers. */
  lemma CountLoadingIsInjective(key: seq<bv8>, c: nat, d: nat)
    requires |key| == KEY_OCTETS && c < 0x40_0000 && d < 0x40_0000
    requires CountLoaded(key, c, 22) == CountLoaded(key, d, 22)
    ensures c == d
  {
    hide CountLoaded, NumberBit, PowerOfTwo;
    CountBitsAreRecovered(key, c, d, 22);
    BitsDetermineCount(c, d, 22);
    TwoTo22();
  }

  /** Each burst of a block runs the generator from its own state. */
  lemma BlockStatesAreDistinct(key: seq<bv8>, referenceFrame: nat, direction: Direction, i: nat, j: nat)
    requires |key| == KEY_OCTETS && i < j < 4
    ensures var frames := Sdcch8Frames(referenceFrame, direction);
            CountLoaded(key, CountFromFrameNumber(frames[i]) % 0x40_0000, 22) !=
            CountLoaded(key, CountFromFrameNumber(frames[j]) % 0x40_0000, 22)
  {
    hide CountLoaded, CountFromFrameNumber, Sdcch8Frames;
    var frames := Sdcch8Frames(referenceFrame, direction);
    var c, d := CountFromFrameNumber(frames[i]), CountFromFrameNumber(frames[j]);
    CountFitsIn22Bits(frames[i]);
    CountFitsIn22Bits(frames[j]);
    BlockCountsAreDistinct(referenceFrame, direction, i, j);
    if CountLoaded(key, c % 0x40_0000, 22) == CountLoaded(key, d % 0x40_0000, 22) {
      CountLoadingIsInjective(key, c, d);
    }
  }

  // ----- Which outputs make up a stream -----

  lemma {:induction false} MixedAdds(r: Registers, m: nat, n: nat)
    ensures Mixed(r, m + n) == Mixed(Mixed(r, m), n)
    decreases n
  {
    hide Registers.ClockedIrregularly;
    if n > 0 {
      MixedAdds(r, m, n - 1);
    }
  }

  /** Downlink bit i is the output after 101 + i stop-and-go clocks of the loaded registers, uplink bit i the output
      after 215 + i: 114 clocks later. */
  lemma StreamBitIsOutput(key: seq<bv8>, count: nat, i: nat)
    requires |key| == KEY_OCTETS && i < PAYLOAD_BITS
    ensures var loaded := CountLoaded(key, count % 0x40_0000, 22);
            KeyStream(A51, key, count, Downlink).bits[i] == Mixed(loaded, 101 + i).Output() &&
            KeyStream(A51, key, count, Uplink).bits[i] == Mixed(loaded, 215 + i).Output() &&
            Mixed(loaded, 215 + i) == Mixed(Mixed(loaded, 101 + i), 114)
    ensures !KeyStream(A50, key, count, Downlink).bits[i] && !KeyStream(A50, key, count, Uplink).bits[i]
  {
    hide CountLoaded, Mixed, Registers.Output;
    MixedAdds(CountLoaded(key, count % 0x40_0000, 22), 101 + i, 114);
  }

  /** Deciphering is ciphering again. */
  lemma XorTwice(data: seq<bool>, stream: seq<bool>)
    requires |data| == |stream|
    ensures Xor(Xor(data, stream), stream) == data
  {
  }

  // ----- The generator -----

  class A51State {
    var r1: bv32
    var r2: bv32
    var r3: bv32

    ghost function State(): Registers
      reads this
    {
      Registers(r1, r2, r3)
    }

    constructor ()
      ensures State() == Registers(0, 0, 0)
    {
      r1, r2, r3 := 0, 0, 0;
    }

    method ClockAll()
      modifies this
      ensures State() == old(State()).ClockedAll()
    {
      hide Clock;
      r1 := Clock(r1, R1_MASK, R1_TAPS);
      r2 := Clock(r2, R2_MASK, R2_TAPS);
      r3 := Clock(r3, R3_MASK, R3_TAPS);
    }

    method Absorb(input: bool)
      modifies this
      ensures State() == old(State()).Absorbed(input)
    {
      var i: bv32 := if input then 1 else 0;
      r1, r2, r3 := r1 ^ i, r2 ^ i, r3 ^ i;
    }

    method ClockIrregular()
      modifies this
      ensures State() == old(State()).ClockedIrregularly()
    {
      hide Clock, Majority;
      var vote := Majority((r1 >> 8) & 1, (r2 >> 10) & 1, (r3 >> 10) & 1);
      if (r1 >> 8) & 1 == vote {
        r1 := Clock(r1, R1_MASK, R1_TAPS);
      }
      if (r2 >> 10) & 1 == vote {
        r2 := Clock(r2, R2_MASK, R2_TAPS);
      }
      if (r3 >> 10) & 1 == vote {
        r3 := Clock(r3, R3_MASK, R3_TAPS);
      }
    }
  }

  method GenerateA51(key: seq<bv8>, count: nat) returns (bits: seq<bool>)
    requires |key| == KEY_OCTETS
    ensures bits == A51Bits(key, count)
  {
    hide Registers.ClockedAll, Registers.ClockedIrregularly, Registers.Absorbed, Registers.Output, NumberBit, LowBit;
    var state := new A51State();
    for i := 0 to 64
      invariant state.State() == KeyLoaded(key, i)
    {
      state.ClockAll();
      state.Absorb(LowBit(key[i / 8], i % 8));
    }
    for i := 0 to 22
      invariant state.State() == CountLoaded(key, count, i)
    {
      state.ClockAll();
      state.Absorb(NumberBit(count, i));
    }
    ghost var start := state.State();
    for cycle := 0 to 100
      invariant state.State() == Mixed(start, cycle)
    {
      state.ClockIrregular();
    }
    var result := new bool[228];
    for i := 0 to 228
      invariant state.State() == Mixed(start, 100 + i)
      invariant forall j :: 0 <= j < i ==> result[j] == Mixed(start, 101 + j).Output()
    {
      state.ClockIrregular();
      result[i] := Registers(state.r1, state.r2, state.r3).Output();
    }
    bits := result[..];
  }

  method MakeKeyStream(selected: Algorithm, key: seq<bv8>, count: nat, direction: Direction) returns (stream: Stream)
    requires |key| == KEY_OCTETS
    ensures stream == KeyStream(selected, key, count, direction)
  {
    if selected.A50? {
      return Stream(Zeros(PAYLOAD_BITS));
    }
    if !selected.A51? {
      return NoStream;
    }
    var both := GenerateA51(key, count % 0x40_0000);
    var offset := if direction.Downlink? then 0 else PAYLOAD_BITS;
    var result := new bool[PAYLOAD_BITS];
    for i := 0 to PAYLOAD_BITS
      invariant forall j :: 0 <= j < i ==> result[j] == both[offset + j]
    {
      result[i] := both[offset + i];
    }
    assert result[..] == if direction.Downlink? then both[..PAYLOAD_BITS] else both[PAYLOAD_BITS..];
    return Stream(result[..]);
  }

  /** Cipher or decipher a payload in place; nothing changes when the algorithm is not supported. */
  method Apply(data: array<bool>, selected: Algorithm, key: seq<bv8>, count: nat, direction: Direction)
    returns (ok: bool)
    requires data.Length == PAYLOAD_BITS && |key| == KEY_OCTETS
    modifies data
    ensures ok == KeyStream(selected, key, count, direction).Stream?
    ensures data[..] == if ok then Xor(old(data[..]), KeyStream(selected, key, count, direction).bits)
                        else old(data[..])
  {
    hide KeyStream;
    var stream := MakeKeyStream(selected, key, count, direction);
    if stream.NoStream? {
      return false;
    }
    for index := 0 to PAYLOAD_BITS
      invariant forall j :: 0 <= j < index ==> data[j] == (old(data[j]) != stream.bits[j])
      invariant forall j :: index <= j < PAYLOAD_BITS ==> data[j] == old(data[j])
    {
      data[index] := data[index] != stream.bits[index];
    }
    return true;
  }
}
