/** The rate-1/2, constraint-length-5 convolutional code of TS 45.003 and its Viterbi decoder. */
module Convolution {
  import opened Bits

  const STATES := 16
  /** A quarter of the largest 32-bit unsigned number, rounded down. */
  const INFINITY := 0xFFFF_FFFF / 4

  /** The encoder memory: bit 0 is the latest input, bit 3 the one four steps back. */
  type State = s: nat | s < 16

  predicate U1(s: State) { s % 2 == 1 }
  predicate U2(s: State) { s % 4 >= 2 }
  predicate U3(s: State) { 4 <= s < 8 || 12 <= s }
  predicate U4(s: State) { 8 <= s }

  function Successor(s: State, input: bool): State {
    (if s < 8 then 2 * s else 2 * s - 16) + Count(input)
  }

  function C0(s: State, input: bool): bool {
    input != (U3(s) != U4(s))
  }

  function C1(s: State, input: bool): bool {
    (input != U1(s)) != (U3(s) != U4(s))
  }

  /** The memory after `u` has been clocked in from `s`. */
  function End(s: State, u: seq<bool>): State
    decreases |u|
  {
    if u == [] then s else End(Successor(s, u[0]), u[1..])
  }

  /** The coded bits the trellis emits for `u` from `s`. */
  function Emit(s: State, u: seq<bool>): (c: seq<bool>)
    ensures |c| == 2 * |u|
    decreases |u|
  {
    if u == [] then [] else [C0(s, u[0]), C1(s, u[0])] + Emit(Successor(s, u[0]), u[1..])
  }

  lemma {:induction false} EndAppend(s: State, u: seq<bool>, b: bool)
    ensures End(s, u + [b]) == Successor(End(s, u), b)
    decreases |u|
  {
    if u == [] {
      assert u + [b] == [b];
    } else {
      assert (u + [b])[1..] == u[1..] + [b];
      EndAppend(Successor(s, u[0]), u[1..], b);
    }
  }

  lemma {:induction false} EmitAppend(s: State, u: seq<bool>, b: bool)
    ensures Emit(s, u + [b]) == Emit(s, u) + [C0(End(s, u), b), C1(End(s, u), b)]
    decreases |u|
  {
    if u == [] {
      assert u + [b] == [b];
    } else {
      assert (u + [b])[1..] == u[1..] + [b];
      EmitAppend(Successor(s, u[0]), u[1..], b);
    }
  }

  // ----- The encoder -----

  /** u(k), and 0 before the block begins. */
  function Prior(u: seq<bool>, k: int): bool
    requires k < |u|
  {
    if k < 0 then false else u[k]
  }

  /** Generator polynomials 1 + D^3 + D^4 and 1 + D + D^3 + D^4, as the standard states them. */
  function CodedBit(u: seq<bool>, i: nat): bool
    requires i < 2 * |u|
  {
    var k := i / 2;
    if i % 2 == 0 then (Prior(u, k) != Prior(u, k - 3)) != Prior(u, k - 4)
    else ((Prior(u, k) != Prior(u, k - 1)) != Prior(u, k - 3)) != Prior(u, k - 4)
  }

  function Encode(u: seq<bool>): (c: seq<bool>)
    ensures |c| == 2 * |u|
  {
    seq(2 * |u|, i requires 0 <= i < 2 * |u| => CodedBit(u, i))
  }

  method ConvolutionalEncode(u: seq<bool>) returns (result: seq<bool>)
    ensures result == Encode(u)
  {
    var coded := new bool[2 * |u|];
    for k := 0 to |u|
      invariant forall i :: 0 <= i < 2 * k ==> coded[i] == CodedBit(u, i)
    {
      coded[2 * k] := (Prior(u, k) != Prior(u, k - 3)) != Prior(u, k - 4);
      coded[2 * k + 1] := ((Prior(u, k) != Prior(u, k - 1)) != Prior(u, k - 3)) != Prior(u, k - 4);
    }
    result := coded[..];
  }

  lemma SuccessorShifts(s: State, b: bool)
    ensures var t := Successor(s, b); U1(t) == b && U2(t) == U1(s) && U3(t) == U2(s) && U4(t) == U3(s)
  {
  }

  /** The trellis memory holds exactly the four latest inputs. */
  lemma {:induction false} MemoryHoldsPriors(u: seq<bool>)
    ensures var s := End(0, u);
            U1(s) == Prior(u, |u| - 1) && U2(s) == Prior(u, |u| - 2) &&
            U3(s) == Prior(u, |u| - 3) && U4(s) == Prior(u, |u| - 4)
  {
    if u != [] {
      var n := |u| - 1;
      assert u == u[..n] + [u[n]];
      MemoryHoldsPriors(u[..n]);
      EndAppend(0, u[..n], u[n]);
      SuccessorShifts(End(0, u[..n]), u[n]);
    }
  }

  lemma EncodeAppend(v: seq<bool>, b: bool)
    ensures Encode(v + [b]) == Encode(v) + [C0(End(0, v), b), C1(End(0, v), b)]
  {
    hide End;
    var u, n, s := v + [b], |v|, End(0, v);
    MemoryHoldsPriors(v);
    assert Prior(u, n) == b && Prior(u, n - 1) == U1(s) && Prior(u, n - 3) == U3(s) && Prior(u, n - 4) == U4(s);
    assert forall i :: 0 <= i < 2 * n ==> CodedBit(u, i) == CodedBit(v, i);
    assert (2 * n) / 2 == n && (2 * n + 1) / 2 == n;
    assert Encode(u)[..2 * n] == Encode(v);
  }

  /** The tap form and the trellis form are one code. */
  lemma {:induction false} EncodeIsTrellis(u: seq<bool>)
    ensures Encode(u) == Emit(0, u)
  {
    if u != [] {
      var v, b := u[..|u| - 1], u[|u| - 1];
      assert u == v + [b];
      EncodeIsTrellis(v);
      EmitAppend(0, v, b);
      EncodeAppend(v, b);
    }
  }

  lemma StateIsItsBits(s: State)
    ensures s == Count(U1(s)) + 2 * Count(U2(s)) + 4 * Count(U3(s)) + 8 * Count(U4(s))
  {
  }

  lemma StateZero(s: State, tail: seq<bool>)
    requires tail == [U4(s), U3(s), U2(s), U1(s)]
    ensures s == 0 <==> tail == Zeros(4)
  {
    StateIsItsBits(s);
    assert tail == Zeros(4) <==> !tail[0] && !tail[1] && !tail[2] && !tail[3];
  }

  /** Four zero tail bits and the all-zero final state are the same condition. */
  lemma ZeroTail(u: seq<bool>)
    requires |u| >= 4
    ensures End(0, u) == 0 <==> u[|u| - 4..] == Zeros(4)
  {
    MemoryHoldsPriors(u);
    StateZero(End(0, u), u[|u| - 4..]);
  }

  // ----- Parity checks -----

  /** c0 times 1 + D + D^3 + D^4 and c1 times 1 + D^3 + D^4 agree at step `k`. */
  predicate Check(c: seq<bool>, k: nat)
    requires |c| % 2 == 0 && k < |c| / 2
  {
    ((At(c, 0, k) != At(c, 0, k - 1)) != (At(c, 0, k - 3) != At(c, 0, k - 4))) ==
    ((At(c, 1, k) != At(c, 1, k - 3)) != At(c, 1, k - 4))
  }

  /** The first (`which` is 0) or second coded bit of step `k`, and 0 before the block begins. */
  function At(c: seq<bool>, which: nat, k: int): bool
    requires which < 2 && |c| % 2 == 0 && k < |c| / 2
  {
    if k < 0 then false else c[2 * k + which]
  }

  /** The two coded bits of a step in figures. */
  lemma CodedPair(u: seq<bool>, k: int)
    requires k < |u|
    ensures At(Encode(u), 0, k) == ((Prior(u, k) != Prior(u, k - 3)) != Prior(u, k - 4))
    ensures At(Encode(u), 1, k) == (((Prior(u, k) != Prior(u, k - 1)) != Prior(u, k - 3)) != Prior(u, k - 4))
  {
    if k >= 0 {
      assert 2 * k / 2 == k && (2 * k + 1) / 2 == k && 2 * k % 2 == 0 && (2 * k + 1) % 2 == 1;
    }
  }

  /** Each pair of coded bits adds up to the input one step before. */
  lemma PairsGiveTheInput(u: seq<bool>, k: nat)
    requires k < |u|
    ensures (Encode(u)[2 * k] != Encode(u)[2 * k + 1]) == (k > 0 && u[k - 1])
  {
    hide Encode;
    CodedPair(u, k);
  }

  lemma CodewordIsChecked(u: seq<bool>, k: nat)
    requires k < |u|
    ensures Check(Encode(u), k)
  {
    hide Encode, At, Prior;
    CodedPair(u, k);
    CodedPair(u, k - 1);
    CodedPair(u, k - 3);
    CodedPair(u, k - 4);
  }

  /** The input that pairs of coded bits spell, its last bit taken from the last first bit. */
  function Spelled(c: seq<bool>): (u: seq<bool>)
    requires |c| % 2 == 0
    ensures |u| == |c| / 2
  {
    var n := |c| / 2;
    seq(n, k requires 0 <= k < n => SpelledBit(c, k))
  }

  function SpelledBit(c: seq<bool>, k: int): bool
    requires |c| % 2 == 0 && k < |c| / 2
    decreases k + 6
  {
    if k < 0 then false
    else if k + 1 < |c| / 2 then At(c, 0, k + 1) != At(c, 1, k + 1)
    else (At(c, 0, k) != SpelledBit(c, k - 3)) != SpelledBit(c, k - 4)
  }

  lemma SpelledPrior(c: seq<bool>, k: int)
    requires |c| % 2 == 0 && k < |c| / 2
    ensures Prior(Spelled(c), k) == SpelledBit(c, k)
  {
  }

  /** While every check holds, a step that is not the last is coded from what was spelled. */
  lemma CheckedStep(c: seq<bool>, k: nat)
    requires |c| % 2 == 0 && k < |c| / 2 && forall i :: 0 <= i < |c| / 2 ==> Check(c, i)
    ensures At(c, 0, k) == ((SpelledBit(c, k) != SpelledBit(c, k - 3)) != SpelledBit(c, k - 4))
    ensures At(c, 1, k) == (At(c, 0, k) != SpelledBit(c, k - 1))
  {
    assert Check(c, 0);
    assert Check(c, k);
    if k + 1 < |c| / 2 {
      assert Check(c, k + 1);
    }
  }

  /** A word is a codeword if and only if every check holds. */
  lemma CodewordsAreTheCheckedWords(c: seq<bool>)
    requires |c| % 2 == 0
    ensures (exists u :: Encode(u) == c) <==> forall k :: 0 <= k < |c| / 2 ==> Check(c, k)
  {
    hide Check, At, Encode, SpelledBit;
    if exists u :: Encode(u) == c {
      var u :| Encode(u) == c;
      forall k | 0 <= k < |c| / 2
        ensures Check(c, k)
      {
        CodewordIsChecked(u, k);
      }
    }
    if forall k :: 0 <= k < |c| / 2 ==> Check(c, k) {
      CheckedIsEncoded(c);
    }
  }

  lemma CheckedIsEncoded(c: seq<bool>)
    requires |c| % 2 == 0 && forall k :: 0 <= k < |c| / 2 ==> Check(c, k)
    ensures Encode(Spelled(c)) == c
  {
    hide Check, SpelledBit, Encode, Spelled;
    var e := Encode(Spelled(c));
    forall i | 0 <= i < |c|
      ensures e[i] == c[i]
    {
      var k := i / 2;
      CodedPair(Spelled(c), k);
      CheckedStep(c, k);
      SpelledPrior(c, k);
      SpelledPrior(c, k - 1);
      SpelledPrior(c, k - 3);
      SpelledPrior(c, k - 4);
      assert i == 2 * k || i == 2 * k + 1;
    }
  }

  /** Different inputs have different codings. */
  lemma EncodeIsInjective(u: seq<bool>, v: seq<bool>)
    requires |u| == |v| && Encode(u) == Encode(v)
    ensures u == v
  {
    hide Encode;
    forall k | 0 <= k < |u|
      ensures u[k] == v[k]
    {
      SameBit(u, v, k);
    }
  }

  lemma {:induction false} SameBit(u: seq<bool>, v: seq<bool>, k: int)
    requires |u| == |v| && Encode(u) == Encode(v) && k < |u|
    ensures Prior(u, k) == Prior(v, k)
    decreases k + 6
  {
    hide Encode;
    if k >= 0 {
      CodedPair(u, k);
      CodedPair(v, k);
      SameBit(u, v, k - 3);
      SameBit(u, v, k - 4);
    }
  }
}
