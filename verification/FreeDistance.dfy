/** The terminated code has minimum distance 7, so three errors anywhere are always corrected. */
module FreeDistance {
  import opened Bits
  import opened Convolution
  import opened Viterbi

  /** A lower bound on the code weight still to be spent on the way back to state 0. */
  function Potential(s: State): nat {
    [0, 5, 4, 4, 4, 5, 4, 3, 2, 5, 5, 4, 2, 5, 2, 3][s]
  }

  function OutputWeight(s: State, b: bool): nat {
    Count(C0(s, b)) + Count(C1(s, b))
  }

  /** Along every branch the potential falls by at most the weight the branch emits. */
  lemma PotentialIsPaidFor(s: State, b: bool)
    requires s != 0
    ensures Potential(s) <= OutputWeight(s, b) + Potential(Successor(s, b))
  {
  }

  /** The memory of the difference of two inputs is the difference of their memories. */
  predicate Differ(s: State, t: State, d: State) {
    && U1(d) == (U1(s) != U1(t))
    && U2(d) == (U2(s) != U2(t))
    && U3(d) == (U3(s) != U3(t))
    && U4(d) == (U4(s) != U4(t))
  }

  /** Linearity of one branch. */
  lemma BranchIsLinear(s: State, t: State, d: State, a: bool, b: bool)
    requires Differ(s, t, d)
    ensures Differ(Successor(s, a), Successor(t, b), Successor(d, a != b))
    ensures Count(C0(s, a) != C0(t, b)) + Count(C1(s, a) != C1(t, b)) == OutputWeight(d, a != b)
  {
    SuccessorShifts(s, a);
    SuccessorShifts(t, b);
    SuccessorShifts(d, a != b);
  }

  lemma EmitStep(s: State, t: State, u: seq<bool>, v: seq<bool>)
    requires |u| == |v| > 0
    ensures Hamming(Emit(s, u), Emit(t, v)) ==
            Count(C0(s, u[0]) != C0(t, v[0])) + Count(C1(s, u[0]) != C1(t, v[0])) +
            Hamming(Emit(Successor(s, u[0]), u[1..]), Emit(Successor(t, v[0]), v[1..]))
  {
    PrependPair(C0(s, u[0]), C1(s, u[0]), C0(t, v[0]), C1(t, v[0]),
                Emit(Successor(s, u[0]), u[1..]), Emit(Successor(t, v[0]), v[1..]));
  }

  lemma PrependPair(a0: bool, a1: bool, b0: bool, b1: bool, a: seq<bool>, b: seq<bool>)
    requires |a| == |b|
    ensures Hamming([a0, a1] + a, [b0, b1] + b) == Count(a0 != b0) + Count(a1 != b1) + Hamming(a, b)
  {
    HammingAppendPair([], [], a0, a1, b0, b1);
    assert [] + [a0, a1] == [a0, a1] && [] + [b0, b1] == [b0, b1];
    HammingConcat([a0, a1], [b0, b1], a, b);
  }

  /** Two paths whose memories differ by `d` and which end in the same state are at least Potential(d) apart. */
  lemma {:induction false} ApartUntilMerged(s: State, t: State, d: State, u: seq<bool>, v: seq<bool>)
    requires |u| == |v| && Differ(s, t, d)
    requires End(s, u) == End(t, v)
    ensures Potential(d) <= Hamming(Emit(s, u), Emit(t, v))
    decreases |u|
  {
    if u == [] {
      StateIsItsBits(d);
    } else if d != 0 {
      BranchIsLinear(s, t, d, u[0], v[0]);
      EmitStep(s, t, u, v);
      PotentialIsPaidFor(d, u[0] != v[0]);
      ApartUntilMerged(Successor(s, u[0]), Successor(t, v[0]), Successor(d, u[0] != v[0]), u[1..], v[1..]);
    }
  }

  /** Different inputs that leave one state and end in one state emit words at distance 7 or more. */
  lemma {:induction false} PathsApart(s: State, u: seq<bool>, v: seq<bool>)
    requires |u| == |v| && u != v
    requires End(s, u) == End(s, v)
    ensures 7 <= Hamming(Emit(s, u), Emit(s, v))
    decreases |u|
  {
    EmitStep(s, s, u, v);
    if u[0] == v[0] {
      assert u == [u[0]] + u[1..] && v == [v[0]] + v[1..];
      PathsApart(Successor(s, u[0]), u[1..], v[1..]);
    } else {
      BranchIsLinear(s, s, 0, u[0], v[0]);
      assert OutputWeight(0, true) == 2 && Potential(Successor(0, true)) == 5;
      ApartUntilMerged(Successor(s, u[0]), Successor(s, v[0]), 1, u[1..], v[1..]);
    }
  }

  lemma MinimumDistance(u: seq<bool>, v: seq<bool>)
    requires |u| == |v| && u != v
    requires End(0, u) == 0 == End(0, v)
    ensures 7 <= Hamming(Encode(u), Encode(v))
  {
    EncodeIsTrellis(u);
    EncodeIsTrellis(v);
    PathsApart(0, u, v);
  }

  /** The bound is met: a lone one costs exactly 7. */
  lemma MinimumDistanceIsMet()
    ensures var u := [true, false, false, false, false];
            End(0, u) == 0 && Hamming(Encode(u), Encode(Zeros(5))) == 7
  {
    var u, z := [true, false, false, false, false], Zeros(5);
    EncodeIsTrellis(u);
    EncodeIsTrellis(z);
    EmitStep(0, 0, u, z);
    EmitStep(1, 0, u[1..], z[1..]);
    EmitStep(2, 0, u[2..], z[2..]);
    EmitStep(4, 0, u[3..], z[3..]);
    EmitStep(8, 0, u[4..], z[4..]);
  }

  /** Three errors or fewer: the decoder returns the transmitted input and counts the errors. */
  lemma CorrectsThreeErrors(coded: seq<bool>, u: seq<bool>)
    requires 2 * |u| <= |coded| && End(0, u) == 0
    requires Hamming(Encode(u), coded[..2 * |u|]) <= 3
    ensures Decoded(coded, |u|) == Path(Hamming(Encode(u), coded[..2 * |u|]), u)
  {
    var heard := coded[..2 * |u|];
    DecoderIsOptimal(coded, |u|);
    var p := Decoded(coded, |u|);
    if p.bits != u {
      MinimumDistance(u, p.bits);
      HammingSymmetric(Encode(p.bits), heard);
      HammingTriangle(Encode(u), heard, Encode(p.bits));
      assert false;
    }
  }
}
