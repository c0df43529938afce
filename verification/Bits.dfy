/** Sequences of bits, and the Hamming distance every error-correction result below is stated in.
    A bit of the channel code is a bool; exclusive or is disequality. */
module Bits {

  /** Coded bits of one block. */
  const CODED_BITS := 456

  /** Payload bits of one burst. */
  const PAYLOAD_BITS := 114

  function Xor(a: seq<bool>, b: seq<bool>): (r: seq<bool>)
    requires |a| == |b|
    ensures |r| == |a|
  {
    seq(|a|, i requires 0 <= i < |a| => a[i] != b[i])
  }

  function Zeros(n: nat): (r: seq<bool>)
    ensures |r| == n
  {
    seq(n, _ => false)
  }

  function Ones(n: nat): (r: seq<bool>)
    ensures |r| == n
  {
    seq(n, _ => true)
  }

  function Count(b: bool): nat {
    if b then 1 else 0
  }

  /** The number of positions in which two words of equal length differ. */
  function Hamming(a: seq<bool>, b: seq<bool>): nat
    requires |a| == |b|
  {
    if a == [] then 0 else Count(a[0] != b[0]) + Hamming(a[1..], b[1..])
  }

  lemma {:induction false} HammingConcat(a: seq<bool>, b: seq<bool>, c: seq<bool>, d: seq<bool>)
    requires |a| == |b| && |c| == |d|
    ensures Hamming(a + c, b + d) == Hamming(a, b) + Hamming(c, d)
  {
    if a == [] {
      assert a + c == c && b + d == d;
    } else {
      assert (a + c)[1..] == a[1..] + c && (b + d)[1..] == b[1..] + d;
      HammingConcat(a[1..], b[1..], c, d);
    }
  }

  lemma HammingAppendPair(a: seq<bool>, b: seq<bool>, a0: bool, a1: bool, b0: bool, b1: bool)
    requires |a| == |b|
    ensures Hamming(a + [a0, a1], b + [b0, b1]) == Hamming(a, b) + Count(a0 != b0) + Count(a1 != b1)
  {
    HammingConcat(a, b, [a0, a1], [b0, b1]);
    assert [a0, a1][1..] == [a1] && [b0, b1][1..] == [b1];
    assert Hamming([a1], [b1]) == Count(a1 != b1);
  }

  lemma {:induction false} HammingTriangle(a: seq<bool>, b: seq<bool>, c: seq<bool>)
    requires |a| == |b| == |c|
    ensures Hamming(a, c) <= Hamming(a, b) + Hamming(b, c)
  {
    if a != [] {
      HammingTriangle(a[1..], b[1..], c[1..]);
    }
  }

  lemma {:induction false} HammingSymmetric(a: seq<bool>, b: seq<bool>)
    requires |a| == |b|
    ensures Hamming(a, b) == Hamming(b, a)
  {
    if a != [] {
      HammingSymmetric(a[1..], b[1..]);
    }
  }

  lemma {:induction false} HammingZero(a: seq<bool>, b: seq<bool>)
    requires |a| == |b|
    ensures Hamming(a, b) == 0 <==> a == b
  {
    if a != [] {
      HammingZero(a[1..], b[1..]);
      assert a == [a[0]] + a[1..] && b == [b[0]] + b[1..];
    }
  }

  // ----- Parity of the number of ones -----

  predicate OddOnes(bits: seq<bool>) {
    bits != [] && (OddOnes(bits[..|bits| - 1]) != bits[|bits| - 1])
  }

  lemma {:induction false} OddOnesConcat(a: seq<bool>, b: seq<bool>)
    ensures OddOnes(a + b) == (OddOnes(a) != OddOnes(b))
  {
    if b == [] {
      assert a + b == a;
    } else {
      var n := |b| - 1;
      assert (a + b)[..|a| + n] == a + b[..n];
      OddOnesConcat(a, b[..n]);
    }
  }

  lemma {:induction false} OddOnesOfSum(a: seq<bool>, b: seq<bool>)
    requires |a| == |b|
    ensures OddOnes(Xor(a, b)) == (OddOnes(a) != OddOnes(b))
  {
    if a != [] {
      var n := |a| - 1;
      assert Xor(a, b)[..n] == Xor(a[..n], b[..n]);
      OddOnesOfSum(a[..n], b[..n]);
    }
  }

  /** Inverting one bit changes the parity. */
  lemma {:induction false} FlipTurnsParity(w: seq<bool>, i: nat)
    requires i < |w|
    ensures OddOnes(w[i := !w[i]]) == !OddOnes(w)
  {
    var n, f := |w| - 1, w[i := !w[i]];
    if i == n {
      assert f[..n] == w[..n];
    } else {
      FlipTurnsParity(w[..n], i);
      assert f[..n] == w[..n][i := !w[i]];
    }
  }

  lemma {:induction false} OddOnesOfOnes(n: nat)
    ensures OddOnes(Ones(n)) == (n % 2 == 1)
    ensures !OddOnes(Zeros(n))
  {
    if n > 0 {
      assert Ones(n)[..n - 1] == Ones(n - 1) && Zeros(n)[..n - 1] == Zeros(n - 1);
      OddOnesOfOnes(n - 1);
    }
  }

  lemma OddOnesOfSingle(w: seq<bool>, k: nat)
    requires k < |w| && forall i :: 0 <= i < |w| && i != k ==> !w[i]
    ensures OddOnes(w) == w[k]
  {
    hide OddOnes;
    OddOnesOfOnes(|w|);
    if w[k] {
      FlipTurnsParity(w, k);
      assert w[k := false] == Zeros(|w|);
    } else {
      assert w == Zeros(|w|);
    }
  }

  lemma XorWithZeros(w: seq<bool>)
    ensures Xor(w, Zeros(|w|)) == w && Xor(Zeros(|w|), w) == w && Xor(w, w) == Zeros(|w|)
  {
  }
}
