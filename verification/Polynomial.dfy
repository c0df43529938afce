/** In-place division of a bit word by a generator polynomial: the check both the Fire code, the speech
    parity and the CRC-32 of the subscription image come down to. Position 0 is the highest power. */
module Polynomial {
  import opened Bits

  /** `taps` are the distances from the leading term: 0 for D^degree, degree for the constant 1. */
  datatype Generator = Generator(taps: set<nat>, degree: nat) {
    ghost predicate Valid() {
      0 < degree && 0 in taps && degree in taps && forall t :: t in taps ==> t <= degree
    }
  }

  /** One step of long division: a leading one is cleared by adding the generator under it. */
  function Step(g: Generator, w: seq<bool>, i: nat): (r: seq<bool>)
    requires i < |w|
    ensures |r| == |w|
  {
    seq(|w|, j requires 0 <= j < |w| => w[j] != (w[i] && j >= i && j - i in g.taps))
  }

  /** The word after the first `n` steps. */
  function Divide(g: Generator, w: seq<bool>, n: nat): (r: seq<bool>)
    requires n <= |w|
    ensures |r| == |w|
  {
    if n == 0 then w else Step(g, Divide(g, w, n - 1), n - 1)
  }

  function Remainder(g: Generator, w: seq<bool>): (r: seq<bool>)
    requires g.degree <= |w|
    ensures |r| == g.degree
  {
    var n := |w| - g.degree;
    Divide(g, w, n)[n..]
  }

  lemma StepIsLinear(g: Generator, a: seq<bool>, b: seq<bool>, i: nat)
    requires |a| == |b| && i < |a|
    ensures Step(g, Xor(a, b), i) == Xor(Step(g, a, i), Step(g, b, i))
  {
  }

  lemma {:induction false} DivideIsLinear(g: Generator, a: seq<bool>, b: seq<bool>, n: nat)
    requires |a| == |b| && n <= |a|
    ensures Divide(g, Xor(a, b), n) == Xor(Divide(g, a, n), Divide(g, b, n))
  {
    if n > 0 {
      DivideIsLinear(g, a, b, n - 1);
      StepIsLinear(g, Divide(g, a, n - 1), Divide(g, b, n - 1), n - 1);
    }
  }

  lemma RemainderIsLinear(g: Generator, a: seq<bool>, b: seq<bool>)
    requires |a| == |b| && g.degree <= |a|
    ensures Remainder(g, Xor(a, b)) == Xor(Remainder(g, a), Remainder(g, b))
  {
    DivideIsLinear(g, a, b, |a| - g.degree);
  }

  /** Division does nothing to a word that is zero above position `n`. */
  lemma {:induction false} LowWordIsItsRemainder(g: Generator, w: seq<bool>, n: nat)
    requires n <= |w| && forall i :: 0 <= i < n ==> !w[i]
    ensures Divide(g, w, n) == w
  {
    if n > 0 {
      LowWordIsItsRemainder(g, w, n - 1);
    }
  }

  /** Division clears what it has passed. */
  lemma {:induction false} DivisionClears(g: Generator, w: seq<bool>, n: nat)
    requires 0 in g.taps && n <= |w|
    ensures forall i :: 0 <= i < n ==> !Divide(g, w, n)[i]
  {
    if n > 0 {
      DivisionClears(g, w, n - 1);
    }
  }

  /** Systematic encoding: appending check bits adds them to the remainder of the padded message. */
  lemma CheckBitsAdd(g: Generator, m: seq<bool>, p: seq<bool>)
    requires |p| == g.degree
    ensures Remainder(g, m + p) == Xor(Remainder(g, m + Zeros(|p|)), p)
  {
    var high, low := m + Zeros(|p|), Zeros(|m|) + p;
    assert m + p == Xor(high, low);
    RemainderIsLinear(g, high, low);
    LowWordIsItsRemainder(g, low, |m|);
    assert low[|m|..] == p;
  }

  /** `w` is not zero, and all its ones lie in the `width` positions from `at`. */
  ghost predicate IsBurst(w: seq<bool>, at: nat, width: nat) {
    && at + width <= |w|
    && (forall i :: 0 <= i < |w| && w[i] ==> at <= i < at + width)
    && (exists i :: 0 <= i < |w| && w[i])
  }

  /** While a burst no wider than the generator is divided, a burst remains: the constant term puts back
      at the bottom of the window the one that was cleared at its top. */
  lemma StepKeepsBurst(g: Generator, w: seq<bool>, i: nat)
    requires g.Valid() && i + g.degree < |w|
    requires IsBurst(w, i, g.degree)
    ensures IsBurst(Step(g, w, i), i + 1, g.degree)
  {
    var r := Step(g, w, i);
    if w[i] {
      assert r[i + g.degree];
    } else {
      assert r == w;
    }
  }

  lemma {:induction false} DivideKeepsBurst(g: Generator, w: seq<bool>, at: nat, n: nat)
    requires g.Valid() && at <= n && n + g.degree <= |w|
    requires IsBurst(w, at, g.degree)
    ensures IsBurst(Divide(g, w, n), n, g.degree)
    decreases n - at
  {
    if n == at {
      LowWordIsItsRemainder(g, w, at);
    } else {
      DivideKeepsBurst(g, w, at, n - 1);
      StepKeepsBurst(g, Divide(g, w, n - 1), n - 1);
    }
  }

  /** No generator with a constant term divides a nonzero burst that fits in its degree. */
  lemma BurstHasRemainder(g: Generator, w: seq<bool>, at: nat)
    requires g.Valid() && IsBurst(w, at, g.degree)
    ensures Remainder(g, w) != Zeros(g.degree)
  {
    var n := |w| - g.degree;
    DivideKeepsBurst(g, w, at, n);
    var r := Divide(g, w, n);
    var i :| 0 <= i < |r| && r[i];
    assert Remainder(g, w)[i - n];
  }

  lemma NonzeroHasAOne(r: seq<bool>) returns (i: nat)
    requires r != Zeros(|r|)
    ensures i < |r| && r[i]
  {
    i :| 0 <= i < |r| && r[i] != Zeros(|r|)[i];
  }

  /** Burst detection: adding a burst to a word always changes its remainder. */
  lemma BurstChangesRemainder(g: Generator, w: seq<bool>, e: seq<bool>, at: nat)
    requires g.Valid() && |w| == |e| && IsBurst(e, at, g.degree)
    ensures Remainder(g, Xor(w, e)) != Remainder(g, w)
  {
    RemainderIsLinear(g, w, e);
    BurstHasRemainder(g, e, at);
    var i := NonzeroHasAOne(Remainder(g, e));
    assert Remainder(g, Xor(w, e))[i] != Remainder(g, w)[i];
  }

  // ----- Factors -----

  /** The generator laid under position `i` of a word of `n` bits. */
  function Shifted(g: Generator, n: nat, i: nat): (s: seq<bool>)
    ensures |s| == n
  {
    seq(n, j requires 0 <= j < n => j >= i && j - i in g.taps)
  }

  lemma StepAddsShifted(g: Generator, w: seq<bool>, i: nat)
    requires i < |w|
    ensures Step(g, w, i) == if w[i] then Xor(w, Shifted(g, |w|, i)) else w
  {
  }

  lemma {:induction false} NothingIsLeftOfNothing(g: Generator, w: seq<bool>, m: nat, n: nat)
    requires m <= n <= |w| && Divide(g, w, m) == Zeros(|w|)
    ensures Divide(g, w, n) == Zeros(|w|)
    decreases n
  {
    if n > m {
      NothingIsLeftOfNothing(g, w, m, n - 1);
    }
  }

  /** A generator divides itself, wherever it stands. */
  lemma ShiftedVanishes(g: Generator, n: nat, i: nat)
    requires 0 in g.taps && i + g.degree < n
    ensures Remainder(g, Shifted(g, n, i)) == Zeros(g.degree)
  {
    var w := Shifted(g, n, i);
    LowWordIsItsRemainder(g, w, i);
    assert Step(g, w, i) == Zeros(n);
    NothingIsLeftOfNothing(g, w, i + 1, n - g.degree);
  }

  /** `h` leaves nothing of `g`, wherever `g` stands. */
  ghost predicate Divides(h: Generator, g: Generator) {
    && h.degree <= g.degree
    && forall n: nat, i: nat :: i + g.degree < n ==> Remainder(h, Shifted(g, n, i)) == Zeros(h.degree)
  }

  /** Dividing by a multiple first does not change the remainder. */
  lemma {:induction false} MultipleKeepsRemainder(h: Generator, g: Generator, w: seq<bool>, n: nat)
    requires Divides(h, g) && n + g.degree <= |w|
    ensures Remainder(h, Divide(g, w, n)) == Remainder(h, w)
  {
    hide Remainder, Step;
    if n > 0 {
      var d := Divide(g, w, n - 1);
      MultipleKeepsRemainder(h, g, w, n - 1);
      StepAddsShifted(g, d, n - 1);
      if d[n - 1] {
        RemainderIsLinear(h, d, Shifted(g, |w|, n - 1));
        XorWithZeros(Remainder(h, d));
      }
    }
  }

  /** What a generator divides, each of its factors divides. */
  lemma FactorsDivide(h: Generator, g: Generator, w: seq<bool>)
    requires Divides(h, g) && 0 in g.taps && g.degree <= |w|
    requires Remainder(g, w) == Zeros(g.degree)
    ensures Remainder(h, w) == Zeros(h.degree)
  {
    var n := |w| - g.degree;
    var d := Divide(g, w, n);
    MultipleKeepsRemainder(h, g, w, n);
    DivisionClears(g, w, n);
    forall i | n <= i < |w|
      ensures !d[i]
    {
      assert d[n..][i - n] == Zeros(g.degree)[i - n];
    }
    LowWordIsItsRemainder(h, d, |w| - h.degree);
  }
}
