/** The 40-bit Fire code of SACCH and FACCH blocks (TS 45.003, section 4.1.2). */
module FireCode {
  import opened Bits
  import opened Polynomial

  const INFORMATION_BITS := 184
  const PARITY_BITS := 40
  const WORD_BITS := 224

  /** (D^23 + 1)(D^17 + D^3 + 1) = D^40 + D^26 + D^23 + D^17 + D^3 + 1. */
  const FIRE := Generator({0, 14, 17, 23, 37, 40}, 40)

  /** A word is accepted when its remainder is all ones. */
  ghost predicate FireAccepts(word: seq<bool>)
    requires |word| == WORD_BITS
  {
    Remainder(FIRE, word) == Ones(PARITY_BITS)
  }

  /** The check bits: the inverted remainder of the information above forty zeros. */
  function Parity(information: seq<bool>): (p: seq<bool>)
    requires |information| == INFORMATION_BITS
    ensures |p| == PARITY_BITS
  {
    Xor(Remainder(FIRE, information + Zeros(PARITY_BITS)), Ones(PARITY_BITS))
  }

  /** Adding the generator under a leading one, tap by tap. */
  method AddGenerator(work: array<bool>, i: nat)
    requires work.Length == WORD_BITS && i < INFORMATION_BITS && work[i]
    modifies work
    ensures work[..] == Step(FIRE, old(work[..]), i)
  {
    work[i] := !work[i];
    work[i + 14] := !work[i + 14];
    work[i + 17] := !work[i + 17];
    work[i + 23] := !work[i + 23];
    work[i + 37] := !work[i + 37];
    work[i + 40] := !work[i + 40];
  }

  /** The division loop shared by encoder and checker, in place on a 224-bit word. */
  method DivideInPlace(work: array<bool>)
    requires work.Length == WORD_BITS
    modifies work
    ensures work[..] == Divide(FIRE, old(work[..]), INFORMATION_BITS)
  {
    for i := 0 to INFORMATION_BITS
      invariant work[..] == Divide(FIRE, old(work[..]), i)
    {
      if !work[i] {
        assert work[..] == Step(FIRE, work[..], i);
        continue;
      }
      AddGenerator(work, i);
    }
  }

  method FireParity(information: seq<bool>) returns (parity: seq<bool>)
    requires |information| == INFORMATION_BITS
    ensures parity == Parity(information)
  {
    var work := new bool[WORD_BITS](_ => false);
    for k := 0 to INFORMATION_BITS
      invariant work[..] == information[..k] + Zeros(WORD_BITS - k)
    {
      work[k] := information[k];
    }
    assert work[..] == information + Zeros(PARITY_BITS);
    DivideInPlace(work);
    ghost var divided := work[..];
    var result := new bool[PARITY_BITS];
    for k := 0 to PARITY_BITS
      invariant work[..] == divided && forall j :: 0 <= j < k ==> result[j] == !divided[INFORMATION_BITS + j]
    {
      result[k] := !work[INFORMATION_BITS + k];
    }
    parity := result[..];
    ghost var r := Remainder(FIRE, information + Zeros(PARITY_BITS));
    assert forall j :: 0 <= j < PARITY_BITS ==> r[j] == divided[INFORMATION_BITS + j];
    assert parity == Xor(r, Ones(PARITY_BITS));
  }

  method FireCheck(word: seq<bool>) returns (good: bool)
    requires |word| == WORD_BITS
    ensures good == FireAccepts(word)
  {
    var work := new bool[WORD_BITS](i requires 0 <= i < WORD_BITS => word[i]);
    assert work[..] == word;
    DivideInPlace(work);
    good := true;
    for k := INFORMATION_BITS to WORD_BITS
      invariant good == forall j :: INFORMATION_BITS <= j < k ==> work[j]
    {
      good := good && work[k];
    }
    ghost var r := Remainder(FIRE, word);
    assert forall j :: 0 <= j < PARITY_BITS ==> r[j] == work[INFORMATION_BITS + j];
    if good {
      assert r == Ones(PARITY_BITS);
    } else {
      var j :| INFORMATION_BITS <= j < WORD_BITS && !work[j];
      assert r[j - INFORMATION_BITS] != Ones(PARITY_BITS)[j - INFORMATION_BITS];
    }
  }

  /** Exactly one parity is accepted for each information word, and it is the one the encoder appends. */
  lemma ParityIsUnique(information: seq<bool>, parity: seq<bool>)
    requires |information| == INFORMATION_BITS && |parity| == PARITY_BITS
    ensures FireAccepts(information + parity) <==> parity == Parity(information)
    ensures Remainder(FIRE, information + parity) == Ones(40) <==> parity == Parity(information)
  {
    CheckBitsAdd(FIRE, information, parity);
    var r := Remainder(FIRE, information + Zeros(PARITY_BITS));
    XorSolves(r, parity, Ones(PARITY_BITS));
  }

  lemma XorSolves(r: seq<bool>, x: seq<bool>, y: seq<bool>)
    requires |r| == |x| == |y|
    ensures Xor(r, x) == y <==> x == Xor(r, y)
  {
    if Xor(r, x) == y {
      assert forall i :: 0 <= i < |r| ==> y[i] == (r[i] != x[i]);
      assert x == Xor(r, y);
    }
    if x == Xor(r, y) {
      assert Xor(r, x) == y;
    }
  }

  /** Any error burst of up to forty positions turns an accepted word into a refused one. */
  lemma BurstIsDetected(word: seq<bool>, error: seq<bool>, at: nat)
    requires |word| == |error| == WORD_BITS
    requires FireAccepts(word) && IsBurst(error, at, PARITY_BITS)
    ensures !FireAccepts(Xor(word, error))
  {
    BurstChangesRemainder(FIRE, word, error, at);
  }

  // ----- Errors of odd weight -----

  /** The word with bit `i` inverted. */
  function Flipped(w: seq<bool>, i: nat): (f: seq<bool>)
    requires i < |w|
    ensures |f| == |w|
  {
    w[i := !w[i]]
  }

  /** Adding the generator inverts six bits. */
  function SixFlipped(w: seq<bool>, i: nat): seq<bool>
    requires i + PARITY_BITS < |w|
  {
    Flipped(Flipped(Flipped(Flipped(Flipped(Flipped(w, i), i + 14), i + 17), i + 23), i + 37), i + 40)
  }

  lemma StepFlipsSix(w: seq<bool>, i: nat)
    requires i + PARITY_BITS < |w|
    ensures Step(FIRE, w, i) == if w[i] then SixFlipped(w, i) else w
  {
    forall j | 0 <= j < |w| && w[i]
      ensures SixFlipped(w, i)[j] == (w[j] != (j in {i, i + 14, i + 17, i + 23, i + 37, i + 40}))
    {
    }
  }

  lemma FlippedTurns(w: seq<bool>, i: nat)
    requires i < |w|
    ensures OddOnes(Flipped(w, i)) == !OddOnes(w)
  {
    FlipTurnsParity(w, i);
  }

  /** The generator has an even number of taps, so a step of the division keeps the parity of the word. */
  lemma StepKeepsParity(w: seq<bool>, i: nat)
    requires i + PARITY_BITS < |w|
    ensures OddOnes(Step(FIRE, w, i)) == OddOnes(w)
  {
    hide OddOnes, Step, Flipped;
    StepFlipsSix(w, i);
    var a := Flipped(w, i);
    var b := Flipped(a, i + 14);
    var c := Flipped(b, i + 17);
    var d := Flipped(c, i + 23);
    FlippedTurns(w, i);
    FlippedTurns(a, i + 14);
    FlippedTurns(b, i + 17);
    FlippedTurns(c, i + 23);
    FlippedTurns(d, i + 37);
    FlippedTurns(Flipped(d, i + 37), i + 40);
  }

  lemma {:induction false} DivisionKeepsParity(w: seq<bool>, n: nat)
    requires n + PARITY_BITS <= |w|
    ensures OddOnes(Divide(FIRE, w, n)) == OddOnes(w)
  {
    hide Step;
    if n > 0 {
      DivisionKeepsParity(w, n - 1);
      StepKeepsParity(Divide(FIRE, w, n - 1), n - 1);
    }
  }

  lemma ParityOfTail(w: seq<bool>, n: nat)
    requires n <= |w| && forall i :: 0 <= i < n ==> !w[i]
    ensures OddOnes(w) == OddOnes(w[n..])
  {
    hide OddOnes;
    OddOnesConcat(w[..n], w[n..]);
    OddOnesOfOnes(n);
    assert w[..n] == Zeros(n) && w == w[..n] + w[n..];
  }

  /** Every accepted word has an even number of ones. */
  lemma AcceptedIsEven(word: seq<bool>)
    requires |word| == WORD_BITS && FireAccepts(word)
    ensures !OddOnes(word)
  {
    hide OddOnes, Divide, Ones;
    var divided := Divide(FIRE, word, INFORMATION_BITS);
    DivisionKeepsParity(word, INFORMATION_BITS);
    DivisionClears(FIRE, word, INFORMATION_BITS);
    ParityOfTail(divided, INFORMATION_BITS);
    OddOnesOfOnes(PARITY_BITS);
  }

  /** Any odd number of errors, however scattered, turns an accepted word into a refused one. */
  lemma OddErrorIsDetected(word: seq<bool>, error: seq<bool>)
    requires |word| == |error| == WORD_BITS && FireAccepts(word) && OddOnes(error)
    ensures !FireAccepts(Xor(word, error))
  {
    hide FireAccepts, OddOnes;
    AcceptedIsEven(word);
    OddOnesOfSum(word, error);
    if FireAccepts(Xor(word, error)) {
      AcceptedIsEven(Xor(word, error));
    }
  }

  // ----- The two factors of the generator -----

  /** D^23 + 1. */
  const CYCLE := Generator({0, 23}, 23)

  /** D^17 + D^3 + 1. */
  const COFACTOR := Generator({0, 14, 17}, 17)

  lemma GeneratorInCycles(n: nat, i: nat)
    ensures Shifted(FIRE, n, i) ==
            Xor(Xor(Shifted(CYCLE, n, i), Shifted(CYCLE, n, i + 14)), Shifted(CYCLE, n, i + 17))
  {
  }

  lemma GeneratorInCofactors(n: nat, i: nat)
    ensures Shifted(FIRE, n, i) == Xor(Shifted(COFACTOR, n, i), Shifted(COFACTOR, n, i + 23))
  {
  }

  lemma CycleDivides()
    ensures Divides(CYCLE, FIRE)
  {
    hide Remainder, Shifted;
    forall n: nat, i: nat | i + PARITY_BITS < n
      ensures Remainder(CYCLE, Shifted(FIRE, n, i)) == Zeros(23)
    {
      GeneratorInCycles(n, i);
      var a, b, c := Shifted(CYCLE, n, i), Shifted(CYCLE, n, i + 14), Shifted(CYCLE, n, i + 17);
      ShiftedVanishes(CYCLE, n, i);
      ShiftedVanishes(CYCLE, n, i + 14);
      ShiftedVanishes(CYCLE, n, i + 17);
      RemainderIsLinear(CYCLE, a, b);
      RemainderIsLinear(CYCLE, Xor(a, b), c);
      XorWithZeros(Zeros(23));
    }
  }

  lemma CofactorDivides()
    ensures Divides(COFACTOR, FIRE)
  {
    hide Remainder, Shifted;
    forall n: nat, i: nat | i + PARITY_BITS < n
      ensures Remainder(COFACTOR, Shifted(FIRE, n, i)) == Zeros(17)
    {
      GeneratorInCofactors(n, i);
      ShiftedVanishes(COFACTOR, n, i);
      ShiftedVanishes(COFACTOR, n, i + 23);
      RemainderIsLinear(COFACTOR, Shifted(COFACTOR, n, i), Shifted(COFACTOR, n, i + 23));
      XorWithZeros(Zeros(17));
    }
  }

  /** What the generator divides, both its factors divide. */
  lemma FactorsOfTheGenerator(word: seq<bool>)
    requires PARITY_BITS <= |word| && Remainder(FIRE, word) == Zeros(PARITY_BITS)
    ensures Remainder(Generator({0, 23}, 23), word) == Zeros(23)
    ensures Remainder(Generator({0, 14, 17}, 17), word) == Zeros(17)
  {
    CycleDivides();
    CofactorDivides();
    FactorsDivide(CYCLE, FIRE, word);
    FactorsDivide(COFACTOR, FIRE, word);
  }

  // ----- Residue classes -----

  /** The ones of the word in the places congruent to `r` modulo 23. */
  function InClass(w: seq<bool>, r: nat): (c: seq<bool>)
    ensures |c| == |w|
  {
    seq(|w|, i requires 0 <= i < |w| => w[i] && i % 23 == r)
  }

  lemma FlippedClass(w: seq<bool>, i: nat, r: nat)
    requires i < |w|
    ensures InClass(Flipped(w, i), r) == if i % 23 == r then Flipped(InClass(w, r), i) else InClass(w, r)
  {
  }

  lemma CycleFlipsTwo(w: seq<bool>, i: nat)
    requires i + 23 < |w|
    ensures Step(CYCLE, w, i) == if w[i] then Flipped(Flipped(w, i), i + 23) else w
  {
  }

  lemma CycleKeepsClass(w: seq<bool>, i: nat, r: nat)
    requires i + 23 < |w|
    ensures OddOnes(InClass(Step(CYCLE, w, i), r)) == OddOnes(InClass(w, r))
  {
    hide Step, Flipped, InClass, OddOnes;
    CycleFlipsTwo(w, i);
    var f := Flipped(w, i);
    FlippedClass(w, i, r);
    FlippedClass(f, i + 23, r);
    if w[i] && i % 23 == r {
      FlippedTurns(InClass(w, r), i);
      FlippedTurns(InClass(f, r), i + 23);
    }
  }

  lemma {:induction false} DivisionKeepsClass(w: seq<bool>, n: nat, r: nat)
    requires n + 23 <= |w|
    ensures OddOnes(InClass(Divide(CYCLE, w, n), r)) == OddOnes(InClass(w, r))
  {
    hide Step, InClass, OddOnes;
    if n > 0 {
      DivisionKeepsClass(w, n - 1, r);
      CycleKeepsClass(Divide(CYCLE, w, n - 1), n - 1, r);
    }
  }

  /** The remainder by D^23 + 1 is the parity of each residue class. */
  lemma CycleRemainderIsClassParity(w: seq<bool>, j: nat)
    requires 23 <= |w| && j < 23
    ensures Remainder(CYCLE, w)[j] == OddOnes(InClass(w, (|w| - 23 + j) % 23))
  {
    hide OddOnes, Divide;
    var n := |w| - 23;
    var d, r := Divide(CYCLE, w, n), (n + j) % 23;
    DivisionKeepsClass(w, n, r);
    DivisionClears(CYCLE, w, n);
    forall i | 0 <= i < |w| && i != n + j
      ensures !InClass(d, r)[i]
    {
      if i >= n && i % 23 == r {
        SameClass(i, n + j);
      }
    }
    OddOnesOfSingle(InClass(d, r), n + j);
  }

  lemma SameClass(i: nat, k: nat)
    requires i % 23 == k % 23 && i < k + 23 && k < i + 23
    ensures i == k
  {
  }

  /** Two accepted words differ in an even number of places of every residue class modulo 23. */
  lemma AcceptedDifferEvenlyInEachClass(a: seq<bool>, b: seq<bool>, r: nat)
    requires |a| == |b| == WORD_BITS && FireAccepts(a) && FireAccepts(b) && r < 23
    ensures !OddOnes(InClass(Xor(a, b), r))
  {
    hide Remainder, InClass, OddOnes;
    RemainderIsLinear(FIRE, a, b);
    XorWithZeros(Ones(PARITY_BITS));
    FactorsOfTheGenerator(Xor(a, b));
    var j := (r + 23 - (WORD_BITS - 23) % 23) % 23;
    assert (WORD_BITS - 23 + j) % 23 == r;
    CycleRemainderIsClassParity(Xor(a, b), j);
  }
}
