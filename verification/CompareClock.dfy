/** Integer deadlines of the 13 MHz / 12 compare counter. */
module CompareClock {
  import opened Integers

  const REFERENCE_HZ := 13_000_000
  const ATTOSECONDS_PER_SECOND := 1_000_000_000_000_000_000

  datatype Deadline = Deadline(referenceTicks: nat, quarters: nat)

  /** Value of the counter `q` quarters after `elapsed`. */
  function CounterAfter(base: nat, period: nat, elapsed: nat, q: nat): nat
    requires 0 < period
  {
    (base + elapsed + q) % period
  }

  function Next(elapsedReferenceTicks: nat, base: nat, period: nat, target: nat): Deadline
    requires target < period
  {
    var elapsed := elapsedReferenceTicks / 12;
    var counter := (base + elapsed) % period;
    var distance := (target + period - counter) % period;
    var quarters := if distance != 0 then distance else period;
    Deadline((elapsed + quarters) * 12, quarters)
  }

  lemma ModPlus(n: nat, q: nat, period: nat)
    requires q <= period && 0 < period
    ensures var c := n % period; (n + q) % period == if c + q < period then c + q else c + q - period
  {
    var c, a := n % period, n / period;
    assert n == period * a + c;
    if c + q < period {
      Quotient(n + q, a, c + q, period);
    } else {
      assert n + q == period * (a + 1) + (c + q - period);
      Quotient(n + q, a + 1, c + q - period, period);
    }
  }

  /** The deadline is the first match strictly in the future: the counter equals the target there and at no
      earlier quarter, and the tick is within one period. */
  lemma NextIsFirstMatch(elapsedReferenceTicks: nat, base: nat, period: nat, target: nat)
    requires target < period
    ensures var d := Next(elapsedReferenceTicks, base, period, target);
            var elapsed := elapsedReferenceTicks / 12;
            1 <= d.quarters <= period &&
            CounterAfter(base, period, elapsed, d.quarters) == target &&
            (forall q :: 1 <= q < d.quarters ==> CounterAfter(base, period, elapsed, q) != target) &&
            elapsedReferenceTicks < d.referenceTicks <= elapsedReferenceTicks + 12 * period &&
            d.referenceTicks == 12 * (elapsed + d.quarters)
  {
    var elapsed := elapsedReferenceTicks / 12;
    var c := (base + elapsed) % period;
    var quarters := if target > c then target - c else target + period - c;
    if target >= c {
      Quotient(target + period - c, 1, target - c, period);
    } else {
      Quotient(target + period - c, 0, target + period - c, period);
    }
    assert Next(elapsedReferenceTicks, base, period, target).quarters == quarters;
    forall q | 1 <= q <= quarters
      ensures CounterAfter(base, period, elapsed, q) == target <==> q == quarters
    {
      ModPlus(base + elapsed, q, period);
    }
  }

  const TWO_TO_64 := 0x1_0000_0000_0000_0000

  /** The same in the program's words: 32-bit base, period, target and quarters, 64-bit ticks, each result reduced. */
  function NextInWords(elapsedReferenceTicks: nat, base: nat, period: nat, target: nat): Deadline
    requires target < period
  {
    var elapsed := elapsedReferenceTicks / 12;
    var counter := (base + elapsed) % TWO_TO_64 % period;
    var distance := ((target + period) % TWO_TO_32 - counter) % TWO_TO_64 % period;
    var quarters := (if distance != 0 then distance else period) % TWO_TO_32;
    Deadline((elapsed + quarters) % TWO_TO_64 * 12 % TWO_TO_64, quarters)
  }

  lemma DistanceReduces(counter: nat, period: nat, target: nat)
    requires counter < period <= 0x1_0000 && target < period
    ensures ((target + period) % TWO_TO_32 - counter) % TWO_TO_64 == target + period - counter
  {
    Reduced(target + period, TWO_TO_32);
    Reduced(target + period - counter, TWO_TO_64);
  }

  lemma NextReduces(elapsedReferenceTicks: nat, base: nat, period: nat, target: nat)
    requires elapsedReferenceTicks < TWO_TO_64 && base < TWO_TO_32 && target < period <= 0x1_0000
    ensures var d := Next(elapsedReferenceTicks, base, period, target);
            NextInWords(elapsedReferenceTicks, base, period, target) ==
            Deadline(d.referenceTicks % TWO_TO_64, d.quarters)
  {
    var elapsed := elapsedReferenceTicks / 12;
    var quarters := Next(elapsedReferenceTicks, base, period, target).quarters;
    NextIsFirstMatch(elapsedReferenceTicks, base, period, target);
    Reduced(base + elapsed, TWO_TO_64);
    DistanceReduces((base + elapsed) % period, period, target);
    Reduced(quarters, TWO_TO_32);
    Reduced(elapsed + quarters, TWO_TO_64);
  }

  /** For periods up to 65536 nothing overflows before the tick itself: the words give the deadline exactly when it
      is a 64-bit tick, as it is whenever the period still fits after the present tick. */
  lemma NextFitsWords(elapsedReferenceTicks: nat, base: nat, period: nat, target: nat)
    requires elapsedReferenceTicks < TWO_TO_64 && base < TWO_TO_32 && target < period <= 0x1_0000
    ensures var d := Next(elapsedReferenceTicks, base, period, target);
            NextInWords(elapsedReferenceTicks, base, period, target) == d <==> d.referenceTicks < TWO_TO_64
    ensures elapsedReferenceTicks + 12 * period < TWO_TO_64 ==>
              Next(elapsedReferenceTicks, base, period, target).referenceTicks < TWO_TO_64
  {
    hide Next, NextInWords;
    var d := Next(elapsedReferenceTicks, base, period, target);
    NextReduces(elapsedReferenceTicks, base, period, target);
    NextIsFirstMatch(elapsedReferenceTicks, base, period, target);
    if d.referenceTicks < TWO_TO_64 {
      Reduced(d.referenceTicks, TWO_TO_64);
    }
  }

  lemma Reduced(n: nat, m: nat)
    requires n < m
    ensures n % m == n
  {
  }

  function FractionalAttoseconds(ticks: nat): nat {
    var remainder := ticks % REFERENCE_HZ;
    var whole := ATTOSECONDS_PER_SECOND / REFERENCE_HZ * remainder;
    var fraction := ATTOSECONDS_PER_SECOND % REFERENCE_HZ * remainder;
    whole + (fraction + REFERENCE_HZ - 1) / REFERENCE_HZ
  }

  /** The exact ceiling of the fractional second, every intermediate below 2^64, and flooring back recovers the tick. */
  lemma FractionIsExactCeiling(ticks: nat)
    ensures var remainder, r := ticks % 13_000_000, FractionalAttoseconds(ticks);
            (r - 1) * 13_000_000 < 1_000_000_000_000_000_000 * remainder <= r * 13_000_000 &&
            r < 1_000_000_000_000_000_000 &&
            r * 13_000_000 / 1_000_000_000_000_000_000 == remainder
    ensures ATTOSECONDS_PER_SECOND % REFERENCE_HZ * (ticks % REFERENCE_HZ) + REFERENCE_HZ - 1 < 0x1_0000_0000_0000_0000
    ensures FractionalAttoseconds(ticks) < 0x1_0000_0000_0000_0000
  {
    var remainder := ticks % REFERENCE_HZ;
    assert ATTOSECONDS_PER_SECOND == 76_923_076_923 * 13_000_000 + 1_000_000;
    assert ATTOSECONDS_PER_SECOND / REFERENCE_HZ == 76_923_076_923;
    assert ATTOSECONDS_PER_SECOND % REFERENCE_HZ == 1_000_000;
    CeilingOf(1_000_000 * remainder);
    var r := FractionalAttoseconds(ticks);
    assert r == 76_923_076_923 * remainder + (1_000_000 * remainder + 12_999_999) / 13_000_000;
  }

  lemma CeilingOf(n: nat)
    ensures var c := (n + 12_999_999) / 13_000_000; (c - 1) * 13_000_000 < n <= c * 13_000_000
  {
  }
}
