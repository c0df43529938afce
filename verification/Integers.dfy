/** What several modules share: octets as numbers, buffers of them, optional values, the uniqueness of division. */
module Integers {

  type Byte = b: nat | b < 0x100

  const TWO_TO_32 := 0x1_0000_0000

  datatype Option<T> = None | Some(value: T)

  /** Quotient and remainder are unique. */
  lemma Quotient(n: nat, q: nat, r: nat, m: nat)
    requires 0 < m && r < m && n == m * q + r
    ensures n % m == r
  {
    var d := n / m - q;
    assert m * d == r - n % m;
    MultipleIsFar(m, d);
  }

  lemma MultipleIsFar(m: int, d: int)
    requires 0 < m
    ensures (d > 0 ==> m * d >= m) && (d < 0 ==> m * d <= -m)
  {
  }

  lemma QuotientOf(n: nat, q: nat, r: nat, m: nat)
    requires 0 < m && r < m && n == m * q + r
    ensures n / m == q
  {
    Quotient(n, q, r, m);
    var d := n / m - q;
    assert m * d == 0;
    MultipleIsFar(m, d);
  }

  function PowerOfTwo(i: nat): (p: nat)
    ensures 0 < p
  {
    if i == 0 then 1 else 2 * PowerOfTwo(i - 1)
  }

  /** Bit `i` of a number, from the least significant. */
  predicate NumberBit(n: nat, i: nat) {
    n / PowerOfTwo(i) % 2 == 1
  }

  /** Above its lowest bit a number is its half. */
  lemma NumberBitOfHalf(n: nat, i: nat)
    ensures NumberBit(n, i + 1) == NumberBit(n / 2, i)
  {
    var p, h := PowerOfTwo(i), n / 2;
    var q, r := h / p, h % p;
    assert h == p * q + r;
    assert 2 * p * q == 2 * (p * q);
    QuotientOf(n, q, 2 * r + n % 2, 2 * p);
  }

  /** Stores octets one by one from `start` on. */
  method Put(data: array<Byte>, start: nat, octets: seq<Byte>) returns (next: nat)
    requires start + |octets| <= data.Length
    modifies data
    ensures next == start + |octets| && data[..next] == old(data[..start]) + octets
  {
    next := start;
    for k := 0 to |octets|
      invariant next == start + k && data[..next] == old(data[..start]) + octets[..k]
    {
      data[next] := octets[k];
      next := next + 1;
    }
  }
}
