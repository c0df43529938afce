/** Packing of seven-bit characters into octets (section 6.1.2 of TS 23.038), least significant bits first. */
module Gsm7 {
  import opened Octets

  const MAXIMUM_USSD := 40

  /** Characters up to the terminator, at most forty. */
  function Septets(text: seq<bv8>): (n: nat)
    ensures n <= |text| && n <= MAXIMUM_USSD
    ensures forall i :: 0 <= i < n ==> text[i] != 0
    ensures n < |text| && n < MAXIMUM_USSD ==> text[n] == 0
  {
    SeptetsFrom(text, 0)
  }

  function SeptetsFrom(text: seq<bv8>, i: nat): (n: nat)
    requires i <= |text| && i <= MAXIMUM_USSD && forall k :: 0 <= k < i ==> text[k] != 0
    ensures i <= n <= |text| && n <= MAXIMUM_USSD
    ensures forall k :: 0 <= k < n ==> text[k] != 0
    ensures n < |text| && n < MAXIMUM_USSD ==> text[n] == 0
    decreases |text| - i
  {
    if i < |text| && i < MAXIMUM_USSD && text[i] != 0 then SeptetsFrom(text, i + 1) else i
  }

  function PackedLength(septets: nat): nat {
    (septets * 7 + 7) / 8
  }

  /** Bit `k` of the packed string: bit k % 7 of character k / 7, and zero past the last character. */
  function PackedBit(text: seq<bv8>, septets: nat, k: nat): bool
    requires septets <= |text|
  {
    k < 7 * septets && LowBit(text[k / 7], k % 7)
  }

  /** v << n, one place at a time. */
  function LeftBy(v: bv8, n: nat): bv8
    decreases n
  {
    if n == 0 then v else LeftBy(v << 1, n - 1)
  }

  /** v >> n, one place at a time. */
  function RightBy(v: bv8, n: nat): bv8
    decreases n
  {
    if n == 0 then v else RightBy(v >> 1, n - 1)
  }

  lemma OrBit(x: bv8, y: bv8, j: nat)
    requires j < 8
    ensures LowBit(x | y, j) == (LowBit(x, j) || LowBit(y, j))
  {
  }

  lemma LeftOne(v: bv8, j: nat)
    requires j < 8
    ensures LowBit(v << 1, j) == (j > 0 && LowBit(v, j - 1))
  {
  }

  lemma RightOne(v: bv8, j: nat)
    requires j < 8
    ensures LowBit(v >> 1, j) == (j < 7 && LowBit(v, j + 1))
  {
  }

  lemma {:induction false} LeftBit(v: bv8, n: nat, j: nat)
    requires j < 8
    ensures LowBit(LeftBy(v, n), j) == (j >= n && LowBit(v, j - n))
    decreases n
  {
    hide LowBit;
    if n > 0 {
      LeftBit(v << 1, n - 1, j);
      if j >= n - 1 {
        LeftOne(v, j - n + 1);
      }
    }
  }

  lemma {:induction false} RightBit(v: bv8, n: nat, j: nat)
    requires j < 8
    ensures LowBit(RightBy(v, n), j) == (j + n < 8 && LowBit(v, j + n))
    decreases n
  {
    hide LowBit;
    if n > 0 {
      RightBit(v >> 1, n - 1, j);
      if j + n - 1 < 8 {
        RightOne(v, j + n - 1);
      }
    }
  }

  lemma Masked(c: bv8, j: nat)
    requires j < 8
    ensures LowBit(c & 0x7f, j) == (j < 7 && LowBit(c, j))
  {
  }

  lemma ZeroHasNoBits()
    ensures forall j :: 0 <= j < 8 ==> !LowBit(0, j)
  {
  }

  lemma NothingPacked(text: seq<bv8>)
    ensures forall k: nat :: !PackedBit(text, 0, k)
  {
  }

  lemma NextSeptet(text: seq<bv8>, n: nat)
    requires n < |text|
    ensures forall k: nat ::
              PackedBit(text, n + 1, k) ==
              (PackedBit(text, n, k) || (7 * n <= k < 7 * n + 7 && LowBit(text[n] & 0x7f, k - 7 * n)))
  {
    hide LowBit;
    forall k: nat
      ensures PackedBit(text, n + 1, k) ==
              (PackedBit(text, n, k) || (7 * n <= k < 7 * n + 7 && LowBit(text[n] & 0x7f, k - 7 * n)))
    {
      if 7 * n <= k < 7 * n + 7 {
        Masked(text[n], k - 7 * n);
        assert k / 7 == n && k % 7 == k - 7 * n;
      }
    }
  }

  /** Packs the text; nothing is written when it does not fit. */
  method PackGsm7(text: seq<bv8>, packed: array<bv8>) returns (bytes: nat)
    modifies packed
    ensures var n := Septets(text);
            if PackedLength(n) > packed.Length then bytes == 0 && packed[..] == old(packed[..])
            else bytes == PackedLength(n) && packed[bytes..] == old(packed[bytes..]) &&
                 forall k :: 0 <= k < 8 * bytes ==> LowBits(packed[..bytes])[k] == PackedBit(text, n, k)
  {
    hide LowBit, PackedBit;
    var septets := 0;
    while septets < |text| && text[septets] != 0 && septets < MAXIMUM_USSD
      invariant septets <= |text| && septets <= MAXIMUM_USSD
      invariant forall k :: 0 <= k < septets ==> text[k] != 0
      invariant SeptetsFrom(text, septets) == Septets(text)
    {
      septets := septets + 1;
    }
    bytes := PackedLength(septets);
    if bytes > packed.Length {
      return 0;
    }
    for index := 0 to bytes
      invariant packed[bytes..] == old(packed[bytes..])
      invariant forall k :: 0 <= k < index ==> packed[k] == 0
    {
      packed[index] := 0;
    }
    ZeroHasNoBits();
    NothingPacked(text);
    for index := 0 to septets
      invariant packed[bytes..] == old(packed[bytes..])
      invariant forall k :: 0 <= k < 8 * bytes ==> LowBits(packed[..bytes])[k] == PackedBit(text, index, k)
    {
      ghost var before := LowBits(packed[..bytes]);
      OrSeptet(packed, bytes, index, text[index] & 0x7f);
      ghost var after := LowBits(packed[..bytes]);
      NextSeptet(text, index);
      forall k | 0 <= k < 8 * bytes
        ensures after[k] == PackedBit(text, index + 1, k)
      {
        assert before[k] == PackedBit(text, index, k);
      }
    }
  }

  /** ORs one septet into the buffer at bit 7 * index, over one or two octets. */
  method OrSeptet(packed: array<bv8>, bytes: nat, index: nat, value: bv8)
    requires bytes <= packed.Length && 7 * index + 7 <= 8 * bytes && value & 0x80 == 0
    modifies packed
    ensures packed[bytes..] == old(packed[bytes..])
    ensures forall k :: 0 <= k < 8 * bytes ==>
              LowBits(packed[..bytes])[k] ==
              (old(LowBits(packed[..bytes]))[k] || (7 * index <= k < 7 * index + 7 && LowBit(value, k - 7 * index)))
  {
    hide LowBit, LeftBy, RightBy, PackedBit;
    var bit := index * 7;
    var at, n := bit / 8, bit % 8;
    ghost var before := packed[..bytes];
    packed[at] := packed[at] | LeftBy(value, n);
    if n > 1 && at + 1 < bytes {
      packed[at + 1] := packed[at + 1] | RightBy(value, 8 - n);
    }
    SeptetIsOred(before, packed[..bytes], bit, value);
  }

  lemma SeptetIsOred(before: seq<bv8>, after: seq<bv8>, bit: nat, value: bv8)
    requires value & 0x80 == 0 && SeptetOred(before, after, bit / 8, bit % 8, value)
    ensures forall k :: 0 <= k < 8 * |before| ==>
              LowBits(after)[k] == (LowBits(before)[k] || (bit <= k < bit + 7 && LowBit(value, k - bit)))
  {
    hide LowBit, SeptetOred;
    TopBitClear(value);
    SeptetKeepsLength(before, after, bit / 8, bit % 8, value);
    forall k | 0 <= k < 8 * |before|
      ensures LowBits(after)[k] == (LowBits(before)[k] || (bit <= k < bit + 7 && LowBit(value, k - bit)))
    {
      SeptetLands(before, after, bit / 8, bit % 8, value, k / 8, k % 8);
    }
  }

  lemma SeptetKeepsLength(before: seq<bv8>, after: seq<bv8>, at: nat, n: nat, value: bv8)
    requires SeptetOred(before, after, at, n, value)
    ensures |before| == |after|
  {
  }

  /** ORing a septet in at place n of octet `at`, and its overhang into the next octet. */
  ghost predicate SeptetOred(before: seq<bv8>, after: seq<bv8>, at: nat, n: nat, value: bv8) {
    && n < 8 && |before| == |after| && 8 * at + n + 7 <= 8 * |before|
    && after[at] == before[at] | LeftBy(value, n)
    && (n > 1 ==> after[at + 1] == before[at + 1] | RightBy(value, 8 - n))
    && forall i :: 0 <= i < |before| && i != at && !(n > 1 && i == at + 1) ==> after[i] == before[i]
  }

  /** Bit j of octet i afterwards. */
  lemma SeptetLands(before: seq<bv8>, after: seq<bv8>, at: nat, n: nat, value: bv8, i: nat, j: nat)
    requires SeptetOred(before, after, at, n, value) && !LowBit(value, 7)
    requires i < |before| && j < 8
    ensures var d := 8 * (i - at) + j - n;
            LowBit(after[i], j) == (LowBit(before[i], j) || (0 <= d < 7 && LowBit(value, d)))
  {
    hide LowBit, LeftBy, RightBy;
    if i == at {
      OrBit(before[i], LeftBy(value, n), j);
      LeftBit(value, n, j);
    } else if i == at + 1 && n > 1 {
      OrBit(before[i], RightBy(value, 8 - n), j);
      RightBit(value, 8 - n, j);
    }
  }

  lemma TopBitClear(value: bv8)
    requires value & 0x80 == 0
    ensures !LowBit(value, 7)
  {
  }

  // ----- Extraction -----

  /** Character `i` of a packed string, from its seven bits. */
  function Extract(packed: seq<bv8>, i: nat): bv8
    requires 7 * i + 7 <= 8 * |packed|
  {
    LowOctet(LowBits(packed)[7 * i..7 * i + 7] + [false])
  }

  /** Every character comes back out of the packed octets, and the bits after the last are zero. */
  lemma ExtractAfterPack(text: seq<bv8>, packed: seq<bv8>, i: nat)
    requires |packed| == PackedLength(Septets(text))
    requires forall k :: 0 <= k < 8 * |packed| ==> LowBits(packed)[k] == PackedBit(text, Septets(text), k)
    requires i < Septets(text)
    ensures Extract(packed, i) == text[i] & 0x7f
    ensures forall k :: 7 * Septets(text) <= k < 8 * |packed| ==> !LowBits(packed)[k]
  {
    hide LowBit, LowOctet;
    var b := LowBits(packed)[7 * i..7 * i + 7] + [false];
    forall j | 0 <= j < 8
      ensures LowBit(Extract(packed, i), j) == LowBit(text[i] & 0x7f, j)
    {
      LowOctetHasItsBits(b, j);
      Masked(text[i], j);
      if j < 7 {
        assert b[j] == LowBits(packed)[7 * i + j];
        assert (7 * i + j) / 7 == i && (7 * i + j) % 7 == j;
      }
    }
    LowBitsDetermineOctet(Extract(packed, i), text[i] & 0x7f);
  }

  /** Texts are cut at forty characters, which take 35 octets. */
  lemma UssdAlwaysFits(text: seq<bv8>)
    ensures PackedLength(Septets(text)) <= 35
    ensures Septets(text) == 40 <==> |text| >= 40 && forall i :: 0 <= i < 40 ==> text[i] != 0
    ensures Septets(text) == 40 ==> PackedLength(Septets(text)) == 35
  {
  }
}
