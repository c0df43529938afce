/** The subjective-importance order of the 260 speech bits (TS 45.003, table 2) and why it is a permutation. */
module Importance {
  import opened Integers

  const SPEECH_BITS := 260
  const PARAMETERS := 76

  /** Widths of the 76 speech parameters: eight log-area ratios, then four sub-frames of lag, gain,
      grid position, block amplitude and thirteen pulses. */
  function Width(parameter: nat): nat
    requires 1 <= parameter <= PARAMETERS
  {
    if parameter <= 8 then [6, 6, 5, 5, 4, 4, 3, 3][parameter - 1]
    else
      var q := (parameter - 9) % 17;
      if q == 0 then 7 else if q <= 2 then 2 else if q == 3 then 6 else 3
  }

  function WidthBefore(parameter: nat): nat
    requires 1 <= parameter <= PARAMETERS + 1
  {
    if parameter == 1 then 0 else WidthBefore(parameter - 1) + Width(parameter - 1)
  }

  datatype Entry = Entry(parameter: nat, bit: nat) {
    predicate Valid() {
      1 <= parameter <= PARAMETERS && bit < Width(parameter)
    }

    /** Where the bit sits in the serial order b(1)..b(260), counted from 0. */
    function Index(): nat
      requires Valid()
    {
      WidthBefore(parameter) + Width(parameter) - 1 - bit
    }

    /** Its place in the printed order of table 2: each sub-frame parameter's bit occupies four
        neighbouring places, each pulse bit four runs of thirteen. */
    function Rank(): nat
      requires Valid()
    {
      if parameter <= 8 then RatioRank(parameter, bit)
      else
        var f, q := (parameter - 9) / 17, (parameter - 9) % 17;
        if q < 4 then FirstRank(q, bit) + f else FirstRank(4, bit) + 13 * f + (q - 4)
    }
  }

  /** Ranks of the bits of the eight log-area ratios, lowest bit first. */
  function RatioRank(parameter: nat, bit: nat): nat
    requires 1 <= parameter <= 8 && bit < Width(parameter)
  {
    if parameter == 1 then Pick(191, 64, 43, 8, 5, 0, bit)
    else if parameter == 2 then Pick(258, 192, 65, 20, 9, 6, bit)
    else if parameter == 3 then Pick(198, 193, 66, 10, 7, 0, bit)
    else if parameter == 4 then Pick(200, 199, 68, 44, 11, 0, bit)
    else if parameter == 5 then Pick(201, 69, 50, 21, 0, 0, bit)
    else if parameter == 6 then Pick(259, 194, 51, 22, 0, 0, bit)
    else if parameter == 7 then Pick(195, 70, 45, 0, 0, 0, bit)
    else Pick(197, 196, 67, 0, 0, 0, bit)
  }

  function Pick(r0: nat, r1: nat, r2: nat, r3: nat, r4: nat, r5: nat, bit: nat): nat {
    if bit == 0 then r0 else if bit == 1 then r1 else if bit == 2 then r2
    else if bit == 3 then r3 else if bit == 4 then r4 else r5
  }

  /** Ranks in the first sub-frame of lag, gain, grid position, amplitude and first pulse. */
  function FirstRank(q: nat, bit: nat): nat
    requires q <= 4
  {
    if q == 0 then if bit == 6 then 12 else Pick(56, 46, 35, 31, 27, 23, bit)
    else if q == 1 then Pick(71, 52, 0, 0, 0, 0, bit)
    else if q == 2 then Pick(131, 60, 0, 0, 0, 0, bit)
    else if q == 3 then Pick(202, 135, 75, 39, 16, 1, bit)
    else Pick(206, 139, 79, 0, 0, 0, bit)
  }

  // ----- The table, group by group as printed -----

  predicate InRankOrder(t: seq<Entry>) {
    forall i :: 0 <= i < |t| ==> t[i].Valid() && t[i].Rank() == i
  }

  /** Entries whose ranks continue where the table stops. */
  function Continued(t: seq<Entry>, more: seq<Entry>): (r: seq<Entry>)
    requires InRankOrder(t)
    requires forall i :: 0 <= i < |more| ==> more[i].Valid() && more[i].Rank() == |t| + i
    ensures InRankOrder(r) && |r| == |t| + |more|
  {
    hide Entry.Rank, Entry.Valid;
    t + more
  }

  function One(t: seq<Entry>, parameter: nat, bit: nat): (r: seq<Entry>)
    requires InRankOrder(t)
    requires var e := Entry(parameter, bit); e.Valid() && e.Rank() == |t|
    ensures InRankOrder(r) && |r| == |t| + 1
  {
    hide Entry.Rank, Entry.Valid, InRankOrder;
    Continued(t, [Entry(parameter, bit)])
  }

  function Each(t: seq<Entry>, parameters: seq<nat>, bit: nat): (r: seq<Entry>)
    requires InRankOrder(t)
    requires forall i :: 0 <= i < |parameters| ==>
               var e := Entry(parameters[i], bit); e.Valid() && e.Rank() == |t| + i
    ensures InRankOrder(r) && |r| == |t| + |parameters|
  {
    hide Entry.Rank, Entry.Valid, InRankOrder;
    Continued(t, seq(|parameters|, i requires 0 <= i < |parameters| => Entry(parameters[i], bit)))
  }

  lemma SameParameter(parameter: nat, f: nat)
    requires 9 <= parameter <= 12
    ensures (parameter + 17 * f - 9) / 17 == f && (parameter + 17 * f - 9) % 17 == parameter - 9
  {
  }

  lemma SubframeRanks(parameter: nat, bit: nat)
    requires 9 <= parameter <= 12 && Entry(parameter, bit).Valid()
    ensures forall f :: 0 <= f < 4 ==>
              Entry(parameter + 17 * f, bit).Valid() &&
              Entry(parameter + 17 * f, bit).Rank() == Entry(parameter, bit).Rank() + f
  {
    forall f: nat | f < 4
      ensures Entry(parameter + 17 * f, bit).Valid() &&
              Entry(parameter + 17 * f, bit).Rank() == Entry(parameter, bit).Rank() + f
    {
      SameParameter(parameter, f);
      SameParameter(parameter, 0);
    }
  }

  /** One bit of the same parameter in each of the four sub-frames, 17 parameters apart. */
  function Subframes(t: seq<Entry>, parameter: nat, bit: nat): (r: seq<Entry>)
    requires InRankOrder(t) && 9 <= parameter <= 12
    requires var e := Entry(parameter, bit); e.Valid() && e.Rank() == |t|
    ensures InRankOrder(r) && |r| == |t| + 4
  {
    hide Entry.Rank, Entry.Valid, InRankOrder;
    SubframeRanks(parameter, bit);
    Continued(t, seq(4, f requires 0 <= f < 4 => Entry(parameter + 17 * f, bit)))
  }

  lemma SamePulseSubframe(n: nat, i: nat)
    requires n % 17 + i < 17
    ensures (n + i) / 17 == n / 17 && (n + i) % 17 == n % 17 + i
  {
  }

  lemma PulseRun(first: nat, last: nat, bit: nat)
    requires 13 <= first <= last <= PARAMETERS && 4 <= (first - 9) % 17
    requires (first - 9) % 17 + last - first < 17 && bit < 3
    ensures Entry(first, bit).Valid()
    ensures forall p :: first <= p <= last ==>
              Entry(p, bit).Valid() && Entry(p, bit).Rank() == Entry(first, bit).Rank() + p - first
  {
    SamePulseSubframe(first - 9, 0);
    forall p | first <= p <= last
      ensures Entry(p, bit).Valid() && Entry(p, bit).Rank() == Entry(first, bit).Rank() + p - first
    {
      SamePulseSubframe(first - 9, p - first);
    }
  }

  /** A run of pulses within one sub-frame. */
  function Range(t: seq<Entry>, first: nat, last: nat, bit: nat): (r: seq<Entry>)
    requires InRankOrder(t) && 13 <= first <= last <= PARAMETERS && 4 <= (first - 9) % 17
    requires (first - 9) % 17 + last - first < 17 && bit < 3
    requires Entry(first, bit).Valid() && Entry(first, bit).Rank() == |t|
    ensures InRankOrder(r) && |r| == |t| + last + 1 - first
  {
    hide Entry.Rank, Entry.Valid, InRankOrder;
    PulseRun(first, last, bit);
    Continued(t, seq(last + 1 - first, i requires 0 <= i < last + 1 - first => Entry(first + i, bit)))
  }

  function Lines0(t: seq<Entry>): (r: seq<Entry>)
    requires InRankOrder(t) && |t| == 0
    ensures InRankOrder(r) && |r| == 8
  {
    var t := One(t, 1, 5);
    var t := Subframes(t, 12, 5);
    var t := One(t, 1, 4);
    var t := One(t, 2, 5);
    var t := One(t, 3, 4);
    t
  }

  function Lines8(t: seq<Entry>): (r: seq<Entry>)
    requires InRankOrder(t) && |t| == 8
    ensures InRankOrder(r) && |r| == 12
  {
    var t := One(t, 1, 3);
    var t := One(t, 2, 4);
    var t := One(t, 3, 3);
    var t := One(t, 4, 4);
    t
  }

  function Lines12(t: seq<Entry>): (r: seq<Entry>)
    requires InRankOrder(t) && |t| == 12
    ensures InRankOrder(r) && |r| == 27
  {
    var t := Subframes(t, 9, 6);
    var t := Subframes(t, 12, 4);
    var t := Each(t, [2, 5, 6], 3);
    var t := Subframes(t, 9, 5);
    t
  }

  function Lines27(t: seq<Entry>): (r: seq<Entry>)
    requires InRankOrder(t) && |t| == 27
    ensures InRankOrder(r) && |r| == 43
  {
    var t := Subframes(t, 9, 4);
    var t := Subframes(t, 9, 3);
    var t := Subframes(t, 9, 2);
    var t := Subframes(t, 12, 3);
    t
  }

  function Lines43(t: seq<Entry>): (r: seq<Entry>)
    requires InRankOrder(t) && |t| == 43
    ensures InRankOrder(r) && |r| == 50
  {
    var t := One(t, 1, 2);
    var t := One(t, 4, 3);
    var t := One(t, 7, 2);
    var t := Subframes(t, 9, 1);
    t
  }

  function Lines50(t: seq<Entry>): (r: seq<Entry>)
    requires InRankOrder(t) && |t| == 50
    ensures InRankOrder(r) && |r| == 64
  {
    var t := Each(t, [5, 6], 2);
    var t := Subframes(t, 10, 1);
    var t := Subframes(t, 9, 0);
    var t := Subframes(t, 11, 1);
    t
  }

  function Lines64(t: seq<Entry>): (r: seq<Entry>)
    requires InRankOrder(t) && |t| == 64
    ensures InRankOrder(r) && |r| == 75
  {
    var t := One(t, 1, 1);
    var t := Each(t, [2, 3, 8, 4], 2);
    var t := Each(t, [5, 7], 1);
    var t := Subframes(t, 10, 0);
    t
  }

  function Lines75(t: seq<Entry>): (r: seq<Entry>)
    requires InRankOrder(t) && |t| == 75
    ensures InRankOrder(r) && |r| == 92
  {
    var t := Subframes(t, 12, 2);
    var t := Range(t, 13, 25, 2);
    t
  }

  function Lines92(t: seq<Entry>): (r: seq<Entry>)
    requires InRankOrder(t) && |t| == 92
    ensures InRankOrder(r) && |r| == 118
  {
    var t := Range(t, 30, 42, 2);
    var t := Range(t, 47, 59, 2);
    t
  }

  function Lines118(t: seq<Entry>): (r: seq<Entry>)
    requires InRankOrder(t) && |t| == 118
    ensures InRankOrder(r) && |r| == 152
  {
    var t := Range(t, 64, 76, 2);
    var t := Subframes(t, 11, 0);
    var t := Subframes(t, 12, 1);
    var t := Range(t, 13, 25, 1);
    t
  }

  function Lines152(t: seq<Entry>): (r: seq<Entry>)
    requires InRankOrder(t) && |t| == 152
    ensures InRankOrder(r) && |r| == 178
  {
    var t := Range(t, 30, 42, 1);
    var t := Range(t, 47, 59, 1);
    t
  }

  function Lines178(t: seq<Entry>): (r: seq<Entry>)
    requires InRankOrder(t) && |t| == 178
    ensures InRankOrder(r) && |r| == 191
  {
    var t := Range(t, 64, 67, 1);
    var t := Range(t, 68, 76, 1);
    t
  }

  function Lines191(t: seq<Entry>): (r: seq<Entry>)
    requires InRankOrder(t) && |t| == 191
    ensures InRankOrder(r) && |r| == 197
  {
    var t := One(t, 1, 0);
    var t := Each(t, [2, 3, 6], 1);
    var t := One(t, 7, 0);
    var t := One(t, 8, 1);
    t
  }

  function Lines197(t: seq<Entry>): (r: seq<Entry>)
    requires InRankOrder(t) && |t| == 197
    ensures InRankOrder(r) && |r| == 206
  {
    var t := Each(t, [8, 3], 0);
    var t := One(t, 4, 1);
    var t := Each(t, [4, 5], 0);
    var t := Subframes(t, 12, 0);
    t
  }

  function Lines206(t: seq<Entry>): (r: seq<Entry>)
    requires InRankOrder(t) && |t| == 206
    ensures InRankOrder(r) && |r| == 232
  {
    var t := Range(t, 13, 25, 0);
    var t := Range(t, 30, 42, 0);
    t
  }

  function Lines232(t: seq<Entry>): (r: seq<Entry>)
    requires InRankOrder(t) && |t| == 232
    ensures InRankOrder(r) && |r| == 258
  {
    var t := Range(t, 47, 59, 0);
    var t := Range(t, 64, 76, 0);
    t
  }

  function Lines258(t: seq<Entry>): (r: seq<Entry>)
    requires InRankOrder(t) && |t| == 258
    ensures InRankOrder(r) && |r| == 260
  {
    var t := Each(t, [2, 6], 0);
    t
  }

  /** Table 2 in printed order. */
  function Table(): (t: seq<Entry>)
    ensures InRankOrder(t) && |t| == SPEECH_BITS
  {
    var t := [];
    var t := Lines0(t);
    var t := Lines8(t);
    var t := Lines12(t);
    var t := Lines27(t);
    var t := Lines43(t);
    var t := Lines50(t);
    var t := Lines64(t);
    var t := Lines75(t);
    var t := Lines92(t);
    var t := Lines118(t);
    var t := Lines152(t);
    var t := Lines178(t);
    var t := Lines191(t);
    var t := Lines197(t);
    var t := Lines206(t);
    var t := Lines232(t);
    var t := Lines258(t);
    t
  }

  function ImportanceMap(): (map_: seq<nat>)
    ensures |map_| == SPEECH_BITS
  {
    var t := Table();
    seq(SPEECH_BITS, k requires 0 <= k < SPEECH_BITS => t[k].Index())
  }

  // ----- The permutation -----

  lemma {:induction false} WidthsAddUp(p: nat, q: nat)
    requires 1 <= p < q <= PARAMETERS + 1
    ensures WidthBefore(p) + Width(p) <= WidthBefore(q)
  {
    if q > p + 1 {
      WidthsAddUp(p, q - 1);
    }
  }

  lemma SubframeWidth(f: nat, q: nat)
    requires q < 17 && 9 + 17 * f + q <= PARAMETERS
    ensures Width(9 + 17 * f + q) == if q == 0 then 7 else if q <= 2 then 2 else if q == 3 then 6 else 3
  {
    assert (17 * f + q) % 17 == q;
  }

  lemma RatioWidths()
    ensures WidthBefore(9) == 36
  {
    assert WidthBefore(5) == 22;
  }

  /** From parameter 9 on the widths repeat every 17 parameters, 56 bits a sub-frame. */
  lemma {:induction false} SubframeWidths(f: nat, q: nat)
    requires q < 17 && 9 + 17 * f + q <= PARAMETERS + 1
    ensures WidthBefore(9 + 17 * f + q) == 36 + 56 * f + if q < 4 then [0, 7, 9, 11][q] else 17 + 3 * (q - 4)
    decreases f, q
  {
    hide Width;
    if q > 0 {
      SubframeWidths(f, q - 1);
      SubframeWidth(f, q - 1);
    } else if f > 0 {
      SubframeWidths(f - 1, 16);
      SubframeWidth(f - 1, 16);
    } else {
      RatioWidths();
    }
  }

  /** Distinct bits have distinct serial positions. */
  lemma IndexIsInjective(a: Entry, b: Entry)
    requires a.Valid() && b.Valid() && a.Index() == b.Index()
    ensures a == b
  {
    if a.parameter < b.parameter {
      WidthsAddUp(a.parameter, b.parameter);
    } else if b.parameter < a.parameter {
      WidthsAddUp(b.parameter, a.parameter);
    }
  }

  lemma IndexIsInRange(a: Entry)
    requires a.Valid()
    ensures a.Index() < SPEECH_BITS
  {
    SubframeWidths(4, 0);
    WidthsAddUp(a.parameter, PARAMETERS + 1);
  }

  ghost predicate Injective(s: seq<nat>) {
    forall i, j :: 0 <= i < j < |s| ==> s[i] != s[j]
  }

  function Elements(s: seq<nat>): set<nat> {
    set x | x in s
  }

  lemma {:induction false} DistinctElements(s: seq<nat>)
    requires Injective(s)
    ensures |Elements(s)| == |s|
  {
    if s != [] {
      var r, last := s[..|s| - 1], s[|s| - 1];
      DistinctElements(r);
      assert last !in Elements(r);
      assert s == r + [last];
      assert Elements(s) == Elements(r) + {last};
    }
  }

  function Identity(n: nat): (s: seq<nat>)
    ensures |s| == n
  {
    seq(n, i => i)
  }

  lemma SubsetOfSameSize(a: set<nat>, b: set<nat>)
    requires a <= b && |a| == |b|
    ensures a == b
  {
    if a != b {
      var x :| x in b && x !in a;
      SizeOfSubset(a, b - {x});
      assert false;
    }
  }

  lemma {:induction false} SizeOfSubset(a: set<nat>, b: set<nat>)
    requires a <= b
    ensures |a| <= |b|
  {
    if a != {} {
      var x :| x in a;
      SizeOfSubset(a - {x}, b - {x});
    }
  }

  /** Pigeonhole: distinct numbers below the length are all the numbers below the length. */
  lemma InjectiveIsOnto(s: seq<nat>)
    requires Injective(s) && forall k :: 0 <= k < |s| ==> s[k] < |s|
    ensures forall x :: 0 <= x < |s| ==> x in s
  {
    var all := Identity(|s|);
    DistinctElements(s);
    DistinctElements(all);
    assert forall x :: 0 <= x < |s| ==> all[x] == x;
    assert forall k :: 0 <= k < |s| ==> all[s[k]] in Elements(all);
    SubsetOfSameSize(Elements(s), Elements(all));
    forall x | 0 <= x < |s|
      ensures x in s
    {
      assert all[x] in Elements(all);
    }
  }

  lemma EntriesGiveDistinctIndices(t: seq<Entry>, i: nat, j: nat)
    requires InRankOrder(t) && i < j < |t|
    ensures t[i].Valid() && t[j].Valid() && t[i].Index() != t[j].Index()
  {
    if t[i].Index() == t[j].Index() {
      IndexIsInjective(t[i], t[j]);
    }
  }

  /** The importance map is a permutation of the 260 serial positions: nothing is repeated, nothing left out. */
  lemma ImportanceMapIsPermutation()
    ensures var m := ImportanceMap();
            (forall k :: 0 <= k < SPEECH_BITS ==> m[k] < SPEECH_BITS) &&
            Injective(m) &&
            forall s :: 0 <= s < SPEECH_BITS ==> s in m
  {
    hide Table, Entry.Rank;
    var t, m := Table(), ImportanceMap();
    forall k | 0 <= k < SPEECH_BITS
      ensures m[k] < SPEECH_BITS
    {
      IndexIsInRange(t[k]);
    }
    forall i, j | 0 <= i < j < SPEECH_BITS
      ensures m[i] != m[j]
    {
      EntriesGiveDistinctIndices(t, i, j);
    }
    DistinctElements(m);
    InjectiveIsOnto(m);
  }

  // ----- Parameters as numbers -----

  /** Bits as a number, most significant first. */
  function Number(bits: seq<bool>): nat {
    if bits == [] then 0 else 2 * Number(bits[..|bits| - 1]) + if bits[|bits| - 1] then 1 else 0
  }

  /** The value of a parameter: its bits stand together in the serial frame, most significant first. */
  function ParameterValue(serial: seq<bool>, parameter: nat): nat
    requires |serial| == SPEECH_BITS && 1 <= parameter <= PARAMETERS
  {
    WidthsFit(parameter);
    Number(serial[WidthBefore(parameter)..WidthBefore(parameter) + Width(parameter)])
  }

  lemma WidthsFit(parameter: nat)
    requires 1 <= parameter <= PARAMETERS
    ensures WidthBefore(parameter) + Width(parameter) <= SPEECH_BITS
  {
    hide Width, WidthBefore;
    AllWidths();
    WidthsAddUp(parameter, PARAMETERS + 1);
  }

  lemma AllWidths()
    ensures WidthBefore(PARAMETERS + 1) == SPEECH_BITS
  {
    hide WidthBefore;
    SubframeWidths(4, 0);
  }

  lemma {:induction false} BitOfNumber(bits: seq<bool>, b: nat)
    requires b < |bits|
    ensures NumberBit(Number(bits), b) == bits[|bits| - 1 - b]
  {
    hide NumberBit;
    var front := bits[..|bits| - 1];
    assert Number(bits) / 2 == Number(front);
    if b == 0 {
      LowestBitOfNumber(bits);
    } else {
      NumberBitOfHalf(Number(bits), b - 1);
      BitOfNumber(front, b - 1);
    }
  }

  lemma LowestBitOfNumber(bits: seq<bool>)
    requires bits != []
    ensures NumberBit(Number(bits), 0) == bits[|bits| - 1]
  {
    assert PowerOfTwo(0) == 1;
  }

  /** An entry of table 2 names the bit of that weight in its parameter's value. */
  lemma EntryIsValueBit(serial: seq<bool>, e: Entry)
    requires |serial| == SPEECH_BITS && e.Valid()
    ensures e.Index() < SPEECH_BITS && serial[e.Index()] == NumberBit(ParameterValue(serial, e.parameter), e.bit)
  {
    hide NumberBit, Number;
    WidthsFit(e.parameter);
    BitOfNumber(serial[WidthBefore(e.parameter)..WidthBefore(e.parameter) + Width(e.parameter)], e.bit);
  }

  /** Of one parameter the bit of higher weight is always the more important. */
  lemma HigherBitsRankFirst(a: Entry, b: Entry)
    requires a.Valid() && b.Valid() && a.parameter == b.parameter && a.bit > b.bit
    ensures a.Rank() < b.Rank()
  {
    if a.parameter > 8 {
      SubframeWidth((a.parameter - 9) / 17, (a.parameter - 9) % 17);
    }
  }

  lemma RankDecidesBit(a: Entry, b: Entry)
    requires a.Valid() && b.Valid() && a.parameter == b.parameter && a.Rank() < b.Rank()
    ensures a.bit > b.bit
  {
    hide Entry.Rank;
    if a.bit < b.bit {
      HigherBitsRankFirst(b, a);
    }
  }

  /** The map takes the bits of each parameter in the order in which the serial frame has them; the first bit of all
      is the first of the frame. */
  lemma ParameterBitsKeepTheirOrder(i: nat, j: nat)
    requires i < j < SPEECH_BITS && Table()[i].parameter == Table()[j].parameter
    ensures ImportanceMap()[i] < ImportanceMap()[j]
  {
    hide Table, Entry.Rank;
    var a, b := Table()[i], Table()[j];
    RankDecidesBit(a, b);
  }

  lemma FirstOfTheMap()
    ensures ImportanceMap()[0] == 0
  {
    hide Table;
    var e := Table()[0];
    assert e.Rank() == 0 && e.Valid();
    FirstRankIsFirstBit(e);
  }

  lemma FirstRankIsFirstBit(e: Entry)
    requires e.Valid() && e.Rank() == 0
    ensures e == Entry(1, 5)
  {
    if e.parameter > 8 {
      SubframeWidth((e.parameter - 9) / 17, (e.parameter - 9) % 17);
    }
  }

  // ----- Reordering -----

  function ImportanceOrder(serial: seq<bool>): (d: seq<bool>)
    requires |serial| == SPEECH_BITS
    ensures |d| == SPEECH_BITS
  {
    ImportanceMapIsPermutation();
    var m := ImportanceMap();
    seq(SPEECH_BITS, k requires 0 <= k < SPEECH_BITS => serial[m[k]])
  }

  /** The place of serial bit `s` in the importance order. */
  ghost function PlaceOf(s: nat): (k: nat)
    requires s < SPEECH_BITS
    ensures k < SPEECH_BITS && ImportanceMap()[k] == s
  {
    hide Table, ImportanceMap;
    ImportanceMapIsPermutation();
    assert s in ImportanceMap();
    var k :| 0 <= k < SPEECH_BITS && ImportanceMap()[k] == s;
    k
  }

  ghost function SerialOrder(d: seq<bool>): (serial: seq<bool>)
    requires |d| == SPEECH_BITS
    ensures |serial| == SPEECH_BITS
  {
    seq(SPEECH_BITS, s requires 0 <= s < SPEECH_BITS => d[PlaceOf(s)])
  }

  lemma SerialAfterImportance(serial: seq<bool>)
    requires |serial| == SPEECH_BITS
    ensures SerialOrder(ImportanceOrder(serial)) == serial
  {
    hide Table, ImportanceMap;
    assert forall s :: 0 <= s < SPEECH_BITS ==> SerialOrder(ImportanceOrder(serial))[s] == serial[s];
  }

  lemma ImportanceAfterSerial(d: seq<bool>)
    requires |d| == SPEECH_BITS
    ensures ImportanceOrder(SerialOrder(d)) == d
  {
    hide Table, ImportanceMap;
    ImportanceMapIsPermutation();
    var m := ImportanceMap();
    forall k | 0 <= k < SPEECH_BITS
      ensures ImportanceOrder(SerialOrder(d))[k] == d[k]
    {
      var j := PlaceOf(m[k]);
      assert Injective(m) && m[j] == m[k];
    }
  }

  // ----- The loops -----

  /** The position of a parameter's bit in the serial frame, by summing the widths before it. */
  method SerialIndex(parameter: nat, bit: nat) returns (result: nat)
    requires Entry(parameter, bit).Valid()
    ensures result == Entry(parameter, bit).Index()
  {
    result := 0;
    for p := 1 to parameter
      invariant result == WidthBefore(p)
    {
      result := result + Width(p);
    }
    result := result + Width(parameter) - 1 - bit;
  }

  method MakeImportanceMap() returns (positions: array<nat>)
    ensures positions[..] == ImportanceMap()
  {
    hide Table, Entry.Rank;
    var t := Table();
    positions := new nat[SPEECH_BITS];
    for out := 0 to SPEECH_BITS
      invariant forall k :: 0 <= k < out ==> positions[k] == ImportanceMap()[k]
    {
      assert t[out].Valid() && t[out] == Entry(t[out].parameter, t[out].bit);
      positions[out] := SerialIndex(t[out].parameter, t[out].bit);
    }
  }

  method ReorderByImportance(serial: seq<bool>, m: array<nat>) returns (d: seq<bool>)
    requires |serial| == SPEECH_BITS && m[..] == ImportanceMap()
    ensures d == ImportanceOrder(serial)
  {
    hide ImportanceMap;
    ImportanceMapIsPermutation();
    ghost var im := ImportanceMap();
    var result := new bool[SPEECH_BITS];
    for k := 0 to SPEECH_BITS
      invariant m[..] == im && forall j :: 0 <= j < k ==> result[j] == serial[im[j]]
    {
      assert m[k] == im[k];
      result[k] := serial[m[k]];
    }
    d := result[..];
  }

  method ReorderSerially(d: seq<bool>, m: array<nat>) returns (serial: seq<bool>)
    requires |d| == SPEECH_BITS && m[..] == ImportanceMap()
    ensures serial == SerialOrder(d)
  {
    hide ImportanceMap;
    ImportanceMapIsPermutation();
    ghost var im := ImportanceMap();
    var result := new bool[SPEECH_BITS];
    for k := 0 to SPEECH_BITS
      invariant m[..] == im && forall j :: 0 <= j < k ==> result[im[j]] == d[j]
    {
      assert m[k] == im[k];
      result[m[k]] := d[k];
    }
    serial := result[..];
    assert forall s :: 0 <= s < SPEECH_BITS ==> serial[s] == result[im[PlaceOf(s)]];
  }
}
