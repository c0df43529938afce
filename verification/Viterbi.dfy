/** The Viterbi decoder: its add-compare-select tables, the path it returns, and why no path is closer. */
module Viterbi {
  import opened Bits
  import opened Convolution

  datatype Path = NoPath | Path(cost: nat, bits: seq<bool>)

  /** Hamming cost of leaving `s` on `input` at step `k` of the received block. */
  function Branch(coded: seq<bool>, k: nat, s: State, input: bool): nat
    requires 2 * k + 1 < |coded|
  {
    Count(C0(s, input) != coded[2 * k]) + Count(C1(s, input) != coded[2 * k + 1])
  }

  function Extend(coded: seq<bool>, k: nat, p: Path, s: State, input: bool): Path
    requires 2 * k + 1 < |coded|
  {
    match p
    case NoPath => NoPath
    case Path(cost, bits) => Path(cost + Branch(coded, k, s, input), bits + [input])
  }

  /** The later candidate wins only when it is strictly cheaper. */
  function Better(first: Path, second: Path): Path {
    if second.Path? && (first.NoPath? || second.cost < first.cost) then second else first
  }

  /** Leaving `s` on the input that leads to `t`. */
  function Arrival(coded: seq<bool>, k: nat, kept: seq<Path>, s: State, t: State): Path
    requires 2 * k + 2 <= |coded| && |kept| == STATES
  {
    Extend(coded, k, kept[s], s, t % 2 == 1)
  }

  /** The better of the two arrivals at `t`, whose predecessors are t/2 and t/2 + 8. */
  function Select(coded: seq<bool>, k: nat, kept: seq<Path>, t: State): Path
    requires 2 * k + 2 <= |coded| && |kept| == STATES
  {
    Better(Arrival(coded, k, kept, t / 2, t), Arrival(coded, k, kept, t / 2 + 8, t))
  }

  /** The path kept into each state after `k` steps. */
  function Survivors(coded: seq<bool>, k: nat): (kept: seq<Path>)
    requires 2 * k <= |coded|
    ensures |kept| == STATES
  {
    if k == 0 then seq(STATES, t => if t == 0 then Path(0, []) else NoPath)
    else
      var kept := Survivors(coded, k - 1);
      seq(STATES, t requires 0 <= t < STATES => Select(coded, k - 1, kept, t))
  }

  /** What the decoder returns for `n` steps: the path kept into the all-zero state. */
  function Decoded(coded: seq<bool>, n: nat): Path
    requires 2 * n <= |coded|
  {
    Survivors(coded, n)[0]
  }

  // ----- The survivor is a closest path -----

  /** The cost of a whole path, summed branch by branch as the decoder sees it. */
  function Cost(coded: seq<bool>, u: seq<bool>): nat
    requires 2 * |u| <= |coded|
  {
    if u == [] then 0
    else
      var v := u[..|u| - 1];
      Cost(coded, v) + Branch(coded, |v|, End(0, v), u[|v|])
  }

  lemma CodewordGrows(coded: seq<bool>, e: seq<bool>, k: nat, s: State, b: bool)
    requires 2 * k + 2 <= |coded| && |e| == 2 * k
    ensures Hamming(e + [C0(s, b), C1(s, b)], coded[..2 * k + 2]) == Hamming(e, coded[..2 * k]) + Branch(coded, k, s, b)
  {
    assert coded[..2 * k + 2] == coded[..2 * k] + [coded[2 * k], coded[2 * k + 1]];
    HammingAppendPair(e, coded[..2 * k], C0(s, b), C1(s, b), coded[2 * k], coded[2 * k + 1]);
  }

  /** The decoder's metric is the Hamming distance of the re-encoded path. */
  lemma {:induction false} CostIsDistance(coded: seq<bool>, u: seq<bool>)
    requires 2 * |u| <= |coded|
    ensures Cost(coded, u) == Hamming(Encode(u), coded[..2 * |u|])
    decreases |u|
  {
    if u != [] {
      var v, b := u[..|u| - 1], u[|u| - 1];
      CostIsDistance(coded, v);
      assert u == v + [b];
      EncodeAppend(v, b);
      CodewordGrows(coded, Encode(v), |v|, End(0, v), b);
    }
  }

  predicate IsPath(coded: seq<bool>, p: Path, k: nat, t: State)
    requires 2 * k <= |coded|
  {
    p.Path? ==> |p.bits| == k && End(0, p.bits) == t && p.cost == Cost(coded, p.bits)
  }

  lemma CostAppend(coded: seq<bool>, u: seq<bool>, b: bool)
    requires 2 * |u| + 2 <= |coded|
    ensures Cost(coded, u + [b]) == Cost(coded, u) + Branch(coded, |u|, End(0, u), b)
  {
    assert (u + [b])[..|u|] == u;
  }

  lemma ArrivalIsAPath(coded: seq<bool>, k: nat, kept: seq<Path>, s: State, t: State)
    requires 2 * k + 2 <= |coded| && |kept| == STATES
    requires Successor(s, t % 2 == 1) == t
    requires IsPath(coded, kept[s], k, s)
    ensures IsPath(coded, Arrival(coded, k, kept, s, t), k + 1, t)
  {
    if kept[s].Path? {
      EndAppend(0, kept[s].bits, t % 2 == 1);
      CostAppend(coded, kept[s].bits, t % 2 == 1);
    }
  }

  ghost predicate ArePaths(coded: seq<bool>, kept: seq<Path>, k: nat)
    requires 2 * k <= |coded|
  {
    |kept| == STATES && forall s: State :: IsPath(coded, kept[s], k, s)
  }

  lemma SelectIsAPath(coded: seq<bool>, k: nat, kept: seq<Path>, t: State)
    requires 2 * k + 2 <= |coded| && ArePaths(coded, kept, k)
    ensures IsPath(coded, Select(coded, k, kept, t), k + 1, t)
  {
    ArrivalIsAPath(coded, k, kept, t / 2, t);
    ArrivalIsAPath(coded, k, kept, t / 2 + 8, t);
  }

  lemma {:induction false} SurvivorsArePaths(coded: seq<bool>, k: nat)
    requires 2 * k <= |coded|
    ensures ArePaths(coded, Survivors(coded, k), k)
  {
    if k > 0 {
      SurvivorsArePaths(coded, k - 1);
      forall t: State
        ensures IsPath(coded, Survivors(coded, k)[t], k, t)
      {
        SelectIsAPath(coded, k - 1, Survivors(coded, k - 1), t);
      }
    }
  }

  /** No input sequence reaches its final state more cheaply than the survivor there. */
  lemma {:induction false} SurvivorIsClosest(coded: seq<bool>, u: seq<bool>)
    requires 2 * |u| <= |coded|
    ensures var p := Survivors(coded, |u|)[End(0, u)];
            p.Path? && p.cost <= Cost(coded, u)
    decreases |u|
  {
    if u != [] {
      var v, b := u[..|u| - 1], u[|u| - 1];
      assert u == v + [b];
      SurvivorIsClosest(coded, v);
      EndAppend(0, v, b);
      ClosestStep(coded, |v|, Survivors(coded, |v|), End(0, v), b, Cost(coded, v));
    }
  }

  lemma ClosestStep(coded: seq<bool>, k: nat, kept: seq<Path>, s: State, b: bool, cost: nat)
    requires 2 * k + 2 <= |coded| && |kept| == STATES
    requires kept[s].Path? && kept[s].cost <= cost
    ensures var p := Select(coded, k, kept, Successor(s, b)); p.Path? && p.cost <= cost + Branch(coded, k, s, b)
  {
    var t := Successor(s, b);
    assert (t % 2 == 1) == b;
    assert s == t / 2 || s == t / 2 + 8;
    assert Arrival(coded, k, kept, s, t).Path?;
  }

  /** Viterbi optimality for every length and every received block. */
  lemma DecoderIsOptimal(coded: seq<bool>, n: nat)
    requires 2 * n <= |coded|
    ensures var p := Decoded(coded, n);
            p.Path? && |p.bits| == n && End(0, p.bits) == 0 &&
            p.cost == Hamming(Encode(p.bits), coded[..2 * n]) &&
            (n >= 4 ==> p.bits[n - 4..] == Zeros(4)) &&
            forall u :: |u| == n && End(0, u) == 0 ==> p.cost <= Hamming(Encode(u), coded[..2 * n])
  {
    ZerosEndAtZero(n);
    SurvivorIsClosest(coded, Zeros(n));
    SurvivorsArePaths(coded, n);
    var p := Decoded(coded, n);
    assert IsPath(coded, p, n, 0);
    CostIsDistance(coded, p.bits);
    if n >= 4 {
      ZeroTail(p.bits);
    }
    forall u | |u| == n && End(0, u) == 0
      ensures p.cost <= Hamming(Encode(u), coded[..2 * n])
    {
      CostIsDistance(coded, u);
      SurvivorIsClosest(coded, u);
    }
  }

  // ----- Of several closest words, which one -----

  /** `u` is `v`, or has the zero at the last place in which they differ. */
  ghost predicate LastDifferenceIsZero(u: seq<bool>, v: seq<bool>)
    requires |u| == |v|
  {
    u == v || exists i :: LastDifference(u, v, i)
  }

  ghost predicate LastDifference(u: seq<bool>, v: seq<bool>, i: nat)
    requires |u| == |v|
  {
    i < |u| && !u[i] && v[i] && forall j :: i < j < |u| ==> u[j] == v[j]
  }

  lemma AppendKeepsDifference(u: seq<bool>, v: seq<bool>, b: bool)
    requires |u| == |v| && LastDifferenceIsZero(u, v)
    ensures LastDifferenceIsZero(u + [b], v + [b])
  {
    if u != v {
      var i :| LastDifference(u, v, i);
      assert LastDifference(u + [b], v + [b], i);
    }
  }

  /** Words into the two predecessors of a state differ last in their fourth bit from the end. */
  lemma PredecessorsDiffer(u: seq<bool>, v: seq<bool>)
    requires |u| == |v| && End(0, u) < 8 && End(0, v) == End(0, u) + 8
    ensures LastDifferenceIsZero(u, v)
  {
    var s, n := End(0, u), |u|;
    MemoryHoldsPriors(u);
    MemoryHoldsPriors(v);
    assert U1(s) == U1(s + 8) && U2(s) == U2(s + 8) && U3(s) == U3(s + 8) && !U4(s) && U4(s + 8);
    assert Prior(v, n - 4) && !Prior(u, n - 4);
    assert Prior(u, n - 1) == Prior(v, n - 1) && Prior(u, n - 2) == Prior(v, n - 2);
    assert Prior(u, n - 3) == Prior(v, n - 3);
    assert LastDifference(u, v, n - 4);
  }

  /** Among all inputs reaching a state at the survivor's cost the survivor is the one that has the zero where
      they last differ. */
  lemma {:induction false} SurvivorBreaksTies(coded: seq<bool>, u: seq<bool>)
    requires 2 * |u| <= |coded|
    ensures var p := Survivors(coded, |u|)[End(0, u)];
            p.Path? && |p.bits| == |u| && (p.cost == Cost(coded, u) ==> LastDifferenceIsZero(p.bits, u))
    decreases |u|
  {
    SurvivorIsClosest(coded, u);
    SurvivorsArePaths(coded, |u|);
    var p := Survivors(coded, |u|)[End(0, u)];
    assert IsPath(coded, p, |u|, End(0, u));
    if u != [] && p.cost == Cost(coded, u) {
      var v, b := u[..|u| - 1], u[|u| - 1];
      assert u == v + [b];
      EndAppend(0, v, b);
      SurvivorBreaksTies(coded, v);
      SurvivorIsClosest(coded, v);
      SurvivorsArePaths(coded, |v|);
      TieStep(coded, v, b, Survivors(coded, |v|));
    }
  }

  lemma TieStep(coded: seq<bool>, v: seq<bool>, b: bool, kept: seq<Path>)
    requires 2 * |v| + 2 <= |coded| && ArePaths(coded, kept, |v|)
    requires var s := End(0, v);
             kept[s].Path? && kept[s].cost <= Cost(coded, v) &&
             (kept[s].cost == Cost(coded, v) ==> LastDifferenceIsZero(kept[s].bits, v))
    requires Select(coded, |v|, kept, Successor(End(0, v), b)).cost == Cost(coded, v) + Branch(coded, |v|, End(0, v), b)
    ensures LastDifferenceIsZero(Select(coded, |v|, kept, Successor(End(0, v), b)).bits, v + [b])
  {
    hide End, Cost, Branch, Select, LastDifferenceIsZero;
    var s, k := End(0, v), |v|;
    var t := Successor(s, b);
    SelectBreaksTies(coded, k, kept, s, b);
    assert IsPath(coded, kept[s], k, s) && IsPath(coded, kept[t / 2], k, t / 2);
    if Select(coded, k, kept, t) == Extend(coded, k, kept[s], s, b) {
      AppendKeepsDifference(kept[s].bits, v, b);
    } else {
      PredecessorsDiffer(kept[t / 2].bits, v);
      AppendKeepsDifference(kept[t / 2].bits, v, b);
    }
  }

  /** The selected path comes from `s`, or it is cheaper than `s` allows, or `s` is the later of two equal arrivals. */
  lemma SelectBreaksTies(coded: seq<bool>, k: nat, kept: seq<Path>, s: State, b: bool)
    requires 2 * k + 2 <= |coded| && |kept| == STATES && kept[s].Path?
    ensures var t := Successor(s, b); var p := Select(coded, k, kept, t);
            p.Path? &&
            (p == Extend(coded, k, kept[s], s, b) ||
             p.cost < kept[s].cost + Branch(coded, k, s, b) ||
             (s == t / 2 + 8 && kept[t / 2].Path? && p == Extend(coded, k, kept[t / 2], t / 2, b)))
  {
    hide Branch;
    var t := Successor(s, b);
    assert (t % 2 == 1) == b;
    assert s == t / 2 || s == t / 2 + 8;
  }

  /** The decoder's answer in full: one of the closest words, and of all of them the one that has the zero where they
      last differ. */
  lemma DecoderBreaksTies(coded: seq<bool>, n: nat, u: seq<bool>)
    requires 2 * n <= |coded| && |u| == n && End(0, u) == 0
    ensures var p := Decoded(coded, n);
            p.Path? && |p.bits| == n &&
            (Hamming(Encode(u), coded[..2 * n]) == p.cost ==> LastDifferenceIsZero(p.bits, u))
  {
    SurvivorBreaksTies(coded, u);
    CostIsDistance(coded, u);
  }

  lemma {:induction false} ZerosEndAtZero(n: nat)
    ensures End(0, Zeros(n)) == 0
  {
    if n > 0 {
      assert Zeros(n)[1..] == Zeros(n - 1);
      ZerosEndAtZero(n - 1);
    }
  }

  // ----- The decoder -----

  /** A metric entry and the path it stands for. */
  predicate Measures(m: nat, p: Path, k: nat) {
    if p.NoPath? then m == INFINITY else m == p.cost <= 2 * k
  }

  /** Back pointer and decision recover path `p`, one step longer than the kept paths. */
  predicate Links(kept: seq<Path>, previous: nat, decision: bool, p: Path)
    requires |kept| == STATES
  {
    p.Path? ==> previous < STATES && kept[previous].Path? && p.bits == kept[previous].bits + [decision]
  }

  /** What step `k` holds for `t` once the first `n` (state, input) pairs, 2 * state + input, are relaxed:
      the pairs reaching `t` are number t and number t + 16. */
  function Partial(coded: seq<bool>, k: nat, kept: seq<Path>, t: State, n: nat): Path
    requires 2 * k + 2 <= |coded| && |kept| == STATES
  {
    if n <= t then NoPath
    else if n <= t + 16 then Arrival(coded, k, kept, t / 2, t)
    else Select(coded, k, kept, t)
  }

  /** The three rows of one step after the first `n` pairs. */
  ghost predicate Relaxed(coded: seq<bool>, k: nat, kept: seq<Path>,
                          next: seq<nat>, previous: seq<nat>, decision: seq<bool>, n: nat)
    requires 2 * k + 2 <= |coded| && |kept| == STATES
  {
    && |next| == |previous| == |decision| == STATES
    && forall t: State ::
         var p := Partial(coded, k, kept, t, n);
         Measures(next[t], p, k + 1) && Links(kept, previous[t], decision[t], p)
  }

  /** Relaxing pair 2 * state + input touches one successor, and there compares the new arrival with the old entry. */
  lemma RelaxOnePair(coded: seq<bool>, k: nat, kept: seq<Path>, state: State, input: bool)
    requires 2 * k + 2 <= |coded| && |kept| == STATES
    ensures var n, t := 2 * state + Count(input), Successor(state, input);
            (t % 2 == 1) == input &&
            Partial(coded, k, kept, t, n + 1) ==
            Better(Partial(coded, k, kept, t, n), Extend(coded, k, kept[state], state, input)) &&
            forall x: State :: x != t ==> Partial(coded, k, kept, x, n + 1) == Partial(coded, k, kept, x, n)
  {
  }

  lemma UnreachedStateAddsNothing(coded: seq<bool>, k: nat, kept: seq<Path>, state: State,
                                  next: seq<nat>, previous: seq<nat>, decision: seq<bool>)
    requires 2 * k + 2 <= |coded| && |kept| == STATES
    requires kept[state].NoPath?
    requires Relaxed(coded, k, kept, next, previous, decision, 2 * state)
    ensures Relaxed(coded, k, kept, next, previous, decision, 2 * state + 2)
  {
    RelaxOnePair(coded, k, kept, state, false);
    RelaxOnePair(coded, k, kept, state, true);
    assert forall t: State :: Partial(coded, k, kept, t, 2 * state + 2) == Partial(coded, k, kept, t, 2 * state);
  }

  /** The comparison of the inner loop: the entry of one successor is overwritten exactly when strictly beaten. */
  lemma CompareAndSelect(coded: seq<bool>, k: nat, kept: seq<Path>, state: State, input: bool, metric: nat,
                         next: seq<nat>, previous: seq<nat>, decision: seq<bool>)
    requires 2 * k + 2 <= |coded| == CODED_BITS && |kept| == STATES
    requires kept[state].Path? && Measures(metric, kept[state], k)
    requires Relaxed(coded, k, kept, next, previous, decision, 2 * state + Count(input))
    ensures var t := Successor(state, input);
            var sum: nat := metric + Branch(coded, k, state, input);
            if sum < next[t]
            then Relaxed(coded, k, kept, next[t := sum], previous[t := state], decision[t := input],
                         2 * state + Count(input) + 1)
            else Relaxed(coded, k, kept, next, previous, decision, 2 * state + Count(input) + 1)
  {
    RelaxOnePair(coded, k, kept, state, input);
    var t := Successor(state, input);
    var p := Partial(coded, k, kept, t, 2 * state + Count(input));
    assert Measures(next[t], p, k + 1) && Links(kept, previous[t], decision[t], p);
  }

  /** One trellis step: the loops over states and inputs. */
  method AddCompareSelect(coded: seq<bool>, k: nat, ghost kept: seq<Path>, metric: array<nat>)
    returns (next: array<nat>, previous: array<nat>, decision: array<bool>)
    requires |coded| == CODED_BITS && 2 * k + 2 <= CODED_BITS
    requires MetricsMatch(metric[..], kept, k)
    ensures fresh(next) && fresh(previous) && fresh(decision)
    ensures Relaxed(coded, k, kept, next[..], previous[..], decision[..], 32)
  {
    hide Relaxed, Partial, Links;
    next := new nat[STATES](_ => INFINITY);
    previous := new nat[STATES](_ => 0);
    decision := new bool[STATES](_ => false);
    InitialRows(coded, k, kept, next[..], previous[..], decision[..]);
    for state := 0 to STATES
      invariant Relaxed(coded, k, kept, next[..], previous[..], decision[..], 2 * state)
    {
      assert Measures(metric[..][state], kept[state], k);
      if metric[state] == INFINITY {
        UnreachedStateAddsNothing(coded, k, kept, state, next[..], previous[..], decision[..]);
        continue;
      }
      for input := 0 to 2
        invariant Relaxed(coded, k, kept, next[..], previous[..], decision[..], 2 * state + input)
      {
        var bit := input == 1;
        var successor := Successor(state, bit);
        var sum: nat := metric[state] + Branch(coded, k, state, bit);
        ghost var n0: seq<nat>, p0: seq<nat>, d0 := next[..], previous[..], decision[..];
        CompareAndSelect(coded, k, kept, state, bit, metric[state], n0, p0, d0);
        if sum < next[successor] {
          next[successor] := sum;
          previous[successor] := state;
          decision[successor] := bit;
          assert next[..] == n0[successor := sum];
          assert previous[..] == p0[successor := state];
          assert decision[..] == d0[successor := bit];
        }
      }
    }
  }

  ghost predicate Linked(kept: seq<Path>, previous: seq<nat>, decision: seq<bool>, after: seq<Path>)
  {
    && |kept| == |after| == |previous| == |decision| == STATES
    && forall t: State :: Links(kept, previous[t], decision[t], after[t])
  }

  ghost predicate MetricsMatch(metric: seq<nat>, kept: seq<Path>, k: nat) {
    && |metric| == |kept| == STATES
    && forall s: State :: Measures(metric[s], kept[s], k)
  }

  lemma InitialRows(coded: seq<bool>, k: nat, kept: seq<Path>, next: seq<nat>, previous: seq<nat>, decision: seq<bool>)
    requires 2 * k + 2 <= |coded| && |kept| == STATES
    requires |next| == |previous| == |decision| == STATES
    requires forall t: State :: next[t] == INFINITY
    ensures Relaxed(coded, k, kept, next, previous, decision, 0)
  {
  }

  lemma StepCompletes(coded: seq<bool>, k: nat, next: seq<nat>, previous: seq<nat>, decision: seq<bool>)
    requires 2 * k + 2 <= |coded|
    requires Relaxed(coded, k, Survivors(coded, k), next, previous, decision, 32)
    ensures Linked(Survivors(coded, k), previous, decision, Survivors(coded, k + 1))
    ensures MetricsMatch(next, Survivors(coded, k + 1), k + 1)
  {
    var kept, after := Survivors(coded, k), Survivors(coded, k + 1);
    forall t: State
      ensures Links(kept, previous[t], decision[t], after[t]) && Measures(next[t], after[t], k + 1)
    {
      assert Partial(coded, k, kept, t, 32) == after[t];
    }
  }

  lemma DecoderAlwaysReturns(coded: seq<bool>, n: nat)
    requires 2 * n <= |coded|
    ensures Decoded(coded, n).Path?
  {
    DecoderIsOptimal(coded, n);
  }

  /** Everything the forward loop keeps: the metrics and back pointers of the survivors so far. */
  ghost predicate Forward(coded: seq<bool>, k: nat, kept: seq<seq<Path>>, metric: seq<nat>,
                          previous: seq<seq<nat>>, decision: seq<seq<bool>>)
    requires 2 * k <= |coded|
  {
    && |kept| == k + 1 && k <= |previous| == |decision|
    && kept[0] == Survivors(coded, 0) && kept[k] == Survivors(coded, k)
    && MetricsMatch(metric, kept[k], k)
    && forall j :: 0 <= j < k ==> Linked(kept[j], previous[j], decision[j], kept[j + 1])
  }

  lemma ForwardStep(coded: seq<bool>, k: nat, kept: seq<seq<Path>>, metric: seq<nat>,
                    previous: seq<seq<nat>>, decision: seq<seq<bool>>,
                    next: seq<nat>, back: seq<nat>, inputs: seq<bool>)
    requires 2 * k + 2 <= |coded| && k < |previous|
    requires Forward(coded, k, kept, metric, previous, decision)
    requires Relaxed(coded, k, kept[k], next, back, inputs, 32)
    ensures Forward(coded, k + 1, kept + [Survivors(coded, k + 1)], next, previous[k := back], decision[k := inputs])
  {
    StepCompletes(coded, k, next, back, inputs);
  }

  lemma StartMatches(coded: seq<bool>, metric: seq<nat>)
    requires |metric| == STATES
    requires metric[0] == 0 && forall s :: 0 < s < STATES ==> metric[s] == INFINITY
    ensures MetricsMatch(metric, Survivors(coded, 0), 0)
    ensures forall s: State :: Survivors(coded, 0)[s].Path? ==> Survivors(coded, 0)[s].bits == []
  {
  }

  lemma DecodedMetric(coded: seq<bool>, n: nat, metric: seq<nat>)
    requires 2 * n <= |coded| && MetricsMatch(metric, Survivors(coded, n), n)
    requires Decoded(coded, n).Path?
    ensures Decoded(coded, n).cost == metric[0]
  {
    assert Measures(metric[0], Survivors(coded, n)[0], n);
  }

  method ConvolutionalDecode(coded: seq<bool>, n: nat) returns (bits: seq<bool>, distance: nat)
    requires |coded| == CODED_BITS && 2 * n <= CODED_BITS
    ensures Decoded(coded, n) == Path(distance, bits)
  {
    hide Survivors, Links, Measures;
    var metric := new nat[STATES](_ => INFINITY);
    metric[0] := 0;
    var previous := new seq<nat>[n](_ => []);
    var decision := new seq<bool>[n](_ => []);
    ghost var kept := [Survivors(coded, 0)];
    StartMatches(coded, metric[..]);
    for k := 0 to n
      invariant Forward(coded, k, kept, metric[..], previous[..], decision[..])
    {
      var next, back, inputs := AddCompareSelect(coded, k, kept[k], metric);
      ForwardStep(coded, k, kept, metric[..], previous[..], decision[..], next[..], back[..], inputs[..]);
      ghost var before, chosen := previous[..], decision[..];
      previous[k], decision[k] := back[..], inputs[..];
      assert previous[..] == before[k := back[..]] && decision[..] == chosen[k := inputs[..]];
      metric := next;
      kept := kept + [Survivors(coded, k + 1)];
    }
    DecoderAlwaysReturns(coded, n);
    assert MetricsMatch(metric[..], kept[n], n);
    DecodedMetric(coded, n, metric[..]);
    distance := metric[0];
    bits := TraceBack(n, kept, previous[..], decision[..]);
  }

  /** The traceback loop, from the all-zero final state. */
  method TraceBack(n: nat, ghost kept: seq<seq<Path>>, previous: seq<seq<nat>>, decision: seq<seq<bool>>)
    returns (bits: seq<bool>)
    requires |kept| == n + 1 && |previous| == |decision| == n
    requires forall j :: 0 <= j < n ==> Linked(kept[j], previous[j], decision[j], kept[j + 1])
    requires |kept[0]| == |kept[n]| == STATES && kept[n][0].Path?
    requires forall s: State :: kept[0][s].Path? ==> kept[0][s].bits == []
    ensures bits == kept[n][0].bits
  {
    var result := new bool[n];
    var state: nat := 0;
    for k := n downto 0
      invariant state < STATES == |kept[k]| && kept[k][state].Path?
      invariant kept[n][0].bits == kept[k][state].bits + result[k..]
    {
      assert Linked(kept[k], previous[k], decision[k], kept[k + 1]);
      assert Links(kept[k], previous[k][state], decision[k][state], kept[k + 1][state]);
      ghost var later := result[k + 1..];
      result[k] := decision[k][state];
      assert result[k..] == [result[k]] + later;
      state := previous[k][state];
    }
    assert result[0..] == result[..];
    bits := result[..];
  }
}
