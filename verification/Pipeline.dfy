/** A diagonal transmitter feeding a diagonal receiver over a channel that may flip payload bits,
    under every interleaving of calls. */
module Pipeline {
  import opened Bits
  import opened Interleaver
  import opened DiagonalStream
  import opened Integers
  import opened Noise
  import FireCode
  import C = ControlCodec
  import S = SpeechCodec

  datatype Event = Submit(block: TrafficBlock) | Substitute(coded: seq<bool>) | Burst(noise: seq<bool>) {
    predicate Valid() {
      match this
      case Submit(block) => block.Valid()
      case Substitute(coded) => |coded| == CODED_BITS
      case Burst(noise) => |noise| == PAYLOAD_BITS
    }
  }

  /** What one four-burst period carries. */
  datatype Load = Idle | Carrying(block: TrafficBlock) {
    predicate Valid() {
      Carrying? ==> block.Valid()
    }

    function Coded(): seq<bool> {
      if Idle? then Zeros(CODED_BITS) else block.coded
    }

    function Kind(): Kind {
      if Idle? then Speech else block.kind
    }

    function Bursts(): (r: seq<BurstPayload>)
      requires Valid()
      ensures ValidBursts(r, 8)
    {
      if Idle? then EMPTY_BURSTS else BlockBursts(block)
    }
  }

  /** Both halves, the loads of the periods begun so far, the bits flipped in each burst, and the answer to it. */
  datatype World = World(tx: TxState, rx: RxState, loads: seq<Load>, noise: seq<seq<bool>>,
                         answers: seq<Option<Reception>>) {
    ghost predicate Valid() {
      && tx.Valid() && rx.Valid() && (forall i :: 0 <= i < |loads| ==> loads[i].Valid())
      && ValidNoise(noise, |answers|)
    }
  }

  function NextLoad(q: seq<TrafficBlock>): Load {
    if q == [] then Idle else Carrying(q[0])
  }

  ghost function StepWorld(w: World, e: Event): (r: World)
    requires w.Valid() && e.Valid()
    ensures r.Valid()
  {
    match e
    case Submit(block) => World(w.tx.(queue := Enqueued(w.tx.queue, block)), w.rx, w.loads, w.noise, w.answers)
    case Substitute(coded) =>
      SubstitutedIsValid(w.tx.queue, coded);
      World(w.tx.(queue := Substituted(w.tx.queue, coded)), w.rx, w.loads, w.noise, w.answers)
    case Burst(noise) =>
      var sent := Transmit(w.tx);
      var heard := Receive(w.rx, Noisy(sent.1, noise));
      World(sent.0, heard.0,
            if w.tx.phase == 0 then w.loads + [NextLoad(w.tx.queue)] else w.loads,
            w.noise + [noise], w.answers + [heard.1])
  }

  lemma {:induction false} StealKeepsValid(q: seq<TrafficBlock>, coded: seq<bool>)
    requires |coded| == CODED_BITS && forall i :: 0 <= i < |q| ==> q[i].Valid()
    ensures forall i :: 0 <= i < |q| ==> Steal(q, coded)[i].Valid()
  {
    if q != [] {
      StealKeepsValid(q[1..], coded);
    }
  }

  lemma SubstitutedIsValid(q: seq<TrafficBlock>, coded: seq<bool>)
    requires |coded| == CODED_BITS && ValidQueue(q)
    ensures ValidQueue(Substituted(q, coded))
  {
    StealKeepsValid(q, coded);
  }

  ghost predicate ValidEvents(es: seq<Event>) {
    forall i :: 0 <= i < |es| ==> es[i].Valid()
  }

  ghost function Run(es: seq<Event>): (w: World)
    requires ValidEvents(es)
    ensures w.Valid()
  {
    if es == [] then World(TX_RESET, RX_RESET, [], [], [])
    else StepWorld(Run(es[..|es| - 1]), es[|es| - 1])
  }

  function Submissions(blocks: seq<TrafficBlock>): (es: seq<Event>)
    ensures |es| == |blocks|
  {
    seq(|blocks|, i requires 0 <= i < |blocks| => Submit(blocks[i]))
  }

  /** Between two bursts the queue takes eight blocks and refuses the others. */
  lemma {:induction false} QueueTakesEight(blocks: seq<TrafficBlock>)
    requires forall i :: 0 <= i < |blocks| ==> blocks[i].Valid()
    ensures ValidEvents(Submissions(blocks))
    ensures Run(Submissions(blocks)).tx.queue == if |blocks| <= 8 then blocks else blocks[..8]
  {
    var es, n := Submissions(blocks), |blocks| - 1;
    if blocks != [] {
      assert es[..n] == Submissions(blocks[..n]);
      QueueTakesEight(blocks[..n]);
      assert es[n] == Submit(blocks[n]);
      if n < 8 {
        assert blocks == blocks[..n] + [blocks[n]];
      } else {
        assert blocks[..n][..8] == blocks[..8];
      }
    }
  }

  // ----- What is on the air -----

  /** The bursts of the load of period `i`; nothing precedes the first period. */
  function PeriodBursts(loads: seq<Load>, i: int): (r: seq<BurstPayload>)
    requires -1 <= i < |loads| && forall k :: 0 <= k < |loads| ==> loads[k].Valid()
    ensures ValidBursts(r, 8)
  {
    if i < 0 then EMPTY_BURSTS else loads[i].Bursts()
  }

  /** Burst `p` of period `i`. */
  function Sent(loads: seq<Load>, i: int, p: nat): (r: BurstPayload)
    requires 0 <= i < |loads| && p < 4 && forall k :: 0 <= k < |loads| ==> loads[k].Valid()
    ensures r.Valid()
  {
    Combine(PeriodBursts(loads, i - 1), PeriodBursts(loads, i), p)
  }

  /** Loads and flips that belong together: a period begins before its four bursts are sent. */
  ghost predicate OnAir(loads: seq<Load>, noise: seq<seq<bool>>) {
    && (forall k :: 0 <= k < |loads| ==> loads[k].Valid())
    && ValidNoise(noise, |noise|) && |noise| <= 4 * |loads|
  }

  /** Burst `n` as heard. */
  ghost function Arrived(loads: seq<Load>, noise: seq<seq<bool>>, n: nat): (r: BurstPayload)
    requires OnAir(loads, noise) && n < |noise|
    ensures r.Valid()
  {
    Noisy(Sent(loads, n / 4, n % 4), noise[n])
  }

  /** The eight bursts over which the load of period `i` is spread. */
  function Spread(loads: seq<Load>, i: int): (r: seq<BurstPayload>)
    requires 0 <= i && i + 1 < |loads| && forall k :: 0 <= k < |loads| ==> loads[k].Valid()
    ensures ValidBursts(r, 8)
  {
    [Sent(loads, i, 0), Sent(loads, i, 1), Sent(loads, i, 2), Sent(loads, i, 3),
     Sent(loads, i + 1, 0), Sent(loads, i + 1, 1), Sent(loads, i + 1, 2), Sent(loads, i + 1, 3)]
  }

  lemma IdleBurstsAreDiagonal()
    ensures EMPTY_BURSTS == Diagonal(Zeros(CODED_BITS))
  {
    forall b | 0 <= b < 8
      ensures EMPTY_BURSTS[b] == Diagonal(Zeros(CODED_BITS))[b]
    {
      assert Zeros(PAYLOAD_BITS) == DiagonalBurst(Zeros(CODED_BITS), b).data;
      assert EMPTY_BURSTS[b] == EMPTY;
    }
  }

  /** Every load fills the positions of its own parity with its coded bits, leaves the others clear,
      and raises its flags exactly when it is signalling. */
  lemma LoadBursts(load: Load, b: nat)
    requires load.Valid() && b < 8
    ensures var r := load.Bursts()[b];
            (forall j :: 0 <= j < PAYLOAD_BITS ==> r.data[j] == (j % 2 == b / 4 && load.Coded()[Origin(b, j / 2)])) &&
            (b < 4 ==> r.hu == load.Kind().Facch?) &&
            (b >= 4 ==> r.hl == load.Kind().Facch?)
  {
    hide Origin;
    if load.Idle? {
      IdleBurstsAreDiagonal();
    }
  }

  /** Over its eight bursts a load is heard bit for bit, whatever the neighbouring periods carry. */
  lemma SpreadCarriesTheBlock(loads: seq<Load>, i: nat)
    requires i + 1 < |loads| && forall k :: 0 <= k < |loads| ==> loads[k].Valid()
    ensures Undiagonal(Spread(loads, i)) == loads[i].Coded()
    ensures IndicatesFacch(Spread(loads, i)) == loads[i].Kind().Facch?
  {
    hide Sent, Position, IndicatesFacch;
    forall k | 0 <= k < CODED_BITS
      ensures Undiagonal(Spread(loads, i))[k] == loads[i].Coded()[k]
    {
      BitIsHeard(loads, i, k);
    }
    FlagsAreHeard(loads, i);
  }

  lemma SpreadBit(loads: seq<Load>, i: nat, b: nat, j: nat)
    requires i + 1 < |loads| && (forall l :: 0 <= l < |loads| ==> loads[l].Valid()) && b < 8 && j < PAYLOAD_BITS
    ensures Spread(loads, i)[b].data[j] ==
            if b < 4 then PeriodBursts(loads, i - 1)[4 + b].data[j] || PeriodBursts(loads, i)[b].data[j]
            else PeriodBursts(loads, i)[b].data[j] || PeriodBursts(loads, i + 1)[b - 4].data[j]
  {
    hide PeriodBursts;
  }

  lemma BitIsHeard(loads: seq<Load>, i: nat, k: nat)
    requires i + 1 < |loads| && forall l :: 0 <= l < |loads| ==> loads[l].Valid()
    requires k < CODED_BITS
    ensures Spread(loads, i)[k % 8].data[Position(k)] == loads[i].Coded()[k]
  {
    hide Origin, Column, Position, Load.Bursts, Spread;
    var b, j := k % 8, Position(k);
    SpreadBit(loads, i, b, j);
    OriginOfPosition(k);
    PositionSplits(k);
    LoadBursts(loads[i], b);
    if b < 4 {
      if i > 0 {
        LoadBursts(loads[i - 1], 4 + b);
      } else {
        assert !EMPTY_BURSTS[4 + b].data[j];
      }
    } else {
      LoadBursts(loads[i + 1], b - 4);
    }
  }

  /** The flag of burst `b` that belongs to the block spread over eight bursts: the upper one in the first four. */
  function OwnFlag(burst: BurstPayload, b: nat): bool {
    if b < 4 then burst.hu else burst.hl
  }

  lemma FlagIsHeard(loads: seq<Load>, i: nat, b: nat)
    requires i + 1 < |loads| && (forall k :: 0 <= k < |loads| ==> loads[k].Valid()) && b < 8
    ensures OwnFlag(Spread(loads, i)[b], b) == loads[i].Kind().Facch?
  {
    hide Load.Bursts;
    LoadBursts(loads[i], b);
  }

  lemma FlagsAreHeard(loads: seq<Load>, i: nat)
    requires i + 1 < |loads| && forall k :: 0 <= k < |loads| ==> loads[k].Valid()
    ensures IndicatesFacch(Spread(loads, i)) == loads[i].Kind().Facch?
  {
    hide Spread;
    forall b | 0 <= b < 8
      ensures OwnFlag(Spread(loads, i)[b], b) == loads[i].Kind().Facch?
    {
      FlagIsHeard(loads, i, b);
    }
    assert OwnFlag(Spread(loads, i)[0], 0) == loads[i].Kind().Facch?;
  }

  /** The bursts with some of the block's own eight flags inverted. */
  function FlagsInverted(bursts: seq<BurstPayload>, errors: seq<bool>): (r: seq<BurstPayload>)
    requires ValidBursts(bursts, 8) && |errors| == 8
    ensures ValidBursts(r, 8)
  {
    seq(8, b requires 0 <= b < 8 =>
      BurstPayload(bursts[b].data, bursts[b].hl != (b >= 4 && errors[b]), bursts[b].hu != (b < 4 && errors[b])))
  }

  /** One lost flag turns signalling into speech, and only eight false ones turn speech into signalling; the coded
      bits are heard all the same. */
  lemma FlagErrors(loads: seq<Load>, i: nat, errors: seq<bool>)
    requires i + 1 < |loads| && (forall k :: 0 <= k < |loads| ==> loads[k].Valid()) && |errors| == 8
    ensures Undiagonal(FlagsInverted(Spread(loads, i), errors)) == loads[i].Coded()
    ensures IndicatesFacch(FlagsInverted(Spread(loads, i), errors)) <==>
            errors == if loads[i].Kind().Facch? then Zeros(8) else Ones(8)
  {
    hide Spread, Position;
    var bursts, heard := Spread(loads, i), FlagsInverted(Spread(loads, i), errors);
    SpreadCarriesTheBlock(loads, i);
    assert Undiagonal(heard) == Undiagonal(bursts);
    forall b | 0 <= b < 8
      ensures OwnFlag(heard[b], b) == (loads[i].Kind().Facch? != errors[b])
    {
      FlagIsHeard(loads, i, b);
    }
    FlagsTogether(heard, errors, loads[i].Kind().Facch?);
  }

  lemma FlagsTogether(heard: seq<BurstPayload>, errors: seq<bool>, facch: bool)
    requires ValidBursts(heard, 8) && |errors| == 8
    requires forall b :: 0 <= b < 8 ==> OwnFlag(heard[b], b) == (facch != errors[b])
    ensures IndicatesFacch(heard) <==> errors == if facch then Zeros(8) else Ones(8)
  {
    if IndicatesFacch(heard) {
      forall b | 0 <= b < 8
        ensures errors[b] == !facch
      {
        assert OwnFlag(heard[b], b);
      }
    }
  }

  /** The flips in the eight bursts of period `i`. */
  ghost function FlipsAround(noise: seq<seq<bool>>, i: nat): (r: seq<seq<bool>>)
    requires 4 * i + 8 <= |noise| && ValidNoise(noise, |noise|)
    ensures ValidNoise(r, 8)
  {
    noise[4 * i..4 * i + 8]
  }

  /** The eight bursts of period `i` as heard. */
  ghost function HeardBursts(loads: seq<Load>, noise: seq<seq<bool>>, i: nat): (r: seq<BurstPayload>)
    requires OnAir(loads, noise) && 4 * i + 8 <= |noise|
    ensures ValidBursts(r, 8)
  {
    NoisyBursts(Spread(loads, i), FlipsAround(noise, i))
  }

  lemma HeardBurst(loads: seq<Load>, noise: seq<seq<bool>>, i: nat, b: nat)
    requires OnAir(loads, noise) && 4 * i + 8 <= |noise| && b < 8
    ensures HeardBursts(loads, noise, i)[b] == Arrived(loads, noise, 4 * i + b)
  {
    hide Noisy, Sent;
    assert (4 * i + b) / 4 == i + b / 4 && (4 * i + b) % 4 == b % 4;
    assert Spread(loads, i)[b] == Sent(loads, i + b / 4, b % 4);
  }

  lemma NoiseKeepsFlags(bursts: seq<BurstPayload>, noise: seq<seq<bool>>)
    requires ValidBursts(bursts, 8) && ValidNoise(noise, 8)
    ensures IndicatesFacch(NoisyBursts(bursts, noise)) == IndicatesFacch(bursts)
  {
    var heard := NoisyBursts(bursts, noise);
    assert forall b :: 0 <= b < 8 ==> heard[b].hu == bursts[b].hu && heard[b].hl == bursts[b].hl;
  }

  /** Over its eight bursts a load is heard with just the flips that fall on its own bits, and with its own kind. */
  lemma BlockIsHeard(loads: seq<Load>, noise: seq<seq<bool>>, i: nat)
    requires OnAir(loads, noise) && 4 * i + 8 <= |noise|
    ensures var heard := HeardBursts(loads, noise, i);
            Undiagonal(heard) == Xor(loads[i].Coded(), DiagonalNoise(FlipsAround(noise, i))) &&
            IndicatesFacch(heard) == loads[i].Kind().Facch?
  {
    hide Undiagonal, DiagonalNoise, Spread, NoisyBursts, IndicatesFacch, FlipsAround;
    SpreadCarriesTheBlock(loads, i);
    DiagonalHearsNoise(Spread(loads, i), FlipsAround(noise, i));
    NoiseKeepsFlags(Spread(loads, i), FlipsAround(noise, i));
  }

  // ----- The invariant of every run -----

  /** What the receiver should answer once the load has been heard completely, with the flips `e` on its bits. */
  ghost function Heard(load: Load, e: seq<bool>): Reception
    requires load.Valid() && |e| == CODED_BITS
  {
    if load.Kind().Facch? then Reception(Facch, NO_SPEECH, C.DecodeControl(Xor(load.Coded(), e)))
    else Reception(Speech, S.DecodeSpeech(Xor(load.Coded(), e)), NO_CONTROL)
  }

  /** Silence through the first period; from then on one answer at the end of each period, about the one before. */
  ghost function Expected(loads: seq<Load>, noise: seq<seq<bool>>, n: nat): Option<Reception>
    requires OnAir(loads, noise) && n < |noise|
  {
    if n % 4 == 3 && n >= 7 then Some(Heard(loads[n / 4 - 1], DiagonalNoise(FlipsAround(noise, n / 4 - 1)))) else None
  }

  ghost predicate InStep(w: World)
    requires w.Valid()
  {
    var n := |w.answers|;
    && w.tx.phase == n % 4 && w.rx.phase == n % 4 && |w.loads| == (n + 3) / 4
    && w.tx.current == PeriodBursts(w.loads, |w.loads| - 1)
    && (|w.loads| > 0 ==> w.tx.previous == PeriodBursts(w.loads, |w.loads| - 2))
  }

  /** The receiver holds the bursts of the period before `start`, and those from it on so far, twice. */
  ghost predicate Holds(rx: RxState, loads: seq<Load>, noise: seq<seq<bool>>, start: nat)
    requires rx.Valid() && OnAir(loads, noise) && start <= |noise| < start + 4
  {
    && (forall m: nat :: start <= m < |noise| ==> rx.incoming[m - start] == Arrived(loads, noise, m))
    && (forall m: nat :: start - 4 <= m < |noise| ==> rx.pending[m - start + 4] == Arrived(loads, noise, m))
  }

  ghost predicate Collected(rx: RxState, loads: seq<Load>, noise: seq<seq<bool>>)
    requires rx.Valid() && OnAir(loads, noise)
  {
    rx.pendingValid == (|noise| >= 4) && Holds(rx, loads, noise, |noise| - |noise| % 4)
  }

  ghost predicate Answered(loads: seq<Load>, noise: seq<seq<bool>>, answers: seq<Option<Reception>>)
    requires OnAir(loads, noise) && |answers| == |noise|
  {
    forall n :: 0 <= n < |answers| ==> answers[n] == Expected(loads, noise, n)
  }

  ghost predicate Good(w: World) {
    && w.Valid() && InStep(w)
    && Collected(w.rx, w.loads, w.noise) && Answered(w.loads, w.noise, w.answers)
  }

  lemma ReceiverSteps(rx: RxState, burst: BurstPayload)
    requires rx.Valid() && burst.Valid()
    ensures Receive(rx, burst).0.phase == (rx.phase + 1) % 4
  {
    hide Judge;
  }

  lemma BurstKeepsInStep(w: World, noise: seq<bool>)
    requires w.Valid() && InStep(w) && |noise| == PAYLOAD_BITS
    ensures var r := StepWorld(w, Burst(noise));
            InStep(r) && w.loads <= r.loads && |w.answers| / 4 < |r.loads| &&
            Transmit(w.tx).1 == Sent(r.loads, |w.answers| / 4, |w.answers| % 4)
  {
    hide Combine, BlockBursts, Receive;
    ReceiverSteps(w.rx, Noisy(Transmit(w.tx).1, noise));
    var r := StepWorld(w, Burst(noise));
    var i := |w.answers| / 4;
    assert |r.loads| == i + 1;
    if w.tx.phase == 0 {
      assert PeriodBursts(r.loads, i - 1) == PeriodBursts(w.loads, i - 1);
    }
    assert r.tx.current == PeriodBursts(r.loads, i);
    assert r.tx.previous == PeriodBursts(r.loads, i - 1);
  }

  /** What has arrived does not change with what comes after. */
  lemma ArrivedIsStable(loads: seq<Load>, more: seq<Load>, noise: seq<seq<bool>>, later: seq<seq<bool>>, n: nat)
    requires OnAir(loads, noise) && OnAir(more, later) && loads <= more && noise <= later && n < |noise|
    ensures Arrived(loads, noise, n) == Arrived(more, later, n)
    ensures Expected(loads, noise, n) == Expected(more, later, n)
  {
    if n >= 7 && n % 4 == 3 {
      assert FlipsAround(noise, n / 4 - 1) == FlipsAround(later, n / 4 - 1);
    }
  }

  lemma ArrivedIsStableBefore(loads: seq<Load>, more: seq<Load>, noise: seq<seq<bool>>, later: seq<seq<bool>>)
    requires OnAir(loads, noise) && OnAir(more, later) && loads <= more && noise <= later
    ensures forall m: nat :: m < |noise| ==> Arrived(loads, noise, m) == Arrived(more, later, m)
  {
    hide Arrived, Expected;
    forall m: nat | m < |noise|
      ensures Arrived(loads, noise, m) == Arrived(more, later, m)
    {
      ArrivedIsStable(loads, more, noise, later, m);
    }
  }

  /** Storing a burst in both windows keeps what they hold; the fourth turns the period over. */
  lemma ReceiverHolds(rx: RxState, loads: seq<Load>, noise: seq<seq<bool>>, more: seq<Load>, later: seq<seq<bool>>,
                      start: nat)
    requires rx.Valid() && OnAir(loads, noise) && OnAir(more, later) && loads <= more && noise <= later
    requires |later| == |noise| + 1 && rx.phase == |noise| - start && start <= |noise| && Holds(rx, loads, noise, start)
    ensures Holds(Receive(rx, Arrived(more, later, |noise|)).0, more, later, if rx.phase == 3 then start + 4 else start)
  {
    hide Judge, Arrived;
    ArrivedIsStableBefore(loads, more, noise, later);
    var burst := Arrived(more, later, |noise|);
    var r, next := Receive(rx, burst).0, if rx.phase == 3 then start + 4 else start;
    forall m: nat | next <= m < |later|
      ensures r.incoming[m - next] == Arrived(more, later, m)
    {
      assert m < |noise| ==> Arrived(loads, noise, m) == Arrived(more, later, m);
      assert m < |noise| ==> rx.incoming[m - start] == Arrived(loads, noise, m);
    }
    forall m: nat | next - 4 <= m < |later|
      ensures r.pending[m - next + 4] == Arrived(more, later, m)
    {
      assert m < |noise| ==> Arrived(loads, noise, m) == Arrived(more, later, m);
      assert m < |noise| && rx.phase == 3 ==> rx.incoming[m - start] == Arrived(loads, noise, m);
      assert m < |noise| && rx.phase < 3 ==> rx.pending[m - start + 4] == Arrived(loads, noise, m);
    }
  }

  lemma NextOfPeriod(n: nat)
    ensures var m := n + 1;
            if n % 4 == 3 then m - m % 4 == n - n % 4 + 4 && n >= 3 else m - m % 4 == n - n % 4 && n != 3
  {
  }

  lemma ReceiverCollects(rx: RxState, loads: seq<Load>, noise: seq<seq<bool>>, more: seq<Load>, later: seq<seq<bool>>)
    requires rx.Valid() && OnAir(loads, noise) && OnAir(more, later) && loads <= more && noise <= later
    requires |later| == |noise| + 1 && rx.phase == |noise| % 4 && Collected(rx, loads, noise)
    ensures Collected(Receive(rx, Arrived(more, later, |noise|)).0, more, later)
  {
    hide Judge, Arrived, Holds;
    NextOfPeriod(|noise|);
    ReceiverHolds(rx, loads, noise, more, later, |noise| - |noise| % 4);
  }

  /** A burst arrives as the invariant says, with what its period carries and its own flips. */
  lemma BurstArrives(w: World, noise: seq<bool>)
    requires w.Valid() && InStep(w) && |noise| == PAYLOAD_BITS
    ensures var r := StepWorld(w, Burst(noise));
            InStep(r) && w.loads <= r.loads && w.noise <= r.noise && |r.noise| == |w.noise| + 1 &&
            Noisy(Transmit(w.tx).1, noise) == Arrived(r.loads, r.noise, |w.noise|) &&
            r.rx == Receive(w.rx, Arrived(r.loads, r.noise, |w.noise|)).0
  {
    hide Receive, Transmit, Sent, Noisy;
    BurstKeepsInStep(w, noise);
  }

  lemma BurstKeepsCollected(w: World, noise: seq<bool>)
    requires Good(w) && |noise| == PAYLOAD_BITS
    ensures var r := StepWorld(w, Burst(noise)); InStep(r) && Collected(r.rx, r.loads, r.noise)
  {
    hide StepWorld, Arrived, Receive, Collected, Answered;
    var r := StepWorld(w, Burst(noise));
    BurstArrives(w, noise);
    ReceiverCollects(w.rx, w.loads, w.noise, r.loads, r.noise);
  }

  lemma BurstKeepsAnswered(w: World, noise: seq<bool>)
    requires Good(w) && |noise| == PAYLOAD_BITS
    ensures var r := StepWorld(w, Burst(noise)); InStep(r) && Answered(r.loads, r.noise, r.answers)
  {
    hide Combine, Transmit, Noisy, Arrived, Judge, Expected, Collected, Receive;
    BurstKeepsInStep(w, noise);
    var r := StepWorld(w, Burst(noise));
    var n := |w.answers|;
    forall m | 0 <= m < n
      ensures r.answers[m] == Expected(r.loads, r.noise, m)
    {
      ArrivedIsStable(w.loads, r.loads, w.noise, r.noise, m);
    }
    LastAnswer(w, noise);
  }

  /** The verdict on eight noisy bursts is the one expected of their load. */
  lemma JudgeIsHeard(loads: seq<Load>, noise: seq<seq<bool>>, i: nat)
    requires OnAir(loads, noise) && 4 * i + 8 <= |noise|
    ensures Judge(HeardBursts(loads, noise, i)) == Heard(loads[i], DiagonalNoise(FlipsAround(noise, i)))
  {
    hide HeardBursts, Undiagonal, DiagonalNoise, FlipsAround, IndicatesFacch, C.DecodeControl, S.DecodeSpeech;
    BlockIsHeard(loads, noise, i);
  }

  lemma AnswerOfBurst(w: World, noise: seq<bool>)
    requires w.Valid() && |noise| == PAYLOAD_BITS
    ensures var r := StepWorld(w, Burst(noise));
            |r.answers| == |r.noise| == |w.answers| + 1 &&
            r.answers[|w.answers|] == Receive(w.rx, Noisy(Transmit(w.tx).1, noise)).1
  {
    hide Receive, Noisy, Transmit;
  }

  /** The answer to one more burst. */
  lemma LastAnswer(w: World, noise: seq<bool>)
    requires Good(w) && |noise| == PAYLOAD_BITS && InStep(StepWorld(w, Burst(noise)))
    ensures var r := StepWorld(w, Burst(noise)); r.answers[|w.answers|] == Expected(r.loads, r.noise, |w.answers|)
  {
    hide StepWorld, Transmit, Noisy, Arrived, Judge, Heard, DiagonalNoise, FlipsAround, HeardBursts, Answered;
    var r := StepWorld(w, Burst(noise));
    var n := |w.answers|;
    AnswerOfBurst(w, noise);
    if n % 4 == 3 && n >= 7 {
      PendingIsHeard(w, noise, n / 4 - 1);
      JudgeIsHeard(r.loads, r.noise, n / 4 - 1);
    }
  }

  /** On the last burst of a period the receiver's window is the eight bursts of the period before. */
  lemma PendingIsHeard(w: World, noise: seq<bool>, i: nat)
    requires Good(w) && |noise| == PAYLOAD_BITS && |w.noise| == 4 * i + 7
    requires InStep(StepWorld(w, Burst(noise)))
    ensures var r := StepWorld(w, Burst(noise));
            w.rx.phase == 3 && w.rx.pending[7 := Noisy(Transmit(w.tx).1, noise)] == HeardBursts(r.loads, r.noise, i)
  {
    hide StepWorld, Transmit, Noisy, Arrived, Expected, HeardBursts, Answered, Receive;
    BurstArrives(w, noise);
    var r := StepWorld(w, Burst(noise));
    ArrivedIsStableBefore(w.loads, r.loads, w.noise, r.noise);
    var pending := w.rx.pending[7 := Noisy(Transmit(w.tx).1, noise)];
    forall b: nat | b < 8
      ensures pending[b] == HeardBursts(r.loads, r.noise, i)[b]
    {
      HeardBurst(r.loads, r.noise, i, b);
      if b < 7 {
        assert w.rx.pending[b] == Arrived(w.loads, w.noise, 4 * i + b);
      }
    }
  }

  lemma StepKeepsGood(w: World, e: Event)
    requires Good(w) && e.Valid()
    ensures Good(StepWorld(w, e))
  {
    if e.Burst? {
      BurstKeepsCollected(w, e.noise);
      BurstKeepsAnswered(w, e.noise);
    } else {
      hide Combine, Judge, Transmit, Receive, Expected, PeriodBursts, Substituted, Enqueued, Collected, Answered;
      var r := StepWorld(w, e);
      assert r.rx == w.rx && r.loads == w.loads && r.noise == w.noise && r.answers == w.answers;
      assert r.tx.phase == w.tx.phase && r.tx.current == w.tx.current && r.tx.previous == w.tx.previous;
    }
  }

  lemma {:induction false} RunIsGood(es: seq<Event>)
    requires ValidEvents(es)
    ensures Good(Run(es))
  {
    if es != [] {
      RunIsGood(es[..|es| - 1]);
      StepKeepsGood(Run(es[..|es| - 1]), es[|es| - 1]);
    }
  }

  /** The pipeline theorem: over any interleaving of submissions, substitutions and bursts, and whatever bits are
      flipped, the receiver is silent in the first period and then answers, on the last burst of each period, with
      the block loaded one period earlier, of its kind, met by exactly the flips that fell on its own bits. */
  lemma PipelineDeliversEveryBlock(es: seq<Event>, n: nat)
    requires ValidEvents(es) && n < |Run(es).answers|
    ensures var w := Run(es);
            n / 4 < |w.loads| &&
            w.answers[n] == if n % 4 == 3 && n >= 7
                            then Some(Heard(w.loads[n / 4 - 1], DiagonalNoise(FlipsAround(w.noise, n / 4 - 1))))
                            else None
  {
    RunIsGood(es);
  }

  /** Signalling survives up to three flips anywhere in the payloads of its eight bursts. */
  lemma SignallingIsDelivered(es: seq<Event>, n: nat, information: seq<bool>)
    requires ValidEvents(es) && 7 <= n < |Run(es).answers| && n % 4 == 3
    requires |information| == FireCode.INFORMATION_BITS
    requires n / 4 - 1 < |Run(es).loads|
    requires Run(es).loads[n / 4 - 1] == Carrying(TrafficBlock(C.EncodeControl(information), Facch))
    requires Flips(FlipsAround(Run(es).noise, n / 4 - 1)) <= 3
    ensures var e := DiagonalNoise(FlipsAround(Run(es).noise, n / 4 - 1));
            Weight(e) <= 3 &&
            Run(es).answers[n] == Some(Reception(Facch, NO_SPEECH, C.DecodedControl(information, true, Weight(e))))
  {
    hide Run, FlipsAround, DiagonalNoise, Flips, Weight, C.EncodeControl, C.DecodeControl;
    PipelineDeliversEveryBlock(es, n);
    var noise := FlipsAround(Run(es).noise, n / 4 - 1);
    var coded, e := C.EncodeControl(information), DiagonalNoise(noise);
    DiagonalNoiseWeighs(noise);
    AddedErrorsAreDistance(coded, e);
    C.ControlCorrectsThreeErrors(information, Xor(coded, e));
  }

  /** Speech survives up to three flips anywhere in the payloads of its eight bursts: the frame is good, its unprotected
      bits as they were heard, and it is the very frame when none of the flips fell on those. */
  lemma SpeechIsDelivered(es: seq<Event>, n: nat, frame: seq<bv8>)
    requires ValidEvents(es) && 7 <= n < |Run(es).answers| && n % 4 == 3
    requires |frame| == S.FRAME_OCTETS && S.UnpackSpeech(frame).Serial? && n / 4 - 1 < |Run(es).loads|
    requires Run(es).loads[n / 4 - 1] == Carrying(TrafficBlock(S.EncodeSpeech(frame), Speech))
    requires Flips(FlipsAround(Run(es).noise, n / 4 - 1)) <= 3
    ensures var e := DiagonalNoise(FlipsAround(Run(es).noise, n / 4 - 1));
            var heard := Xor(S.EncodeSpeech(frame), e)[S.PROTECTED_BITS..];
            var corrected := Weight(e[..S.PROTECTED_BITS]);
            corrected <= 3 &&
            Run(es).answers[n] ==
            Some(Reception(Speech, S.DecodedSpeech(S.WithUnprotected(frame, heard), true, corrected), NO_CONTROL)) &&
            (Weight(e[S.PROTECTED_BITS..]) == 0 ==> S.WithUnprotected(frame, heard) == frame)
  {
    hide Run, FlipsAround, DiagonalNoise, Flips, Weight;
    hide S.EncodeSpeech, S.DecodeSpeech, S.UnpackSpeech, S.WithUnprotected;
    PipelineDeliversEveryBlock(es, n);
    var noise := FlipsAround(Run(es).noise, n / 4 - 1);
    var coded, e := S.EncodeSpeech(frame), DiagonalNoise(noise);
    DiagonalNoiseWeighs(noise);
    ErrorsInFront(coded, e, S.PROTECTED_BITS);
    S.ProtectedBitsAreCorrected(frame, Xor(coded, e));
    if Weight(e[S.PROTECTED_BITS..]) == 0 {
      NoErrors(coded[S.PROTECTED_BITS..], e[S.PROTECTED_BITS..]);
      assert Xor(coded, e)[S.PROTECTED_BITS..] == Xor(coded[S.PROTECTED_BITS..], e[S.PROTECTED_BITS..]);
      S.OwnUnprotectedBits(frame);
    }
  }

  /** In every run an idle period is heard as speech that is not good, even with up to three flips in its bursts. */
  lemma IdleIsDelivered(es: seq<Event>, n: nat)
    requires ValidEvents(es) && 7 <= n < |Run(es).answers| && n % 4 == 3
    requires n / 4 - 1 < |Run(es).loads| && Run(es).loads[n / 4 - 1] == Idle
    requires Flips(FlipsAround(Run(es).noise, n / 4 - 1)) <= 3
    ensures var answer := Run(es).answers[n];
            answer.Some? && answer.value.kind == Speech &&
            !answer.value.speech.good && answer.value.control == NO_CONTROL
  {
    hide Run, FlipsAround, DiagonalNoise, Flips, Weight, S.DecodeSpeech;
    PipelineDeliversEveryBlock(es, n);
    var noise := FlipsAround(Run(es).noise, n / 4 - 1);
    var coded, e := Zeros(CODED_BITS), DiagonalNoise(noise);
    DiagonalNoiseWeighs(noise);
    ErrorsInFront(coded, e, S.PROTECTED_BITS);
    assert coded[..S.PROTECTED_BITS] == Zeros(S.PROTECTED_BITS);
    S.IdleIsNotGood(Xor(coded, e));
  }

  /** Over bursts without flips every load is judged exactly as it was coded. */
  lemma QuietPeriodIsExact(es: seq<Event>, n: nat)
    requires ValidEvents(es) && 7 <= n < |Run(es).answers| && n % 4 == 3
    requires Flips(FlipsAround(Run(es).noise, n / 4 - 1)) == 0
    ensures n / 4 - 1 < |Run(es).loads|
    ensures var load := Run(es).loads[n / 4 - 1];
            Run(es).answers[n] ==
            Some(if load.Kind().Facch? then Reception(Facch, NO_SPEECH, C.DecodeControl(load.Coded()))
                 else Reception(Speech, S.DecodeSpeech(load.Coded()), NO_CONTROL))
  {
    hide Run, FlipsAround, DiagonalNoise, Flips, Weight, S.DecodeSpeech, C.DecodeControl;
    PipelineDeliversEveryBlock(es, n);
    var noise := FlipsAround(Run(es).noise, n / 4 - 1);
    DiagonalNoiseWeighs(noise);
    NoErrors(Run(es).loads[n / 4 - 1].Coded(), DiagonalNoise(noise));
  }
}
