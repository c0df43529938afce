/** The SACCH halves: one rectangularly interleaved control block over four scheduled bursts. */
module Sacch {
  import opened Bits
  import opened Integers
  import opened Interleaver
  import opened ControlCodec
  import opened FireCode
  import opened Noise

  const NO_BURSTS := [EMPTY, EMPTY, EMPTY, EMPTY]

  datatype TxHalf = TxHalf(pending: bool, phase: nat, bursts: seq<BurstPayload>) {
    predicate Valid() {
      phase < 4 && ValidBursts(bursts, 4)
    }
  }

  datatype RxHalf = RxHalf(phase: nat, bursts: seq<BurstPayload>) {
    predicate Valid() {
      phase < 4 && ValidBursts(bursts, 4)
    }
  }

  const TX_IDLE := TxHalf(false, 0, NO_BURSTS)
  const RX_IDLE := RxHalf(0, NO_BURSTS)

  function OnAir(information: seq<bool>): (r: seq<BurstPayload>)
    requires |information| == INFORMATION_BITS
    ensures ValidBursts(r, 4)
  {
    Rectangular(EncodeControl(information))
  }

  /** A block is taken only when none is pending. */
  function Offered(tx: TxHalf, information: seq<bool>): (r: TxHalf)
    requires tx.Valid() && |information| == INFORMATION_BITS
    ensures r.Valid()
  {
    if tx.pending then tx else TxHalf(true, 0, OnAir(information))
  }

  /** A burst leaves only when its own phase is scheduled. */
  function Scheduled(tx: TxHalf, scheduledPhase: nat): (r: (TxHalf, Option<BurstPayload>))
    requires tx.Valid()
    ensures r.0.Valid() && (r.1.Some? ==> r.1.value.Valid())
  {
    if !tx.pending || scheduledPhase % 4 != tx.phase then (tx, None)
    else (TxHalf(tx.phase < 3, (tx.phase + 1) % 4, tx.bursts), Some(tx.bursts[tx.phase]))
  }

  ghost function Gather(rx: RxHalf, burst: BurstPayload): (r: (RxHalf, Option<DecodedControl>))
    requires rx.Valid() && burst.Valid()
    ensures r.0.Valid()
  {
    var bursts := rx.bursts[rx.phase := burst];
    if rx.phase < 3 then (RxHalf(rx.phase + 1, bursts), None)
    else (RxHalf(0, bursts), Some(DecodeControl(Unrectangular(bursts))))
  }

  // ----- The objects -----

  class SacchTransmitter {
    var pending: bool
    var phase: nat
    var bursts: seq<BurstPayload>

    ghost function State(): TxHalf
      reads this
    {
      TxHalf(pending, phase, bursts)
    }

    constructor ()
      ensures State() == TX_IDLE
    {
      pending, phase, bursts := false, 0, NO_BURSTS;
    }

    method Enqueue(information: seq<bool>) returns (accepted: bool)
      requires State().Valid() && |information| == INFORMATION_BITS
      modifies this
      ensures accepted == !old(State()).pending && State() == Offered(old(State()), information)
    {
      if pending {
        return false;
      }
      var coded := EncodeControlBlock(information);
      bursts := InterleaveSacch(coded);
      pending, phase := true, 0;
      return true;
    }

    method NextBurst(scheduledPhase: nat) returns (burst: Option<BurstPayload>)
      requires State().Valid()
      modifies this
      ensures State() == Scheduled(old(State()), scheduledPhase).0 && burst == Scheduled(old(State()), scheduledPhase).1
    {
      if !pending || scheduledPhase % 4 != phase {
        return None;
      }
      burst := Some(bursts[phase]);
      phase := phase + 1;
      if phase == 4 {
        phase, pending := 0, false;
      }
    }

    method Reset()
      modifies this
      ensures State() == TX_IDLE
    {
      pending, phase, bursts := false, 0, NO_BURSTS;
    }
  }

  class SacchReceiver {
    var phase: nat
    var bursts: seq<BurstPayload>

    ghost function State(): RxHalf
      reads this
    {
      RxHalf(phase, bursts)
    }

    constructor ()
      ensures State() == RX_IDLE
    {
      phase, bursts := 0, NO_BURSTS;
    }

    method Accept(burst: BurstPayload) returns (result: Option<DecodedControl>)
      requires State().Valid() && burst.Valid()
      modifies this
      ensures State() == Gather(old(State()), burst).0 && result == Gather(old(State()), burst).1
    {
      hide DecodeControl, Unrectangular;
      bursts := bursts[phase := burst];
      phase := phase + 1;
      if phase != 4 {
        return None;
      }
      phase := 0;
      var coded := DeinterleaveSacch(bursts);
      var control := DecodeControlBlock(coded);
      return Some(control);
    }

    method Reset()
      modifies this
      ensures State() == RX_IDLE
    {
      phase, bursts := 0, NO_BURSTS;
    }
  }

  // ----- Every run, over a channel that may flip payload bits -----

  datatype SacchEvent = Offer(information: seq<bool>) | Occasion(scheduledPhase: nat, noise: seq<bool>) {
    predicate Valid() {
      match this
      case Offer(information) => |information| == INFORMATION_BITS
      case Occasion(_, noise) => |noise| == PAYLOAD_BITS
    }
  }

  /** Both halves, the accepted blocks, the bits flipped in each burst sent, and the blocks heard. */
  datatype SacchWorld = SacchWorld(tx: TxHalf, rx: RxHalf, accepted: seq<seq<bool>>, noise: seq<seq<bool>>,
                                   heard: seq<DecodedControl>) {
    ghost predicate Valid() {
      tx.Valid() && rx.Valid() && ValidNoise(noise, |noise|)
    }
  }

  ghost function StepSacch(w: SacchWorld, e: SacchEvent): (r: SacchWorld)
    requires w.Valid() && e.Valid()
    ensures r.Valid()
  {
    match e
    case Offer(information) =>
      SacchWorld(Offered(w.tx, information), w.rx,
                 if w.tx.pending then w.accepted else w.accepted + [information], w.noise, w.heard)
    case Occasion(scheduledPhase, noise) =>
      var out := Scheduled(w.tx, scheduledPhase);
      if out.1.None? then SacchWorld(out.0, w.rx, w.accepted, w.noise, w.heard)
      else
        var got := Gather(w.rx, Noisy(out.1.value, noise));
        SacchWorld(out.0, got.0, w.accepted, w.noise + [noise],
                   if got.1.Some? then w.heard + [got.1.value] else w.heard)
  }

  ghost function RunSacch(es: seq<SacchEvent>): (w: SacchWorld)
    requires forall i :: 0 <= i < |es| ==> es[i].Valid()
    ensures w.Valid()
  {
    if es == [] then SacchWorld(TX_IDLE, RX_IDLE, [], [], [])
    else StepSacch(RunSacch(es[..|es| - 1]), es[|es| - 1])
  }

  /** How many of the accepted blocks are complete on the air. */
  function Complete(w: SacchWorld): int {
    |w.accepted| - if w.tx.pending then 1 else 0
  }

  /** The flips in the four bursts of block `i`. */
  ghost function FlipsOf(noise: seq<seq<bool>>, i: nat): (r: seq<seq<bool>>)
    requires ValidNoise(noise, |noise|) && 4 * i + 4 <= |noise|
    ensures ValidNoise(r, 4)
  {
    noise[4 * i..4 * i + 4]
  }

  /** A block decoded with the flips of its four bursts on it. */
  ghost function HeardThrough(information: seq<bool>, noise: seq<seq<bool>>): DecodedControl
    requires |information| == INFORMATION_BITS && ValidNoise(noise, 4)
  {
    DecodeControl(Xor(EncodeControl(information), RectangularNoise(noise)))
  }

  /** The halves are in step, and the receiver holds the bursts of the pending block so far. */
  ghost predicate SacchInStep(w: SacchWorld) {
    && w.Valid()
    && (forall i :: 0 <= i < |w.accepted| ==> |w.accepted[i]| == INFORMATION_BITS)
    && w.rx.phase == w.tx.phase
    && (!w.tx.pending ==> w.tx.phase == 0)
    && 0 <= Complete(w) == |w.heard| && |w.noise| == 4 * |w.heard| + w.tx.phase
    && (w.tx.pending ==> w.tx.bursts == OnAir(w.accepted[|w.accepted| - 1]))
    && (forall p :: 0 <= p < w.tx.phase ==> w.rx.bursts[p] == Noisy(w.tx.bursts[p], w.noise[4 * |w.heard| + p]))
  }

  ghost predicate HeardInOrder(accepted: seq<seq<bool>>, noise: seq<seq<bool>>, heard: seq<DecodedControl>)
    requires |heard| <= |accepted| && 4 * |heard| <= |noise| && ValidNoise(noise, |noise|)
    requires forall i :: 0 <= i < |accepted| ==> |accepted[i]| == INFORMATION_BITS
  {
    forall i :: 0 <= i < |heard| ==> heard[i] == HeardThrough(accepted[i], FlipsOf(noise, i))
  }

  ghost predicate SacchGood(w: SacchWorld) {
    SacchInStep(w) && HeardInOrder(w.accepted, w.noise, w.heard)
  }

  /** The fourth burst completes the pending block. */
  lemma FourthBurst(w: SacchWorld, noise: seq<bool>)
    requires SacchInStep(w) && |noise| == PAYLOAD_BITS && w.tx.pending && w.tx.phase == 3
    ensures var information, all := w.accepted[|w.accepted| - 1], w.noise + [noise];
            Gather(w.rx, Noisy(w.tx.bursts[3], noise)).1 == Some(HeardThrough(information, FlipsOf(all, |w.heard|)))
  {
    hide Rectangular, Unrectangular, RectangularNoise, Noisy, EncodeControl, DecodeControl;
    var information, flips := w.accepted[|w.accepted| - 1], FlipsOf(w.noise + [noise], |w.heard|);
    assert w.rx.bursts[3 := Noisy(w.tx.bursts[3], noise)] == NoisyBursts(OnAir(information), flips);
    RectangularHearsNoise(OnAir(information), flips);
    RectangularRoundTrip(EncodeControl(information));
  }

  lemma StepKeepsSacchGood(w: SacchWorld, e: SacchEvent)
    requires SacchGood(w) && e.Valid()
    ensures SacchGood(StepSacch(w, e))
  {
    hide OnAir, HeardThrough, DecodeControl, Unrectangular, Noisy;
    var r := StepSacch(w, e);
    if e.Occasion? && w.tx.pending && w.tx.phase == 3 && e.scheduledPhase % 4 == 3 {
      FourthBurst(w, e.noise);
    }
    forall i | 0 <= i < |w.heard|
      ensures FlipsOf(r.noise, i) == FlipsOf(w.noise, i)
    {
    }
  }

  lemma {:induction false} RunIsSacchGood(es: seq<SacchEvent>)
    requires forall i :: 0 <= i < |es| ==> es[i].Valid()
    ensures SacchGood(RunSacch(es))
  {
    hide SacchGood, StepSacch;
    if es == [] {
      NothingIsGood();
    } else {
      RunIsSacchGood(es[..|es| - 1]);
      StepKeepsSacchGood(RunSacch(es[..|es| - 1]), es[|es| - 1]);
    }
  }

  lemma NothingIsGood()
    ensures SacchGood(RunSacch([]))
  {
  }

  /** For every sequence of offers and scheduled phases, and whatever bits are flipped, the blocks heard are the
      accepted ones, each once and in order, each with just the flips of its own four bursts on it; only the one still
      pending may be missing. */
  lemma SacchDeliversExactlyOnce(es: seq<SacchEvent>)
    requires forall i :: 0 <= i < |es| ==> es[i].Valid()
    ensures var w := RunSacch(es);
            |w.heard| == |w.accepted| - (if w.tx.pending then 1 else 0) && 4 * |w.heard| <= |w.noise| &&
            forall i :: 0 <= i < |w.heard| ==> |w.accepted[i]| == INFORMATION_BITS &&
                                               w.heard[i] == HeardThrough(w.accepted[i], FlipsOf(w.noise, i))
  {
    hide HeardThrough, RunSacch;
    RunIsSacchGood(es);
  }

  /** Up to three flips in the four bursts of a block are corrected and counted; without any it is heard unchanged. */
  lemma SacchCorrectsThreeFlips(information: seq<bool>, noise: seq<seq<bool>>)
    requires |information| == INFORMATION_BITS && ValidNoise(noise, 4) && Flips(noise) <= 3
    ensures HeardThrough(information, noise) == DecodedControl(information, true, Flips(noise))
  {
    hide RectangularNoise, Flips, EncodeControl, DecodeControl;
    var coded, e := EncodeControl(information), RectangularNoise(noise);
    RectangularNoiseWeighs(noise);
    AddedErrorsAreDistance(coded, e);
    ControlCorrectsThreeErrors(information, Xor(coded, e));
  }

  // ----- The TDMA schedule -----

  datatype SlotKind = Traffic | SacchSlot | IdleSlot

  function FullRateSlot(frame: nat, timeslot: nat): SlotKind {
    var position := frame % 26;
    var sacchPosition := if timeslot % 2 == 1 then 25 else 12;
    var idlePosition := (sacchPosition + 13) % 26;
    if position == sacchPosition then SacchSlot
    else if position == idlePosition then IdleSlot
    else Traffic
  }

  function SacchBurstIndex(frame: nat, timeslot: nat): (p: nat)
    ensures p < 4
  {
    (frame / 26 % 4 + 4 - timeslot % 8 / 2) % 4
  }

  /** SACCH occasions of a timeslot come every 26 frames, never sooner, and step through the four phases. */
  lemma OccasionsStep(frame: nat, timeslot: nat, gap: nat)
    requires FullRateSlot(frame, timeslot) == SacchSlot && 0 < gap <= 26
    ensures FullRateSlot(frame + gap, timeslot) == SacchSlot <==> gap == 26
    ensures SacchBurstIndex(frame + 26, timeslot) == (SacchBurstIndex(frame, timeslot) + 1) % 4
  {
  }

  lemma FrameOf104(frame: nat)
    ensures var f := frame % 104; frame % 26 == f % 26 && frame / 26 % 4 == f / 26
  {
    var q, f := frame / 104, frame % 104;
    assert frame == 26 * (4 * q + f / 26) + f % 26;
  }

  lemma SlotOf104(f: nat, timeslot: nat, b: nat)
    requires f < 104 && timeslot < 8 && b < 4
    ensures (f % 26 == (if timeslot % 2 == 1 then 25 else 12) && (f / 26 + 4 - timeslot / 2) % 4 == b) <==>
            f == (12 + 13 * timeslot + 26 * b) % 104
  {
    assert f == 26 * (f / 26) + f % 26;
  }

  /** Burst b of the SACCH block of timeslot TN is sent in frame 12 + 13 TN + 26 b of the 104-multiframe and in no
      other; the idle frames lie thirteen frames away. */
  lemma SlotsInFigures(frame: nat, timeslot: nat, b: nat)
    requires timeslot < 8 && b < 4
    ensures FullRateSlot(frame, timeslot) == SacchSlot && SacchBurstIndex(frame, timeslot) == b <==>
            frame % 104 == (12 + 13 * timeslot + 26 * b) % 104
    ensures FullRateSlot(frame, timeslot) == IdleSlot <==> FullRateSlot(frame + 13, timeslot) == SacchSlot
  {
    FrameOf104(frame);
    SlotOf104(frame % 104, timeslot, b);
    IdleFollowsSacch(frame, timeslot);
  }

  lemma IdleFollowsSacch(frame: nat, timeslot: nat)
    ensures FullRateSlot(frame, timeslot) == IdleSlot <==> FullRateSlot(frame + 13, timeslot) == SacchSlot
  {
  }

  /** The transmitter after `n` successive occasions of a timeslot, the first in `frame`, and what left at each. */
  function AfterOccasions(tx: TxHalf, frame: nat, timeslot: nat, n: nat): (r: (TxHalf, seq<Option<BurstPayload>>))
    requires tx.Valid()
    ensures r.0.Valid() && |r.1| == n
  {
    if n == 0 then (tx, [])
    else
      var before := AfterOccasions(tx, frame, timeslot, n - 1);
      var out := Scheduled(before.0, SacchBurstIndex(frame + 26 * (n - 1), timeslot));
      (out.0, before.1 + [out.1])
  }

  /** Occasions to wait until phase 0 comes round. */
  function Wait(frame: nat, timeslot: nat): (w: nat)
    ensures w < 4
  {
    (4 - SacchBurstIndex(frame, timeslot)) % 4
  }

  /** Occasion `n` carries phase 0 once the wait is over, and steps from there. */
  lemma PhaseOfOccasion(frame: nat, timeslot: nat, n: nat)
    ensures SacchBurstIndex(frame + 26 * n, timeslot) == (n + 4 - Wait(frame, timeslot)) % 4
  {
    assert (frame + 26 * n) / 26 == frame / 26 + n;
    PhasesStep(frame / 26, timeslot % 8 / 2, n);
  }

  lemma PhasesStep(q: nat, s: nat, n: nat)
    requires s < 4
    ensures ((q + n) % 4 + 4 - s) % 4 == (n + 4 - (4 - (q % 4 + 4 - s) % 4) % 4) % 4
  {
    hide Turned;
    var b, m := q % 4, n % 4;
    var p := Turned(b, s);
    var w := Turned(0, p);
    AddModFour(q, n);
    AddModFour(n, 4 - w);
    PhasesTurn(b, m, s);
    assert Turned((q + n) % 4, s) == (n + 4 - w) % 4;
  }

  /** Phase p less s, round the four phases. */
  function Turned(p: nat, s: nat): (t: nat)
    requires p < 4 && s < 4
    ensures t < 4 && t == (p + 4 - s) % 4
  {
    if p >= s then p - s else p + 4 - s
  }

  lemma PhasesTurn(b: nat, m: nat, s: nat)
    requires b < 4 && m < 4 && s < 4
    ensures Turned((b + m) % 4, s) == (m + (4 - Turned(0, Turned(b, s))) % 4) % 4
  {
  }

  lemma AddModFour(a: nat, b: nat)
    ensures (a + b) % 4 == (a % 4 + b % 4) % 4
  {
    assert a + b == 4 * (a / 4 + b / 4) + (a % 4 + b % 4);
  }

  lemma {:induction false} OccasionsInOrder(tx: TxHalf, frame: nat, timeslot: nat, n: nat)
    requires tx.Valid() && tx.pending && tx.phase == 0
    ensures var w := Wait(frame, timeslot);
            var r := AfterOccasions(tx, frame, timeslot, n);
            r.0.pending == (n < w + 4) && r.0.bursts == tx.bursts &&
            r.0.phase == (if w <= n < w + 4 then n - w else 0) &&
            forall i :: 0 <= i < n ==> r.1[i] == if w <= i < w + 4 then Some(tx.bursts[i - w]) else None
  {
    hide SacchBurstIndex, Wait, Scheduled;
    if n > 0 {
      OccasionsInOrder(tx, frame, timeslot, n - 1);
      PhaseOfOccasion(frame, timeslot, n - 1);
      NextOccasion(AfterOccasions(tx, frame, timeslot, n - 1).0, Wait(frame, timeslot), n - 1,
                   SacchBurstIndex(frame + 26 * (n - 1), timeslot));
    }
  }

  /** One more occasion, `n` having passed and the wait having been `w`. */
  lemma NextOccasion(tx: TxHalf, w: nat, n: nat, scheduledPhase: nat)
    requires tx.Valid() && w < 4 && scheduledPhase == (n + 4 - w) % 4
    requires tx.pending == (n < w + 4) && tx.phase == if w <= n < w + 4 then n - w else 0
    ensures var r := Scheduled(tx, scheduledPhase);
            r.0.pending == (n + 1 < w + 4) && r.0.bursts == tx.bursts &&
            r.0.phase == (if w <= n + 1 < w + 4 then n + 1 - w else 0) &&
            r.1 == if w <= n < w + 4 then Some(tx.bursts[n - w]) else None
  {
  }

  /** A block accepted just before a SACCH occasion has left completely, first burst first, after at most
      seven occasions of its timeslot. */
  lemma BlockLeavesWithinSevenOccasions(tx: TxHalf, information: seq<bool>, frame: nat, timeslot: nat)
    requires tx.Valid() && !tx.pending && |information| == INFORMATION_BITS
    requires FullRateSlot(frame, timeslot) == SacchSlot
    ensures var r := AfterOccasions(Offered(tx, information), frame, timeslot, 7);
            var w := Wait(frame, timeslot);
            !r.0.pending && w + 4 <= 7 &&
            forall p :: 0 <= p < 4 ==> r.1[w + p] == Some(OnAir(information)[p])
  {
    OccasionsInOrder(Offered(tx, information), frame, timeslot, 7);
  }

  // ----- The schedule within any run -----

  /** How many scheduled bursts the events hold. */
  function Occasions(es: seq<SacchEvent>): nat {
    if es == [] then 0 else Occasions(es[..|es| - 1]) + if es[|es| - 1].Occasion? then 1 else 0
  }

  /** The scheduled bursts are the successive occasions of the timeslot from `frame` on; offers may fall anywhere. */
  ghost predicate OnSchedule(es: seq<SacchEvent>, frame: nat, timeslot: nat) {
    es == [] ||
    (OnSchedule(es[..|es| - 1], frame, timeslot) &&
     (es[|es| - 1].Occasion? ==>
        es[|es| - 1].scheduledPhase == SacchBurstIndex(frame + 26 * Occasions(es[..|es| - 1]), timeslot)))
  }

  ghost predicate ValidSacch(es: seq<SacchEvent>) {
    forall i :: 0 <= i < |es| ==> es[i].Valid()
  }

  /** After `k` occasions the block accepted as number `number` is on its way, or has been heard. */
  ghost predicate OnItsWay(w: SacchWorld, number: nat, wait: nat, k: nat) {
    if k < wait + 4 then
      w.tx.pending && |w.accepted| == number + 1 && w.tx.phase == if k < wait then 0 else k - wait
    else |w.heard| > number
  }

  lemma OccasionMovesOn(w: SacchWorld, e: SacchEvent, number: nat, wait: nat, k: nat)
    requires SacchGood(w) && e.Valid() && e.Occasion? && wait < 4 && OnItsWay(w, number, wait, k)
    requires e.scheduledPhase == (k + 4 - wait) % 4
    ensures OnItsWay(StepSacch(w, e), number, wait, k + 1)
  {
    hide OnAir, HeardThrough, DecodeControl, Unrectangular, Noisy, HeardInOrder;
    if k < wait {
      assert e.scheduledPhase == k + 4 - wait;
    } else if k < wait + 4 {
      assert e.scheduledPhase == k - wait;
    }
  }

  lemma OfferKeepsWay(w: SacchWorld, e: SacchEvent, number: nat, wait: nat, k: nat)
    requires SacchGood(w) && e.Valid() && e.Offer? && OnItsWay(w, number, wait, k)
    ensures OnItsWay(StepSacch(w, e), number, wait, k)
  {
    hide OnAir, HeardInOrder;
  }

  lemma {:induction false} AcceptedBlockMovesOn(before: seq<SacchEvent>, information: seq<bool>, es: seq<SacchEvent>,
                                                frame: nat, timeslot: nat)
    requires ValidSacch(before) && |information| == INFORMATION_BITS
    requires ValidSacch(es) && OnSchedule(es, frame, timeslot)
    requires !RunSacch(before).tx.pending
    ensures OnItsWay(RunSacch(before + [Offer(information)] + es), |RunSacch(before).accepted|,
                     Wait(frame, timeslot), Occasions(es))
    decreases |es|
  {
    hide StepSacch, SacchGood, OnItsWay, SacchBurstIndex, Wait;
    var base, number, wait := before + [Offer(information)], |RunSacch(before).accepted|, Wait(frame, timeslot);
    if es == [] {
      assert base + [] == base && base[..|before|] == before;
      FirstOnItsWay(RunSacch(before), information, wait);
    } else {
      var first, e := es[..|es| - 1], es[|es| - 1];
      AcceptedBlockMovesOn(before, information, first, frame, timeslot);
      assert (base + es)[..|base + es| - 1] == base + first;
      var w := RunSacch(base + first);
      RunIsSacchGood(base + first);
      if e.Occasion? {
        PhaseOfOccasion(frame, timeslot, Occasions(first));
        OccasionMovesOn(w, e, number, wait, Occasions(first));
      } else {
        OfferKeepsWay(w, e, number, wait, Occasions(first));
      }
    }
  }

  lemma FirstOnItsWay(w: SacchWorld, information: seq<bool>, wait: nat)
    requires w.Valid() && |information| == INFORMATION_BITS && !w.tx.pending
    ensures OnItsWay(StepSacch(w, Offer(information)), |w.accepted|, wait, 0)
  {
    hide OnAir;
  }

  /** In every run: a block accepted before an occasion has been heard, in its turn and with just the flips of its own
      four bursts, when seven occasions have passed, whatever is offered meanwhile. */
  lemma BlockIsHeardWithinSevenOccasions(before: seq<SacchEvent>, information: seq<bool>, es: seq<SacchEvent>,
                                         frame: nat, timeslot: nat)
    requires ValidSacch(before) && |information| == INFORMATION_BITS
    requires ValidSacch(es) && OnSchedule(es, frame, timeslot)
    requires !RunSacch(before).tx.pending && Occasions(es) >= 7
    ensures var w, number := RunSacch(before + [Offer(information)] + es), |RunSacch(before).accepted|;
            number < |w.heard| && 4 * number + 4 <= |w.noise| &&
            w.heard[number] == HeardThrough(information, FlipsOf(w.noise, number))
  {
    hide RunSacch, HeardThrough, OnSchedule, Wait;
    AcceptedBlockMovesOn(before, information, es, frame, timeslot);
    SacchDeliversExactlyOnce(before + [Offer(information)] + es);
    AcceptedStays(before, information, es);
  }

  /** What was accepted stays at its number. */
  lemma {:induction false} AcceptedStays(before: seq<SacchEvent>, information: seq<bool>, es: seq<SacchEvent>)
    requires ValidSacch(before) && |information| == INFORMATION_BITS && ValidSacch(es) && !RunSacch(before).tx.pending
    ensures var w, number := RunSacch(before + [Offer(information)] + es), |RunSacch(before).accepted|;
            number < |w.accepted| && w.accepted[number] == information
    decreases |es|
  {
    hide StepSacch;
    var base := before + [Offer(information)];
    if es == [] {
      assert base + [] == base && base[..|before|] == before;
      StepAccepts(RunSacch(before), Offer(information));
    } else {
      AcceptedStays(before, information, es[..|es| - 1]);
      assert (base + es)[..|base + es| - 1] == base + es[..|es| - 1];
      StepAccepts(RunSacch(base + es[..|es| - 1]), es[|es| - 1]);
    }
  }

  lemma StepAccepts(w: SacchWorld, e: SacchEvent)
    requires w.Valid() && e.Valid()
    ensures StepSacch(w, e).accepted ==
            w.accepted + if e.Offer? && !w.tx.pending then [e.information] else []
  {
    hide OnAir, Gather, Noisy;
  }
}
