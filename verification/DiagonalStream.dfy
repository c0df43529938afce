/** The queueing transmitter and the receiver of the diagonal interleaver, burst by burst. */
module DiagonalStream {
  import opened Bits
  import opened Interleaver
  import opened Integers
  import C = ControlCodec
  import S = SpeechCodec
  import FireCode
  import Importance

  const QUEUE_DEPTH := 8

  datatype Kind = Speech | Facch
  datatype TrafficBlock = TrafficBlock(coded: seq<bool>, kind: Kind) {
    predicate Valid() {
      |coded| == CODED_BITS
    }
  }

  datatype Reception = Reception(kind: Kind, speech: S.DecodedSpeech, control: C.DecodedControl)

  const NO_SPEECH := S.DecodedSpeech(ZeroOctets(33), false, 0)
  const NO_CONTROL := C.DecodedControl(Zeros(FireCode.INFORMATION_BITS), false, 0)
  const EMPTY_BURSTS := [EMPTY, EMPTY, EMPTY, EMPTY, EMPTY, EMPTY, EMPTY, EMPTY]

  function ZeroOctets(n: nat): (r: seq<bv8>)
    ensures |r| == n
  {
    seq(n, _ => 0)
  }

  predicate ValidQueue(q: seq<TrafficBlock>) {
    |q| <= QUEUE_DEPTH && forall i :: 0 <= i < |q| ==> q[i].Valid()
  }

  // ----- Stealing flags -----

  function MarkFacch(bursts: seq<BurstPayload>): (r: seq<BurstPayload>)
    requires ValidBursts(bursts, 8)
    ensures ValidBursts(r, 8)
  {
    seq(8, b requires 0 <= b < 8 =>
      BurstPayload(bursts[b].data, bursts[b].hl || b >= 4, bursts[b].hu || b < 4))
  }

  predicate IndicatesFacch(bursts: seq<BurstPayload>)
    requires ValidBursts(bursts, 8)
  {
    (forall b :: 0 <= b < 4 ==> bursts[b].hu) && (forall b :: 4 <= b < 8 ==> bursts[b].hl)
  }

  /** What a block puts on the air. */
  function BlockBursts(block: TrafficBlock): (r: seq<BurstPayload>)
    requires block.Valid()
    ensures ValidBursts(r, 8)
  {
    if block.kind.Facch? then MarkFacch(Diagonal(block.coded)) else Diagonal(block.coded)
  }

  /** Old block's last four bursts over the new block's first four. */
  function Combine(before: seq<BurstPayload>, after: seq<BurstPayload>, phase: nat): (r: BurstPayload)
    requires ValidBursts(before, 8) && ValidBursts(after, 8)
    ensures r.Valid()
  {
    var p := phase % 4;
    BurstPayload(seq(PAYLOAD_BITS, j requires 0 <= j < PAYLOAD_BITS => before[4 + p].data[j] || after[p].data[j]),
                 before[4 + p].hl, after[p].hu)
  }

  method CombineDiagonal(before: seq<BurstPayload>, after: seq<BurstPayload>, phase: nat) returns (result: BurstPayload)
    requires ValidBursts(before, 8) && ValidBursts(after, 8)
    ensures result == Combine(before, after, phase)
  {
    var p := phase % 4;
    var data := new bool[PAYLOAD_BITS];
    for j := 0 to PAYLOAD_BITS
      invariant forall i :: 0 <= i < j ==> data[i] == (before[4 + p].data[i] || after[p].data[i])
    {
      data[j] := before[4 + p].data[j] || after[p].data[j];
    }
    result := BurstPayload(data[..], before[4 + p].hl, after[p].hu);
  }

  // ----- The queue -----

  function Enqueued(q: seq<TrafficBlock>, block: TrafficBlock): seq<TrafficBlock> {
    if |q| == QUEUE_DEPTH then q else q + [block]
  }

  predicate HasSpeech(q: seq<TrafficBlock>) {
    exists i :: 0 <= i < |q| && q[i].kind.Speech?
  }

  /** The first speech block gives its place to the signalling block. */
  function Steal(q: seq<TrafficBlock>, coded: seq<bool>): (r: seq<TrafficBlock>)
    ensures |r| == |q|
  {
    if q == [] then []
    else if q[0].kind.Speech? then [TrafficBlock(coded, Facch)] + q[1..]
    else [q[0]] + Steal(q[1..], coded)
  }

  function Substituted(q: seq<TrafficBlock>, coded: seq<bool>): seq<TrafficBlock> {
    if HasSpeech(q) then Steal(q, coded) else Enqueued(q, TrafficBlock(coded, Facch))
  }

  predicate Substitutes(q: seq<TrafficBlock>) {
    HasSpeech(q) || |q| < QUEUE_DEPTH
  }

  // ----- The two halves as state machines -----

  datatype TxState = TxState(queue: seq<TrafficBlock>, phase: nat,
                             previous: seq<BurstPayload>, current: seq<BurstPayload>) {
    predicate Valid() {
      ValidQueue(queue) && phase < 4 && ValidBursts(previous, 8) && ValidBursts(current, 8)
    }
  }

  const TX_RESET := TxState([], 0, EMPTY_BURSTS, EMPTY_BURSTS)

  /** At the start of a period the head of the queue becomes the current block, or nothing does. */
  function Loaded(tx: TxState): (r: TxState)
    requires tx.Valid()
    ensures r.Valid()
  {
    if tx.phase != 0 then tx
    else if tx.queue == [] then tx.(previous := tx.current, current := EMPTY_BURSTS)
    else tx.(queue := tx.queue[1..], previous := tx.current, current := BlockBursts(tx.queue[0]))
  }

  function Transmit(tx: TxState): (r: (TxState, BurstPayload))
    requires tx.Valid()
    ensures r.0.Valid() && r.1.Valid()
  {
    var t := Loaded(tx);
    (t.(phase := (t.phase + 1) % 4), Combine(t.previous, t.current, t.phase))
  }

  datatype RxState = RxState(phase: nat, pendingValid: bool, pending: seq<BurstPayload>, incoming: seq<BurstPayload>) {
    predicate Valid() {
      phase < 4 && ValidBursts(pending, 8) && ValidBursts(incoming, 8)
    }
  }

  const RX_RESET := RxState(0, false, EMPTY_BURSTS, EMPTY_BURSTS)

  /** The verdict on eight collected bursts. */
  ghost function Judge(bursts: seq<BurstPayload>): Reception
    requires ValidBursts(bursts, 8)
  {
    if IndicatesFacch(bursts)
    then Reception(Facch, NO_SPEECH, C.DecodeControl(Undiagonal(bursts)))
    else Reception(Speech, S.DecodeSpeech(Undiagonal(bursts)), NO_CONTROL)
  }

  ghost function Receive(rx: RxState, burst: BurstPayload): (r: (RxState, Option<Reception>))
    requires rx.Valid() && burst.Valid()
    ensures r.0.Valid()
  {
    var pending, incoming := rx.pending[4 + rx.phase := burst], rx.incoming[rx.phase := burst];
    if rx.phase == 3 then
      (RxState(0, true, incoming, EMPTY_BURSTS), if rx.pendingValid then Some(Judge(pending)) else None)
    else
      (RxState(rx.phase + 1, rx.pendingValid, pending, incoming), None)
  }

  // ----- The two halves as objects -----

  /** The `count` blocks of the circular queue, from `head` on. */
  function Ring(slots: seq<TrafficBlock>, head: nat, count: nat): (q: seq<TrafficBlock>)
    requires |slots| == QUEUE_DEPTH
    ensures |q| == count
  {
    seq(count, i requires 0 <= i < count => slots[(head + i) % QUEUE_DEPTH])
  }

  lemma NextSlot(head: nat, i: nat)
    requires head < QUEUE_DEPTH
    ensures (head + (i + 1)) % QUEUE_DEPTH == ((head + 1) % QUEUE_DEPTH + i) % QUEUE_DEPTH
  {
  }

  lemma RingHead(slots: seq<TrafficBlock>, head: nat, count: nat)
    requires |slots| == QUEUE_DEPTH && head < QUEUE_DEPTH && 0 < count
    ensures Ring(slots, head, count)[0] == slots[head]
    ensures Ring(slots, head, count)[1..] == Ring(slots, (head + 1) % QUEUE_DEPTH, count - 1)
  {
    var tail, rest := Ring(slots, head, count)[1..], Ring(slots, (head + 1) % QUEUE_DEPTH, count - 1);
    forall i | 0 <= i < count - 1
      ensures tail[i] == rest[i]
    {
      NextSlot(head, i);
    }
  }

  lemma SlotsDiffer(head: nat, i: nat, j: nat)
    requires head < QUEUE_DEPTH && i < QUEUE_DEPTH && j < QUEUE_DEPTH && i != j
    ensures (head + i) % QUEUE_DEPTH != (head + j) % QUEUE_DEPTH
  {
  }

  lemma RingSet(slots: seq<TrafficBlock>, head: nat, count: nat, i: nat, block: TrafficBlock)
    requires |slots| == QUEUE_DEPTH && head < QUEUE_DEPTH && i < count <= QUEUE_DEPTH
    ensures Ring(slots[(head + i) % QUEUE_DEPTH := block], head, count) == Ring(slots, head, count)[i := block]
    ensures Ring(slots, head, count)[i] == slots[(head + i) % QUEUE_DEPTH]
  {
    var changed := slots[(head + i) % QUEUE_DEPTH := block];
    forall j | 0 <= j < count
      ensures Ring(changed, head, count)[j] == Ring(slots, head, count)[i := block][j]
    {
      if j != i {
        SlotsDiffer(head, i, j);
      }
    }
  }

  lemma RingAppend(slots: seq<TrafficBlock>, head: nat, count: nat, block: TrafficBlock)
    requires |slots| == QUEUE_DEPTH && head < QUEUE_DEPTH && count < QUEUE_DEPTH
    ensures Ring(slots[(head + count) % QUEUE_DEPTH := block], head, count + 1) == Ring(slots, head, count) + [block]
  {
    var more := slots[(head + count) % QUEUE_DEPTH := block];
    forall i | 0 <= i < count
      ensures Ring(more, head, count + 1)[i] == Ring(slots, head, count)[i]
    {
      SlotsDiffer(head, i, count);
    }
  }

  class DiagonalTransmitter {
    const queue: array<TrafficBlock>
    var head: nat
    var count: nat
    var phase: nat
    var previous: seq<BurstPayload>
    var current: seq<BurstPayload>

    ghost predicate Valid()
      reads this, queue
    {
      && queue.Length == QUEUE_DEPTH && head < QUEUE_DEPTH && count <= QUEUE_DEPTH
      && State().Valid()
    }

    /** The waiting blocks, oldest first. */
    ghost function Waiting(): (q: seq<TrafficBlock>)
      reads this, queue
    {
      if queue.Length == QUEUE_DEPTH then Ring(queue[..], head, count) else []
    }

    ghost function State(): TxState
      reads this, queue
    {
      TxState(Waiting(), phase, previous, current)
    }

    constructor ()
      ensures Valid() && State() == TX_RESET && fresh(queue)
    {
      queue := new TrafficBlock[QUEUE_DEPTH](_ => TrafficBlock(Zeros(CODED_BITS), Speech));
      head, count, phase := 0, 0, 0;
      previous, current := EMPTY_BURSTS, EMPTY_BURSTS;
    }

    method Enqueue(block: TrafficBlock) returns (accepted: bool)
      requires Valid() && block.Valid()
      modifies this`count, queue
      ensures Valid() && accepted == (|old(Waiting())| < QUEUE_DEPTH)
      ensures State() == old(State()).(queue := Enqueued(old(Waiting()), block))
    {
      hide Ring;
      if count == QUEUE_DEPTH {
        return false;
      }
      RingAppend(queue[..], head, count, block);
      ghost var slots := queue[..];
      queue[(head + count) % QUEUE_DEPTH] := block;
      assert queue[..] == slots[(head + count) % QUEUE_DEPTH := block];
      count := count + 1;
      return true;
    }

    method SubstituteFacch(coded: seq<bool>) returns (accepted: bool)
      requires Valid() && |coded| == CODED_BITS
      modifies this`count, queue
      ensures Valid() && accepted == Substitutes(old(Waiting()))
      ensures !accepted <==> |old(Waiting())| == QUEUE_DEPTH && forall b :: b in old(Waiting()) ==> b.kind.Facch?
      ensures State() == old(State()).(queue := Substituted(old(Waiting()), coded))
    {
      hide Ring;
      ghost var q := Waiting();
      for offset := 0 to count
        invariant Waiting() == q && forall i :: 0 <= i < offset ==> q[i].kind.Facch?
      {
        var at := (head + offset) % QUEUE_DEPTH;
        ghost var slots := queue[..];
        RingSet(slots, head, count, offset, TrafficBlock(coded, Facch));
        assert queue[at] == q[offset];
        if queue[at].kind.Speech? {
          queue[at] := TrafficBlock(coded, Facch);
          StealAt(q, offset, coded);
          assert queue[..] == slots[at := TrafficBlock(coded, Facch)];
          return true;
        }
      }
      accepted := Enqueue(TrafficBlock(coded, Facch));
    }

    method NextBurst() returns (burst: BurstPayload)
      requires Valid()
      modifies this
      ensures Valid() && State() == Transmit(old(State())).0 && burst == Transmit(old(State())).1
    {
      hide Diagonal, MarkFacch, Combine, Ring;
      ghost var before := State();
      if phase == 0 {
        previous := current;
        current := EMPTY_BURSTS;
        if count > 0 {
          var block := queue[head];
          RingHead(queue[..], head, count);
          current := Interleave(block.coded);
          if block.kind.Facch? {
            current := MarkFacch(current);
          }
          head := (head + 1) % QUEUE_DEPTH;
          count := count - 1;
        }
      }
      assert State() == Loaded(before);
      burst := CombineDiagonal(previous, current, phase);
      phase := (phase + 1) % 4;
    }

    method Reset()
      requires Valid()
      modifies this, queue
      ensures Valid() && State() == TX_RESET
    {
      forall i | 0 <= i < QUEUE_DEPTH {
        queue[i] := TrafficBlock(Zeros(CODED_BITS), Speech);
      }
      head, count, phase := 0, 0, 0;
      previous, current := EMPTY_BURSTS, EMPTY_BURSTS;
    }
  }

  lemma {:induction false} StealAt(q: seq<TrafficBlock>, at: nat, coded: seq<bool>)
    requires at < |q| && q[at].kind.Speech? && forall i :: 0 <= i < at ==> q[i].kind.Facch?
    ensures Steal(q, coded) == q[at := TrafficBlock(coded, Facch)]
  {
    if at > 0 {
      StealAt(q[1..], at - 1, coded);
      assert q[at := TrafficBlock(coded, Facch)] == [q[0]] + q[1..][at - 1 := TrafficBlock(coded, Facch)];
    }
  }

  class DiagonalReceiver {
    var phase: nat
    var pendingValid: bool
    var pending: seq<BurstPayload>
    var incoming: seq<BurstPayload>
    const importance: array<nat>

    ghost predicate Valid()
      reads this, importance
    {
      State().Valid() && importance[..] == Importance.ImportanceMap()
    }

    ghost function State(): RxState
      reads this
    {
      RxState(phase, pendingValid, pending, incoming)
    }

    constructor (importance: array<nat>)
      requires importance[..] == Importance.ImportanceMap()
      ensures Valid() && State() == RX_RESET
    {
      phase, pendingValid := 0, false;
      pending, incoming := EMPTY_BURSTS, EMPTY_BURSTS;
      this.importance := importance;
    }

    method Accept(burst: BurstPayload) returns (result: Option<Reception>)
      requires Valid() && burst.Valid()
      modifies this
      ensures Valid() && State() == Receive(old(State()), burst).0 && result == Receive(old(State()), burst).1
    {
      hide C.DecodeControl, S.DecodeSpeech, Undiagonal, Importance.ImportanceMap;
      pending := pending[4 + phase := burst];
      incoming := incoming[phase := burst];
      result := None;
      if phase == 3 {
        if pendingValid {
          var coded := Deinterleave(pending);
          if IndicatesFacch(pending) {
            var control := C.DecodeControlBlock(coded);
            result := Some(Reception(Facch, NO_SPEECH, control));
          } else {
            var speech := S.DecodeSpeechBlock(coded, importance);
            result := Some(Reception(Speech, speech, NO_CONTROL));
          }
        }
        pending := incoming;
        incoming := EMPTY_BURSTS;
        pendingValid := true;
      }
      phase := (phase + 1) % 4;
    }

    method Reset()
      requires Valid()
      modifies this
      ensures Valid() && State() == RX_RESET
    {
      phase, pendingValid := 0, false;
      pending, incoming := EMPTY_BURSTS, EMPTY_BURSTS;
    }
  }
}
