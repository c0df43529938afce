/** The two packet rings in the memory shared by MCU and DSP: variable-length packets of big-endian words,
    wrapping round a fixed stretch of the memory. */
module PacketRings {
  import opened Integers

  const RAM_WORDS := 0x800
  const TX_PRODUCER := 0x52
  const TX_CONSUMER := 0x53
  const TX_WORDS := 0x52
  const RX_START := 0x80
  const RX_END := 0xe4
  const RX_PRODUCER := 0xe4
  const RX_CONSUMER := 0xe5

  type Word = w: nat | w < 0x1_0000

  datatype Packet = Packet(kind: Byte, payload: seq<Byte>) {
    predicate Valid() {
      |payload| <= 255
    }
  }

  // ----- Packets as words -----

  function WordCount(length: nat): nat {
    (length + 3) / 2
  }

  function BigEndian(high: int, low: int): int {
    high * 0x100 + low
  }

  /** Word `k` of the payload: two octets, the second missing from an odd tail. */
  function PayloadWord(payload: seq<Byte>, k: nat): Word
    requires 2 * k < |payload|
  {
    BigEndian(payload[2 * k], if 2 * k + 1 < |payload| then payload[2 * k + 1] else 0)
  }

  function Words(p: Packet): (ws: seq<Word>)
    requires p.Valid()
    ensures |ws| == WordCount(|p.payload|)
  {
    [BigEndian(|p.payload|, p.kind)] +
    seq((|p.payload| + 1) / 2, k requires 0 <= k < (|p.payload| + 1) / 2 => PayloadWord(p.payload, k))
  }

  /** The words in figures: length and kind, then two octets a word, the first of them in the upper half. */
  lemma WordsInFigures(p: Packet, k: nat)
    requires p.Valid() && 2 * k < |p.payload|
    ensures Words(p)[0] / 0x100 == |p.payload| && Words(p)[0] % 0x100 == p.kind
    ensures Words(p)[k + 1] / 0x100 == p.payload[2 * k]
    ensures Words(p)[k + 1] % 0x100 == if 2 * k + 1 < |p.payload| then p.payload[2 * k + 1] else 0
  {
  }

  lemma PayloadWordOf(p: Packet, k: nat)
    requires p.Valid() && 2 * k < |p.payload|
    ensures Words(p)[k + 1] == BigEndian(p.payload[2 * k], if 2 * k + 1 < |p.payload| then p.payload[2 * k + 1] else 0)
  {
  }

  ghost predicate AllValid(q: seq<Packet>) {
    forall i :: 0 <= i < |q| ==> q[i].Valid()
  }

  function Serialize(q: seq<Packet>): seq<Word>
    requires forall i :: 0 <= i < |q| ==> q[i].Valid()
  {
    if q == [] then [] else Words(q[0]) + Serialize(q[1..])
  }

  lemma {:induction false} SerializeConcat(a: seq<Packet>, b: seq<Packet>)
    requires AllValid(a) && AllValid(b)
    ensures Serialize(a + b) == Serialize(a) + Serialize(b)
  {
    hide Words;
    if a == [] {
      assert a + b == b;
    } else {
      assert (a + b)[1..] == a[1..] + b;
      SerializeConcat(a[1..], b);
    }
  }

  lemma SerializeOne(p: Packet)
    requires p.Valid()
    ensures Serialize([p]) == Words(p)
  {
    hide Words;
    assert [p][1..] == [];
  }

  function PayloadByte(ws: seq<Word>, i: nat): Byte
    requires 1 + i / 2 < |ws|
  {
    if i % 2 == 1 then ws[1 + i / 2] % 0x100 else ws[1 + i / 2] / 0x100
  }

  /** The packet at the front of some words, if it is there completely. */
  function Front(ws: seq<Word>): (r: Option<Packet>)
    ensures r.Some? ==> r.value.Valid() && WordCount(|r.value.payload|) <= |ws|
  {
    if ws == [] then None
    else
      var length := ws[0] / 0x100;
      if WordCount(length) > |ws| then None
      else Some(Packet(ws[0] % 0x100, seq(length, i requires 0 <= i < length => PayloadByte(ws, i))))
  }

  lemma FrontFits(ws: seq<Word>)
    ensures Front(ws).Some? ==> WordCount(|Front(ws).value.payload|) <= |ws|
  {
  }

  /** A complete packet in front is recognised, whatever follows it. */
  lemma FrontOfWords(p: Packet, rest: seq<Word>)
    requires p.Valid()
    ensures Front(Words(p) + rest) == Some(p)
  {
    var ws := Words(p) + rest;
    assert ws[0] == BigEndian(|p.payload|, p.kind);
    assert ws[0] / 0x100 == |p.payload| && ws[0] % 0x100 == p.kind;
    forall i | 0 <= i < |p.payload|
      ensures PayloadByte(ws, i) == p.payload[i]
    {
      assert ws[1 + i / 2] == PayloadWord(p.payload, i / 2);
    }
    assert Front(ws).value.payload == p.payload;
  }

  /** Part of a packet is never taken for one. */
  lemma FrontOfPart(p: Packet, n: nat)
    requires p.Valid() && n < |Words(p)|
    ensures Front(Words(p)[..n]) == None
  {
    if n > 0 {
      assert Words(p)[..n][0] == BigEndian(|p.payload|, p.kind);
    }
  }

  lemma OnlyNothingIsEmpty(q: seq<Packet>)
    requires AllValid(q)
    ensures Serialize(q) == [] <==> q == []
  {
  }

  /** One word string is the serialization of at most one packet sequence. */
  lemma {:induction false} SerializeIsInjective(a: seq<Packet>, b: seq<Packet>)
    requires AllValid(a) && AllValid(b) && Serialize(a) == Serialize(b)
    ensures a == b
  {
    hide Words, Front;
    if a != [] && b != [] {
      FrontOfWords(a[0], Serialize(a[1..]));
      FrontOfWords(b[0], Serialize(b[1..]));
      assert Serialize(a)[|Words(a[0])|..] == Serialize(a[1..]);
      assert Serialize(b)[|Words(b[0])|..] == Serialize(b[1..]);
      SerializeIsInjective(a[1..], b[1..]);
      assert a == [a[0]] + a[1..] && b == [b[0]] + b[1..];
    } else {
      OnlyNothingIsEmpty(a);
      OnlyNothingIsEmpty(b);
    }
  }

  // ----- Rings -----

  function Available(size: nat, consumer: nat, producer: nat): (n: nat)
    requires consumer < size && producer < size
    ensures n < size
  {
    if producer >= consumer then producer - consumer else size - consumer + producer
  }

  function Advance(size: nat, cursor: nat): (r: nat)
    requires cursor < size
    ensures r < size
  {
    if cursor + 1 == size then 0 else cursor + 1
  }

  datatype Ring = Ring(words: seq<Word>, consumer: nat, producer: nat) {
    predicate Valid() {
      consumer < |words| && producer < |words|
    }

    /** The unread words, oldest first. */
    function Unread(): (ws: seq<Word>)
      requires Valid()
      ensures |ws| == Available(|words|, consumer, producer)
    {
      seq(Available(|words|, consumer, producer), i requires 0 <= i < Available(|words|, consumer, producer) =>
        words[(consumer + i) % |words|])
    }

    function Put(w: Word): (r: Ring)
      requires Valid()
      ensures r.Valid() && |r.words| == |words|
    {
      Ring(words[producer := w], consumer, Advance(|words|, producer))
    }

    function PutAll(ws: seq<Word>): (r: Ring)
      requires Valid()
      ensures r.Valid() && |r.words| == |words|
    {
      if ws == [] then this else PutAll(ws[..|ws| - 1]).Put(ws[|ws| - 1])
    }

    /** The consumer moved past `n` words. */
    function Skip(n: nat): (r: Ring)
      requires Valid()
      ensures r.Valid() && |r.words| == |words|
    {
      Ring(words, (consumer + n) % |words|, producer)
    }

    /** One slot always stays empty. */
    predicate Accepts(length: nat)
      requires Valid()
    {
      length <= 255 && |Unread()| + WordCount(length) < |words|
    }

    function Delivered(p: Packet): (r: Ring)
      requires Valid()
      ensures r.Valid() && |r.words| == |words|
    {
      if Accepts(|p.payload|) then PutAll(Words(p)) else this
    }

    function Polled(): (r: Ring)
      requires Valid()
      ensures r.Valid() && |r.words| == |words|
    {
      match Front(Unread())
      case None => this
      case Some(p) => Skip(WordCount(|p.payload|))
    }
  }

  lemma WrapOnce(size: nat, n: nat)
    requires 0 < size && n < 2 * size
    ensures n % size == if n < size then n else n - size
  {
    if n >= size {
      assert n == size * 1 + (n - size);
      Quotient(n, 1, n - size, size);
    } else {
      Quotient(n, 0, n, size);
    }
  }

  lemma UnreadAt(ring: Ring, i: nat)
    requires ring.Valid() && i < |ring.Unread()|
    ensures ring.Unread()[i] == ring.words[(ring.consumer + i) % |ring.words|]
  {
  }

  /** Putting one word at the producer of a ring that is not full appends it to the unread words. */
  lemma PutAppends(ring: Ring, w: Word)
    requires ring.Valid() && |ring.Unread()| + 1 < |ring.words|
    ensures ring.Put(w).Unread() == ring.Unread() + [w]
  {
    var size, n := |ring.words|, |ring.Unread()|;
    var before, after := ring.Unread(), ring.Put(w).Unread();
    WrapOnce(size, ring.consumer + n);
    forall i | 0 <= i < n
      ensures after[i] == before[i]
    {
      WrapOnce(size, ring.consumer + i);
    }
  }

  lemma {:induction false} PutAllAppends(ring: Ring, ws: seq<Word>)
    requires ring.Valid() && |ring.Unread()| + |ws| < |ring.words|
    ensures ring.PutAll(ws).Unread() == ring.Unread() + ws
  {
    hide Ring.Unread, Ring.Put;
    if ws != [] {
      PutAllAppends(ring, ws[..|ws| - 1]);
      PutAppends(ring.PutAll(ws[..|ws| - 1]), ws[|ws| - 1]);
    }
  }

  lemma {:induction false} PutAllOutside(ring: Ring, ws: seq<Word>)
    requires ring.Valid()
    ensures ring.PutAll(ws).consumer == ring.consumer
  {
    if ws != [] {
      PutAllOutside(ring, ws[..|ws| - 1]);
    }
  }

  /** Moving the consumer past the first `n` unread words drops them. */
  lemma SkipDrops(ring: Ring, n: nat)
    requires ring.Valid() && n <= |ring.Unread()|
    ensures ring.Skip(n).Unread() == ring.Unread()[n..]
  {
    var size, consumer := |ring.words|, ring.consumer;
    WrapOnce(size, consumer + n);
    var after, before := ring.Skip(n).Unread(), ring.Unread();
    forall i | 0 <= i < |after|
      ensures after[i] == before[n..][i]
    {
      WrapOnce(size, consumer + n + i);
      WrapOnce(size, (consumer + n) % size + i);
    }
  }

  // ----- The shared memory -----

  predicate ValidRam(ram: seq<Word>) {
    |ram| == RAM_WORDS
  }

  predicate RxCursorsInRange(ram: seq<Word>)
    requires ValidRam(ram)
  {
    RX_START <= ram[RX_PRODUCER] < RX_END && RX_START <= ram[RX_CONSUMER] < RX_END
  }

  function RxRing(ram: seq<Word>): (r: Ring)
    requires ValidRam(ram) && RxCursorsInRange(ram)
    ensures r.Valid() && |r.words| == RX_END - RX_START
  {
    Ring(ram[RX_START..RX_END], ram[RX_CONSUMER] - RX_START, ram[RX_PRODUCER] - RX_START)
  }

  function TxRing(ram: seq<Word>): (r: Ring)
    requires ValidRam(ram)
    ensures r.Valid() && |r.words| == TX_WORDS
  {
    Ring(ram[..TX_WORDS], ram[TX_CONSUMER] % TX_WORDS, ram[TX_PRODUCER] % TX_WORDS)
  }

  class DspInterface {
    const ram: array<Word>

    ghost predicate Valid()
      reads this, ram
    {
      ram.Length == RAM_WORDS
    }

    constructor ()
      ensures Valid() && fresh(ram)
    {
      ram := new Word[RAM_WORDS](_ => 0);
    }

    method PeerSharedWrite(offset: nat, data: Word)
      requires Valid()
      modifies ram
      ensures ram[..] == old(ram[..])[offset % RAM_WORDS := data]
    {
      ram[offset % RAM_WORDS] := data;
    }

    /** One word into the receive ring at `producer`. */
    method Put(producer: nat, value: Word, ghost ring: Ring) returns (next: nat)
      requires Valid() && RX_START <= producer < RX_END
      requires ring.Valid() && ring.words == ram[RX_START..RX_END] && ring.producer == producer - RX_START
      modifies ram
      ensures RX_START <= next < RX_END
      ensures ring.Put(value).words == ram[RX_START..RX_END] && ring.Put(value).producer == next - RX_START
      ensures forall i :: 0 <= i < RAM_WORDS && !(RX_START <= i < RX_END) ==> ram[i] == old(ram[i])
    {
      ram[producer] := value;
      next := producer + 1;
      if next == RX_END {
        next := RX_START;
      }
    }

    /** Accepts the packet exactly when it is short enough and its words fit with one slot to spare; then they
        follow the unread words, which do not change, and nothing outside ring and producer does.
        A refusal changes nothing. */
    method EnqueueRxPacket(kind: Byte, payload: seq<Byte>) returns (ok: bool)
      requires Valid()
      modifies ram
      ensures ok == (RxCursorsInRange(old(ram[..])) && RxRing(old(ram[..])).Accepts(|payload|))
      ensures RxCursorsInRange(old(ram[..])) ==>
                (ok <==> |payload| <= 255 && |RxRing(old(ram[..])).Unread()| + (|payload| + 3) / 2 <= 99)
      ensures !ok ==> ram[..] == old(ram[..])
      ensures RxCursorsInRange(old(ram[..])) ==>
                RxCursorsInRange(ram[..]) && RxRing(ram[..]) == RxRing(old(ram[..])).Delivered(Packet(kind, payload))
      ensures ok ==> RxRing(ram[..]).Unread() == RxRing(old(ram[..])).Unread() + Words(Packet(kind, payload))
      ensures forall i :: 0 <= i < RAM_WORDS && !(RX_START <= i <= RX_PRODUCER) ==> ram[i] == old(ram[i])
    {
      if |payload| > 255 {
        return false;
      }
      var words := WordCount(|payload|);
      var producer: nat := ram[RX_PRODUCER];
      var consumer: nat := ram[RX_CONSUMER];
      if producer < RX_START || producer >= RX_END || consumer < RX_START || consumer >= RX_END {
        return false;
      }
      var freeWords := if consumer > producer then consumer - producer - 1
                       else RX_END - producer + (consumer - RX_START) - 1;
      if words == 0 || words > freeWords {
        return false;
      }
      hide Ring.Unread, Ring.PutAll, Words;
      ghost var ring := RxRing(ram[..]);
      ghost var all := Words(Packet(kind, payload));
      producer := PutPacket(producer, kind, payload, ring);
      ghost var placed := ram[RX_START..RX_END];
      PeerSharedWrite(RX_PRODUCER, producer);
      assert ram[RX_START..RX_END] == placed;
      PutAllOutside(ring, all);
      assert RxRing(ram[..]) == ring.PutAll(all);
      PutAllAppends(ring, all);
      return true;
    }

    /** The header and payload words, one after another. */
    method PutPacket(start: nat, kind: Byte, payload: seq<Byte>, ghost ring: Ring) returns (producer: nat)
      requires Valid() && RX_START <= start < RX_END && |payload| <= 255
      requires ring.Valid() && ring.words == ram[RX_START..RX_END] && ring.producer == start - RX_START
      modifies ram
      ensures RX_START <= producer < RX_END
      ensures var r := ring.PutAll(Words(Packet(kind, payload)));
              r.words == ram[RX_START..RX_END] && r.producer == producer - RX_START
      ensures forall i :: 0 <= i < RAM_WORDS && !(RX_START <= i < RX_END) ==> ram[i] == old(ram[i])
    {
      hide Ring.Put, PayloadWord;
      ghost var all := Words(Packet(kind, payload));
      producer := Put(start, BigEndian(|payload|, kind), ring);
      PutNext(ring, [], all[0]);
      assert all[..1] == [all[0]];
      for k := 0 to (|payload| + 1) / 2
        invariant RX_START <= producer < RX_END
        invariant forall i :: 0 <= i < RAM_WORDS && !(RX_START <= i < RX_END) ==> ram[i] == old(ram[i])
        invariant ring.PutAll(all[..k + 1]).words == ram[RX_START..RX_END]
        invariant ring.PutAll(all[..k + 1]).producer == producer - RX_START
      {
        var value: Word := BigEndian(payload[2 * k], if 2 * k + 1 < |payload| then payload[2 * k + 1] else 0);
        assert all[k + 1] == value by {
          PayloadWordOf(Packet(kind, payload), k);
        }
        producer := Put(producer, value, ring.PutAll(all[..k + 1]));
        PutNext(ring, all[..k + 1], value);
        assert all[..k + 1] + [value] == all[..k + 2];
      }
      assert all[..(|payload| + 1) / 2 + 1] == all;
    }

    /** The oldest complete packet of the transmit ring, if there is one. */
    method PeekTxPacket() returns (result: Option<Packet>)
      requires Valid()
      ensures result == Front(TxRing(ram[..]).Unread())
    {
      hide Ring.Unread;
      var cursor := ram[TX_CONSUMER] % TX_WORDS;
      var producer := ram[TX_PRODUCER] % TX_WORDS;
      ghost var ring := TxRing(ram[..]);
      ghost var unread := ring.Unread();
      if cursor == producer {
        return None;
      }
      var header := ram[cursor];
      UnreadAt(ring, 0);
      var length, kind := header / 0x100, header % 0x100;
      var words := WordCount(length);
      var available := if producer >= cursor then producer - cursor else TX_WORDS - cursor + producer;
      if words == 0 || words > available {
        return None;
      }
      var payload := new Byte[length](_ => 0);
      for i := 0 to length
        invariant forall j :: 0 <= j < i ==> payload[j] == PayloadByte(unread, j)
      {
        UnreadAt(ring, 1 + i / 2);
        payload[i] := TxPayloadByte(cursor, i);
      }
      assert ram[..TX_WORDS] == ring.words;
      assert Front(unread).Some? && payload[..] == Front(unread).value.payload;
      return Some(Packet(kind, payload[..]));
    }

    function TxPayloadByte(cursor: nat, index: nat): Byte
      requires Valid()
      reads this, ram
    {
      var packed := ram[(cursor + 1 + index / 2) % TX_WORDS];
      if index % 2 == 1 then packed % 0x100 else packed / 0x100
    }

    /** Moves the consumer past a packet that was peeked. */
    method ConsumeTxPacket(packet: Packet)
      requires Valid() && Front(TxRing(ram[..]).Unread()) == Some(packet)
      modifies ram
      ensures TxRing(ram[..]) == TxRing(old(ram[..])).Polled()
      ensures TxRing(ram[..]).Unread() == TxRing(old(ram[..])).Unread()[WordCount(|packet.payload|)..]
      ensures ram[..] == old(ram[..])[TX_CONSUMER := ram[TX_CONSUMER]]
    {
      hide Ring.Unread, Front;
      ghost var before := TxRing(ram[..]);
      var words := WordCount(|packet.payload|);
      FrontFits(before.Unread());
      SkipDrops(before, words);
      CursorWraps(ram[TX_CONSUMER], words);
      PeerSharedWrite(TX_CONSUMER, (ram[TX_CONSUMER] + words) % TX_WORDS);
      assert ram[..TX_WORDS] == before.words;
    }

    /** Takes the oldest complete packet, if there is one. */
    method PollTxPacket() returns (result: Option<Packet>)
      requires Valid()
      modifies ram
      ensures result == Front(TxRing(old(ram[..])).Unread())
      ensures TxRing(ram[..]) == TxRing(old(ram[..])).Polled()
    {
      hide Ring.Unread, Front;
      result := PeekTxPacket();
      if result.Some? {
        ConsumeTxPacket(result.value);
      }
    }
  }

  lemma CursorWraps(cursor: nat, n: nat)
    ensures (cursor + n) % TX_WORDS == (cursor % TX_WORDS + n) % TX_WORDS
  {
    var q := cursor / TX_WORDS;
    assert cursor + n == TX_WORDS * q + (cursor % TX_WORDS + n);
  }

  lemma PutNext(ring: Ring, ws: seq<Word>, w: Word)
    requires ring.Valid()
    ensures ring.PutAll(ws + [w]) == ring.PutAll(ws).Put(w)
  {
    assert (ws + [w])[..|ws|] == ws;
  }

  // ----- FIFO refinement -----

  /** If the unread words of a ring spell the packets `q`, appending the words of `p` makes them spell `q + [p]`,
      and no other queue. */
  lemma AppendExtendsQueue(unread: seq<Word>, q: seq<Packet>, p: Packet, other: seq<Packet>)
    requires AllValid(q) && p.Valid() && AllValid(other) && unread == Serialize(q)
    ensures unread + Words(p) == Serialize(q + [p])
    ensures unread + Words(p) == Serialize(other) ==> other == q + [p]
  {
    hide Words;
    SerializeConcat(q, [p]);
    SerializeOne(p);
    if unread + Words(p) == Serialize(other) {
      SerializeIsInjective(other, q + [p]);
    }
  }

  /** The packet a poll finds, as a sequence. */
  function Found(ring: Ring): (ps: seq<Packet>)
    requires ring.Valid()
    ensures forall i :: 0 <= i < |ps| ==> ps[i].Valid()
  {
    match Front(ring.Unread())
    case None => []
    case Some(p) => [p]
  }

  // ----- The receive ring over every run -----

  datatype RxEvent = Deliver(packet: Packet) | Take

  /** The receive ring with the packets that were accepted and those the MCU took. */
  datatype RxWorld = RxWorld(ring: Ring, accepted: seq<Packet>, taken: seq<Packet>)

  /** A delivery is a call of EnqueueRxPacket; the MCU advances its cursor by whole packets. */
  function StepRx(w: RxWorld, e: RxEvent): (r: RxWorld)
    requires w.ring.Valid()
    ensures r.ring.Valid()
  {
    match e
    case Deliver(p) =>
      RxWorld(w.ring.Delivered(p), if w.ring.Accepts(|p.payload|) then w.accepted + [p] else w.accepted, w.taken)
    case Take => RxWorld(w.ring.Polled(), w.accepted, w.taken + Found(w.ring))
  }

  /** From a ring in which the packets `q` already wait. */
  function RunRx(start: Ring, q: seq<Packet>, es: seq<RxEvent>): (w: RxWorld)
    requires start.Valid()
    ensures w.ring.Valid()
  {
    if es == [] then RxWorld(start, q, []) else StepRx(RunRx(start, q, es[..|es| - 1]), es[|es| - 1])
  }

  /** What was accepted and not yet taken is what the unread words spell. */
  ghost predicate RxGood(w: RxWorld) {
    && w.ring.Valid() && AllValid(w.accepted)
    && w.taken <= w.accepted
    && w.ring.Unread() == Serialize(w.accepted[|w.taken|..])
  }

  lemma DeliverKeepsRxGood(w: RxWorld, p: Packet)
    requires RxGood(w)
    ensures RxGood(StepRx(w, Deliver(p)))
  {
    hide Ring.Unread, Ring.PutAll, Words;
    if w.ring.Accepts(|p.payload|) {
      var left := w.accepted[|w.taken|..];
      PutAllAppends(w.ring, Words(p));
      SerializeConcat(left, [p]);
      SerializeOne(p);
      assert (w.accepted + [p])[|w.taken|..] == left + [p];
    }
  }

  lemma TakeKeepsRxGood(w: RxWorld)
    requires RxGood(w)
    ensures RxGood(StepRx(w, Take))
    ensures Front(w.ring.Unread()) == if w.taken == w.accepted then None else Some(w.accepted[|w.taken|])
  {
    hide Ring.Unread, Front, Words;
    var left := w.accepted[|w.taken|..];
    if left == [] {
      NothingInFront();
    } else {
      FrontOfWords(left[0], Serialize(left[1..]));
      SkipDrops(w.ring, |Words(left[0])|);
      assert left[1..] == w.accepted[|w.taken| + 1..];
    }
  }

  lemma NothingInFront()
    ensures Front([]) == None
  {
  }

  lemma {:induction false} RxRunIsGood(start: Ring, q: seq<Packet>, es: seq<RxEvent>)
    requires start.Valid() && AllValid(q) && start.Unread() == Serialize(q)
    ensures RxGood(RunRx(start, q, es))
  {
    hide Ring.Unread, StepRx, Serialize;
    if es == [] {
      assert q[0..] == q;
    } else {
      var before, e := es[..|es| - 1], es[|es| - 1];
      RxRunIsGood(start, q, before);
      match e
      case Deliver(p) => DeliverKeepsRxGood(RunRx(start, q, before), p);
      case Take => TakeKeepsRxGood(RunRx(start, q, before));
    }
  }

  /** Over every interleaving of deliveries and takings, from any ring whose unread words spell packets: the packets
      taken are the first of those accepted, unchanged across every wrap; the others still wait in order,
      and the ring shows a packet exactly when one waits. */
  lemma RxRingIsFifo(start: Ring, q: seq<Packet>, es: seq<RxEvent>)
    requires start.Valid() && AllValid(q) && start.Unread() == Serialize(q)
    ensures var w := RunRx(start, q, es);
            AllValid(w.accepted) && w.taken <= w.accepted &&
            w.ring.Unread() == Serialize(w.accepted[|w.taken|..]) &&
            Front(w.ring.Unread()) == if w.taken == w.accepted then None else Some(w.accepted[|w.taken|])
  {
    hide Ring.Unread, Front, RunRx;
    RxRunIsGood(start, q, es);
    TakeKeepsRxGood(RunRx(start, q, es));
  }

  // ----- The transmit ring over every run -----

  datatype RingEvent = Commit(word: Word) | Poll

  /** The transmit ring with everything the MCU ever committed and every packet the DSP side took. */
  datatype TxWorld = TxWorld(ring: Ring, committed: seq<Word>, taken: seq<Packet>) {
    predicate Valid() {
      ring.Valid() && |ring.words| == TX_WORDS && forall i :: 0 <= i < |taken| ==> taken[i].Valid()
    }

    function Waiting(): seq<Word>
      requires Valid()
    {
      ring.Unread()
    }
  }

  /** The MCU commits a word when the ring has room for it; a poll is a call of PollTxPacket. */
  function StepTx(w: TxWorld, e: RingEvent): (r: TxWorld)
    requires w.Valid()
    ensures r.Valid()
  {
    match e
    case Commit(word) =>
      if |w.Waiting()| + 1 < TX_WORDS then TxWorld(w.ring.Put(word), w.committed + [word], w.taken) else w
    case Poll => TxWorld(w.ring.Polled(), w.committed, w.taken + Found(w.ring))
  }

  /** From any ring of the transmit size; the words then unread were committed before. */
  function RunTx(start: Ring, es: seq<RingEvent>): (w: TxWorld)
    requires start.Valid() && |start.words| == TX_WORDS
    ensures w.Valid()
  {
    if es == [] then TxWorld(start, start.Unread(), []) else StepTx(RunTx(start, es[..|es| - 1]), es[|es| - 1])
  }

  /** Some of the words of `p`, but not all. */
  ghost predicate IsPart(part: seq<Word>, p: Packet)
    requires p.Valid()
  {
    |part| < |Words(p)| && part == Words(p)[..|part|]
  }

  /** The committed words are whole packets and perhaps the beginning of one more. */
  ghost predicate InFormat(words: seq<Word>, ps: seq<Packet>, last: Packet)
    requires AllValid(ps) && last.Valid()
  {
    |words| >= |Serialize(ps)| && words[..|Serialize(ps)|] == Serialize(ps) && IsPart(words[|Serialize(ps)|..], last)
  }

  /** What has been taken, followed by what waits, is what was committed. */
  ghost predicate Accounted(w: TxWorld)
    requires w.Valid()
  {
    w.committed == Serialize(w.taken) + w.Waiting()
  }

  lemma FrontSplits(ws: seq<Word>, ps: seq<Packet>, last: Packet)
    requires AllValid(ps) && last.Valid() && InFormat(ws, ps, last)
    ensures Front(ws) == if ps == [] then None else Some(ps[0])
    ensures ps != [] ==> |Words(ps[0])| <= |ws| && ws == Words(ps[0]) + ws[|Words(ps[0])|..] &&
                         InFormat(ws[|Words(ps[0])|..], ps[1..], last)
  {
    hide Words, Front;
    if ps == [] {
      FrontOfPart(last, |ws|);
    } else {
      var n := |Words(ps[0])|;
      var rest := ws[n..];
      assert ws == Words(ps[0]) + rest;
      FrontOfWords(ps[0], rest);
      assert rest[..|Serialize(ps[1..])|] == Serialize(ps[1..]);
      assert rest[|Serialize(ps[1..])|..] == ws[|Serialize(ps)|..];
    }
  }

  /** Whenever what is waiting is in format, a poll takes exactly its first whole packet,
      and nothing if there is none. */
  lemma PollTakesFirstPacket(w: TxWorld, ps: seq<Packet>, last: Packet)
    requires w.Valid() && AllValid(ps) && last.Valid() && InFormat(w.Waiting(), ps, last)
    ensures var r := StepTx(w, Poll);
            if ps == [] then r == w
            else r.taken == w.taken + [ps[0]] && r.committed == w.committed &&
                 w.Waiting() == Words(ps[0]) + r.Waiting() && InFormat(r.Waiting(), ps[1..], last)
  {
    hide Words, Front, Ring.Unread, InFormat;
    FrontSplits(w.Waiting(), ps, last);
    if ps != [] {
      SkipDrops(w.ring, WordCount(|ps[0].payload|));
    }
  }

  lemma DropConcat(a: seq<Packet>, ps: seq<Packet>, n: nat)
    requires n <= |ps| && a == ps[..n] && AllValid(ps)
    ensures Serialize(ps) == Serialize(a) + Serialize(ps[n..])
  {
    assert ps == ps[..n] + ps[n..];
    SerializeConcat(ps[..n], ps[n..]);
  }

  lemma {:induction false} PrefixOfFormat(words: seq<Word>, more: seq<Word>, ps: seq<Packet>, last: Packet)
      returns (qs: seq<Packet>, part: Packet)
    requires AllValid(ps) && last.Valid() && InFormat(more, ps, last) && words <= more
    ensures qs <= ps && AllValid(qs) && part.Valid() && InFormat(words, qs, part)
    decreases |ps|
  {
    hide Words;
    if |words| >= |Serialize(ps)| {
      assert words[|Serialize(ps)|..] == Words(last)[..|words| - |Serialize(ps)|];
      qs, part := ps, last;
    } else {
      var n := |ps| - 1;
      var front := ps[..n];
      DropConcat(front, ps, n);
      assert ps[n..] == [ps[n]];
      SerializeOne(ps[n]);
      if |words| >= |Serialize(front)| {
        assert more[..|Serialize(ps)|][|Serialize(front)|..] == Words(ps[n]);
        assert words[|Serialize(front)|..] == Words(ps[n])[..|words| - |Serialize(front)|];
        qs, part := front, ps[n];
      } else {
        var shorter := more[..|Serialize(front)|];
        assert shorter[|Serialize(front)|..] == [] == Words(last)[..0];
        WordsAreNotEmpty(last);
        qs, part := PrefixOfFormat(words, shorter, front, last);
      }
    }
  }

  lemma WordsAreNotEmpty(p: Packet)
    requires p.Valid()
    ensures |Words(p)| > 0
  {
  }

  lemma WaitingInFormat(w: TxWorld, ps: seq<Packet>, last: Packet)
    requires w.Valid() && AllValid(ps) && last.Valid()
    requires Accounted(w) && w.taken <= ps && InFormat(w.committed, ps, last)
    ensures InFormat(w.Waiting(), ps[|w.taken|..], last)
  {
    hide Words, Front, Ring.Unread;
    var rest := Serialize(ps[|w.taken|..]);
    DropConcat(w.taken, ps, |w.taken|);
    var waiting := w.Waiting();
    assert |waiting| >= |rest|;
    assert waiting[..|rest|] == w.committed[..|Serialize(ps)|][|Serialize(w.taken)|..];
    assert waiting[|rest|..] == w.committed[|Serialize(ps)|..];
  }

  lemma PollKeepsAccount(w: TxWorld, ps: seq<Packet>, last: Packet)
    requires w.Valid() && AllValid(ps) && last.Valid()
    requires Accounted(w) && w.taken <= ps && InFormat(w.committed, ps, last)
    ensures var r := StepTx(w, Poll); Accounted(r) && r.taken <= ps && r.committed == w.committed
  {
    hide Words, Front, Ring.Unread, InFormat;
    WaitingInFormat(w, ps, last);
    var left := ps[|w.taken|..];
    PollTakesFirstPacket(w, left, last);
    if left != [] {
      SerializeConcat(w.taken, [left[0]]);
      SerializeOne(left[0]);
    }
  }

  lemma CommitKeepsAccount(w: TxWorld, word: Word)
    requires w.Valid() && Accounted(w)
    ensures var r := StepTx(w, Commit(word)); Accounted(r) && r.taken == w.taken && w.committed <= r.committed
  {
    hide Words, Front, Ring.Unread;
    if |w.Waiting()| + 1 < TX_WORDS {
      PutAppends(w.ring, word);
    }
  }

  lemma {:induction false} RunIsAccounted(start: Ring, es: seq<RingEvent>, ps: seq<Packet>, last: Packet)
    requires start.Valid() && |start.words| == TX_WORDS
    requires AllValid(ps) && last.Valid() && InFormat(RunTx(start, es).committed, ps, last)
    ensures Accounted(RunTx(start, es)) && RunTx(start, es).taken <= ps
    decreases |es|
  {
    hide Words, Front, Ring.Unread, InFormat, StepTx, Accounted;
    if es == [] {
      EmptyRunIsAccounted(start);
    } else {
      var before, e := es[..|es| - 1], es[|es| - 1];
      var w := RunTx(start, before);
      match e
      case Poll =>
        PollKeepsCommitted(w);
        RunIsAccounted(start, before, ps, last);
        PollKeepsAccount(w, ps, last);
      case Commit(word) =>
        CommitGrows(w, word);
        var qs, part := PrefixOfFormat(w.committed, RunTx(start, es).committed, ps, last);
        RunIsAccounted(start, before, qs, part);
        CommitKeepsAccount(w, word);
    }
  }

  lemma EmptyRunIsAccounted(start: Ring)
    requires start.Valid() && |start.words| == TX_WORDS
    ensures Accounted(RunTx(start, [])) && RunTx(start, []).taken == []
  {
  }

  lemma PollKeepsCommitted(w: TxWorld)
    requires w.Valid()
    ensures StepTx(w, Poll).committed == w.committed
  {
  }

  lemma CommitGrows(w: TxWorld, word: Word)
    requires w.Valid()
    ensures w.committed <= StepTx(w, Commit(word)).committed
  {
  }

  /** Over every interleaving of commits and polls in which the MCU has written packets `ps` and part of another,
      the packets taken are the first of `ps`, in order and unchanged across every wrap; the others still wait
      behind them, and a poll finds nothing exactly when all of `ps` has been taken. */
  lemma TxRingIsFifo(start: Ring, es: seq<RingEvent>, ps: seq<Packet>, last: Packet)
    requires start.Valid() && |start.words| == TX_WORDS
    requires AllValid(ps) && last.Valid() && InFormat(RunTx(start, es).committed, ps, last)
    ensures var w := RunTx(start, es);
            w.taken <= ps && w.committed == Serialize(w.taken) + w.Waiting() &&
            Front(w.Waiting()) == if w.taken == ps then None else Some(ps[|w.taken|])
  {
    hide Words, Front, Ring.Unread, RunTx;
    var w := RunTx(start, es);
    RunIsAccounted(start, es, ps, last);
    WaitingInFormat(w, ps, last);
    FrontSplits(w.Waiting(), ps[|w.taken|..], last);
    assert ps[|w.taken|..] == [] <==> w.taken == ps;
  }
}
