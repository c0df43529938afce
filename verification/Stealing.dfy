/** Stealing speech blocks for signalling: what every run keeps when speech enters by submission
    and signalling only by substitution. */
module Stealing {
  import opened Bits
  import opened Interleaver
  import opened DiagonalStream
  import opened Pipeline

  /** The discipline the two callers follow. */
  ghost predicate Disciplined(es: seq<Event>) {
    ValidEvents(es) && forall i :: 0 <= i < |es| && es[i].Submit? ==> es[i].block.kind.Speech?
  }

  function OfKind(bs: seq<TrafficBlock>, kind: Kind): seq<seq<bool>> {
    if bs == [] then []
    else OfKind(bs[..|bs| - 1], kind) + if bs[|bs| - 1].kind == kind then [bs[|bs| - 1].coded] else []
  }

  /** Blocks that have left the queue, oldest first. */
  function Departed(loads: seq<Load>): seq<TrafficBlock> {
    if loads == [] then []
    else Departed(loads[..|loads| - 1]) + if loads[|loads| - 1].Idle? then [] else [loads[|loads| - 1].block]
  }

  /** The speech block an event brings into the queue, if any. */
  function SpeechBrought(w: World, e: Event): seq<seq<bool>> {
    if e.Submit? && |w.tx.queue| < QUEUE_DEPTH then [e.block.coded] else []
  }

  /** The speech blocks the queue accepted, in the order they came. */
  ghost function SpeechAccepted(es: seq<Event>): seq<seq<bool>>
    requires ValidEvents(es)
  {
    if es == [] then []
    else SpeechAccepted(es[..|es| - 1]) + SpeechBrought(Run(es[..|es| - 1]), es[|es| - 1])
  }

  /** The signalling blocks the queue accepted, in the order they came. */
  ghost function FacchAccepted(es: seq<Event>): seq<seq<bool>>
    requires ValidEvents(es)
  {
    if es == [] then []
    else
      var before, e := es[..|es| - 1], es[|es| - 1];
      FacchAccepted(before) + if e.Substitute? && Substitutes(Run(before).tx.queue) then [e.coded] else []
  }

  /** The speech block a substitution takes, if any waits. */
  function Victim(q: seq<TrafficBlock>): seq<seq<bool>> {
    var waiting := OfKind(q, Speech);
    if waiting == [] then [] else waiting[..1]
  }

  function SpeechTaken(w: World, e: Event): seq<seq<bool>> {
    if e.Substitute? then Victim(w.tx.queue) else []
  }

  /** The speech blocks that signalling took the place of, in the order they were taken. */
  ghost function SpeechStolen(es: seq<Event>): seq<seq<bool>>
    requires ValidEvents(es)
  {
    if es == [] then []
    else SpeechStolen(es[..|es| - 1]) + SpeechTaken(Run(es[..|es| - 1]), es[|es| - 1])
  }

  /** `a` is `b` with some elements left out. */
  predicate Thinned<T(==)>(a: seq<T>, b: seq<T>)
    decreases |b|
  {
    a == [] ||
    (b != [] && (Thinned(a, b[..|b| - 1]) ||
                 (a[|a| - 1] == b[|b| - 1] && Thinned(a[..|a| - 1], b[..|b| - 1]))))
  }

  lemma ThinnedAppend<T>(a: seq<T>, b: seq<T>, x: T)
    requires Thinned(a, b)
    ensures Thinned(a + [x], b + [x])
  {
    assert (a + [x])[..|a|] == a && (b + [x])[..|b|] == b;
  }

  lemma {:induction false} ThinnedDrop<T>(a: seq<T>, x: T, c: seq<T>, b: seq<T>)
    requires Thinned(a + [x] + c, b)
    ensures Thinned(a + c, b)
    decreases |b|
  {
    var whole, shorter := a + [x] + c, b[..|b| - 1];
    if Thinned(whole, shorter) {
      ThinnedDrop(a, x, c, shorter);
    } else if c == [] {
      assert whole[..|whole| - 1] == a && a + c == a;
    } else {
      assert whole[..|whole| - 1] == a + [x] + c[..|c| - 1];
      assert (a + c)[..|a + c| - 1] == a + c[..|c| - 1];
      ThinnedDrop(a, x, c[..|c| - 1], shorter);
    }
  }

  lemma {:induction false} OfKindConcat(a: seq<TrafficBlock>, b: seq<TrafficBlock>, kind: Kind)
    ensures OfKind(a + b, kind) == OfKind(a, kind) + OfKind(b, kind)
  {
    if b == [] {
      assert a + b == a;
    } else {
      assert (a + b)[..|a + b| - 1] == a + b[..|b| - 1];
      OfKindConcat(a, b[..|b| - 1], kind);
    }
  }

  lemma OfKindOne(block: TrafficBlock, kind: Kind)
    ensures OfKind([block], kind) == if block.kind == kind then [block.coded] else []
  {
    assert [block][..0] == [];
  }

  lemma {:induction false} OfKindUniform(bs: seq<TrafficBlock>, kind: Kind)
    requires forall i :: 0 <= i < |bs| ==> bs[i].kind != kind
    ensures OfKind(bs, kind) == []
  {
    if bs != [] {
      OfKindUniform(bs[..|bs| - 1], kind);
    }
  }

  /** All signalling before all speech. */
  predicate SignallingFirst(q: seq<TrafficBlock>) {
    forall i, j :: 0 <= i < j < |q| && q[j].kind.Facch? ==> q[i].kind.Facch?
  }

  /** The queue between its signalling and its speech: where the next substitution lands. */
  lemma SplitQueue(q: seq<TrafficBlock>) returns (at: nat)
    requires SignallingFirst(q)
    ensures at <= |q|
    ensures forall i :: 0 <= i < |q| ==> (q[i].kind.Facch? <==> i < at)
  {
    at := 0;
    while at < |q| && q[at].kind.Facch?
      invariant at <= |q| && forall i :: 0 <= i < at ==> q[i].kind.Facch?
    {
      at := at + 1;
    }
  }

  /** A substitution appends to the signalling and removes at most the oldest waiting speech block. */
  lemma SubstitutionSteals(q: seq<TrafficBlock>, coded: seq<bool>)
    requires SignallingFirst(q) && |q| <= QUEUE_DEPTH
    ensures var r := Substituted(q, coded);
            SignallingFirst(r) &&
            OfKind(r, Facch) == OfKind(q, Facch) + (if Substitutes(q) then [coded] else []) &&
            OfKind(r, Speech) == if HasSpeech(q) then OfKind(q, Speech)[1..] else OfKind(q, Speech)
    ensures HasSpeech(q) <==> OfKind(q, Speech) != []
  {
    hide OfKind, Steal, SignallingFirst;
    var at := SplitQueue(q);
    if at < |q| {
      assert q[at].kind.Speech?;
      StealAtBoundary(q, at, coded);
    } else {
      OfKindUniform(q, Speech);
      SignallingIsAppended(q, coded);
    }
  }

  /** Without speech a substitution is a submission of signalling. */
  lemma SignallingIsAppended(q: seq<TrafficBlock>, coded: seq<bool>)
    requires forall i :: 0 <= i < |q| ==> q[i].kind.Facch?
    ensures var r := q + [TrafficBlock(coded, Facch)];
            SignallingFirst(q) && SignallingFirst(r) && OfKind(r, Facch) == OfKind(q, Facch) + [coded] &&
            OfKind(r, Speech) == OfKind(q, Speech)
  {
    hide OfKind;
    var block := TrafficBlock(coded, Facch);
    OfKindConcat(q, [block], Facch);
    OfKindConcat(q, [block], Speech);
    OfKindOne(block, Facch);
    OfKindOne(block, Speech);
  }

  lemma StealAtBoundary(q: seq<TrafficBlock>, at: nat, coded: seq<bool>)
    requires at < |q| && forall i :: 0 <= i < |q| ==> (q[i].kind.Facch? <==> i < at)
    ensures var r := Steal(q, coded);
            SignallingFirst(r) &&
            OfKind(r, Facch) == OfKind(q, Facch) + [coded] &&
            OfKind(q, Speech) == [q[at].coded] + OfKind(r, Speech)
  {
    hide OfKind, Steal;
    var block := TrafficBlock(coded, Facch);
    var front, back := q[..at], q[at + 1..];
    StealAt(q, at, coded);
    assert q == front + [q[at]] + back;
    assert q[at := block] == front + [block] + back;
    SplitByKind(front, q[at], back);
    SplitByKind(front, block, back);
  }

  lemma SplitByKind(front: seq<TrafficBlock>, middle: TrafficBlock, back: seq<TrafficBlock>)
    requires forall i :: 0 <= i < |front| ==> front[i].kind.Facch?
    requires forall i :: 0 <= i < |back| ==> back[i].kind.Speech?
    ensures var all := front + [middle] + back;
            OfKind(all, Facch) == OfKind(front, Facch) + (if middle.kind.Facch? then [middle.coded] else []) &&
            OfKind(all, Speech) == (if middle.kind.Speech? then [middle.coded] else []) + OfKind(back, Speech)
  {
    forall kind: Kind
      ensures OfKind(front + [middle] + back, kind) == OfKind(front, kind) + OfKind([middle], kind) + OfKind(back, kind)
    {
      OfKindConcat(front + [middle], back, kind);
      OfKindConcat(front, [middle], kind);
    }
    OfKindOne(middle, Facch);
    OfKindOne(middle, Speech);
    OfKindUniform(front, Speech);
    OfKindUniform(back, Facch);
  }

  /** The blocks of one kind that have left or still wait, oldest first. */
  ghost function Held(w: World, kind: Kind): seq<seq<bool>> {
    OfKind(Departed(w.loads), kind) + OfKind(w.tx.queue, kind)
  }

  /** A burst moves the head of the queue to the departed blocks, or changes neither. */
  lemma BurstMovesTheHead(w: World, noise: seq<bool>, kind: Kind)
    requires w.Valid() && |noise| == PAYLOAD_BITS
    ensures Held(StepWorld(w, Burst(noise)), kind) == Held(w, kind)
  {
    hide Combine, BlockBursts, Judge, Receive, OfKind;
    var r := StepWorld(w, Burst(noise));
    if w.tx.phase == 0 {
      assert r.loads[..|r.loads| - 1] == w.loads;
      if w.tx.queue == [] {
        assert Departed(r.loads) == Departed(w.loads);
      } else {
        var head, rest := [w.tx.queue[0]], w.tx.queue[1..];
        assert w.tx.queue == head + rest;
        OfKindConcat(head, rest, kind);
        OfKindConcat(Departed(w.loads), head, kind);
      }
    }
  }

  lemma SubmissionAppends(w: World, block: TrafficBlock, kind: Kind)
    requires w.Valid() && block.Valid()
    ensures Held(StepWorld(w, Submit(block)), kind) ==
            Held(w, kind) + if |w.tx.queue| < QUEUE_DEPTH && block.kind == kind then [block.coded] else []
  {
    hide OfKind;
    OfKindConcat(w.tx.queue, [block], kind);
    OfKindOne(block, kind);
  }

  /** A substitution adds to the signalling; of the speech it at most takes the oldest still waiting. */
  lemma SubstitutionTakesOne(w: World, coded: seq<bool>)
    requires w.Valid() && |coded| == CODED_BITS && SignallingFirst(w.tx.queue)
    ensures var r := StepWorld(w, Substitute(coded));
            SignallingFirst(r.tx.queue) &&
            Held(r, Facch) == Held(w, Facch) + (if Substitutes(w.tx.queue) then [coded] else []) &&
            multiset(Held(r, Speech)) + multiset(Victim(w.tx.queue)) == multiset(Held(w, Speech)) &&
            forall log :: Thinned(Held(w, Speech), log) ==> Thinned(Held(r, Speech), log)
  {
    hide OfKind, Thinned, Substituted, Substitutes;
    SubstitutionSteals(w.tx.queue, coded);
    var r := StepWorld(w, Substitute(coded));
    if HasSpeech(w.tx.queue) {
      var left, waiting := OfKind(Departed(w.loads), Speech), OfKind(w.tx.queue, Speech);
      assert Victim(w.tx.queue) == [waiting[0]];
      assert Held(w, Speech) == left + [waiting[0]] + waiting[1..];
      forall log | Thinned(Held(w, Speech), log)
        ensures Thinned(Held(r, Speech), log)
      {
        ThinnedDrop(left, waiting[0], waiting[1..], log);
      }
    }
  }

  /** In every reachable state all waiting signalling precedes all waiting speech. */
  lemma {:induction false} SignallingPrecedesSpeech(es: seq<Event>)
    requires Disciplined(es)
    ensures SignallingFirst(Run(es).tx.queue)
  {
    if es != [] {
      hide Combine, Judge, Substituted;
      var before, e := es[..|es| - 1], es[|es| - 1];
      SignallingPrecedesSpeech(before);
      if e.Substitute? {
        SubstitutionTakesOne(Run(before), e.coded);
      }
    }
  }

  /** Signalling blocks leave in the order they were accepted; none is lost or repeated. */
  lemma {:induction false} SignallingKeepsOrder(es: seq<Event>)
    requires Disciplined(es)
    ensures Held(Run(es), Facch) == FacchAccepted(es)
  {
    if es != [] {
      hide Held, StepWorld;
      var before, e := es[..|es| - 1], es[|es| - 1];
      var w := Run(before);
      SignallingKeepsOrder(before);
      match e
      case Submit(block) => SubmissionAppends(w, block, Facch);
      case Burst(noise) => BurstMovesTheHead(w, noise, Facch);
      case Substitute(coded) =>
        SignallingPrecedesSpeech(before);
        SubstitutionTakesOne(w, coded);
    }
  }

  /** An event keeps the speech held a part of what was accepted. */
  lemma StepKeepsSpeechInOrder(w: World, e: Event, log: seq<seq<bool>>)
    requires w.Valid() && e.Valid() && SignallingFirst(w.tx.queue) && (e.Submit? ==> e.block.kind.Speech?)
    requires Thinned(Held(w, Speech), log)
    ensures Thinned(Held(StepWorld(w, e), Speech), log + SpeechBrought(w, e))
  {
    hide Held, StepWorld, Thinned, SignallingFirst;
    assert log + [] == log && Held(w, Speech) + [] == Held(w, Speech);
    match e
    case Submit(block) =>
      SubmissionAppends(w, block, Speech);
      ThinnedAppend(Held(w, Speech), log, block.coded);
    case Burst(noise) => BurstMovesTheHead(w, noise, Speech);
    case Substitute(coded) => SubstitutionTakesOne(w, coded);
  }

  /** What left and waits is a part of what was accepted, in its order. */
  lemma {:induction false} SpeechIsInOrder(es: seq<Event>)
    requires Disciplined(es)
    ensures Thinned(Held(Run(es), Speech), SpeechAccepted(es))
  {
    hide Held, StepWorld, Thinned, SpeechBrought, SignallingFirst;
    if es == [] {
      NothingHeld();
    } else {
      var before := es[..|es| - 1];
      SpeechIsInOrder(before);
      SignallingPrecedesSpeech(before);
      StepKeepsSpeechInOrder(Run(before), es[|es| - 1], SpeechAccepted(before));
    }
  }

  /** An event changes the speech held by what it brings and what it takes. */
  lemma StepConservesSpeech(w: World, e: Event)
    requires w.Valid() && e.Valid() && SignallingFirst(w.tx.queue) && (e.Submit? ==> e.block.kind.Speech?)
    ensures multiset(Held(StepWorld(w, e), Speech)) + multiset(SpeechTaken(w, e)) ==
            multiset(Held(w, Speech)) + multiset(SpeechBrought(w, e))
  {
    hide Held, StepWorld, Victim, SignallingFirst;
    match e
    case Submit(block) => SubmissionAppends(w, block, Speech);
    case Burst(noise) => BurstMovesTheHead(w, noise, Speech);
    case Substitute(coded) => SubstitutionTakesOne(w, coded);
  }

  /** What left, what waits and what was stolen is what was accepted. */
  lemma {:induction false} SpeechIsConserved(es: seq<Event>)
    requires Disciplined(es)
    ensures multiset(Held(Run(es), Speech)) + multiset(SpeechStolen(es)) == multiset(SpeechAccepted(es))
  {
    hide Held, StepWorld, SpeechTaken, SpeechBrought, SignallingFirst;
    if es == [] {
      NothingHeld();
    } else {
      var before := es[..|es| - 1];
      SpeechIsConserved(before);
      SignallingPrecedesSpeech(before);
      var w, e := Run(before), es[|es| - 1];
      StepConservesSpeech(w, e);
      Balance(Held(w, Speech), SpeechStolen(before), SpeechAccepted(before),
              Held(StepWorld(w, e), Speech), SpeechTaken(w, e), SpeechBrought(w, e));
    }
  }

  lemma Balance<T(!new)>(held: seq<T>, stolen: seq<T>, accepted: seq<T>, after: seq<T>, taken: seq<T>, brought: seq<T>)
    requires multiset(held) + multiset(stolen) == multiset(accepted)
    requires multiset(after) + multiset(taken) == multiset(held) + multiset(brought)
    ensures multiset(after) + multiset(stolen + taken) == multiset(accepted + brought)
  {
    assert multiset(stolen + taken) == multiset(stolen) + multiset(taken);
    assert multiset(accepted + brought) == multiset(accepted) + multiset(brought);
    var left, right := multiset(after) + multiset(stolen + taken), multiset(accepted + brought);
    forall x: T
      ensures left[x] == right[x]
    {
      assert (multiset(held) + multiset(stolen))[x] == multiset(accepted)[x];
      assert (multiset(after) + multiset(taken))[x] == (multiset(held) + multiset(brought))[x];
    }
    assert left == right;
  }

  lemma NothingHeld()
    ensures Held(Run([]), Speech) == [] && Thinned<seq<bool>>([], [])
  {
  }

  /** No speech is lost but what was stolen, and none is repeated: what left, what waits and what was stolen
      together are exactly what was accepted, and what left and waits has kept its order. */
  lemma SpeechKeepsOrder(es: seq<Event>)
    requires Disciplined(es)
    ensures Thinned(Held(Run(es), Speech), SpeechAccepted(es))
    ensures multiset(Held(Run(es), Speech)) + multiset(SpeechStolen(es)) == multiset(SpeechAccepted(es))
    ensures |Held(Run(es), Speech)| + |SpeechStolen(es)| == |SpeechAccepted(es)|
  {
    hide Held, Run, SpeechStolen, SpeechAccepted, Thinned;
    SpeechIsInOrder(es);
    SpeechIsConserved(es);
    SameSize(Held(Run(es), Speech), SpeechStolen(es), SpeechAccepted(es));
  }

  lemma SameSize<T>(a: seq<T>, b: seq<T>, c: seq<T>)
    requires multiset(a) + multiset(b) == multiset(c)
    ensures |a| + |b| == |c|
  {
    assert |multiset(c)| == |multiset(a)| + |multiset(b)|;
  }
}
