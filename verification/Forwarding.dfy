/** The network's call-forwarding state, its four operations, and its life in non-volatile memory. */
module Forwarding {
  import opened Supplementary
  import opened SubscriptionStorage

  function ServiceOctet(service: Service): bv8 {
    match service
    case NoService => 0
    case Bearer => 1
    case Teleservice => 2
  }

  datatype Operation =
    | Register(condition: nat, number: seq<bv8>, service: Service, serviceCode: bv8, noReplyTime: bv8)
    | Activate(condition: nat)
    | Deactivate(condition: nat)
    | Erase(condition: nat)

  function StoredLength(number: seq<bv8>): (n: nat)
    ensures n <= NUMBER_CAPACITY && n <= |number| && (n == 0 <==> number == [])
  {
    if |number| < NUMBER_CAPACITY then |number| else NUMBER_CAPACITY
  }

  function LengthOctet(number: seq<bv8>): bv8 {
    StoredLength(number) as bv8
  }

  /** The first sixteen octets of the number, padded with zeros. */
  function StoredNumber(number: seq<bv8>): (field: seq<bv8>)
    ensures |field| == NUMBER_CAPACITY
  {
    number[..StoredLength(number)] + EMPTY_NUMBER[StoredLength(number)..]
  }

  function Blank(): (rs: seq<ForwardingRecord>)
    ensures Shaped(rs)
  {
    [BLANK, BLANK, BLANK, BLANK]
  }

  /** The record a registration leaves. */
  function Registration(op: Operation): (r: ForwardingRecord)
    requires op.Register?
    ensures r.Shaped()
  {
    ForwardingRecord(true, true, LengthOctet(op.number), ServiceOctet(op.service), op.serviceCode, op.noReplyTime,
                     StoredNumber(op.number))
  }

  function Applied(rs: seq<ForwardingRecord>, op: Operation): (r: seq<ForwardingRecord>)
    requires Shaped(rs)
    ensures Shaped(r)
  {
    var c := op.condition;
    if c >= CONDITION_COUNT then rs
    else
      match op
      case Register(_, _, _, _, _) => rs[c := Registration(op)]
      case Activate(_) => if rs[c].registered then rs[c := WithActive(rs[c], true)] else rs
      case Deactivate(_) => rs[c := WithActive(rs[c], false)]
      case Erase(_) => rs[c := BLANK]
  }

  function WithActive(r: ForwardingRecord, active: bool): ForwardingRecord {
    ForwardingRecord(r.registered, active, r.length, r.service, r.serviceCode, r.noReplyTime, r.number)
  }

  function Run(ops: seq<Operation>): (rs: seq<ForwardingRecord>)
    ensures Shaped(rs)
  {
    if ops == [] then Blank() else Applied(Run(ops[..|ops| - 1]), ops[|ops| - 1])
  }

  /** A registration that reaches a condition but names no number. */
  predicate RegistersNothing(op: Operation) {
    op.Register? && op.condition < CONDITION_COUNT && op.number == []
  }

  lemma LengthOctetFits(number: seq<bv8>)
    ensures LengthOctet(number) <= 16 && (LengthOctet(number) == 0 <==> number == [])
  {
  }

  /** From a storable state an operation leads to a storable state unless it registers an empty number,
      and then never. */
  lemma StaysStorableIff(rs: seq<ForwardingRecord>, op: Operation)
    requires Storable(rs) && Shaped(rs)
    ensures Storable(Applied(rs, op)) <==> !RegistersNothing(op)
  {
    hide LengthOctet, StoredNumber;
    if op.Register? && op.condition < CONDITION_COUNT {
      LengthOctetFits(op.number);
      var r := Applied(rs, op)[op.condition];
      assert r.Storable() <==> op.number != [];
    }
  }

  lemma {:induction false} RunsAreStorable(ops: seq<Operation>)
    requires forall i :: 0 <= i < |ops| ==> !RegistersNothing(ops[i])
    ensures Storable(Run(ops))
  {
    if ops != [] {
      RunsAreStorable(ops[..|ops| - 1]);
      StaysStorableIff(Run(ops[..|ops| - 1]), ops[|ops| - 1]);
    }
  }

  /** Every state reached by registering non-empty numbers, activating, deactivating and erasing survives
      being written and read back. */
  lemma EveryRunSurvivesReload(ops: seq<Operation>, subscriber: seq<bv8>)
    requires |subscriber| == IDENTITY_OCTETS
    requires forall i :: 0 <= i < |ops| ==> !RegistersNothing(ops[i])
    ensures Decode(Image(subscriber, Run(ops)), subscriber) == Records(Run(ops))
  {
    RunsAreStorable(ops);
    DecodeAfterEncode(subscriber, Run(ops));
  }

  /** What every run keeps, empty numbers included. */
  ghost predicate Consistent(rs: seq<ForwardingRecord>)
    requires Shaped(rs)
  {
    forall i :: 0 <= i < CONDITION_COUNT ==>
      (rs[i].active ==> rs[i].registered) && rs[i].length <= 16 && rs[i].service <= 2 &&
      (!rs[i].registered ==> rs[i] == BLANK)
  }

  lemma StaysConsistent(rs: seq<ForwardingRecord>, op: Operation)
    requires Shaped(rs) && Consistent(rs)
    ensures Consistent(Applied(rs, op))
  {
    hide LengthOctet, StoredNumber;
    if op.Register? {
      LengthOctetFits(op.number);
    }
  }

  lemma {:induction false} RunsAreConsistent(ops: seq<Operation>)
    ensures Consistent(Run(ops))
  {
    if ops != [] {
      hide Consistent, Applied;
      RunsAreConsistent(ops[..|ops| - 1]);
      StaysConsistent(Run(ops[..|ops| - 1]), ops[|ops| - 1]);
    }
  }

  /** In full: a reachable state survives a reload exactly when no condition is registered without a number. */
  lemma RunSurvivesReloadIff(ops: seq<Operation>, subscriber: seq<bv8>)
    requires |subscriber| == IDENTITY_OCTETS
    ensures Decode(Image(subscriber, Run(ops)), subscriber) ==
            if forall i :: 0 <= i < CONDITION_COUNT ==> !(Run(ops)[i].registered && Run(ops)[i].length == 0)
            then Records(Run(ops)) else Refused
  {
    RunsAreConsistent(ops);
    DecodeAfterEncode(subscriber, Run(ops));
  }

  /** Registering an empty number is accepted, and the image then written cannot be read back. */
  lemma EmptyNumberIsLost(subscriber: seq<bv8>)
    requires |subscriber| == IDENTITY_OCTETS
    ensures var rs := Run([Register(0, [], Teleservice, 0x11, 0)]);
            rs[0].registered && Decode(Image(subscriber, rs), subscriber) == Refused
  {
    var op := Register(0, [], Teleservice, 0x11, 0);
    assert [op][..0] == [];
    assert Run([op]) == Applied(Blank(), op);
    StaysStorableIff(Blank(), op);
    DecodeAfterEncode(subscriber, Run([op]));
  }

  // ----- What a run remembers of each condition -----

  /** The operation registers or erases condition `c`. */
  predicate Settles(op: Operation, c: nat) {
    (op.Register? || op.Erase?) && op.condition == c
  }

  /** A record in figures. */
  predicate Holds(r: ForwardingRecord, number: seq<bv8>, service: Service, serviceCode: bv8, noReplyTime: bv8) {
    var n := if |number| < 16 then |number| else 16;
    r.registered && r.length == n as bv8 && |r.number| == 16 &&
    r.number[..n] == number[..n] && (forall k :: n <= k < 16 ==> r.number[k] == 0) &&
    r.service == (match service case NoService => 0 case Bearer => 1 case Teleservice => 2) &&
    r.serviceCode == serviceCode && r.noReplyTime == noReplyTime
  }

  lemma OnlyActivityChanges(rs: seq<ForwardingRecord>, op: Operation, c: nat)
    requires Shaped(rs) && c < CONDITION_COUNT && !Settles(op, c)
    ensures Applied(rs, op)[c] == WithActive(rs[c], Applied(rs, op)[c].active)
  {
    hide LengthOctet, StoredNumber, ServiceOctet;
  }

  lemma RegistrationHolds(rs: seq<ForwardingRecord>, op: Operation)
    requires Shaped(rs) && op.Register? && op.condition < CONDITION_COUNT
    ensures Holds(Applied(rs, op)[op.condition], op.number, op.service, op.serviceCode, op.noReplyTime)
    ensures Applied(rs, op)[op.condition].active
  {
    hide LengthOctet, StoredNumber, ServiceOctet, Holds;
    StoredInFigures(op.number);
    HoldsStored(op);
  }

  lemma HoldsStored(op: Operation)
    requires op.Register? && PaddedTo16(StoredNumber(op.number), op.number)
    ensures Holds(Registration(op), op.number, op.service, op.serviceCode, op.noReplyTime)
  {
    hide StoredNumber;
  }

  predicate PaddedTo16(field: seq<bv8>, number: seq<bv8>) {
    var n := if |number| < 16 then |number| else 16;
    |field| == 16 && field[..n] == number[..n] && forall k :: n <= k < 16 ==> field[k] == 0
  }

  lemma StoredInFigures(number: seq<bv8>)
    ensures PaddedTo16(StoredNumber(number), number)
  {
    var n := StoredLength(number);
    hide StoredLength;
    forall k | n <= k < 16
      ensures StoredNumber(number)[k] == 0
    {
      EmptyNumberIsZeros(k);
    }
    assert n == if |number| < 16 then |number| else 16 by {
      StoredLengthInFigures(number);
    }
  }

  lemma StoredLengthInFigures(number: seq<bv8>)
    ensures StoredLength(number) == if |number| < 16 then |number| else 16
  {
  }

  lemma EmptyNumberIsZeros(k: nat)
    requires k < 16
    ensures EMPTY_NUMBER[k] == 0
  {
  }

  lemma RunAppend(ops: seq<Operation>, op: Operation)
    ensures Run(ops + [op]) == Applied(Run(ops), op)
  {
    assert (ops + [op])[..|ops|] == ops;
  }

  /** The condition keeps what it was last registered with until it is registered again or erased: the first sixteen
      octets of the number, zeros behind them, and the service, its code and the time. */
  lemma {:induction false} LastRegistrationStands(before: seq<Operation>, op: Operation, after: seq<Operation>)
    requires op.Register? && op.condition < CONDITION_COUNT
    requires forall i :: 0 <= i < |after| ==> !Settles(after[i], op.condition)
    ensures Holds(Run(before + [op] + after)[op.condition], op.number, op.service, op.serviceCode, op.noReplyTime)
  {
    hide Holds, Applied, Run;
    if after == [] {
      assert before + [op] + after == before + [op];
      RunAppend(before, op);
      RegistrationHolds(Run(before), op);
    } else {
      var earlier, last := after[..|after| - 1], after[|after| - 1];
      LastRegistrationStands(before, op, earlier);
      var rs := Run(before + [op] + earlier);
      assert before + [op] + after == before + [op] + earlier + [last];
      RunAppend(before + [op] + earlier, last);
      OnlyActivityChanges(rs, last, op.condition);
      ActivityIsNoPart(rs[op.condition], Applied(rs, last)[op.condition].active, op);
    }
  }

  lemma ActivityIsNoPart(r: ForwardingRecord, active: bool, op: Operation)
    requires op.Register? && Holds(r, op.number, op.service, op.serviceCode, op.noReplyTime)
    ensures Holds(WithActive(r, active), op.number, op.service, op.serviceCode, op.noReplyTime)
  {
  }

  predicate AllZero(r: ForwardingRecord) {
    !r.registered && !r.active && r.length == 0 && r.service == 0 && r.serviceCode == 0 && r.noReplyTime == 0 &&
    |r.number| == 16 && forall k :: 0 <= k < 16 ==> r.number[k] == 0
  }

  lemma BlankIsZero()
    ensures AllZero(BLANK)
  {
    forall k | 0 <= k < 16
      ensures EMPTY_NUMBER[k] == 0
    {
      EmptyNumberIsZeros(k);
    }
  }

  lemma {:induction false} ErasedIsBlank(before: seq<Operation>, c: nat)
    requires c < CONDITION_COUNT && (before == [] || before[|before| - 1] == Erase(c))
    ensures Run(before)[c] == BLANK
  {
    if before != [] {
      var n := |before| - 1;
      assert before == before[..n] + [Erase(c)];
      ErasingBlanks(Run(before[..n]), c);
    }
  }

  lemma ErasingBlanks(rs: seq<ForwardingRecord>, c: nat)
    requires Shaped(rs) && c < CONDITION_COUNT
    ensures Applied(rs, Erase(c))[c] == BLANK
  {
  }

  lemma BlankStays(rs: seq<ForwardingRecord>, op: Operation, c: nat)
    requires Shaped(rs) && c < CONDITION_COUNT && !(op.Register? && op.condition == c) && rs[c] == BLANK
    ensures Applied(rs, op)[c] == BLANK
  {
    hide LengthOctet, StoredNumber, ServiceOctet;
  }

  /** Until a condition is registered (again), it is zero in every field. */
  lemma {:induction false} BlankUntilRegistered(before: seq<Operation>, c: nat, after: seq<Operation>)
    requires c < CONDITION_COUNT && (before == [] || before[|before| - 1] == Erase(c))
    requires forall i :: 0 <= i < |after| ==> !(after[i].Register? && after[i].condition == c)
    ensures Run(before + after)[c] == BLANK && AllZero(Run(before + after)[c])
  {
    hide Run, Applied, AllZero;
    BlankIsZero();
    if after == [] {
      assert before + after == before;
      ErasedIsBlank(before, c);
    } else {
      var earlier, last := after[..|after| - 1], after[|after| - 1];
      BlankUntilRegistered(before, c, earlier);
      assert before + after == before + earlier + [last];
      RunAppend(before + earlier, last);
      BlankStays(Run(before + earlier), last, c);
    }
  }

  /** The operation decides that condition `c` is active, or that it is not. */
  predicate Decides(op: Operation, c: nat, active: bool) {
    op.condition == c && if active then op.Register? || op.Activate? else op.Deactivate? || op.Erase?
  }

  /** A registered condition is active exactly as the last operation that says so left it. */
  lemma {:induction false} LastWordOnActivity(before: seq<Operation>, op: Operation, after: seq<Operation>,
                                              active: bool)
    requires op.condition < CONDITION_COUNT && Decides(op, op.condition, active)
    requires forall i :: 0 <= i < |after| ==> !Decides(after[i], op.condition, !active)
    ensures var r := Run(before + [op] + after)[op.condition]; r.active == (active && r.registered)
  {
    hide Run, LengthOctet, StoredNumber, ServiceOctet;
    RunsAreConsistent(before);
    if after == [] {
      assert before + [op] + after == before + [op];
      RunAppend(before, op);
    } else {
      var earlier, last := after[..|after| - 1], after[|after| - 1];
      LastWordOnActivity(before, op, earlier, active);
      assert before + [op] + after == before + [op] + earlier + [last];
      RunAppend(before + [op] + earlier, last);
    }
  }

  lemma RecordsAreShaped(rs: seq<ForwardingRecord>)
    requires Storable(rs)
    ensures Shaped(rs)
  {
  }

  /** The records whose fields stand in seven arrays. */
  ghost function RecordsOf(registered: seq<bool>, active: seq<bool>, lengths: seq<bv8>, services: seq<bv8>,
                           codes: seq<bv8>, times: seq<bv8>, numbers: seq<seq<bv8>>): (rs: seq<ForwardingRecord>)
    requires |registered| == |active| == |lengths| == |services| == CONDITION_COUNT
    requires |codes| == |times| == |numbers| == CONDITION_COUNT
    requires forall i :: 0 <= i < CONDITION_COUNT ==> |numbers[i]| == NUMBER_CAPACITY
    ensures Shaped(rs)
  {
    seq(CONDITION_COUNT, i requires 0 <= i < CONDITION_COUNT =>
      ForwardingRecord(registered[i], active[i], lengths[i], services[i], codes[i], times[i], numbers[i]))
  }

  class ForwardingState {
    var registered: seq<bool>
    var active: seq<bool>
    var numberLength: seq<bv8>
    var number: seq<seq<bv8>>
    var service: seq<bv8>
    var serviceCode: seq<bv8>
    var noReplyTime: seq<bv8>

    ghost predicate Valid()
      reads this
    {
      && |registered| == |active| == |numberLength| == |number| == CONDITION_COUNT
      && |service| == |serviceCode| == |noReplyTime| == CONDITION_COUNT
      && forall i :: 0 <= i < CONDITION_COUNT ==> |number[i]| == NUMBER_CAPACITY
    }

    ghost function State(): (rs: seq<ForwardingRecord>)
      requires Valid()
      reads this
      ensures Shaped(rs)
    {
      RecordsOf(registered, active, numberLength, service, serviceCode, noReplyTime, number)
    }

    function At(i: nat): (r: ForwardingRecord)
      requires Valid() && i < CONDITION_COUNT
      reads this
      ensures r.Shaped()
    {
      ForwardingRecord(registered[i], active[i], numberLength[i], service[i], serviceCode[i], noReplyTime[i], number[i])
    }

    constructor ()
      ensures Valid() && State() == Blank()
    {
      registered, active := [false, false, false, false], [false, false, false, false];
      numberLength := [0, 0, 0, 0];
      number := [EMPTY_NUMBER, EMPTY_NUMBER, EMPTY_NUMBER, EMPTY_NUMBER];
      service, serviceCode, noReplyTime := [0, 0, 0, 0], [0, 0, 0, 0], [0, 0, 0, 0];
    }

    method RegisterForwarding(condition: nat, digits: seq<bv8>, kind: Service, code: bv8, time: bv8)
      requires Valid()
      modifies this
      ensures Valid() && State() == Applied(old(State()), Register(condition, digits, kind, code, time))
    {
      hide LengthOctet, StoredNumber, ServiceOctet;
      if condition >= CONDITION_COUNT {
        return;
      }
      number := number[condition := StoredNumber(digits)];
      numberLength := numberLength[condition := LengthOctet(digits)];
      service := service[condition := ServiceOctet(kind)];
      serviceCode := serviceCode[condition := code];
      noReplyTime := noReplyTime[condition := time];
      active := active[condition := true];
      registered := registered[condition := true];
    }

    method ActivateForwarding(condition: nat) returns (ok: bool)
      requires Valid()
      modifies this`active
      ensures Valid() && State() == Applied(old(State()), Activate(condition))
      ensures ok == (condition < CONDITION_COUNT && old(State())[condition].registered)
    {
      if condition >= CONDITION_COUNT || !registered[condition] {
        return false;
      }
      active := active[condition := true];
      return true;
    }

    method DeactivateForwarding(condition: nat)
      requires Valid()
      modifies this`active
      ensures Valid() && State() == Applied(old(State()), Deactivate(condition))
    {
      hide LengthOctet, StoredNumber, ServiceOctet;
      if condition >= CONDITION_COUNT {
        return;
      }
      active := active[condition := false];
    }

    method EraseForwarding(condition: nat)
      requires Valid()
      modifies this
      ensures Valid() && State() == Applied(old(State()), Erase(condition))
    {
      if condition >= CONDITION_COUNT {
        return;
      }
      active := active[condition := false];
      registered := registered[condition := false];
      numberLength := numberLength[condition := 0];
      number := number[condition := EMPTY_NUMBER];
      service := service[condition := 0];
      serviceCode := serviceCode[condition := 0];
      noReplyTime := noReplyTime[condition := 0];
    }

    method NvramWrite(subscriber: seq<bv8>) returns (file: seq<bv8>)
      requires Valid() && |subscriber| == IDENTITY_OCTETS
      ensures file == Image(subscriber, State())
    {
      var records := [At(0), At(1), At(2), At(3)];
      assert records == State();
      file := EncodeImage(subscriber, records);
    }

    /** A file of any other size, or one the decoder refuses, changes nothing. */
    method NvramRead(file: seq<bv8>, subscriber: seq<bv8>) returns (ok: bool)
      requires Valid() && |subscriber| == IDENTITY_OCTETS
      modifies this
      ensures Valid() && ok == (|file| == IMAGE_OCTETS && Decode(file, subscriber).Records?)
      ensures State() == if ok then Decode(file, subscriber).records else old(State())
    {
      hide Decode, Storable;
      if |file| != IMAGE_OCTETS {
        return false;
      }
      var records := new ForwardingRecord[CONDITION_COUNT](_ => BLANK);
      ok := DecodeImage(file, subscriber, records);
      if !ok {
        return false;
      }
      RecordsAreShaped(records[..]);
      Load(records[..]);
    }

    method Load(rs: seq<ForwardingRecord>)
      requires Valid() && Shaped(rs)
      modifies this
      ensures Valid() && State() == rs
    {
      for i := 0 to CONDITION_COUNT
        invariant Valid() && forall k :: 0 <= k < i ==> At(k) == rs[k]
      {
        registered := registered[i := rs[i].registered];
        active := active[i := rs[i].active];
        numberLength := numberLength[i := rs[i].length];
        number := number[i := rs[i].number];
        service := service[i := rs[i].service];
        serviceCode := serviceCode[i := rs[i].serviceCode];
        noReplyTime := noReplyTime[i := rs[i].noReplyTime];
      }
      assert forall k :: 0 <= k < CONDITION_COUNT ==> State()[k] == At(k);
    }
  }
}
