/** Supplementary-service results: nested tag-length-value fields, built in one buffer and read back by their tags. */
module Supplementary {
  import opened Integers
  import Gsm7

  const MAXIMUM_MESSAGE := 64
  const MAXIMUM_NUMBER := 16

  /** A field: its tag, the length of its value in one octet, and the value. */
  function Field(tag: Byte, value: seq<Byte>): (f: seq<Byte>)
    requires |value| < 0x80
    ensures |f| == 2 + |value|
  {
    [tag, |value|] + value
  }

  datatype Item = NoItem | Item(value: nat, length: nat, next: nat)

  /** Reads the field at `offset`, which must have this tag and end at or before `limit`. */
  function ReadTlv(data: seq<Byte>, limit: nat, offset: nat, tag: Byte): (r: Item)
    requires limit <= |data|
    ensures r.Item? ==> r.value == offset + 2 && r.next == r.value + r.length <= limit && r.length < 0x80
    ensures r.Item? ==> data[offset..r.next] == Field(tag, data[r.value..r.next])
  {
    if offset + 2 > limit || data[offset] != tag || data[offset + 1] >= 0x80 then NoItem
    else if offset + 2 + data[offset + 1] > limit then NoItem
    else Item(offset + 2, data[offset + 1], offset + 2 + data[offset + 1])
  }

  /** A field followed by anything is found. */
  lemma ReadTlvFinds(tag: Byte, value: seq<Byte>, rest: seq<Byte>, data: seq<Byte>, offset: nat, limit: nat)
    requires |value| < 0x80 && offset <= limit <= |data| && data[offset..limit] == Field(tag, value) + rest
    ensures var next := offset + 2 + |value|;
            next <= limit && ReadTlv(data, limit, offset, tag) == Item(offset + 2, |value|, next) &&
            data[offset + 2..next] == value && data[next..limit] == rest
  {
    var d := data[offset..limit];
    var next := 2 + |value|;
    assert |d| == next + |rest|;
    assert d[0] == tag && d[1] == |value|;
    assert forall k :: 0 <= k < |d| ==> data[offset + k] == d[k];
    assert data[offset + 2..offset + next] == d[2..next];
    assert d[2..next] == Field(tag, value)[2..] == value;
    assert data[offset + next..limit] == d[next..] == rest;
  }

  // ----- Nested fields -----

  /** A run of fields, each holding octets or further fields. */
  datatype Fields =
    | End
    | Octets(tag: Byte, octets: seq<Byte>, rest: Fields)
    | Nest(tag: Byte, inner: Fields, rest: Fields)

  function Length(f: Fields): nat {
    match f
    case End => 0
    case Octets(_, octets, rest) => 2 + |octets| + Length(rest)
    case Nest(_, inner, rest) => 2 + Length(inner) + Length(rest)
  }

  /** Every length fits the short form. */
  predicate Short(f: Fields) {
    match f
    case End => true
    case Octets(_, octets, rest) => |octets| < 0x80 && Short(rest)
    case Nest(_, inner, rest) => Length(inner) < 0x80 && Short(inner) && Short(rest)
  }

  function Encode(f: Fields): (e: seq<Byte>)
    requires Short(f)
    ensures |e| == Length(f)
  {
    match f
    case End => []
    case Octets(tag, octets, rest) => Field(tag, octets) + Encode(rest)
    case Nest(tag, inner, rest) => Field(tag, Encode(inner)) + Encode(rest)
  }

  /** Reading from `offset` by the tags of `f` finds its octets, and every parent ends exactly
      where its last child does. */
  predicate Reads(f: Fields, data: seq<Byte>, offset: nat, limit: nat)
    requires limit <= |data|
  {
    match f
    case End => offset == limit
    case Octets(tag, octets, rest) =>
      var i := ReadTlv(data, limit, offset, tag);
      i.Item? && data[i.value..i.next] == octets && Reads(rest, data, i.next, limit)
    case Nest(tag, inner, rest) =>
      var i := ReadTlv(data, limit, offset, tag);
      i.Item? && Reads(inner, data, i.value, i.next) && Reads(rest, data, i.next, limit)
  }

  /** An encoding reads back as its fields. */
  lemma {:induction false} EncodingIsRead(f: Fields, data: seq<Byte>, offset: nat, limit: nat)
    requires offset <= limit <= |data| && Short(f) && data[offset..limit] == Encode(f)
    ensures Reads(f, data, offset, limit)
  {
    hide ReadTlv, Field, Length;
    match f
    case End =>
    case Octets(tag, octets, rest) =>
      ReadTlvFinds(tag, octets, Encode(rest), data, offset, limit);
      EncodingIsRead(rest, data, offset + 2 + |octets|, limit);
    case Nest(tag, inner, rest) =>
      ReadTlvFinds(tag, Encode(inner), Encode(rest), data, offset, limit);
      EncodingIsRead(inner, data, offset + 2, offset + 2 + Length(inner));
      EncodingIsRead(rest, data, offset + 2 + Length(inner), limit);
  }

  /** Octets that read back as these fields are their encoding. */
  lemma {:induction false} ReadIsEncoding(f: Fields, data: seq<Byte>, offset: nat, limit: nat)
    requires offset <= limit <= |data| && Reads(f, data, offset, limit)
    ensures Short(f) && data[offset..limit] == Encode(f)
  {
    hide ReadTlv, Field, Length;
    match f
    case End =>
    case Octets(tag, octets, rest) =>
      var i := ReadTlv(data, limit, offset, tag);
      ReadIsEncoding(rest, data, i.next, limit);
      assert data[offset..limit] == data[offset..i.next] + data[i.next..limit];
    case Nest(tag, inner, rest) =>
      var i := ReadTlv(data, limit, offset, tag);
      ReadIsEncoding(inner, data, i.value, i.next);
      ReadIsEncoding(rest, data, i.next, limit);
      assert data[offset..limit] == data[offset..i.next] + data[i.next..limit];
  }

  /** The octets between two marks read back as these fields exactly when they are their encoding. */
  lemma ReadsIffEncoded(f: Fields, data: seq<Byte>, offset: nat, limit: nat)
    requires offset <= limit <= |data|
    ensures Reads(f, data, offset, limit) <==> Short(f) && data[offset..limit] == Encode(f)
  {
    if Reads(f, data, offset, limit) {
      ReadIsEncoding(f, data, offset, limit);
    } else if Short(f) && data[offset..limit] == Encode(f) {
      EncodingIsRead(f, data, offset, limit);
    }
  }

  /** Same tags and nesting. */
  predicate SameShape(f: Fields, g: Fields) {
    match f
    case End => g.End?
    case Octets(tag, _, rest) => g.Octets? && g.tag == tag && SameShape(rest, g.rest)
    case Nest(tag, inner, rest) => g.Nest? && g.tag == tag && SameShape(inner, g.inner) && SameShape(rest, g.rest)
  }

  /** A message determines what its tags hold. */
  lemma {:induction false} ReadingIsUnique(f: Fields, g: Fields, data: seq<Byte>, offset: nat, limit: nat)
    requires limit <= |data| && SameShape(f, g)
    requires Reads(f, data, offset, limit) && Reads(g, data, offset, limit)
    ensures f == g
  {
    match f
    case End =>
    case Octets(tag, octets, rest) =>
      ReadingIsUnique(rest, g.rest, data, ReadTlv(data, limit, offset, tag).next, limit);
    case Nest(tag, inner, rest) =>
      var i := ReadTlv(data, limit, offset, tag);
      ReadingIsUnique(inner, g.inner, data, i.value, i.next);
      ReadingIsUnique(rest, g.rest, data, i.next, limit);
  }

  // ----- The results -----

  const REGISTER := 0x0a
  const ERASE := 0x0b
  const ACTIVATE := 0x0c
  const DEACTIVATE := 0x0d
  const INTERROGATE := 0x0e
  const PROCESS_USS := 0x3b

  datatype Request = Request(valid: bool, transaction: Byte, invokeId: Byte, operation: Byte, serviceCode: Byte)

  /** The transaction identifier with its flag inverted. */
  function Answered(transaction: Byte): Byte {
    (transaction + 0x80) % 0x100
  }

  /** RELEASE COMPLETE with one facility. */
  function Release(transaction: Byte, facility: Fields): seq<Byte>
    requires Short(facility)
  {
    [Answered(transaction), 0x2a] + Encode(facility)
  }

  function UssParameters(coding: Byte, packed: seq<Byte>): Fields {
    Octets(0x04, [coding], Octets(0x04, packed, End))
  }

  /** One octet followed by one nested field. */
  function Operand(tag: Byte, operand: Byte, nest: Byte, inner: Fields): Fields {
    Octets(tag, [operand], Nest(nest, inner, End))
  }

  /** The facility, its return-result component, and inside that the invocation, the operation and its result. */
  function Facility(invokeId: Byte, operation: Byte, nest: Byte, result: Fields): Fields {
    Nest(0x1c, Nest(0xa2, Operand(0x02, invokeId, 0x30, Operand(0x02, operation, nest, result)), End), End)
  }

  function UssFields(invokeId: Byte, coding: Byte, packed: seq<Byte>): Fields {
    Facility(invokeId, PROCESS_USS, 0x30, UssParameters(coding, packed))
  }

  predicate UssAccepted(request: Request, packed: seq<Byte>) {
    request.valid && request.operation == PROCESS_USS && 0 < |packed| <= Gsm7.MAXIMUM_USSD
  }

  lemma NestLayout(tag: Byte, inner: Fields)
    requires Short(inner) && Length(inner) < 0x80
    ensures var f := Nest(tag, inner, End);
            Length(f) == 2 + Length(inner) && Short(f) && Encode(f) == [tag, Length(inner)] + Encode(inner)
  {
  }

  lemma OperandLayout(tag: Byte, operand: Byte, nest: Byte, inner: Fields)
    requires Short(inner) && Length(inner) < 0x80
    ensures var f := Operand(tag, operand, nest, inner);
            Length(f) == 5 + Length(inner) && Short(f) &&
            Encode(f) == [tag, 0x01, operand] + [nest, Length(inner)] + Encode(inner)
  {
    hide Encode, Length, Short;
    NestLayout(nest, inner);
    OctetLayout(tag, operand, Nest(nest, inner, End));
  }

  lemma OctetLayout(tag: Byte, operand: Byte, rest: Fields)
    requires Short(rest)
    ensures var f := Octets(tag, [operand], rest);
            Length(f) == 3 + Length(rest) && Short(f) && Encode(f) == [tag, 0x01, operand] + Encode(rest)
  {
  }

  lemma JoinHead(request: Request, length: nat, tail: seq<Byte>)
    requires length <= 0x60
    ensures FacilityHead(request, length) + tail ==
            [Answered(request.transaction), 0x2a] + ([0x1c, length + 12] + ([0xa2, length + 10] +
            ([0x02, 0x01, request.invokeId] + [0x30, length + 5] + ([0x02, 0x01, request.operation] + tail))))
  {
  }

  /** A released facility, its lengths written out. */
  lemma FacilityLayout(request: Request, nest: Byte, result: Fields)
    requires Short(result) && Length(result) <= 0x60
    ensures var f := Facility(request.invokeId, request.operation, nest, result);
            Short(f) &&
            Release(request.transaction, f) ==
            FacilityHead(request, Length(result)) + [nest, Length(result)] + Encode(result)
  {
    hide Encode, Length, Short, Operand;
    var o := Operand(0x02, request.operation, nest, result);
    var c := Operand(0x02, request.invokeId, 0x30, o);
    OperandLayout(0x02, request.operation, nest, result);
    OperandLayout(0x02, request.invokeId, 0x30, o);
    NestLayout(0xa2, c);
    NestLayout(0x1c, Nest(0xa2, c, End));
    JoinHead(request, Length(result), [nest, Length(result)] + Encode(result));
    assert Encode(o) == [0x02, 0x01, request.operation] + ([nest, Length(result)] + Encode(result));
  }

  /** All before the result field. */
  function FacilityHead(request: Request, length: nat): (h: seq<Byte>)
    requires length <= 0x60
    ensures |h| == 14
  {
    [Answered(request.transaction), 0x2a, 0x1c, length + 12, 0xa2, length + 10,
     0x02, 0x01, request.invokeId, 0x30, length + 5, 0x02, 0x01, request.operation]
  }

  /** The octets both answers begin with. */
  method PutHead(data: array<Byte>, request: Request, facility: Byte, component: Byte, operation: Byte)
    returns (offset: nat)
    requires data.Length == MAXIMUM_MESSAGE
    modifies data
    ensures offset == 14 &&
            data[..offset] == [Answered(request.transaction), 0x2a, 0x1c, facility, 0xa2, component,
                               0x02, 0x01, request.invokeId, 0x30, operation, 0x02, 0x01, request.operation]
  {
    offset := Put(data, 0, [Answered(request.transaction), 0x2a]);
    offset := Put(data, offset, [0x1c, facility]);
    offset := Put(data, offset, [0xa2, component]);
    offset := Put(data, offset, [0x02, 0x01, request.invokeId]);
    offset := Put(data, offset, [0x30, operation]);
    offset := Put(data, offset, [0x02, 0x01, request.operation]);
  }

  /** The answer to an unstructured request; no octets when it is refused. */
  method ProcessUssRequestResult(request: Request, coding: Byte, packed: seq<Byte>) returns (message: seq<Byte>)
    ensures !UssAccepted(request, packed) ==> message == []
    ensures UssAccepted(request, packed) ==>
              Short(UssFields(request.invokeId, coding, packed)) &&
              message == Release(request.transaction, UssFields(request.invokeId, coding, packed)) &&
              |message| == |packed| + 21
    ensures message == [] <==> !request.valid || request.operation != 0x3b || !(0 < |packed| <= 40)
  {
    hide Encode, Field, Release, Facility;
    if !request.valid || request.operation != PROCESS_USS || |packed| == 0 || |packed| > Gsm7.MAXIMUM_USSD {
      return [];
    }
    var resultSequence := 3 + 2 + |packed|;
    var operationSequence := 3 + 2 + resultSequence;
    var component := 3 + 2 + operationSequence;
    var facility := 2 + component;
    assert 2 + 2 + facility <= MAXIMUM_MESSAGE;
    var data := new Byte[MAXIMUM_MESSAGE];
    var offset := PutHead(data, request, facility, component, operationSequence);
    offset := Put(data, offset, [0x30, resultSequence]);
    offset := Put(data, offset, [0x04, 0x01, coding]);
    offset := Put(data, offset, [0x04, |packed|]);
    offset := Put(data, offset, packed);
    message := data[..offset];
    UssLayout(request, coding, packed);
  }

  lemma UssLayout(request: Request, coding: Byte, packed: seq<Byte>)
    requires |packed| <= Gsm7.MAXIMUM_USSD && request.operation == PROCESS_USS
    ensures var f := UssFields(request.invokeId, coding, packed);
            Short(f) && Release(request.transaction, f) ==
            FacilityHead(request, |packed| + 5) + [0x30, |packed| + 5] + [0x04, 0x01, coding] +
            [0x04, |packed|] + packed
  {
    var p := UssParameters(coding, packed);
    assert Encode(p) == [0x04, 0x01, coding] + [0x04, |packed|] + packed;
    FacilityLayout(request, 0x30, p);
  }

  /** The answer keeps the transaction identifier and inverts its flag, so answering twice restores it. */
  lemma AnswerInvertsTheFlag(transaction: Byte)
    ensures Answered(transaction) % 0x80 == transaction % 0x80
    ensures Answered(transaction) >= 0x80 <==> transaction < 0x80
    ensures Answered(Answered(transaction)) == transaction
  {
  }

  /** The answer to an unstructured request in figures. */
  lemma UssAnswerInFigures(request: Request, coding: Byte, packed: seq<Byte>)
    requires UssAccepted(request, packed)
    ensures var f, n := UssFields(request.invokeId, coding, packed), |packed|;
            Short(f) &&
            Release(request.transaction, f) ==
            [Answered(request.transaction), 0x2a, 0x1c, n + 17, 0xa2, n + 15, 0x02, 0x01, request.invokeId,
             0x30, n + 10, 0x02, 0x01, 0x3b, 0x30, n + 5, 0x04, 0x01, coding, 0x04, n] + packed
  {
    hide Release, UssFields, Short;
    UssLayout(request, coding, packed);
  }

  /** What a released facility's tags lead to, and that nothing else with those tags could have been sent. */
  lemma AnswerIsReadBack(transaction: Byte, f: Fields, other: Fields)
    requires Short(f)
    ensures var m := Release(transaction, f);
            Reads(f, m, 2, |m|) && (SameShape(f, other) && Reads(other, m, 2, |m|) ==> other == f)
  {
    hide Reads, SameShape, Encode;
    var m := Release(transaction, f);
    assert m[2..|m|] == Encode(f);
    EncodingIsRead(f, m, 2, |m|);
    if SameShape(f, other) && Reads(other, m, 2, |m|) {
      ReadingIsUnique(f, other, m, 2, |m|);
    }
  }

  // ----- Forwarding information -----

  datatype Service = NoService | Bearer | Teleservice

  /** What an answer about forwarding tells. */
  datatype Feature = Feature(service: Service, serviceCode: Byte, status: Byte, number: seq<Byte>, noReplyTime: Byte)

  function Status(registered: bool, active: bool): Byte {
    if registered then if active then 0x05 else 0x04 else 0x00
  }

  predicate ForwardingAccepted(request: Request, feature: Feature) {
    && request.valid
    && request.operation in {REGISTER, ERASE, ACTIVATE, DEACTIVATE, INTERROGATE}
    && |feature.number| <= MAXIMUM_NUMBER
    && (feature.noReplyTime == 0 || 5 <= feature.noReplyTime <= 30)
  }

  function TimeFields(f: Feature): Fields {
    if f.noReplyTime != 0 then Octets(0x87, [f.noReplyTime], End) else End
  }

  function NumberFields(f: Feature): Fields {
    if |f.number| != 0 then Octets(0x85, f.number, TimeFields(f)) else TimeFields(f)
  }

  function FeatureFields(f: Feature): Fields {
    var status := Octets(0x84, [f.status], NumberFields(f));
    if f.service.NoService? then status
    else Octets(if f.service.Bearer? then 0x82 else 0x83, [f.serviceCode], status)
  }

  function ForwardingFields(request: Request, f: Feature): Fields {
    Facility(request.invokeId, request.operation, 0xa0,
             Operand(0x04, request.serviceCode, 0x30, Nest(0x30, FeatureFields(f), End)))
  }

  function ServiceOctets(f: Feature): seq<Byte> {
    if f.service.NoService? then [] else [if f.service.Bearer? then 0x82 else 0x83, 0x01, f.serviceCode]
  }

  function NumberOctets(f: Feature): seq<Byte>
    requires |f.number| <= MAXIMUM_NUMBER
  {
    if |f.number| != 0 then [0x85, |f.number|] + f.number else []
  }

  function TimeOctets(f: Feature): seq<Byte> {
    if f.noReplyTime != 0 then [0x87, 0x01, f.noReplyTime] else []
  }

  /** The feature's fields laid end to end. */
  function FeatureOctets(f: Feature): (o: seq<Byte>)
    requires |f.number| <= MAXIMUM_NUMBER
    ensures |o| <= 27
  {
    ServiceOctets(f) + [0x84, 0x01, f.status] + NumberOctets(f) + TimeOctets(f)
  }

  lemma FeatureLength(f: Feature)
    requires |f.number| <= MAXIMUM_NUMBER
    ensures |FeatureOctets(f)| == (if f.service != NoService then 3 else 0) + 3 +
                                  (if |f.number| != 0 then 2 + |f.number| else 0) +
                                  (if f.noReplyTime != 0 then 3 else 0)
  {
  }

  lemma NumberLayout(f: Feature)
    requires |f.number| <= MAXIMUM_NUMBER
    ensures Short(NumberFields(f)) && Encode(NumberFields(f)) == NumberOctets(f) + TimeOctets(f)
  {
    assert Encode(TimeFields(f)) == TimeOctets(f);
  }

  lemma FeatureLayout(f: Feature)
    requires |f.number| <= MAXIMUM_NUMBER
    ensures Short(FeatureFields(f)) && Encode(FeatureFields(f)) == FeatureOctets(f)
  {
    hide Encode, Short, Length, NumberFields, NumberOctets, TimeFields, TimeOctets;
    NumberLayout(f);
    OctetLayout(0x84, f.status, NumberFields(f));
    var status := Octets(0x84, [f.status], NumberFields(f));
    if !f.service.NoService? {
      OctetLayout(if f.service.Bearer? then 0x82 else 0x83, f.serviceCode, status);
    }
  }

  lemma ForwardingLayout(request: Request, f: Feature)
    requires |f.number| <= MAXIMUM_NUMBER
    ensures var n := |FeatureOctets(f)|; var g := ForwardingFields(request, f);
            Short(g) && Release(request.transaction, g) ==
            FacilityHead(request, n + 7) + [0xa0, n + 7] + [0x04, 0x01, request.serviceCode] +
            [0x30, n + 2] + [0x30, n] + FeatureOctets(f)
  {
    hide Encode, Length, Short, Operand, FeatureFields, FeatureOctets, Facility;
    var features := FeatureFields(f);
    var result := Operand(0x04, request.serviceCode, 0x30, Nest(0x30, features, End));
    FeatureLayout(f);
    assert |Encode(features)| == |FeatureOctets(f)|;
    NestLayout(0x30, features);
    OperandLayout(0x04, request.serviceCode, 0x30, Nest(0x30, features, End));
    FacilityLayout(request, 0xa0, result);
  }

  /** The answer about one forwarding feature in figures, up to the feature. */
  lemma ForwardingAnswerInFigures(request: Request, f: Feature)
    requires |f.number| <= MAXIMUM_NUMBER
    ensures var g, n := ForwardingFields(request, f), |FeatureOctets(f)|;
            Short(g) &&
            Release(request.transaction, g) ==
            [Answered(request.transaction), 0x2a, 0x1c, n + 19, 0xa2, n + 17, 0x02, 0x01, request.invokeId,
             0x30, n + 12, 0x02, 0x01, request.operation, 0xa0, n + 7, 0x04, 0x01, request.serviceCode,
             0x30, n + 2, 0x30, n] + FeatureOctets(f)
  {
    hide Release, ForwardingFields, Short, FeatureOctets;
    ForwardingLayout(request, f);
  }

  /** The feature in figures: the service when there is one, the status, the number and the time when there are any. */
  lemma FeatureInFigures(registered: bool, active: bool, number: seq<Byte>, service: Service, serviceCode: Byte,
                         noReplyTime: Byte)
    requires |number| <= MAXIMUM_NUMBER
    ensures FeatureOctets(Feature(service, serviceCode, Status(registered, active), number, noReplyTime)) ==
            (match service
             case NoService => []
             case Bearer => [0x82, 0x01, serviceCode]
             case Teleservice => [0x83, 0x01, serviceCode]) +
            [0x84, 0x01, if registered then if active then 0x05 else 0x04 else 0x00] +
            (if number == [] then [] else [0x85, |number|] + number) +
            (if noReplyTime == 0 then [] else [0x87, 0x01, noReplyTime])
  {
  }

  /** The answer about one forwarding feature; no octets when it is refused. */
  method ForwardingInfoResult(request: Request, registered: bool, active: bool, number: seq<Byte>,
                              service: Service, serviceCode: Byte, noReplyTime: Byte)
    returns (message: seq<Byte>)
    ensures var f := Feature(service, serviceCode, Status(registered, active), number, noReplyTime);
            if ForwardingAccepted(request, f)
            then Short(ForwardingFields(request, f)) &&
                 message == Release(request.transaction, ForwardingFields(request, f)) && |message| <= MAXIMUM_MESSAGE
            else message == []
    ensures message == [] <==>
              !request.valid || !(0x0a <= request.operation <= 0x0e) || |number| > 16 ||
              !(noReplyTime == 0 || 5 <= noReplyTime <= 30)
  {
    hide Encode, Release, ForwardingFields, Status, Short;
    if !request.valid ||
       (request.operation != REGISTER && request.operation != ERASE && request.operation != ACTIVATE &&
        request.operation != DEACTIVATE && request.operation != INTERROGATE) ||
       |number| > MAXIMUM_NUMBER || (noReplyTime != 0 && (noReplyTime < 5 || noReplyTime > 30)) {
      return [];
    }
    message := BuildForwardingInfo(request, registered, active, number, service, serviceCode, noReplyTime);
  }

  /** The lengths first, from the inside out, and then the octets. */
  method BuildForwardingInfo(request: Request, registered: bool, active: bool, number: seq<Byte>,
                             service: Service, serviceCode: Byte, noReplyTime: Byte)
    returns (message: seq<Byte>)
    requires |number| <= MAXIMUM_NUMBER
    ensures var f := Feature(service, serviceCode, Status(registered, active), number, noReplyTime);
            Short(ForwardingFields(request, f)) &&
            message == Release(request.transaction, ForwardingFields(request, f)) && 0 < |message| <= MAXIMUM_MESSAGE
  {
    hide Encode, Release, ForwardingFields, Status, FeatureOctets, Short;
    ghost var f := Feature(service, serviceCode, Status(registered, active), number, noReplyTime);
    var feature := (if service != NoService then 3 else 0) + 3 + (if |number| != 0 then 2 + |number| else 0) +
                   (if noReplyTime != 0 then 3 else 0);
    FeatureLength(f);
    var featureList := 2 + feature;
    var forwardingInfo := 3 + 2 + featureList;
    var resultSequence := 3 + 2 + forwardingInfo;
    var component := 3 + 2 + resultSequence;
    var facility := 2 + component;
    assert 2 + 2 + facility <= MAXIMUM_MESSAGE;
    var data := new Byte[MAXIMUM_MESSAGE];
    var offset := PutHead(data, request, facility, component, resultSequence);
    offset := PutFeatureHead(data, offset, forwardingInfo, request.serviceCode, featureList, feature);
    offset := PutFeature(data, offset, registered, active, number, service, serviceCode, noReplyTime);
    message := data[..offset];
    ForwardingLayout(request, f);
  }

  method PutFeatureHead(data: array<Byte>, start: nat, forwardingInfo: Byte, serviceCode: Byte,
                        featureList: Byte, feature: Byte)
    returns (offset: nat)
    requires start + 9 <= data.Length
    modifies data
    ensures offset == start + 9
    ensures data[..offset] == old(data[..start]) + [0xa0, forwardingInfo] + [0x04, 0x01, serviceCode] +
                              [0x30, featureList] + [0x30, feature]
  {
    offset := Put(data, start, [0xa0, forwardingInfo]);
    offset := Put(data, offset, [0x04, 0x01, serviceCode]);
    offset := Put(data, offset, [0x30, featureList]);
    offset := Put(data, offset, [0x30, feature]);
  }

  method PutFeature(data: array<Byte>, start: nat, registered: bool, active: bool, number: seq<Byte>,
                    service: Service, serviceCode: Byte, noReplyTime: Byte)
    returns (offset: nat)
    requires |number| <= MAXIMUM_NUMBER
    requires var f := Feature(service, serviceCode, Status(registered, active), number, noReplyTime);
             start + |FeatureOctets(f)| <= data.Length
    modifies data
    ensures var o := FeatureOctets(Feature(service, serviceCode, Status(registered, active), number, noReplyTime));
            offset == start + |o| && data[..offset] == old(data[..start]) + o
  {
    ghost var f := Feature(service, serviceCode, Status(registered, active), number, noReplyTime);
    ghost var base := data[..start];
    offset := start;
    if service != NoService {
      offset := Put(data, offset, [if service == Bearer then 0x82 else 0x83, 0x01, serviceCode]);
    }
    assert data[..offset] == base + ServiceOctets(f);
    offset := PutStatus(data, offset, registered, active, number, noReplyTime, f);
    assert data[..offset] == base + (ServiceOctets(f) + [0x84, 0x01, f.status] + NumberOctets(f) + TimeOctets(f));
  }

  /** The status, and after it the number and the time when there are any. */
  method PutStatus(data: array<Byte>, start: nat, registered: bool, active: bool, number: seq<Byte>, noReplyTime: Byte,
                   ghost f: Feature)
    returns (offset: nat)
    requires |number| <= MAXIMUM_NUMBER
    requires f.status == Status(registered, active) && f.number == number && f.noReplyTime == noReplyTime
    requires start + 3 + |NumberOctets(f)| + |TimeOctets(f)| <= data.Length
    modifies data
    ensures offset == start + 3 + |NumberOctets(f)| + |TimeOctets(f)|
    ensures data[..offset] == old(data[..start]) + [0x84, 0x01, f.status] + NumberOctets(f) + TimeOctets(f)
  {
    offset := Put(data, start, [0x84, 0x01, if registered then (if active then 0x05 else 0x04) else 0x00]);
    ghost var base := data[..offset];
    if |number| != 0 {
      offset := Put(data, offset, [0x85, |number|]);
      offset := Put(data, offset, number);
    }
    assert data[..offset] == base + NumberOctets(f);
    if noReplyTime != 0 {
      offset := Put(data, offset, [0x87, 0x01, noReplyTime]);
    }
  }

  /** Where the parts of a feature stand. */
  lemma FeatureParts(f: Feature)
    requires |f.number| <= MAXIMUM_NUMBER
    ensures var o, n := FeatureOctets(f), |ServiceOctets(f)|;
            n + 2 < |o| && o[..n] == ServiceOctets(f) && o[n] == 0x84 && o[n + 2] == f.status &&
            o[n + 3..] == NumberOctets(f) + TimeOctets(f)
  {
    hide ServiceOctets, NumberOctets, TimeOctets;
  }

  lemma ServicesDiffer(f: Feature, g: Feature, a: seq<Byte>)
    requires |ServiceOctets(f)| + 2 < |a| && |ServiceOctets(g)| + 2 < |a|
    requires a[..|ServiceOctets(f)|] == ServiceOctets(f) && a[|ServiceOctets(f)|] == 0x84
    requires a[..|ServiceOctets(g)|] == ServiceOctets(g) && a[|ServiceOctets(g)|] == 0x84
    ensures f.service == g.service && (!f.service.NoService? ==> f.serviceCode == g.serviceCode)
  {
    if !f.service.NoService? {
      assert a[0] == ServiceOctets(f)[0] && a[..3][2] == f.serviceCode;
    }
    if !g.service.NoService? {
      assert a[0] == ServiceOctets(g)[0] && a[..3][2] == g.serviceCode;
    }
  }

  /** Two features with the same octets are the same; without a service its code is not sent. */
  lemma FeatureOctetsAreInjective(f: Feature, g: Feature)
    requires |f.number| <= MAXIMUM_NUMBER && |g.number| <= MAXIMUM_NUMBER
    requires FeatureOctets(f) == FeatureOctets(g)
    ensures f.service == g.service && f.status == g.status && f.number == g.number && f.noReplyTime == g.noReplyTime
    ensures !f.service.NoService? ==> f.serviceCode == g.serviceCode
  {
    hide FeatureOctets, NumberOctets, TimeOctets;
    FeatureParts(f);
    FeatureParts(g);
    ServicesDiffer(f, g, FeatureOctets(f));
    NumberAndTime(f, g);
  }

  lemma NumberAndTime(f: Feature, g: Feature)
    requires |f.number| <= MAXIMUM_NUMBER && |g.number| <= MAXIMUM_NUMBER
    requires NumberOctets(f) + TimeOctets(f) == NumberOctets(g) + TimeOctets(g)
    ensures f.number == g.number && f.noReplyTime == g.noReplyTime
  {
    var x, y := NumberOctets(f) + TimeOctets(f), NumberOctets(g) + TimeOctets(g);
    assert |f.number| == |g.number| by {
      if |x| > 0 {
        assert x[0] == y[0] && x[1] == y[1];
      }
    }
    if |f.number| == 0 {
      assert x == TimeOctets(f) && y == TimeOctets(g);
    } else {
      var m := 2 + |f.number|;
      assert x[2..m] == f.number && y[2..m] == g.number;
      assert x[m..] == TimeOctets(f) && y[m..] == TimeOctets(g);
    }
    var t, u := TimeOctets(f), TimeOctets(g);
    assert t == u;
    if |t| > 0 {
      assert t[2] == u[2];
    }
  }

  /** The whole answer determines everything it was asked to tell. */
  lemma ForwardingAnswerIsInjective(p: Request, f: Feature, q: Request, g: Feature)
    requires ForwardingAccepted(p, f) && ForwardingAccepted(q, g)
    requires Short(ForwardingFields(p, f)) && Short(ForwardingFields(q, g))
    requires Release(p.transaction, ForwardingFields(p, f)) == Release(q.transaction, ForwardingFields(q, g))
    ensures p == q
    ensures f.service == g.service && f.status == g.status && f.number == g.number && f.noReplyTime == g.noReplyTime
    ensures !f.service.NoService? ==> f.serviceCode == g.serviceCode
  {
    hide FeatureOctets, Release, ForwardingFields, Short;
    var m, n := |FeatureOctets(f)|, |FeatureOctets(g)|;
    ForwardingLayout(p, f);
    ForwardingLayout(q, g);
    var a := Release(p.transaction, ForwardingFields(p, f));
    var b := Release(q.transaction, ForwardingFields(q, g));
    assert a[..14] == FacilityHead(p, m + 7) && b[..14] == FacilityHead(q, n + 7);
    assert a[0] == b[0] && a[3] == b[3] && a[8] == b[8] && a[13] == b[13] && a[18] == b[18];
    assert a[23..] == FeatureOctets(f) && b[23..] == FeatureOctets(g);
    FeatureOctetsAreInjective(f, g);
  }
}
