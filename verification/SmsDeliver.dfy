/** A short message from the host, carried to the handset as CP-DATA, RP-DATA and SMS-DELIVER, and read back. */
module SmsDeliver {
  import opened Integers

  const MAXIMUM_LAYER3 := 176
  const SENDER_CAPACITY := 20

  type Unsigned = u: nat | u < 0x1_0000_0000
  /** One semi-octet of an address. */
  type Digit = d: nat | d < 16

  datatype Alphabet = Gsm7Bit | EightBit | Ucs2

  /** Octets holding `septets` packed septets, in the 32-bit arithmetic of the program. */
  function PackedOctets(septets: Unsigned): nat {
    (septets * 7 + 7) % TWO_TO_32 / 8
  }

  function DataCoding(alphabet: Alphabet): Byte {
    match alphabet
    case Gsm7Bit => 0x00
    case EightBit => 0x04
    case Ucs2 => 0x08
  }

  const SMSC: seq<Byte> := [0x91, 0x21, 0x43, 0x65, 0x87, 0x09]
  const TIMESTAMP: seq<Byte> := [0x62, 0x70, 0x42, 0x21, 0x00, 0x00, 0x00]

  /** Two digits an octet, low half first; an odd tail is filled with 0xf. */
  function AddressOctet(sender: seq<Digit>, k: nat): Byte
    requires 2 * k < |sender|
  {
    var high: int := if 2 * k + 1 < |sender| then sender[2 * k + 1] else 0x0f;
    sender[2 * k] + high * 16
  }

  function AddressOctets(sender: seq<Digit>): (r: seq<Byte>)
    ensures |r| == (|sender| + 1) / 2
  {
    seq((|sender| + 1) / 2, k requires 0 <= k < (|sender| + 1) / 2 => AddressOctet(sender, k))
  }

  function TotalOctets(senderLength: nat, octets: nat): nat {
    27 + (senderLength + 1) / 2 + octets
  }

  /** The message up to the address, given its two length octets. */
  function Head(cpLength: Byte, rpLength: Byte, senderLength: nat): (h: seq<Byte>)
    requires senderLength <= SENDER_CAPACITY
    ensures |h| == 17
  {
    [0x09, 0x01, cpLength, 0x01, 0x40, 0x06, 0x91, 0x21, 0x43, 0x65, 0x87, 0x09,
     0x00, rpLength, 0x04, senderLength, 0x81]
  }

  function Tail(sender: seq<Digit>, alphabet: Alphabet, userData: seq<Byte>, length: Byte): (t: seq<Byte>)
    ensures |t| == (|sender| + 1) / 2 + 10 + |userData|
  {
    AddressOctets(sender) + [0x00, DataCoding(alphabet)] + TIMESTAMP + [length] + userData
  }

  /** The whole message. */
  function CpData(sender: seq<Digit>, alphabet: Alphabet, userData: seq<Byte>, userDataLength: Byte): (m: seq<Byte>)
    requires |sender| <= SENDER_CAPACITY && TotalOctets(|sender|, |userData|) <= MAXIMUM_LAYER3
    ensures |m| == TotalOctets(|sender|, |userData|)
  {
    var total := TotalOctets(|sender|, |userData|);
    Head(total - 3, total - 14, |sender|) + Tail(sender, alphabet, userData, userDataLength)
  }

  // ----- The parser -----

  datatype DcsResult = BadDcs | Dcs(alphabet: Alphabet)

  function DecodeDcs(dcs: Byte): DcsResult {
    if dcs < 0x40 then
      if dcs / 32 % 2 != 0 || dcs / 4 % 4 == 3 then BadDcs
      else Dcs(if dcs / 4 % 4 == 0 then Gsm7Bit else if dcs / 4 % 4 == 1 then EightBit else Ucs2)
    else if dcs / 16 == 15 then Dcs(if dcs / 4 % 2 != 0 then EightBit else Gsm7Bit)
    else BadDcs
  }

  datatype Delivery = Invalid | Delivery(cpTransaction: Byte, rpReference: Byte, alphabet: Alphabet,
                                         userDataOffset: nat, userDataLength: nat)

  function RequiredOctets(alphabet: Alphabet, length: Byte): nat {
    if alphabet.Gsm7Bit? then (length * 7 + 7) / 8 else length
  }

  function ParseDeliver(information: seq<Byte>): Delivery {
    var length := |information|;
    if length < 16 || information[0] != 0x09 || information[1] != 0x01 || information[2] != length - 3 ||
       information[3] != 0x01 || information[13] != length - 14 || information[14] % 4 != 0 then Invalid
    else if information[15] > 20 then Invalid
    else
      var pidIndex := 17 + (information[15] + 1) / 2;
      var dcsIndex := pidIndex + 1;
      var udlIndex := dcsIndex + 1 + 7;
      if udlIndex >= length then Invalid
      else
        var dcs := DecodeDcs(information[dcsIndex]);
        if dcs.BadDcs? then Invalid
        else if udlIndex + 1 + RequiredOctets(dcs.alphabet, information[udlIndex]) != length then Invalid
        else Delivery(information[0], information[4], dcs.alphabet, udlIndex + 1, information[udlIndex])
  }

  // ----- The pending message -----

  /** What the network accepts from its host. */
  predicate Acceptable(senderLength: nat, alphabet: Alphabet, octets: nat, length: Unsigned) {
    && 0 < senderLength <= SENDER_CAPACITY && 0 < octets <= 140
    && octets == if alphabet.Gsm7Bit? then PackedOctets(length) else length
  }

  datatype HostMessage =
    | NoMessage
    | HostMessage(sender: seq<Digit>, alphabet: Alphabet, userData: seq<Byte>, length: Byte)

  datatype Built = Overrun | Message(octets: seq<Byte>)

  class HostSms {
    var pending: bool
    var sender: seq<Digit>
    var senderLength: nat
    var alphabet: Alphabet
    var userData: seq<Byte>
    var userDataOctets: nat
    var userDataLength: Byte

    ghost predicate Valid()
      reads this
    {
      && |sender| == SENDER_CAPACITY && senderLength <= SENDER_CAPACITY
      && |userData| == MAXIMUM_LAYER3 && userDataOctets <= 140
    }

    ghost function Pending(): HostMessage
      reads this
      requires Valid()
    {
      if pending then HostMessage(sender[..senderLength], alphabet, userData[..userDataOctets], userDataLength)
      else NoMessage
    }

    constructor ()
      ensures Valid() && Pending() == NoMessage
    {
      pending, alphabet := false, Gsm7Bit;
      sender, senderLength := seq(SENDER_CAPACITY, _ => 0), 0;
      userData, userDataOctets, userDataLength := seq(MAXIMUM_LAYER3, _ => 0), 0, 0;
    }

    /** Accepted exactly when nothing is pending and the parameters agree; a refusal changes nothing. */
    method SetHostIncomingSms(from: seq<Digit>, coding: Alphabet, data: seq<Byte>, length: Unsigned) returns (ok: bool)
      requires Valid()
      modifies this
      ensures Valid() && ok == (!old(pending) && Acceptable(|from|, coding, |data|, length))
      ensures ok <==> !old(pending) && 0 < |from| <= 20 && 0 < |data| <= 140 &&
                      |data| == if coding.Gsm7Bit? then (7 * length + 7) % 0x1_0000_0000 / 8 else length
      ensures Pending() == if ok then HostMessage(from, coding, data, length % 0x100) else old(Pending())
    {
      if |from| == 0 || |from| > SENDER_CAPACITY || |data| == 0 || |data| > 140 || pending {
        return false;
      }
      if (coding.Gsm7Bit? && PackedOctets(length) != |data|) || (!coding.Gsm7Bit? && length != |data|) {
        return false;
      }
      sender := from + seq(SENDER_CAPACITY - |from|, _ => 0);
      senderLength := |from|;
      alphabet := coding;
      userData := data + seq(MAXIMUM_LAYER3 - |data|, _ => 0);
      userDataOctets := |data|;
      userDataLength := length % 0x100;
      pending := true;
      return true;
    }

    /** The CP-DATA of the pending message. The program does not compare its length with the buffer: `Overrun` stands
        for the message that does not fit it, about which nothing more is said. */
    method IncomingSmsCpData(messageIndex: nat) returns (result: Built)
      requires Valid() && pending
      ensures messageIndex != 0 ==> result == Message([])
      ensures messageIndex == 0 ==>
                if TotalOctets(senderLength, userDataOctets) > MAXIMUM_LAYER3 then result == Overrun
                else result == Message(CpData(sender[..senderLength], alphabet,
                                              userData[..userDataOctets], userDataLength))
    {
      hide Head, Tail, CpData;
      if messageIndex != 0 {
        return Message([]);
      }
      var data := new Byte[MAXIMUM_LAYER3](_ => 0);
      var offset := PutHead(data);
      if TotalOctets(senderLength, userDataOctets) > MAXIMUM_LAYER3 {
        return Overrun;
      }
      offset := PutTail(data, offset);
      ghost var draft := data[..offset];
      data[13] := offset - 14;
      data[2] := offset - 3;
      assert data[..offset] == Patched(draft, offset);
      CpDataFromDraft(sender[..senderLength], alphabet, userData[..userDataOctets], userDataLength);
      return Message(data[..offset]);
    }

    method PutHead(data: array<Byte>) returns (offset: nat)
      requires Valid() && data.Length == MAXIMUM_LAYER3
      modifies data
      ensures offset == 17 && data[..offset] == Head(0, 0, senderLength)
    {
      offset := Put(data, 0, [0x09, 0x01, 0x00, 0x01, 0x40, 0x06]);
      offset := Put(data, offset, SMSC);
      offset := Put(data, offset, [0x00, 0x00]);
      offset := Put(data, offset, [0x04, senderLength, 0x81]);
    }

    method PutTail(data: array<Byte>, start: nat) returns (offset: nat)
      requires Valid() && data.Length == MAXIMUM_LAYER3
      requires start == 17 && TotalOctets(senderLength, userDataOctets) <= MAXIMUM_LAYER3
      modifies data
      ensures offset == TotalOctets(senderLength, userDataOctets)
      ensures data[..offset] ==
              old(data[..start]) + Tail(sender[..senderLength], alphabet, userData[..userDataOctets], userDataLength)
    {
      hide AddressOctets, DataCoding;
      ghost var head := data[..start];
      offset := WriteAddress(data, start);
      ghost var address := AddressOctets(sender[..senderLength]);
      offset := Put(data, offset, [0x00, DataCoding(alphabet)]);
      assert data[..offset] == head + (address + [0x00, DataCoding(alphabet)]);
      offset := Put(data, offset, TIMESTAMP);
      assert data[..offset] == head + (address + [0x00, DataCoding(alphabet)] + TIMESTAMP);
      offset := Put(data, offset, [userDataLength]);
      offset := Put(data, offset, userData[..userDataOctets]);
    }

    method WriteAddress(data: array<Byte>, start: nat) returns (offset: nat)
      requires Valid() && start + (senderLength + 1) / 2 <= data.Length
      modifies data
      ensures offset == start + (senderLength + 1) / 2
      ensures data[..offset] == old(data[..start]) + AddressOctets(sender[..senderLength])
    {
      offset := start;
      ghost var all := AddressOctets(sender[..senderLength]);
      for k := 0 to (senderLength + 1) / 2
        invariant offset == start + k
        invariant data[..offset] == old(data[..start]) + all[..k]
      {
        var next := AddressOctet(sender[..senderLength], k);
        assert all[k] == next;
        ghost var before := data[..offset];
        data[offset] := next;
        offset := offset + 1;
        assert data[..offset] == before + [next];
      }
    }
  }

  /** The two length octets filled in. */
  function Patched(draft: seq<Byte>, total: nat): (m: seq<Byte>)
    requires 14 <= |draft| && 14 <= total <= MAXIMUM_LAYER3
    ensures |m| == |draft|
  {
    draft[..2] + [total - 3] + draft[3..13] + [total - 14] + draft[14..]
  }

  lemma PatchedAppends(head: seq<Byte>, tail: seq<Byte>, total: nat)
    requires 14 <= |head| && 14 <= total <= MAXIMUM_LAYER3
    ensures Patched(head + tail, total) == Patched(head, total) + tail
  {
  }

  lemma PatchedHead(total: nat, senderLength: nat)
    requires 14 <= total <= MAXIMUM_LAYER3 && senderLength <= SENDER_CAPACITY
    ensures Patched(Head(0, 0, senderLength), total) == Head(total - 3, total - 14, senderLength)
  {
  }

  lemma CpDataFromDraft(sender: seq<Digit>, alphabet: Alphabet, userData: seq<Byte>, length: Byte)
    requires |sender| <= SENDER_CAPACITY && TotalOctets(|sender|, |userData|) <= MAXIMUM_LAYER3
    ensures Patched(Head(0, 0, |sender|) + Tail(sender, alphabet, userData, length),
                    TotalOctets(|sender|, |userData|)) ==
            CpData(sender, alphabet, userData, length)
  {
    hide Head, Tail, Patched;
    var total := TotalOctets(|sender|, |userData|);
    PatchedAppends(Head(0, 0, |sender|), Tail(sender, alphabet, userData, length), total);
    PatchedHead(total, |sender|);
  }

  // ----- Reading back -----

  /** Every accepted message that fits is read back with its own alphabet and length, its user data lying exactly
      where the parser says, if and only if its length was below 256; otherwise what was built is invalid. */
  lemma ParseAfterBuild(sender: seq<Digit>, alphabet: Alphabet, userData: seq<Byte>, length: Unsigned)
    requires Acceptable(|sender|, alphabet, |userData|, length)
    requires TotalOctets(|sender|, |userData|) <= MAXIMUM_LAYER3
    ensures var m := CpData(sender, alphabet, userData, length % 0x100);
            var d := ParseDeliver(m);
            if length < 0x100
            then d == Delivery(0x09, 0x40, alphabet, |m| - |userData|, length) && m[d.userDataOffset..] == userData
            else d == Invalid
  {
    hide RequiredOctets, PackedOctets;
    var m := CpData(sender, alphabet, userData, length % 0x100);
    var a := (|sender| + 1) / 2;
    assert m[0] == 0x09 && m[1] == 0x01 && m[2] == |m| - 3 && m[3] == 0x01 && m[4] == 0x40;
    assert m[13] == |m| - 14 && m[14] == 0x04 && m[15] == |sender|;
    assert m[18 + a] == DataCoding(alphabet) && m[26 + a] == length % 0x100;
    assert m[27 + a..] == userData;
    DataCodingIsDecoded(alphabet);
    ShortLengthsAreCarried(alphabet, |userData|, length);
  }

  /** Every digit of the sender stands in its own half octet, the first of each pair in the low half, and an odd tail
      is filled with 0xf. */
  lemma SenderIsReadBack(sender: seq<Digit>, alphabet: Alphabet, userData: seq<Byte>, length: Byte, d: nat)
    requires |sender| <= SENDER_CAPACITY && TotalOctets(|sender|, |userData|) <= MAXIMUM_LAYER3 && d < |sender|
    ensures var m := CpData(sender, alphabet, userData, length);
            m[15] == |sender| &&
            (if d % 2 == 0 then m[17 + d / 2] % 16 else m[17 + d / 2] / 16) == sender[d] &&
            (|sender| % 2 == 1 ==> m[17 + |sender| / 2] / 16 == 15)
  {
    hide CpData;
    AddressPlace(sender, alphabet, userData, length, d / 2);
    if |sender| % 2 == 1 {
      AddressPlace(sender, alphabet, userData, length, |sender| / 2);
    }
  }

  lemma AddressPlace(sender: seq<Digit>, alphabet: Alphabet, userData: seq<Byte>, length: Byte, k: nat)
    requires |sender| <= SENDER_CAPACITY && TotalOctets(|sender|, |userData|) <= MAXIMUM_LAYER3 && 2 * k < |sender|
    ensures var m := CpData(sender, alphabet, userData, length);
            m[15] == |sender| && m[17 + k] == AddressOctet(sender, k)
  {
    hide AddressOctet;
    assert Tail(sender, alphabet, userData, length)[k] == AddressOctets(sender)[k];
  }

  /** The message in figures. */
  lemma MessageInFigures(sender: seq<Digit>, alphabet: Alphabet, userData: seq<Byte>, length: Byte)
    requires |sender| <= SENDER_CAPACITY && TotalOctets(|sender|, |userData|) <= MAXIMUM_LAYER3
    ensures var m, a := CpData(sender, alphabet, userData, length), 17 + (|sender| + 1) / 2;
            |m| == a + 10 + |userData| &&
            m[..17] == [0x09, 0x01, |m| - 3, 0x01, 0x40, 0x06, 0x91, 0x21, 0x43, 0x65, 0x87, 0x09,
                        0x00, |m| - 14, 0x04, |sender|, 0x81] &&
            m[a] == 0x00 &&
            m[a + 1] == (if alphabet.Gsm7Bit? then 0x00 else if alphabet.EightBit? then 0x04 else 0x08) &&
            m[a + 2..a + 9] == [0x62, 0x70, 0x42, 0x21, 0x00, 0x00, 0x00] &&
            m[a + 9] == length && m[a + 10..] == userData
  {
    hide AddressOctets;
  }

  lemma DataCodingIsDecoded(alphabet: Alphabet)
    ensures DecodeDcs(DataCoding(alphabet)) == Dcs(alphabet)
  {
  }

  /** The one octet that carries the length of an accepted message still stands for its user data
      if and only if the length was below 256, and then it is at most 160. */
  lemma ShortLengthsAreCarried(alphabet: Alphabet, octets: nat, length: Unsigned)
    requires 0 < octets <= 140 && octets == (if alphabet.Gsm7Bit? then PackedOctets(length) else length)
    ensures RequiredOctets(alphabet, length % 0x100) == octets <==> length < 0x100
    ensures length < 0x100 ==> length <= 160
  {
    hide PackedOctets;
    if alphabet.Gsm7Bit? {
      if length < 0x100 {
        ShortSeptetCounts(length);
      } else if RequiredOctets(alphabet, length % 0x100) == octets {
        LongSeptetCounts(length / 0x100, length % 0x100);
      }
    }
  }

  lemma ShortSeptetCounts(length: nat)
    requires length < 0x100
    ensures PackedOctets(length) == (length * 7 + 7) / 8 && (PackedOctets(length) <= 140 <==> length <= 160)
  {
  }

  /** 256 septets are 224 octets, and 2^24 times that is the first multiple to vanish in 32 bits. */
  lemma LongSeptetCounts(a: nat, b: nat)
    requires 0 < a < 0x100_0000 && b < 0x100 && (7 * b + 7) / 8 <= 140
    ensures PackedOctets(0x100 * a + b) != (7 * b + 7) / 8
  {
    var x, y := 1792 * a % TWO_TO_32, 7 * b + 7;
    var q := 1792 * a / TWO_TO_32;
    assert x == 1792 * a - TWO_TO_32 * q;
    assert x == 256 * (7 * a - 0x100_0000 * q);
    assert x != 0 by {
      assert 0 <= q <= 6;
    }
    assert (0x100 * a + b) * 7 + 7 == TWO_TO_32 * q + (x + y);
    if x + y < TWO_TO_32 {
      assert (TWO_TO_32 * q + (x + y)) % TWO_TO_32 == x + y;
    } else {
      assert (TWO_TO_32 * q + (x + y)) % TWO_TO_32 == x + y - TWO_TO_32;
    }
  }

  /** In 32 bits the septet count 613566757 passes for one octet; the message built from it is not valid. */
  lemma WrappedLengthIsInvalid(sender: seq<Digit>, octet: Byte)
    requires 0 < |sender| <= SENDER_CAPACITY
    ensures Acceptable(|sender|, Gsm7Bit, 1, 613_566_757)
    ensures ParseDeliver(CpData(sender, Gsm7Bit, [octet], 613_566_757 % 0x100)) == Invalid
  {
    assert 613_566_757 * 7 + 7 == TWO_TO_32 + 10;
    ParseAfterBuild(sender, Gsm7Bit, [octet], 613_566_757);
  }

  /** An accepted message exceeds the buffer exactly when a sender of 19 or 20 digits meets 140 octets of text. */
  lemma WhatDoesNotFit(senderLength: nat, alphabet: Alphabet, octets: nat, length: Unsigned)
    requires Acceptable(senderLength, alphabet, octets, length)
    ensures TotalOctets(senderLength, octets) > MAXIMUM_LAYER3 <==> senderLength >= 19 && octets == 140
  {
  }

  /** Such messages are accepted in every alphabet, and need one octet more than the buffer has. */
  lemma AcceptedButDoesNotFit(senderLength: nat)
    requires 19 <= senderLength <= SENDER_CAPACITY
    ensures Acceptable(senderLength, Gsm7Bit, 140, 160)
    ensures Acceptable(senderLength, EightBit, 140, 140) && Acceptable(senderLength, Ucs2, 140, 140)
    ensures TotalOctets(senderLength, 140) == MAXIMUM_LAYER3 + 1
  {
  }
}
