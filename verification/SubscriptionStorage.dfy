/** The CRC-protected image of the call-forwarding records of one subscription. */
module SubscriptionStorage {
  import opened Bits
  import opened Octets
  import opened Polynomial
  import opened Crc32
  import opened Words
  import Supplementary

  const CONDITION_COUNT := 4
  /** The longest forwarded number of the supplementary services. */
  const NUMBER_CAPACITY := Supplementary.MAXIMUM_NUMBER
  const IDENTITY_OCTETS := 12
  const RECORD_OCTETS := 21
  const BODY_OCTETS := 104
  const IMAGE_OCTETS := 108

  datatype ForwardingRecord = ForwardingRecord(
    registered: bool, active: bool, length: bv8, service: bv8, serviceCode: bv8, noReplyTime: bv8, number: seq<bv8>)
  {
    predicate Shaped() {
      |number| == NUMBER_CAPACITY
    }

    /** What the decoder insists on. */
    predicate Storable() {
      && Shaped()
      && (active ==> registered)
      && length <= 16 && service <= 2
      && (registered <==> length != 0)
    }
  }

  const EMPTY_NUMBER: seq<bv8> := [0, 0, 0, 0, 0, 0, 0, 0, 0, 0, 0, 0, 0, 0, 0, 0]
  const BLANK := ForwardingRecord(false, false, 0, 0, 0, 0, EMPTY_NUMBER)

  predicate Shaped(rs: seq<ForwardingRecord>) {
    |rs| == CONDITION_COUNT && forall i :: 0 <= i < CONDITION_COUNT ==> rs[i].Shaped()
  }

  predicate Storable(rs: seq<ForwardingRecord>) {
    |rs| == CONDITION_COUNT && forall i :: 0 <= i < CONDITION_COUNT ==> rs[i].Storable()
  }

  // ----- The image -----

  /** "GSUB", version, counts, reserved. */
  const HEADER: seq<bv8> := [0x47, 0x53, 0x55, 0x42, 1, 4, 16, 0]

  function Flags(r: ForwardingRecord): bv8 {
    (if r.registered then 1 else 0) | (if r.active then 2 else 0)
  }

  function RecordImage(r: ForwardingRecord): (b: seq<bv8>)
    requires r.Shaped()
    ensures |b| == RECORD_OCTETS
  {
    [Flags(r), r.length, r.service, r.serviceCode, r.noReplyTime] + r.number
  }

  function RecordsImage(rs: seq<ForwardingRecord>): (b: seq<bv8>)
    requires forall i :: 0 <= i < |rs| ==> rs[i].Shaped()
    ensures |b| == RECORD_OCTETS * |rs|
  {
    if rs == [] then [] else RecordsImage(rs[..|rs| - 1]) + RecordImage(rs[|rs| - 1])
  }

  function Body(subscriber: seq<bv8>, rs: seq<ForwardingRecord>): (b: seq<bv8>)
    requires |subscriber| == IDENTITY_OCTETS && Shaped(rs)
    ensures |b| == BODY_OCTETS
  {
    HEADER + subscriber + RecordsImage(rs)
  }

  /** The checksum word, least significant octet first. */
  function ChecksumOctets(checksum: seq<bool>): (b: seq<bv8>)
    requires |checksum| == WIDTH
    ensures |b| == 4
  {
    [LowOctet(checksum[0..8]), LowOctet(checksum[8..16]), LowOctet(checksum[16..24]), LowOctet(checksum[24..32])]
  }

  function Image(subscriber: seq<bv8>, rs: seq<ForwardingRecord>): (b: seq<bv8>)
    requires |subscriber| == IDENTITY_OCTETS && Shaped(rs)
    ensures |b| == IMAGE_OCTETS
  {
    Body(subscriber, rs) + ChecksumOctets(Checksum(Body(subscriber, rs)))
  }

  // ----- What the decoder makes of an image -----

  datatype Decoded = Refused | Records(records: seq<ForwardingRecord>)

  predicate ChecksumMatches(image: seq<bv8>)
    requires |image| == IMAGE_OCTETS
  {
    LowBits(image[BODY_OCTETS..]) == Checksum(image[..BODY_OCTETS])
  }

  /** The record at one place of the image, whatever it holds. */
  function ParsedRecord(b: seq<bv8>): (r: ForwardingRecord)
    requires |b| == RECORD_OCTETS
    ensures r.Shaped()
  {
    ForwardingRecord(b[0] & 1 != 0, b[0] & 2 != 0, b[1], b[2], b[3], b[4], b[5..])
  }

  predicate RecordAccepted(b: seq<bv8>)
    requires |b| == RECORD_OCTETS
  {
    b[0] <= 3 && ParsedRecord(b).Storable()
  }

  function RecordOctets(image: seq<bv8>, i: nat): (b: seq<bv8>)
    requires |image| == IMAGE_OCTETS && i < CONDITION_COUNT
    ensures |b| == RECORD_OCTETS
  {
    image[20 + RECORD_OCTETS * i..20 + RECORD_OCTETS * i + RECORD_OCTETS]
  }

  function Decode(image: seq<bv8>, subscriber: seq<bv8>): (r: Decoded)
    requires |image| == IMAGE_OCTETS && |subscriber| == IDENTITY_OCTETS
    ensures r.Records? ==> Storable(r.records)
  {
    if image[..8] == HEADER && image[8..20] == subscriber && ChecksumMatches(image) &&
       (forall i :: 0 <= i < CONDITION_COUNT ==> RecordAccepted(RecordOctets(image, i)))
    then Records(seq(CONDITION_COUNT, i requires 0 <= i < CONDITION_COUNT => ParsedRecord(RecordOctets(image, i))))
    else Refused
  }

  // ----- Inverses -----

  lemma FlagsRoundTrip(r: ForwardingRecord)
    ensures (Flags(r) & 1 != 0) == r.registered && (Flags(r) & 2 != 0) == r.active && Flags(r) <= 3
  {
  }

  lemma FlagsFromOctet(b: bv8)
    requires b <= 3
    ensures b == (if b & 1 != 0 then 1 else 0) | (if b & 2 != 0 then 2 else 0)
  {
  }

  lemma ParseAfterImage(r: ForwardingRecord)
    requires r.Shaped()
    ensures ParsedRecord(RecordImage(r)) == r && RecordImage(r)[0] <= 3
  {
    FlagsRoundTrip(r);
    assert RecordImage(r)[5..] == r.number;
  }

  lemma ImageAfterParse(b: seq<bv8>)
    requires |b| == RECORD_OCTETS && b[0] <= 3
    ensures RecordImage(ParsedRecord(b)) == b
  {
    FlagsFromOctet(b[0]);
    assert b == [b[0], b[1], b[2], b[3], b[4]] + b[5..];
  }

  lemma FourRecords(rs: seq<ForwardingRecord>)
    requires Shaped(rs)
    ensures RecordsImage(rs) == RecordImage(rs[0]) + RecordImage(rs[1]) + RecordImage(rs[2]) + RecordImage(rs[3])
  {
    hide RecordImage;
    assert rs[..3][..2] == rs[..2] && rs[..2][..1] == rs[..1] && rs[..1][..0] == [];
    assert RecordsImage(rs[..1]) == RecordImage(rs[0]);
    assert RecordsImage(rs[..2]) == RecordsImage(rs[..1]) + RecordImage(rs[1]);
    assert RecordsImage(rs[..3]) == RecordsImage(rs[..2]) + RecordImage(rs[2]);
  }

  /** Each record stands at its own place. */
  lemma RecordPlaces(subscriber: seq<bv8>, rs: seq<ForwardingRecord>, i: nat)
    requires |subscriber| == IDENTITY_OCTETS && Shaped(rs) && i < CONDITION_COUNT
    ensures RecordOctets(Image(subscriber, rs), i) == RecordImage(rs[i])
    ensures Image(subscriber, rs)[..8] == HEADER && Image(subscriber, rs)[8..20] == subscriber
  {
    hide RecordImage, RecordsImage, Checksum;
    FourRecords(rs);
  }

  /** The image in figures. */
  lemma ImageInFigures(subscriber: seq<bv8>, rs: seq<ForwardingRecord>, i: nat)
    requires |subscriber| == IDENTITY_OCTETS && Shaped(rs) && i < CONDITION_COUNT
    ensures var image, at := Image(subscriber, rs), 20 + 21 * i;
            image[..8] == [0x47, 0x53, 0x55, 0x42, 1, 4, 16, 0] && image[8..20] == subscriber &&
            image[at] == (if rs[i].registered then 1 else 0) + (if rs[i].active then 2 else 0) &&
            image[at + 1] == rs[i].length && image[at + 2] == rs[i].service &&
            image[at + 3] == rs[i].serviceCode && image[at + 4] == rs[i].noReplyTime &&
            image[at + 5..at + 21] == rs[i].number &&
            LowBits(image[104..]) == Checksum(image[..104])
  {
    hide Image, RecordImage, Flags, Checksum, LowBits;
    RecordPlaces(subscriber, rs, i);
    ImageChecksumMatches(subscriber, rs);
    var image, at := Image(subscriber, rs), 20 + 21 * i;
    var b := RecordOctets(image, i);
    assert forall k :: 0 <= k < 21 ==> b[k] == image[at + k];
    RecordInFigures(rs[i]);
    assert b[5..] == image[at + 5..at + 21];
  }

  lemma RecordInFigures(r: ForwardingRecord)
    requires r.Shaped()
    ensures var b := RecordImage(r);
            b[0] == (if r.registered then 1 else 0) + (if r.active then 2 else 0) && b[1] == r.length &&
            b[2] == r.service && b[3] == r.serviceCode && b[4] == r.noReplyTime && b[5..] == r.number
  {
  }

  lemma ChecksumOctetsHoldTheWord(checksum: seq<bool>)
    requires |checksum| == WIDTH
    ensures LowBits(ChecksumOctets(checksum)) == checksum
  {
    hide LowOctet, LowBit;
    var b := ChecksumOctets(checksum);
    forall k | 0 <= k < WIDTH
      ensures LowBits(b)[k] == checksum[k]
    {
      LowOctetHasItsBits(checksum[k / 8 * 8..k / 8 * 8 + 8], k % 8);
    }
  }

  lemma ChecksumOctetOfWord(crc: bv32, i: nat)
    requires i < 4
    ensures ChecksumOctets(WordBits(crc))[i] == OctetOf(crc, i)
  {
    hide OctetOf, LowOctet, LowBit, Bit32;
    var b := ChecksumOctets(WordBits(crc));
    forall j | 0 <= j < 8
      ensures LowBit(b[i], j) == LowBit(OctetOf(crc, i), j)
    {
      OctetOfBit(crc, i, j);
      LowOctetHasItsBits(WordBits(crc)[8 * i..8 * i + 8], j);
    }
    LowBitsDetermineOctet(b[i], OctetOf(crc, i));
  }

  lemma ImageChecksumMatches(subscriber: seq<bv8>, rs: seq<ForwardingRecord>)
    requires |subscriber| == IDENTITY_OCTETS && Shaped(rs)
    ensures ChecksumMatches(Image(subscriber, rs))
  {
    hide Checksum, Body, ChecksumOctets;
    ChecksumOctetsHoldTheWord(Checksum(Body(subscriber, rs)));
    assert Image(subscriber, rs)[..BODY_OCTETS] == Body(subscriber, rs);
  }

  /** A stored image is read back unchanged exactly when every record is storable; otherwise it is refused. */
  lemma DecodeAfterEncode(subscriber: seq<bv8>, rs: seq<ForwardingRecord>)
    requires |subscriber| == IDENTITY_OCTETS && Shaped(rs)
    ensures Decode(Image(subscriber, rs), subscriber) ==
            if forall i :: 0 <= i < 4 ==>
                 (rs[i].active ==> rs[i].registered) && rs[i].length <= 16 && rs[i].service <= 2 &&
                 (rs[i].registered <==> rs[i].length != 0)
            then Records(rs) else Refused
  {
    hide Image, RecordImage, ChecksumMatches, RecordOctets, ParsedRecord;
    var image := Image(subscriber, rs);
    ImageChecksumMatches(subscriber, rs);
    forall i | 0 <= i < CONDITION_COUNT
      ensures image[..8] == HEADER && image[8..20] == subscriber
      ensures ParsedRecord(RecordOctets(image, i)) == rs[i]
      ensures RecordAccepted(RecordOctets(image, i)) == rs[i].Storable()
    {
      RecordPlaces(subscriber, rs, i);
      ParseAfterImage(rs[i]);
    }
    assert image[..8] == HEADER && image[8..20] == subscriber by {
      RecordPlaces(subscriber, rs, 0);
    }
  }

  lemma ChecksumOctetsAreDetermined(b: seq<bv8>, checksum: seq<bool>)
    requires |b| == 4 && |checksum| == WIDTH && LowBits(b) == checksum
    ensures ChecksumOctets(checksum) == b
  {
    hide LowOctet, LowBit;
    var c := ChecksumOctets(checksum);
    ChecksumOctetsHoldTheWord(checksum);
    forall i | 0 <= i < 4
      ensures c[i] == b[i]
    {
      forall k | 0 <= k < 8
        ensures LowBit(c[i], k) == LowBit(b[i], k)
      {
        assert (8 * i + k) / 8 == i && (8 * i + k) % 8 == k;
        assert LowBits(c)[8 * i + k] == LowBits(b)[8 * i + k];
      }
      LowBitsDetermineOctet(c[i], b[i]);
    }
  }

  /** Only encoded images are accepted: what is accepted is, octet for octet, the encoding of what is returned. */
  lemma EncodeAfterDecode(image: seq<bv8>, subscriber: seq<bv8>)
    requires |image| == IMAGE_OCTETS && |subscriber| == IDENTITY_OCTETS
    requires Decode(image, subscriber).Records?
    ensures image == Image(subscriber, Decode(image, subscriber).records)
  {
    hide RecordImage, RecordsImage, ParsedRecord, Checksum, ChecksumOctets;
    var rs := Decode(image, subscriber).records;
    forall i | 0 <= i < CONDITION_COUNT
      ensures RecordImage(rs[i]) == RecordOctets(image, i)
    {
      assert RecordAccepted(RecordOctets(image, i));
      ImageAfterParse(RecordOctets(image, i));
    }
    FourRecords(rs);
    assert image[20..BODY_OCTETS] == RecordOctets(image, 0) + RecordOctets(image, 1) + RecordOctets(image, 2) +
                                     RecordOctets(image, 3);
    assert image[..BODY_OCTETS] == image[..8] + image[8..20] + image[20..BODY_OCTETS];
    assert image[..BODY_OCTETS] == Body(subscriber, rs);
    ChecksumOctetsAreDetermined(image[BODY_OCTETS..], Checksum(Body(subscriber, rs)));
    assert image == image[..BODY_OCTETS] + image[BODY_OCTETS..];
  }

  lemma LowBitsConcat(a: seq<bv8>, b: seq<bv8>)
    ensures LowBits(a + b) == LowBits(a) + LowBits(b)
  {
    hide LowBit;
  }

  lemma ChecksumMatchesIsAcceptance(image: seq<bv8>)
    requires |image| == IMAGE_OCTETS
    ensures ChecksumMatches(image) <==> Accepts(LowBits(image))
  {
    hide Checksum, LowBits, Accepts;
    ChecksumIsAcceptance(image[..BODY_OCTETS], LowBits(image[BODY_OCTETS..]));
    LowBitsConcat(image[..BODY_OCTETS], image[BODY_OCTETS..]);
    assert image == image[..BODY_OCTETS] + image[BODY_OCTETS..];
  }

  /** Any error burst within 32 consecutive bits of a stored image, checksum included, makes the decoder refuse it. */
  lemma CorruptedImageIsRefused(subscriber: seq<bv8>, rs: seq<ForwardingRecord>, damaged: seq<bv8>,
                                error: seq<bool>, at: nat, reader: seq<bv8>)
    requires |subscriber| == |reader| == IDENTITY_OCTETS && Shaped(rs)
    requires |damaged| == IMAGE_OCTETS && |error| == 8 * IMAGE_OCTETS && IsBurst(error, at, WIDTH)
    requires LowBits(damaged) == Xor(LowBits(Image(subscriber, rs)), error)
    ensures Decode(damaged, reader) == Refused
  {
    hide ChecksumMatches, Image, LowBits, Accepts, IsBurst;
    ImageChecksumMatches(subscriber, rs);
    ChecksumMatchesIsAcceptance(Image(subscriber, rs));
    ChecksumMatchesIsAcceptance(damaged);
    BurstIsRefused(LowBits(Image(subscriber, rs)), error, at);
  }

  // ----- The loops -----

  method EncodeImage(subscriber: seq<bv8>, rs: seq<ForwardingRecord>) returns (image: seq<bv8>)
    requires |subscriber| == IDENTITY_OCTETS && Shaped(rs)
    ensures image == Image(subscriber, rs)
  {
    hide Checksum, RecordsImage, Body, ChecksumOctets, OctetOf, WordBits;
    var bytes := new bv8[IMAGE_OCTETS](_ => 0);
    WriteHeader(bytes, subscriber);
    var offset := WriteRecords(bytes, subscriber, rs);
    var crc := ComputeChecksum(bytes[..BODY_OCTETS]);
    ghost var stored := ChecksumOctets(WordBits(crc));
    for i := 0 to 4
      invariant bytes[..BODY_OCTETS] == Body(subscriber, rs)
      invariant bytes[BODY_OCTETS..BODY_OCTETS + i] == stored[..i]
    {
      ChecksumOctetOfWord(crc, i);
      bytes[offset + i] := OctetOf(crc, i);
    }
    image := bytes[..];
    assert image == image[..BODY_OCTETS] + image[BODY_OCTETS..];
  }

  method WriteHeader(bytes: array<bv8>, subscriber: seq<bv8>)
    requires |subscriber| == IDENTITY_OCTETS && bytes.Length == IMAGE_OCTETS && bytes[7] == 0
    modifies bytes
    ensures bytes[..20] == HEADER + subscriber
  {
    bytes[0], bytes[1], bytes[2], bytes[3] := 0x47, 0x53, 0x55, 0x42;
    bytes[4], bytes[5], bytes[6] := 1, 4, 16;
    ghost var header := bytes[..8];
    assert header == HEADER;
    for i := 0 to IDENTITY_OCTETS
      invariant bytes[..8] == header && bytes[8..8 + i] == subscriber[..i]
    {
      bytes[8 + i] := subscriber[i];
    }
    assert bytes[..20] == bytes[..8] + bytes[8..20];
  }

  method WriteRecords(bytes: array<bv8>, subscriber: seq<bv8>, rs: seq<ForwardingRecord>) returns (offset: nat)
    requires |subscriber| == IDENTITY_OCTETS && bytes.Length == IMAGE_OCTETS && Shaped(rs)
    requires bytes[..20] == HEADER + subscriber
    modifies bytes
    ensures offset == BODY_OCTETS && bytes[..BODY_OCTETS] == Body(subscriber, rs)
  {
    hide RecordsImage, RecordImage;
    ghost var head := bytes[..20];
    offset := 20;
    RecordsImageGrows(rs, 0);
    for i := 0 to CONDITION_COUNT
      invariant offset == 20 + RECORD_OCTETS * i
      invariant bytes[..offset] == head + RecordsImage(rs[..i])
    {
      RecordsImageGrows(rs, i);
      ghost var start := offset;
      offset := WriteRecord(bytes, offset, rs[i]);
      assert bytes[..offset] == bytes[..start] + bytes[start..offset];
    }
    assert rs[..CONDITION_COUNT] == rs;
  }

  lemma RecordsImageGrows(rs: seq<ForwardingRecord>, i: nat)
    requires Shaped(rs) && i < CONDITION_COUNT
    ensures RecordsImage(rs[..i + 1]) == RecordsImage(rs[..i]) + RecordImage(rs[i])
    ensures RecordsImage(rs[..0]) == []
  {
    hide RecordImage;
    assert rs[..i + 1][..i] == rs[..i];
  }

  method WriteRecord(bytes: array<bv8>, start: nat, r: ForwardingRecord) returns (offset: nat)
    requires r.Shaped() && start + RECORD_OCTETS <= bytes.Length
    modifies bytes
    ensures offset == start + RECORD_OCTETS
    ensures bytes[..start] == old(bytes[..start]) && bytes[offset..] == old(bytes[offset..])
    ensures bytes[start..offset] == RecordImage(r)
  {
    bytes[start] := Flags(r);
    bytes[start + 1], bytes[start + 2] := r.length, r.service;
    bytes[start + 3], bytes[start + 4] := r.serviceCode, r.noReplyTime;
    offset := start + 5;
    for k := 0 to NUMBER_CAPACITY
      invariant offset == start + 5 + k
      invariant bytes[..start] == old(bytes[..start])
      invariant bytes[start + RECORD_OCTETS..] == old(bytes[start + RECORD_OCTETS..])
      invariant bytes[start..start + 5] == RecordImage(r)[..5]
      invariant bytes[start + 5..offset] == r.number[..k]
    {
      bytes[offset] := r.number[k];
      offset := offset + 1;
    }
    assert bytes[start..offset] == bytes[start..start + 5] + bytes[start + 5..offset];
  }

  /** ORs the stored octets into a word. */
  method ReadWord(b: seq<bv8>) returns (word: bv32)
    requires |b| == 4
    ensures WordBits(word) == LowBits(b)
  {
    hide LowBits, WordBits;
    word := b[0] as bv32;
    word := word | ((b[1] as bv32) << 8);
    word := word | ((b[2] as bv32) << 16);
    word := word | ((b[3] as bv32) << 24);
    JoinedBits(b);
  }

  /** Reads an image into the caller's records; a refusal leaves them as they were. */
  method DecodeImage(image: seq<bv8>, subscriber: seq<bv8>, records: array<ForwardingRecord>) returns (ok: bool)
    requires |image| == IMAGE_OCTETS && |subscriber| == IDENTITY_OCTETS && records.Length == CONDITION_COUNT
    modifies records
    ensures ok == Decode(image, subscriber).Records?
    ensures records[..] == if ok then Decode(image, subscriber).records else old(records[..])
  {
    hide Checksum, WordBits;
    if image[..8] != HEADER {
      return false;
    }
    for i := 0 to IDENTITY_OCTETS
      invariant forall k :: 0 <= k < i ==> image[8..20][k] == subscriber[k]
    {
      if image[8 + i] != subscriber[i] {
        assert image[8..20][i] != subscriber[i];
        return false;
      }
    }
    assert image[8..20] == subscriber;
    var stored := ReadWord(image[BODY_OCTETS..]);
    var crc := ComputeChecksum(image[..BODY_OCTETS]);
    if stored != crc {
      assert LowBits(image[BODY_OCTETS..]) != Checksum(image[..BODY_OCTETS]) by {
        if WordBits(stored) == WordBits(crc) {
          BitsDetermineWord(stored, crc);
        }
      }
      return false;
    }
    var candidate := new ForwardingRecord[CONDITION_COUNT](_ => BLANK);
    for i := 0 to CONDITION_COUNT
      invariant records[..] == old(records[..])
      invariant forall k :: 0 <= k < i ==>
                  RecordAccepted(RecordOctets(image, k)) && candidate[k] == ParsedRecord(RecordOctets(image, k))
    {
      var b := RecordOctets(image, i);
      candidate[i] := ParsedRecord(b);
      if b[0] > 3 || (candidate[i].active && !candidate[i].registered) || candidate[i].length > 16 ||
         candidate[i].service > 2 || (candidate[i].registered && candidate[i].length == 0) ||
         (!candidate[i].registered && candidate[i].length != 0) {
        assert !RecordAccepted(RecordOctets(image, i));
        return false;
      }
    }
    assert candidate[..] == Decode(image, subscriber).records;
    for i := 0 to CONDITION_COUNT
      invariant candidate[..] == Decode(image, subscriber).records
      invariant forall k :: 0 <= k < i ==> records[k] == candidate[k]
    {
      records[i] := candidate[i];
    }
    assert records[..] == candidate[..];
    return true;
  }
}
