/** TDMA frame-number arithmetic: the A5 COUNT, the synchronization channel, and SDCCH/8 scheduling. */
module FrameNumbers {

  const HYPERFRAME := 26 * 51 * 2048

  datatype Direction = Downlink | Uplink

  function T1(frame: nat): nat { frame / 1326 }
  function T2(frame: nat): nat { frame % 26 }
  function T3(frame: nat): nat { frame % 51 }

  /** T1 || T3 || T2 in fields of 11, 6 and 5 bits, which do not overlap. */
  function CountFromFrameNumber(frameNumber: nat): nat {
    var frame := frameNumber % HYPERFRAME;
    T1(frame) * 2048 + T3(frame) * 32 + T2(frame)
  }

  /** The frame with the given reduced numbers: 51 ((T3 - T2) mod 26) + T3 + 51 * 26 * T1. */
  function FrameOf(t1: nat, t2: nat, t3: nat): int {
    51 * ((t3 - t2) % 26) + t3 + 1326 * t1
  }

  // Euclidean division is unique; one lemma a modulus keeps the arithmetic linear.
  lemma ModHyperframe(n: int, q: int, r: int)
    requires 0 <= r < HYPERFRAME && n == HYPERFRAME * q + r
    ensures n % HYPERFRAME == r
  {
  }

  lemma Mod51(n: int, q: int, r: int)
    requires 0 <= r < 51 && n == 51 * q + r
    ensures n % 51 == r && n / 51 == q
  {
  }

  lemma Mod26(n: int, q: int, r: int)
    requires 0 <= r < 26 && n == 26 * q + r
    ensures n % 26 == r
  {
  }

  /** Chinese remaindering: T1, T2 and T3 determine the frame. */
  lemma ReducedNumbersDetermineFrame(frame: nat)
    ensures FrameOf(T1(frame), T2(frame), T3(frame)) == frame
  {
    var a, f := frame / 1326, frame % 1326;
    assert frame == 1326 * a + f;
    SmallFrame(f);
    Mod26(frame, 51 * a + f / 26, f % 26);
    Mod51(frame, 26 * a + f / 51, f % 51);
  }

  lemma SmallFrame(f: nat)
    requires f < 1326
    ensures 51 * ((f % 51 - f % 26) % 26) + f % 51 == f
  {
    var a, b := f / 26, f / 51;
    assert f % 51 - f % 26 == 26 * (a - 2 * b) + b;
    Mod26(f % 51 - f % 26, a - 2 * b, b);
  }

  lemma FieldsDoNotOverlap(t1: nat, t3: nat, t2: nat)
    requires t3 < 64 && t2 < 32
    ensures var count := t1 * 2048 + t3 * 32 + t2;
            count / 2048 == t1 && count / 32 % 64 == t3 && count % 32 == t2
  {
    var count := t1 * 2048 + t3 * 32 + t2;
    assert count / 32 == t1 * 64 + t3;
  }

  lemma CountFields(frameNumber: nat)
    ensures var frame, count := frameNumber % HYPERFRAME, CountFromFrameNumber(frameNumber);
            count / 2048 == T1(frame) < 2048 && count / 32 % 64 == T3(frame) && count % 32 == T2(frame)
  {
    var frame := frameNumber % HYPERFRAME;
    FieldsDoNotOverlap(T1(frame), T3(frame), T2(frame));
  }

  lemma CountFitsIn22Bits(frameNumber: nat)
    ensures CountFromFrameNumber(frameNumber) < 0x40_0000
  {
    CountFields(frameNumber);
  }

  /** COUNT names one frame of the hyperframe. */
  lemma CountDeterminesFrame(frameNumber: nat)
    ensures var count := CountFromFrameNumber(frameNumber);
            FrameOf(count / 2048, count % 32, count / 32 % 64) == frameNumber % HYPERFRAME
  {
    CountFields(frameNumber);
    ReducedNumbersDetermineFrame(frameNumber % HYPERFRAME);
  }

  lemma CountIsInjective(a: nat, b: nat)
    requires CountFromFrameNumber(a) == CountFromFrameNumber(b)
    ensures a % 2_715_648 == b % 2_715_648
  {
    CountDeterminesFrame(a);
    CountDeterminesFrame(b);
  }

  // ----- SDCCH/8, subchannel 0 -----

  function Offset(direction: Direction): nat {
    if direction.Downlink? then 0 else 15
  }

  function Sdcch8Frames(referenceFrame: nat, direction: Direction): (frames: seq<nat>)
    ensures |frames| == 4
  {
    var offset := Offset(direction);
    var reference := referenceFrame % HYPERFRAME;
    var start := reference - reference % 51;
    var base := if reference % 51 < offset + 3 then (start + HYPERFRAME - 51) % HYPERFRAME else start;
    FourFrom(base + offset)
  }

  function FourFrom(first: nat): (frames: seq<nat>)
    ensures |frames| == 4
  {
    [first % HYPERFRAME, (first + 1) % HYPERFRAME, (first + 2) % HYPERFRAME, (first + 3) % HYPERFRAME]
  }

  lemma FourWithoutWrap(first: nat)
    requires first + 3 < HYPERFRAME
    ensures FourFrom(first) == [first, first + 1, first + 2, first + 3]
  {
  }

  /** Frames from `earlier` on to `later`, round the hyperframe. */
  function Behind(later: nat, earlier: int): int {
    (later - earlier) % HYPERFRAME
  }

  /** The frame `back` places before, round the hyperframe. */
  function Earlier(frameNumber: nat, back: nat): int {
    (frameNumber % HYPERFRAME + HYPERFRAME - back) % HYPERFRAME
  }

  lemma EarlierPosition(frameNumber: nat, back: nat)
    requires back <= 50
    ensures var position := frameNumber % HYPERFRAME % 51;
            0 <= Earlier(frameNumber, back) < HYPERFRAME &&
            Earlier(frameNumber, back) % 51 == if back <= position then position - back else position + 51 - back
    ensures Behind(frameNumber, Earlier(frameNumber, back)) == back
  {
    var frame := frameNumber % HYPERFRAME;
    var m, position, laps := frame / 51, frame % 51, frameNumber / HYPERFRAME;
    assert frame == 51 * m + position;
    var e := if back <= frame then frame - back else frame - back + HYPERFRAME;
    ModHyperframe(frame + HYPERFRAME - back, if back <= frame then 1 else 0, e);
    if back <= position {
      Mod51(e, m, position - back);
    } else {
      Mod51(e, if m == 0 then HYPERFRAME / 51 - 1 else m - 1, position + 51 - back);
    }
    ModHyperframe(frameNumber - e, if back <= frame then laps else laps - 1, back);
  }

  /** The 51-multiframe whose block is reported, for a reference at `position` of multiframe `m`. */
  function BlockMultiframe(m: nat, position: nat, offset: nat): int {
    if position >= offset + 3 then m else if m == 0 then HYPERFRAME / 51 - 1 else m - 1
  }

  lemma Sdcch8Closed(referenceFrame: nat, direction: Direction)
    ensures var offset, reference := Offset(direction), referenceFrame % HYPERFRAME;
            var k := BlockMultiframe(reference / 51, reference % 51, offset);
            0 <= k < HYPERFRAME / 51 &&
            forall i :: 0 <= i < 4 ==> Sdcch8Frames(referenceFrame, direction)[i] == 51 * k + offset + i
  {
    var offset, reference := Offset(direction), referenceFrame % HYPERFRAME;
    var m, position := reference / 51, reference % 51;
    var k := BlockMultiframe(m, position, offset);
    assert reference == 51 * m + position;
    hide FourFrom;
    if position < offset + 3 {
      ModHyperframe(51 * m + HYPERFRAME - 51, if m == 0 then 0 else 1, 51 * k);
    }
    assert Sdcch8Frames(referenceFrame, direction) == FourFrom(51 * k + offset);
    FourWithoutWrap(51 * k + offset);
  }

  /** The four frames are consecutive and stand at places 0 to 3 of the 51-multiframe, or 15 to 18 in the uplink;
      the last of them is the latest frame at its place not after the reference, round the hyperframe. */
  lemma Sdcch8IsLatestBlock(referenceFrame: nat, direction: Direction)
    ensures var frames := Sdcch8Frames(referenceFrame, direction);
            (forall i :: 0 <= i < 4 ==>
               frames[i] < HYPERFRAME && frames[i] % 51 == if direction.Downlink? then i else 15 + i) &&
            (forall i :: 0 <= i < 3 ==> frames[i + 1] == frames[i] + 1) &&
            Behind(referenceFrame, frames[3]) <= 50 &&
            forall back: nat :: back < Behind(referenceFrame, frames[3]) ==>
              Earlier(referenceFrame, back) % 51 != if direction.Downlink? then 3 else 18
  {
    hide Sdcch8Frames, Behind, Earlier;
    var offset, reference := Offset(direction), referenceFrame % HYPERFRAME;
    var m, position := reference / 51, reference % 51;
    var k := BlockMultiframe(m, position, offset);
    Sdcch8Closed(referenceFrame, direction);
    var frames := Sdcch8Frames(referenceFrame, direction);
    forall i | 0 <= i < 4
      ensures frames[i] < HYPERFRAME && frames[i] % 51 == offset + i
    {
      Mod51(51 * k + offset + i, k, offset + i);
    }
    LagOfBlock(referenceFrame, offset + 3);
    forall back: nat | back < BlockLag(position, offset + 3)
      ensures Earlier(referenceFrame, back) % 51 != offset + 3
    {
      EarlierPosition(referenceFrame, back);
    }
  }

  /** How far before `position` the last place `last` of a block lies. */
  function BlockLag(position: int, last: int): int {
    if position >= last then position - last else position - last + 51
  }

  lemma LagOfBlock(referenceFrame: nat, last: nat)
    requires 3 <= last < 51
    ensures var reference := referenceFrame % HYPERFRAME;
            var k := BlockMultiframe(reference / 51, reference % 51, last - 3);
            Behind(referenceFrame, 51 * k + last) == BlockLag(reference % 51, last) <= 50
  {
    var reference, laps := referenceFrame % HYPERFRAME, referenceFrame / HYPERFRAME;
    var m, position := reference / 51, reference % 51;
    var k := BlockMultiframe(m, position, last - 3);
    assert referenceFrame == HYPERFRAME * laps + 51 * m + position;
    ModHyperframe(referenceFrame - (51 * k + last), if position < last && m == 0 then laps - 1 else laps,
                  BlockLag(position, last));
  }

  /** Each burst of a block is ciphered under its own COUNT. */
  lemma BlockCountsAreDistinct(referenceFrame: nat, direction: Direction, i: nat, j: nat)
    requires i < j < 4
    ensures var frames := Sdcch8Frames(referenceFrame, direction);
            CountFromFrameNumber(frames[i]) != CountFromFrameNumber(frames[j])
  {
    hide Sdcch8Frames, CountFromFrameNumber;
    var frames := Sdcch8Frames(referenceFrame, direction);
    Sdcch8IsLatestBlock(referenceFrame, direction);
    if CountFromFrameNumber(frames[i]) == CountFromFrameNumber(frames[j]) {
      CountIsInjective(frames[i], frames[j]);
    }
  }

  // ----- The synchronization channel -----

  predicate IsSchFrame(frame: int) {
    frame % 51 == 1 || frame % 51 == 11 || frame % 51 == 21 || frame % 51 == 31 || frame % 51 == 41
  }

  function SynchronizationFrame(frameNumber: nat): int {
    var frame := frameNumber % HYPERFRAME;
    var position := frame % 51;
    if position >= 1 then frame - position + 1 + (position - 1) / 10 * 10
    else (frame + HYPERFRAME - 10) % HYPERFRAME
  }

  /** How far back the latest SCH frame lies, for each position in the 51-multiframe. */
  function SchLag(position: nat): nat {
    if position == 0 then 10 else (position - 1) % 10
  }

  lemma SynchronizationLag(frameNumber: nat)
    ensures SynchronizationFrame(frameNumber) == Earlier(frameNumber, SchLag(frameNumber % HYPERFRAME % 51))
  {
    var frame := frameNumber % HYPERFRAME;
    var position := frame % 51;
    if position >= 1 {
      var lag := SchLag(position);
      assert position - 1 == (position - 1) / 10 * 10 + lag;
      ModHyperframe(frame + HYPERFRAME - lag, 1, frame - lag);
    }
  }

  /** The latest SCH frame at or before the given one, at most ten frames back round the hyperframe. */
  lemma SynchronizationFrameIsLatest(frameNumber: nat)
    ensures var s := SynchronizationFrame(frameNumber);
            0 <= s < HYPERFRAME && IsSchFrame(s) && s % 51 % 10 == 1 && Behind(frameNumber, s) <= 10 &&
            forall back: nat :: back < Behind(frameNumber, s) ==>
              !IsSchFrame(Earlier(frameNumber, back)) && Earlier(frameNumber, back) % 51 % 10 != 1
  {
    hide Earlier, Behind, SynchronizationFrame;
    var position := frameNumber % HYPERFRAME % 51;
    SynchronizationLag(frameNumber);
    EarlierPosition(frameNumber, SchLag(position));
    forall back: nat | back < SchLag(position)
      ensures !IsSchFrame(Earlier(frameNumber, back)) && Earlier(frameNumber, back) % 51 % 10 != 1
    {
      EarlierPosition(frameNumber, back);
    }
  }

  /** The four octets: BSIC (6 bits), T1 (11), T2 (5), T3' (3), and padding. */
  function SchInformation(bsic: nat, frameNumber: nat): (octets: seq<int>)
    requires bsic < 256
    ensures |octets| == 4
  {
    var frame := SynchronizationFrame(frameNumber);
    var t1, t2, t3 := frame / 1326 % 2048, frame % 26, (frame % 51 - 1) / 10;
    SchOctets(bsic % 64, t1, t2, t3)
  }

  function SchOctets(bsic: int, t1: int, t2: int, t3: int): (octets: seq<int>)
    ensures |octets| == 4
  {
    [bsic * 4 + t1 / 512, t1 / 2 % 256, t1 % 2 * 128 + t2 * 4 + t3 / 2, t3 % 2 * 128]
  }

  /** What a mobile recovers from the four octets. */
  function DecodeSch(octets: seq<int>): (r: (int, int))
    requires |octets| == 4 && forall i :: 0 <= i < 4 ==> 0 <= octets[i] < 256
  {
    var t1 := octets[0] % 4 * 512 + octets[1] * 2 + octets[2] / 128;
    var t2 := octets[2] / 4 % 32;
    var t3 := 10 * (octets[2] % 4 * 2 + octets[3] / 128) + 1;
    (octets[0] / 4, FrameOf(t1, t2, t3))
  }

  /** The information octets determine the BSIC and the synchronization frame. */
  lemma SchInformationIsInvertible(bsic: nat, frameNumber: nat)
    requires bsic < 256
    ensures var octets := SchInformation(bsic, frameNumber);
            (forall i :: 0 <= i < 4 ==> 0 <= octets[i] < 256) &&
            DecodeSch(octets) == (bsic % 64, SynchronizationFrame(frameNumber))
  {
    hide SynchronizationFrame, FrameOf, SchOctets;
    SynchronizationFrameIsLatest(frameNumber);
    var frame: nat := SynchronizationFrame(frameNumber);
    assert frame / 1326 % 2048 == frame / 1326;
    SchFieldsRecovered(bsic % 64, frame / 1326, frame % 26, (frame % 51 - 1) / 10);
    SchPosition(frame);
    ReducedNumbersDetermineFrame(frame);
  }

  /** The octets as one number: BSIC, T1, T2 and T3' in fields of 6, 11, 5 and 3 bits, and seven zeros. */
  lemma SchInformationInFigures(bsic: nat, frameNumber: nat)
    requires bsic < 256
    ensures var octets, frame := SchInformation(bsic, frameNumber), SynchronizationFrame(frameNumber);
            octets[0] * 0x100_0000 + octets[1] * 0x1_0000 + octets[2] * 0x100 + octets[3] ==
            (((bsic % 64 * 0x800 + frame / 1326) * 0x20 + frame % 26) * 8 + (frame % 51 - 1) / 10) * 0x80
  {
    hide SynchronizationFrame, SchOctets;
    SynchronizationFrameIsLatest(frameNumber);
    var frame: nat := SynchronizationFrame(frameNumber);
    assert frame / 1326 % 2048 == frame / 1326;
    SchPosition(frame);
    SchOctetsInFigures(bsic % 64, frame / 1326, frame % 26, (frame % 51 - 1) / 10);
  }

  lemma SchOctetsInFigures(b: nat, t1: nat, t2: nat, t3: nat)
    requires b < 64 && t1 < 2048 && t2 < 26 && t3 < 5
    ensures var octets := SchOctets(b, t1, t2, t3);
            octets[0] * 0x100_0000 + octets[1] * 0x1_0000 + octets[2] * 0x100 + octets[3] ==
            (((b * 0x800 + t1) * 0x20 + t2) * 8 + t3) * 0x80
  {
    assert t1 == 512 * (t1 / 512) + 2 * (t1 / 2 % 256) + t1 % 2;
  }

  lemma SchPosition(frame: nat)
    requires IsSchFrame(frame)
    ensures 10 * ((frame % 51 - 1) / 10) + 1 == frame % 51 && (frame % 51 - 1) / 10 < 5
  {
  }

  lemma SchFieldsRecovered(b: nat, t1: nat, t2: nat, t3: nat)
    requires b < 64 && t1 < 2048 && t2 < 26 && t3 < 5
    ensures var octets := SchOctets(b, t1, t2, t3);
            (forall i :: 0 <= i < 4 ==> 0 <= octets[i] < 256) &&
            octets[0] / 4 == b && octets[0] % 4 * 512 + octets[1] * 2 + octets[2] / 128 == t1 &&
            octets[2] / 4 % 32 == t2 && octets[2] % 4 * 2 + octets[3] / 128 == t3
  {
    var octets := SchOctets(b, t1, t2, t3);
    assert octets[2] / 4 == t1 % 2 * 32 + t2;
    assert t1 / 2 == t1 / 512 * 256 + t1 / 2 % 256;
  }
}
