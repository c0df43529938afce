# Verified model of the GSM Layer 1 codec, its ciphered control path, and the network's state

The Dafny modules here model the parts of an emulated GSM network and handset interface where bits are coded,
interleaved, ciphered, queued, stored and framed, and prove what those parts are for: error correction and detection,
round trips, queue order over every run, and invertible arithmetic.

- **Channel coding** (`Convolution`, `Viterbi`, `FreeDistance`, `Polynomial`, `FireCode`, `ControlCodec`, `Importance`,
  `SpeechCodec`, `Interleaver`): sections 3.1, 4.1 and 4.2 of 3GPP TS 45.003. The Viterbi length is a parameter throughout.
  The decoder is proved optimal, the code is proved to have minimum distance 7, and from both follow the three-error
  guarantees of the control and speech decoders. The Fire code, the speech parity and CRC-32 are one theory of long division, with the factors of the Fire generator
  and closed forms of the small remainders.
- **Streams** (`DiagonalStream`, `Noise`, `Pipeline`, `Stealing`, `Sacch`): the queueing transmitters and receivers as
  objects, each method tied to a step of a state machine, and theorems over every run of the composed machines, with a
  channel between them that may flip payload bits.
- **Ciphered path** (`FrameNumbers`, `A5`, `A5Registers`, `Xcch`): COUNT, A5/1 on 32-bit words and as shifted bit strings,
  and the whole transport of one control block.
- **Subscription store** (`Crc32`, `SubscriptionStorage`, `Forwarding`): the checksummed image and the four-operation
  forwarding state machine it has to agree with.
- **Packet rings** (`PacketRings`), **messages** (`SmsDeliver`, `Gsm7`, `Supplementary`) and **compare deadlines**
  (`CompareClock`).

`Bits`, `Octets`, `Words` and `Integers` hold the common vocabulary. Code that updates arrays or members is modelled by
methods and classes that do the same, each with a specification function of the inputs or of the old state; the lemmas
are about those functions.
A transmitted or received bit is a `bool`; octets are `bv8` where the source works on their bits and naturals below 256
where it only copies or counts. The importance map, a constant built once, is an array handed to the speech methods.

`Viterbi.Decoded`, `ControlCodec.DecodeControl`, `SpeechCodec.DecodeSpeech`, `Pipeline.Run`, `PacketRings.RunTx` and the like are
specifications; they appear in the table through the methods proved equal to them and the lemmas about them.

Three properties turn out to hold only under a condition, which is proved exact: a forwarding state survives a reload if
and only if no condition is then registered with an empty number (`Forwarding.StaysStorableIff`,
`Forwarding.RunSurvivesReloadIff`, `Forwarding.EmptyNumberIsLost`); a host short message is read back if and only if its
length is below 256 (`SmsDeliver.ParseAfterBuild`, `SmsDeliver.WrappedLengthIsInvalid`); and it fits the message buffer
unless the longest senders meet the longest texts (`SmsDeliver.WhatDoesNotFit`, `SmsDeliver.AcceptedButDoesNotFit`).

## Model

| member | source | states |
|---|---|---|
| Convolution.ConvolutionalEncode | driver/gsm_tch_f_l1.cpp:157-169 | the loop over coded pairs emits, for every length, the code defined by the taps D^0+D^3+D^4 and D^0+D^1+D^3+D^4 |
| Convolution.MemoryHoldsPriors | driver/gsm_tch_f_l1.cpp:198-210 | after any input the decoder's four-bit state number is exactly the four latest inputs |
| Convolution.EncodeIsTrellis | driver/gsm_tch_f_l1.cpp:157-210 | the encoder's tap form and the decoder's 16-state trellis define the same code, for every input |
| Convolution.ZeroTail | driver/gsm_tch_f_l1.cpp:178-228 | a word of at least four bits ends in state 0 if and only if its last four bits are zero |
| Convolution.PairsGiveTheInput | driver/gsm_tch_f_l1.cpp:157-169 | the two coded bits of a step add up to the input of the step before |
| Convolution.CodewordsAreTheCheckedWords | driver/gsm_tch_f_l1.cpp:157-169 | a word is a codeword if and only if c0(1+D+D^3+D^4) = c1(1+D^3+D^4) at every step |
| Convolution.EncodeIsInjective | driver/gsm_tch_f_l1.cpp:157-169 | different inputs of one length have different codings |
| Viterbi.CostIsDistance | driver/gsm_tch_f_l1.cpp:198-215 | the accumulated branch metric of a path is the Hamming distance between its re-encoding and the received block |
| Viterbi.SurvivorsArePaths | driver/gsm_tch_f_l1.cpp:190-220 | every survivor is a real path into its own state, with its own cost |
| Viterbi.SurvivorIsClosest | driver/gsm_tch_f_l1.cpp:190-220 | no input sequence reaches its final state more cheaply than the survivor kept there, at every step |
| Viterbi.DecoderIsOptimal | driver/gsm_tch_f_l1.cpp:178-228 | for every length and every received block the result is zero-tailed, lies at Hamming distance exactly `cost` from the block, and no zero-tailed sequence is closer |
| Viterbi.SurvivorBreaksTies | driver/gsm_tch_f_l1.cpp:190-220 | of all inputs that reach a state at the least cost the survivor is the one with the zero where they last differ |
| Viterbi.DecoderBreaksTies | driver/gsm_tch_f_l1.cpp:178-228 | the same for the decoded word, which is thereby determined in full, ties included |
| Viterbi.CompareAndSelect | driver/gsm_tch_f_l1.cpp:198-216 | the inner comparison overwrites one successor's entry exactly when strictly beaten, so the earliest of equal arrivals is kept |
| Viterbi.AddCompareSelect | driver/gsm_tch_f_l1.cpp:190-218 | the loops over states and inputs leave in the arrays the minimum over both arrivals, the state it came from and its input bit |
| Viterbi.TraceBack | driver/gsm_tch_f_l1.cpp:219-228 | walking the stored predecessors back from state 0 yields the survivor's own input sequence |
| Viterbi.ConvolutionalDecode | driver/gsm_tch_f_l1.cpp:178-228 | the metric, predecessor and decision arrays together compute the optimal path and its distance |
| FreeDistance.PotentialIsPaidFor | driver/gsm_tch_f_l1.cpp:157-210 | along every branch out of a nonzero state the lower bound on the weight still to be paid falls by at most the weight emitted |
| FreeDistance.PathsApart | driver/gsm_tch_f_l1.cpp:157-210 | two different inputs leaving one state and meeting in one state emit words at distance 7 or more |
| FreeDistance.MinimumDistance | driver/gsm_tch_f_l1.cpp:157-169 | any two different zero-tailed inputs of any one length have codewords at distance 7 or more |
| FreeDistance.MinimumDistanceIsMet | driver/gsm_tch_f_l1.cpp:157-169 | the bound 7 is attained |
| FreeDistance.CorrectsThreeErrors | driver/gsm_tch_f_l1.cpp:178-228 | a codeword hit by at most three errors decodes to the transmitted input and the exact error count |
| Polynomial.DivideIsLinear | driver/gsm_tch_f_l1.cpp:236-246 | every stage of in-place long division is linear over XOR, for any generator |
| Polynomial.CheckBitsAdd | driver/gsm_tch_f_l1.cpp:230-270 | check bits below a message add themselves to the remainder of the padded message |
| Polynomial.BurstHasRemainder | driver/gsm_tch_f_l1.cpp:253-270 | no generator with a constant term divides a nonzero burst no longer than its degree |
| Polynomial.BurstChangesRemainder | driver/gsm_tch_f_l1.cpp:253-270 | adding such a burst to any word changes its remainder |
| Polynomial.MultipleKeepsRemainder | driver/gsm_tch_f_l1.cpp:236-246 | dividing by a multiple of a generator first leaves its remainder as it was |
| Polynomial.FactorsDivide | driver/gsm_tch_f_l1.cpp:232-246 | what a generator divides its factors divide |
| FireCode.AddGenerator | driver/gsm_tch_f_l1.cpp:240-245 | the six XORs add D^40+D^26+D^23+D^17+D^3+1 under the leading one |
| FireCode.DivideInPlace | driver/gsm_tch_f_l1.cpp:236-246 | the loop leaves the stage-by-stage division of its input in the array |
| FireCode.FireParity | driver/gsm_tch_f_l1.cpp:230-251 | returns the inverted remainder of the information above forty zeros |
| FireCode.FireCheck | driver/gsm_tch_f_l1.cpp:253-270 | accepts exactly the words whose remainder is all ones |
| FireCode.ParityIsUnique | driver/gsm_tch_f_l1.cpp:230-270 | for each information word one and only one parity is accepted, the computed one: the only one that leaves forty ones on division |
| FireCode.BurstIsDetected | driver/gsm_tch_f_l1.cpp:253-270 | flipping any nonzero pattern within 40 consecutive positions of an accepted word makes it refused |
| FireCode.StepKeepsParity | driver/gsm_tch_f_l1.cpp:236-246 | the generator having an even number of taps, a step of the division keeps the parity of the number of ones |
| FireCode.AcceptedIsEven | driver/gsm_tch_f_l1.cpp:253-270 | every accepted word has an even number of ones |
| FireCode.OddErrorIsDetected | driver/gsm_tch_f_l1.cpp:253-270 | any odd number of errors in an accepted word, however scattered, makes it refused |
| FireCode.FactorsOfTheGenerator | driver/gsm_tch_f_l1.cpp:232-246 | the generator is the product of D^23+1 and D^17+D^3+1: every word it divides both of them divide |
| FireCode.CycleRemainderIsClassParity | driver/gsm_tch_f_l1.cpp:232-246 | the remainder by D^23+1 is, place by place, the parity of the ones in one residue class modulo 23 |
| FireCode.AcceptedDifferEvenlyInEachClass | driver/gsm_tch_f_l1.cpp:253-270 | two accepted words differ in an even number of places of every residue class modulo 23 |
| Octets.UnpackPack | driver/gsm_tch_f_l1.cpp:378-392 | unpacking packed bits returns them |
| Octets.PackUnpack | driver/gsm_tch_f_l1.cpp:378-392 | packing unpacked octets returns them |
| Octets.OctetIsItsNumber | driver/gsm_tch_f_l1.cpp:378-392 | an octet is the number its bits spell, most significant first |
| ControlCodec.UnpackControl | driver/gsm_tch_f_l1.cpp:378-384 | the 184 bits, most significant first in each octet |
| ControlCodec.PackControl | driver/gsm_tch_f_l1.cpp:386-392 | ORing bit after bit into zeroed octets packs the string |
| ControlCodec.EncodeControlBlock | driver/gsm_tch_f_l1.cpp:353-361 | information, Fire parity and four zeros, convolutionally coded |
| ControlCodec.BlockIsTheOneWord | driver/gsm_tch_f_l1.cpp:353-361 | the coded block is the coding of the one word that begins with the information, leaves all ones when its first 224 bits are divided by the Fire generator, and ends in four zeros |
| ControlCodec.DecodeControlBlock | driver/gsm_tch_f_l1.cpp:363-376 | first 184 decoded bits, the verdict of tail and Fire check, and the distance |
| ControlCodec.ControlCorrectsThreeErrors | driver/gsm_tch_f_l1.cpp:353-376 | for every block and every reception at Hamming distance at most 3 from its coding, the block is returned, good, with the distance as corrected count |
| ControlCodec.ControlRoundTrip | driver/gsm_tch_f_l1.cpp:353-376 | a clean reception returns the block, good, with nothing corrected |
| ControlCodec.TailCheckAlwaysHolds | driver/gsm_tch_f_l1.cpp:363-376 | the decoder's tail condition never decides: the verdict is the Fire check's alone |
| ControlCodec.GoodIsNearest | driver/gsm_tch_f_l1.cpp:363-376 | a good verdict names a nearest control block: it re-encodes to exactly `corrected` bits from the reception, and no other block is nearer |
| Importance.SerialIndex | driver/gsm_tch_f_l1.cpp:24-30 | summing the parameter widths gives the bit's serial position |
| Importance.IndexIsInjective | driver/gsm_tch_f_l1.cpp:24-30 | distinct parameter bits have distinct serial positions |
| Importance.EntryIsValueBit | driver/gsm_tch_f_l1.cpp:24-30 | reading a parameter's serial bits as a number, most significant first, each entry names the bit of its own weight |
| Importance.MakeImportanceMap | driver/gsm_tch_f_l1.cpp:32-108 | the appended rows of Table 2 of 3GPP TS 45.003 fill exactly the 260 entries of the map |
| Importance.ImportanceMapIsPermutation | driver/gsm_tch_f_l1.cpp:32-110 | the map is a permutation of the 260 serial positions |
| Importance.HigherBitsRankFirst | driver/gsm_tch_f_l1.cpp:32-108 | of one parameter the bit of higher weight is always the more important |
| Importance.ParameterBitsKeepTheirOrder | driver/gsm_tch_f_l1.cpp:24-110 | the map takes the bits of each parameter in their serial order |
| Importance.FirstOfTheMap | driver/gsm_tch_f_l1.cpp:32-110 | the most important bit is the first of the frame |
| Importance.ReorderByImportance | driver/gsm_tch_f_l1.cpp:298-304 | bit k of the result is the serial bit the map names |
| Importance.ReorderSerially | driver/gsm_tch_f_l1.cpp:306-312 | the scatter loop computes the inverse permutation, filling every position |
| Importance.SerialAfterImportance | driver/gsm_tch_f_l1.cpp:298-312 | serial order undoes importance order |
| Importance.ImportanceAfterSerial | driver/gsm_tch_f_l1.cpp:298-312 | importance order undoes serial order |
| SpeechCodec.PackAfterUnpack | driver/gsm_tch_f_l1.cpp:274-296 | repacking an unpacked signed frame returns the frame |
| SpeechCodec.UnpackAfterPack | driver/gsm_tch_f_l1.cpp:274-296 | a packed frame always carries the 0xd signature and unpacks to the packed bits |
| SpeechCodec.SpeechBitPlace | driver/gsm_tch_f_l1.cpp:274-284 | bit k of the speech stands four places later in the packed octets |
| SpeechCodec.PackSpeechBits | driver/gsm_tch_f_l1.cpp:286-296 | ORing 260 bits behind the signature gives the packed frame |
| SpeechCodec.PolynomialRemainder | driver/gsm_tch_f_l1.cpp:112-126 | the four-bit register ends at seven exactly when long division by D^3+D+1 leaves all ones |
| SpeechCodec.RemainderIsThreeSums | driver/gsm_tch_f_l1.cpp:112-126 | the three remainder bits of any word are the sums of its bits at the powers of D that are 2, 4, 5, 6, at those that are 1, 3, 4, 5, and at those that are 0, 3, 5, 6 modulo 7 |
| SpeechCodec.SpeechParityIsUnique | driver/gsm_tch_f_l1.cpp:128-141 | exactly one three-bit parity is accepted for any fifty leading bits |
| SpeechCodec.ParityFor | driver/gsm_tch_f_l1.cpp:128-141 | the search over eight candidates always succeeds, with that parity |
| SpeechCodec.MakeUncoded | driver/gsm_tch_f_l1.cpp:143-155 | the word rises through the even class 1 bits, holds the parity, falls through the odd ones and ends in zeros |
| SpeechCodec.EncodeSpeechFrame | driver/gsm_tch_f_l1.cpp:314-325 | 378 coded bits of class 1 and 78 bits unprotected; all zeros when the signature is missing |
| SpeechCodec.SpeechBlockIsTheOneWord | driver/gsm_tch_f_l1.cpp:128-325 | the coded block is the coding of the one word with d(2k) at k and d(2k+1) at 184-k, three middle bits that leave all ones behind the fifty most important bits, and four zeros; the bits from d(182) on follow it |
| SpeechCodec.DecodeSpeechBlock | driver/gsm_tch_f_l1.cpp:327-351 | the frame reassembled from the decoded word, with the verdict of tail and parity and the distance |
| SpeechCodec.ProtectedBitsAreCorrected | driver/gsm_tch_f_l1.cpp:314-351 | at most three errors in the 378 protected bits of any signed frame are corrected and counted, whatever happens to the other 78, which come out as received |
| SpeechCodec.SpeechCorrectsThreeErrors | driver/gsm_tch_f_l1.cpp:314-351 | every signed frame comes back exactly, good, from at most three errors in the 378 protected bits and none in the other 78 |
| SpeechCodec.SpeechRoundTrip | driver/gsm_tch_f_l1.cpp:314-351 | a clean reception returns the frame, good, with nothing corrected |
| SpeechCodec.GoodSpeechIsNearest | driver/gsm_tch_f_l1.cpp:327-351 | a good verdict names a nearest signed frame over the protected bits, at exactly `corrected` |
| SpeechCodec.IdleIsNotGood | driver/gsm_tch_f_l1.cpp:327-351 | an all-zero block, with up to three errors in its 378 protected bits, is never taken for speech |
| Interleaver.OriginLands | driver/gsm_tch_f_l1.cpp:394-443 | the bit 57b + 64h mod 456 is the one that lands in column h of burst b (49 and 7 are inverse modulo 57) |
| Interleaver.LandingsAreDistinct | driver/gsm_tch_f_l1.cpp:394-443 | no two coded bits share a burst and a column |
| Interleaver.Interleave | driver/gsm_tch_f_l1.cpp:421-431 | the scatter loop fills half of each of eight bursts and leaves the other half clear |
| Interleaver.Deinterleave | driver/gsm_tch_f_l1.cpp:433-443 | the gather loop reads coded bit k where the interleaver put it |
| Interleaver.InterleaveSacch | driver/gsm_tch_f_l1.cpp:394-406 | the scatter loop fills all of four bursts, both stealing flags set |
| Interleaver.DeinterleaveSacch | driver/gsm_tch_f_l1.cpp:408-419 | the gather loop of the rectangular interleaver |
| Interleaver.DiagonalRoundTrip | driver/gsm_tch_f_l1.cpp:421-443 | deinterleaving interleaved blocks returns them |
| Interleaver.RectangularRoundTrip | driver/gsm_tch_f_l1.cpp:394-419 | the same for the rectangular interleaver |
| Interleaver.RectangularIsOnto | driver/gsm_tch_f_l1.cpp:394-419 | every payload position of the four bursts carries exactly one coded bit: interleaving undoes deinterleaving |
| Interleaver.NormalBurstPlaces | driver/gsm_tch_f_l1.cpp:445-455 | the 148 places of the burst in figures |
| Interleaver.NormalBurstRoundTrip | driver/gsm_tch_f_l1.cpp:445-465 | a payload comes back out of the 148-bit normal burst, whatever the training sequence |
| DiagonalStream.CombineDiagonal | driver/gsm_tch_f_l1.cpp:489-500 | each of 114 positions is the OR of the old block's second half and the new block's first half, with one flag from each |
| DiagonalStream.DiagonalTransmitter.Enqueue | driver/gsm_tch_f_l1.cpp:520-527 | the ring of eight slots appends to a queue, and is refused exactly at eight blocks, changing nothing |
| DiagonalStream.DiagonalTransmitter.SubstituteFacch | driver/gsm_tch_f_l1.cpp:529-543 | the oldest waiting speech block is replaced in its place, or the block is appended when there is none; refused if and only if eight signalling blocks wait |
| DiagonalStream.DiagonalTransmitter.NextBurst | driver/gsm_tch_f_l1.cpp:545-566 | at the start of a period the oldest block (or nothing) becomes current, its flags marked when it is signalling; the burst combines it with its predecessor |
| DiagonalStream.DiagonalTransmitter.Reset | driver/gsm_tch_f_l1.cpp:568-571 | the initial state, queue emptied |
| DiagonalStream.DiagonalReceiver.Accept | driver/gsm_tch_f_l1.cpp:573-604 | a burst is stored in both windows; the fourth of a period yields the verdict on the eight collected ones once a period is pending |
| DiagonalStream.DiagonalReceiver.Reset | driver/gsm_tch_f_l1.cpp:606-609 | the initial state |
| DiagonalStream.StealAt | driver/gsm_tch_f_l1.cpp:529-543 | scanning for the first speech block and replacing it is the list operation of the specification |
| Pipeline.SpreadCarriesTheBlock | driver/gsm_tch_f_l1.cpp:421-518 | over its eight bursts a block is carried bit for bit, with its kind, whatever the neighbouring periods carry |
| Pipeline.BlockIsHeard | driver/gsm_tch_f_l1.cpp:433-518 | with payload bits flipped on the air it is heard with exactly the flips that fell on its own bits, and with its own kind |
| Pipeline.FlagErrors | driver/gsm_tch_f_l1.cpp:502-518 | with any of the block's own eight flags inverted, signalling is recognised if and only if none is, and speech taken for signalling if and only if all are |
| Pipeline.RunIsGood | driver/gsm_tch_f_l1.cpp:520-604 | transmitter and receiver stay in step, windows and answers accounted for, in every reachable state |
| Pipeline.QueueTakesEight | driver/gsm_tch_f_l1.cpp:520-527 | of any blocks submitted between two bursts the first eight wait |
| Pipeline.PipelineDeliversEveryBlock | driver/gsm_tch_f_l1.cpp:421-604 | over every interleaving of submissions, substitutions and bursts, and whatever bits are flipped: silence in the first period, then on each period's last burst the verdict on exactly the block loaded one period earlier, of its kind, met by the flips on its own bits |
| Pipeline.SignallingIsDelivered | driver/gsm_tch_f_l1.cpp:353-604 | in every run, up to three flips anywhere in the payloads of a signalling block's eight bursts leave it delivered, good, the flips that met it counted |
| Pipeline.SpeechIsDelivered | driver/gsm_tch_f_l1.cpp:314-604 | the same for a speech frame: its class 1 bits come back and the flips on them are counted, its 78 unprotected bits are as heard, and when none of the flips fell on those it is the very frame |
| Pipeline.IdleIsDelivered | driver/gsm_tch_f_l1.cpp:327-604 | in every run, up to three flips in the eight bursts of an idle period leave it heard as speech that is not good |
| Pipeline.QuietPeriodIsExact | driver/gsm_tch_f_l1.cpp:421-604 | in every run, without flips in its bursts, the verdict on a period is that of the decoder of its kind on exactly the coded bits loaded |
| Noise.DiagonalHearsNoise | driver/gsm_tch_f_l1.cpp:433-443 | deinterleaving noisy bursts is deinterleaving the bursts and the flips |
| Noise.DiagonalNoiseWeighs | driver/gsm_tch_f_l1.cpp:433-443 | a block meets at most as many flips as its eight bursts carry |
| Noise.RectangularHearsNoise | driver/gsm_tch_f_l1.cpp:408-419 | the same for the rectangular deinterleaver |
| Noise.RectangularNoiseWeighs | driver/gsm_tch_f_l1.cpp:408-419 | the rectangular deinterleaver keeps the number of flips exactly |
| Stealing.SignallingPrecedesSpeech | driver/gsm_tch_f_l1.cpp:520-566 | when speech enters by enqueue and signalling by substitution, in every reachable state all waiting signalling precedes all waiting speech |
| Stealing.SubstitutionSteals | driver/gsm_tch_f_l1.cpp:529-543 | a substitution appends to the signalling and removes at most the oldest waiting speech block |
| Stealing.SignallingKeepsOrder | driver/gsm_tch_f_l1.cpp:529-566 | departed and waiting signalling together are the accepted blocks, each once, in order of submission |
| Stealing.SpeechKeepsOrder | driver/gsm_tch_f_l1.cpp:520-566 | departed and waiting speech is a part of the accepted speech in its order, and together with the blocks stolen it is exactly the accepted speech, counted with repetitions: nothing else is lost and nothing repeated |
| Sacch.SacchTransmitter.Enqueue | driver/gsm_tch_f_l1.cpp:611-619 | accepted exactly when no block is pending; then its four bursts wait from phase 0 |
| Sacch.SacchTransmitter.NextBurst | driver/gsm_tch_f_l1.cpp:621-633 | a burst leaves only in its own scheduled phase; the fourth clears the pending block |
| Sacch.SacchReceiver.Accept | driver/gsm_tch_f_l1.cpp:640-648 | four bursts are gathered, the fourth yields the decoded block |
| Sacch.SacchDeliversExactlyOnce | driver/gsm_tch_f_l1.cpp:611-648 | for every sequence of offers and scheduled phases, and whatever bits are flipped, the blocks heard are the accepted ones, each once, in order, each with just the flips of its own four bursts on it, all but one still pending |
| Sacch.SacchCorrectsThreeFlips | driver/gsm_tch_f_l1.cpp:611-648 | a block with at most three flips in its four bursts is heard unchanged, good, the flips counted |
| Sacch.OccasionsStep | driver/gsm_tch_f_l1.cpp:655-676 | SACCH occasions of a timeslot come every 26 frames, never sooner, and step through the four phases |
| Sacch.PhaseOfOccasion | driver/gsm_tch_f_l1.cpp:669-676 | the n-th occasion's phase, from the first |
| Sacch.SlotsInFigures | driver/gsm_tch_f_l1.cpp:655-676 | burst b of timeslot TN has frame 12 + 13 TN + 26 b of the 104-multiframe and no other; idle frames lie thirteen away |
| Sacch.BlockLeavesWithinSevenOccasions | driver/gsm_tch_f_l1.cpp:611-676 | a block accepted before an occasion has left completely, in order, within seven occasions |
| Sacch.BlockIsHeardWithinSevenOccasions | driver/gsm_tch_f_l1.cpp:611-676 | in every run on the schedule of a timeslot, a block accepted before an occasion is heard, in its turn and with just its own flips, by the seventh occasion after, whatever is offered meanwhile |
| FrameNumbers.ReducedNumbersDetermineFrame | driver/gsm_a5.cpp:101-109 | Chinese remaindering: T1, T2 and T3 determine the frame |
| FrameNumbers.CountFitsIn22Bits | driver/gsm_a5.cpp:101-109 | COUNT is below 2^22 for every frame number |
| FrameNumbers.CountDeterminesFrame | driver/gsm_a5.cpp:101-109 | the three fields of COUNT give back the frame within the hyperframe |
| FrameNumbers.CountIsInjective | driver/gsm_a5.cpp:101-109 | equal COUNTs mean the same frame of the 2,715,648-frame hyperframe |
| FrameNumbers.Sdcch8IsLatestBlock | driver/gsm_xcch_l1.cpp:9-25 | four consecutive frames at places 0 to 3 of the 51-multiframe (15 to 18 in the uplink), the last of them the latest at its place not after the reference, round the hyperframe |
| FrameNumbers.BlockCountsAreDistinct | driver/gsm_xcch_l1.cpp:9-25 | the four bursts of a block are ciphered under four different COUNTs |
| FrameNumbers.SynchronizationFrameIsLatest | driver/gsm_mobility.h:24-32 | the latest SCH frame at or before the frame, at most ten frames back round the hyperframe, none between |
| FrameNumbers.SchInformationIsInvertible | driver/gsm_mobility.h:34-48 | the four octets of section 9.1.30 of 3GPP TS 44.018 determine BSIC and synchronization frame |
| FrameNumbers.SchInformationInFigures | driver/gsm_mobility.h:34-48 | the octets as one number: BSIC, T1, T2 and T3' in fields of 6, 11, 5 and 3 bits above seven zeros |
| CompareClock.NextIsFirstMatch | driver/nokia_dsp_compare_clock.h:19-27 | the deadline is the least number of quarters, at least one, at which the counter equals the target, at a tick strictly in the future and within one period |
| CompareClock.NextFitsWords | driver/nokia_dsp_compare_clock.h:19-27 | in 32-bit and 64-bit words, for periods up to 65536, the result is that deadline if and only if its tick is below 2^64; the sums before it never overflow |
| CompareClock.FractionIsExactCeiling | driver/nokia_dsp_compare_clock.h:31-37 | the exact ceiling of the fractional second, all intermediates within 64 bits, so that flooring back recovers the tick |
| A5.ParityIsXorOfBits | driver/gsm_a5.cpp:18-25 | folding a word onto four bits and looking them up in 0x6996 is the exclusive or of all its 32 bits |
| A5.A51State.ClockAll | driver/gsm_a5.cpp:43-48 | all three registers are clocked |
| A5.A51State.ClockIrregular | driver/gsm_a5.cpp:50-60 | each register is clocked exactly when its clocking bit agrees with the majority |
| A5.GenerateA51 | driver/gsm_a5.cpp:68-97 | 64 key bits, 22 COUNT bits, 100 discarded steps, then 228 outputs, one step before each |
| A5.MakeKeyStream | driver/gsm_a5.cpp:111-127 | zeros for A5/0; the downlink or uplink half for A5/1; nothing for any other algorithm |
| A5.StreamBitIsOutput | driver/gsm_a5.cpp:111-127 | downlink bit i is the output after 101 + i stop-and-go clocks of the loaded registers, uplink bit i the output 114 clocks later; A5/0 gives zeros |
| A5Registers.FeedingIsViewed | driver/gsm_a5.cpp:27-88 | clocking the masked words and absorbing a bit is shifting three bit strings of 19, 22 and 23 places, fed back from places 13, 16, 17, 18, from 20, 21, and from 7, 20, 21, 22 |
| A5Registers.SteppingIsViewed | driver/gsm_a5.cpp:50-60 | irregular clocking moves the strings that agree with the majority of places 8, 10 and 10 |
| A5Registers.OutputIsViewed | driver/gsm_a5.cpp:62-65 | the output is the sum of the last places |
| A5Registers.StreamIsA51 | driver/gsm_a5.cpp:9-127 | for every key, COUNT and direction each bit of the keystream is that of the shifted bit strings, fed with the key's 64 and the COUNT's 22 bits, least significant first |
| A5.StepsKeepRegistersValid | driver/gsm_a5.cpp:27-66 | every step keeps the registers within 19, 22 and 23 bits |
| A5.GeneratorStaysValid | driver/gsm_a5.cpp:68-97 | so do all steps of every generation |
| A5.AtLeastTwoMove | driver/gsm_a5.cpp:32-60 | the stop-and-go clock moves at least two of the three registers |
| A5.CountLoadingIsInjective | driver/gsm_a5.cpp:70-90 | for one key, different 22-bit COUNTs load different registers |
| A5.BlockStatesAreDistinct | driver/gsm_a5.cpp:68-109 | so each burst of an SDCCH/8 block runs the generator from its own state |
| A5.Apply | driver/gsm_a5.h:50-60 | the payload is XORed in place with the keystream; an unsupported algorithm changes nothing |
| A5.XorTwice | driver/gsm_a5.h:50-60 | deciphering is ciphering again |
| Xcch.Transport | driver/gsm_xcch_l1.cpp:27-53 | the whole path from clear octets to decoded octets, refused when either algorithm is unsupported |
| Xcch.EachBurstHasItsOwnStreams | driver/gsm_xcch_l1.cpp:34-49 | under any two contexts each burst meets the two keystreams of its own frame, and its flags none |
| Xcch.TrainingCanBeLocated | driver/gsm_tch_f_l1.cpp:467-480 | training sequence 2 repeats its first ten bits at its end, and its middle differs from itself moved by one to five places in exactly half of the places |
| Xcch.CarriedIsIdentity | driver/gsm_xcch_l1.cpp:34-49 | cipher, burst packing, unpacking and decipher return each payload under equal contexts |
| Xcch.NoiseCommutesWithCipher | driver/gsm_xcch_l1.cpp:34-49 | a bit flipped between the two ends is flipped in the deciphered payload, and no other is |
| Xcch.TransportIsIdentity | driver/gsm_xcch_l1.cpp:27-53 | for every block, frames, key and direction, equal A5/0 or A5/1 contexts return the same octets, good |
| Xcch.TransportCorrectsThreeFlips | driver/gsm_xcch_l1.cpp:27-53 | with at most three payload bits flipped over the four ciphered bursts the block comes back, good, the flips counted |
| Xcch.QuietPathIsTransport | driver/gsm_xcch_l1.cpp:34-49 | without flips the noisy path carries exactly what the transport carries |
| Crc32.TapsAreReflectedConstant | driver/gsm_subscription_storage.h:30 | the generator's taps are exactly the set bits of 0xedb88320, reflected |
| Crc32.ComputeChecksum | driver/gsm_subscription_storage.h:23-33 | the nested loops, on a 32-bit word, compute the complemented register |
| Crc32.ShiftedWordBits | driver/gsm_subscription_storage.h:29-30 | shifting the word right and adding the constant when a one falls out shifts its string of bits as the division needs |
| Crc32.RegisterIsDivision | driver/gsm_subscription_storage.h:23-33 | the octet-wise shifting register is at every octet the running remainder of long division by the CRC-32 generator of the bit string, least significant bit first |
| Crc32.ChecksumIsAcceptance | driver/gsm_subscription_storage.h:67-71 | comparing stored and computed checksums is accepting the remainder of the whole word |
| Crc32.ChecksumInFigures | driver/gsm_subscription_storage.h:23-33 | the stored word is the checksum exactly when message and word, the first 32 bits inverted, leave 32 ones on division by the CRC-32 polynomial |
| Crc32.CheckValue | driver/gsm_subscription_storage.h:23-33 | the checksum of the nine digits "123456789" is 0xcbf43926 |
| Crc32.BurstIsRefused | driver/gsm_subscription_storage.h:67-71 | an error within 32 consecutive bits of message and checksum is never accepted |
| SubscriptionStorage.EncodeImage | driver/gsm_subscription_storage.h:35-57 | header, identity, four records and checksum, through the running offset |
| SubscriptionStorage.ImageInFigures | driver/gsm_subscription_storage.h:35-57 | the octets of the image in figures |
| SubscriptionStorage.DecodeImage | driver/gsm_subscription_storage.h:59-92 | the caller's records are replaced on acceptance and untouched on every refusal |
| SubscriptionStorage.DecodeAfterEncode | driver/gsm_subscription_storage.h:35-92 | an encoded state is read back unchanged if and only if in every record active implies registered, the length is at most 16 and nonzero exactly when registered, and the service at most 2; otherwise it is refused |
| SubscriptionStorage.EncodeAfterDecode | driver/gsm_subscription_storage.h:35-92 | every accepted image is octet for octet the encoding of what it returned |
| SubscriptionStorage.CorruptedImageIsRefused | driver/gsm_subscription_storage.h:23-92 | any nonzero error within 32 consecutive bits of an encoded image makes it refused |
| Forwarding.ForwardingState.constructor | driver/nokia_gsm_network.cpp:60-70 | the default state is blank in all seven member arrays |
| Forwarding.ForwardingState.RegisterForwarding | driver/nokia_gsm_network.cpp:197-215 | at most sixteen digits kept, padded with zeros, and the condition registered and active; an unknown condition changes nothing |
| Forwarding.ForwardingState.ActivateForwarding | driver/nokia_gsm_network.cpp:217-224 | succeeds exactly on a registered condition |
| Forwarding.ForwardingState.DeactivateForwarding | driver/nokia_gsm_network.cpp:226-231 | clears the activity of a known condition |
| Forwarding.ForwardingState.EraseForwarding | driver/nokia_gsm_network.cpp:233-245 | blanks the condition's entry in all seven arrays |
| Forwarding.ForwardingState.NvramWrite | driver/nokia_gsm_network.cpp:98-116 | writes the image of the state |
| Forwarding.ForwardingState.NvramRead | driver/nokia_gsm_network.cpp:72-96 | a file of exactly the image size that decodes replaces the state; any other changes nothing |
| Forwarding.StaysStorableIff | driver/nokia_gsm_network.cpp:197-245 | from a storable state an operation leads to a storable state if and only if it does not register an empty number |
| Forwarding.LastRegistrationStands | driver/nokia_gsm_network.cpp:197-245 | in every run a condition keeps the number (its first sixteen octets, zeros behind), service, code and time it was last registered with until it is registered again or erased |
| Forwarding.BlankUntilRegistered | driver/nokia_gsm_network.cpp:60-245 | before its first registration, and from an erasure to the next one, it is zero in every field |
| Forwarding.LastWordOnActivity | driver/nokia_gsm_network.cpp:197-245 | a registered condition is active exactly as the last operation that decides it left it |
| Forwarding.EveryRunSurvivesReload | driver/nokia_gsm_network.cpp:60-245 | every state reached by registering non-empty numbers, activating, deactivating and erasing survives writing and reading |
| Forwarding.RunSurvivesReloadIff | driver/nokia_gsm_network.cpp:60-245 | any reachable state survives exactly when no condition is registered with an empty number |
| Forwarding.EmptyNumberIsLost | driver/nokia_gsm_network.cpp:197-215 | registering an empty number is accepted and leaves an image that is then refused |
| PacketRings.FrontOfWords | driver/nokia_dspif.cpp:230-246 | a complete packet in front is recognised, whatever follows |
| PacketRings.FrontOfPart | driver/nokia_dspif.cpp:230-246 | part of a packet is never taken for one |
| PacketRings.WordsInFigures | driver/nokia_dspif.cpp:274-286 | length and kind in the first word, then two octets a word, the first in the upper half |
| PacketRings.SerializeIsInjective | driver/nokia_dspif.cpp:260-288 | one string of words spells at most one packet sequence |
| PacketRings.PutAppends | driver/nokia_dspif.cpp:274-278 | a word put at the producer of a ring that is not full follows the unread words, across the wrap |
| PacketRings.SkipDrops | driver/nokia_dspif.cpp:248-258 | advancing the consumer drops that many unread words, across the wrap |
| PacketRings.DspInterface.EnqueueRxPacket | driver/nokia_dspif.cpp:260-288 | accepted exactly when at most 255 octets, cursors in range, and the words fit with one slot free; then the unread words are the old ones followed by the packet's, one delivery of the ring's state machine; a refusal changes nothing |
| PacketRings.AppendExtendsQueue | driver/nokia_dspif.cpp:260-288 | if the unread words spell the queue q they then spell q + [packet], and no other queue |
| PacketRings.DspInterface.PeekTxPacket | driver/nokia_dspif.cpp:224-246 | returns the oldest packet whose words are all committed, payload unpacked big-endian across the wrap, or nothing |
| PacketRings.DspInterface.ConsumeTxPacket | driver/nokia_dspif.cpp:248-258 | drops exactly the words of the packet that was peeked |
| PacketRings.DspInterface.PollTxPacket | driver/nokia_dspif.cpp:230-258 | peek and consume together are one poll of the ring's state machine |
| PacketRings.RxRingIsFifo | driver/nokia_dspif.cpp:260-288 | over every interleaving of deliveries and takings by whole packets, from any ring whose unread words spell packets: those taken are the first of those accepted, the others wait in order, and the ring shows a packet exactly when one waits |
| PacketRings.PollTakesFirstPacket | driver/nokia_dspif.cpp:230-258 | peek and consume take exactly the first whole packet and leave the words behind it |
| PacketRings.TxRingIsFifo | driver/nokia_dspif.cpp:224-258 | from any ring and over every interleaving of committed words and polls, the packets taken are a prefix of those written, what waits is the rest, and a poll finds nothing exactly when all whole packets were taken |
| SmsDeliver.HostSms.SetHostIncomingSms | driver/nokia_gsm_network.cpp:1183-1207 | accepted exactly when nothing is pending and lengths agree with the alphabet in 32-bit arithmetic; a refusal changes nothing |
| SmsDeliver.HostSms.IncomingSmsCpData | driver/nokia_gsm_network.cpp:1056-1100 | the buffer built through the running offset, its two lengths patched last, is the nested message; the message that exceeds the buffer is told apart |
| SmsDeliver.ParseAfterBuild | driver/gsm_sms_transport.cpp:51-92 | an accepted message that fits is read back with its alphabet and length and its user data exactly located if and only if its length was below 256; otherwise it is invalid |
| SmsDeliver.SenderIsReadBack | driver/nokia_gsm_network.cpp:1077-1083 | every digit stands in its own half octet, the first of a pair in the low half, an odd tail filled with 0xf |
| SmsDeliver.MessageInFigures | driver/nokia_gsm_network.cpp:1056-1100 | the octets of the message in figures |
| SmsDeliver.ShortLengthsAreCarried | driver/nokia_gsm_network.cpp:1192-1204 | for accepted messages the length octet still stands for the user data if and only if the length is below 256, and then it is at most 160 |
| SmsDeliver.WrappedLengthIsInvalid | driver/nokia_gsm_network.cpp:1192-1204 | septet count 613566757 passes the 32-bit check for one octet, and the message built is invalid |
| SmsDeliver.WhatDoesNotFit | driver/nokia_gsm_network.cpp:1056-1100 | an accepted message exceeds the 176-octet buffer if and only if a sender of 19 or 20 digits meets 140 octets |
| SmsDeliver.AcceptedButDoesNotFit | driver/nokia_gsm_network.cpp:1183-1207 | such messages are accepted in every alphabet, and need 177 octets |
| Gsm7.PackGsm7 | driver/gsm_supplementary.cpp:34-55 | character i fills bits 7i to 7i+6 of the packed string of section 6.1.2 of 3GPP TS 23.038, zeros follow, nothing beyond is touched; a text that does not fit writes nothing |
| Gsm7.OrSeptet | driver/gsm_supplementary.cpp:46-53 | a septet is ORed into one octet and its overhang into the next, and no other bit changes |
| Gsm7.ExtractAfterPack | driver/gsm_supplementary.cpp:34-55 | every character's seven bits come back out of the packed octets, and the bits after the last are zero |
| Gsm7.UssdAlwaysFits | driver/gsm_supplementary.cpp:34-42 | texts are cut at forty characters, which take 35 octets; no text takes more |
| Supplementary.ReadTlv | driver/gsm_supplementary.cpp:21-32 | a field found has this tag, a short-form length, and lies within the limit |
| Supplementary.ReadTlvFinds | driver/gsm_supplementary.cpp:21-32 | a field with this tag that lies within the limit is always found, whatever follows it |
| Supplementary.ReadsIffEncoded | driver/gsm_supplementary.cpp:21-32 | for any nesting of fields: reading by the tags finds these values, every parent ending exactly where its last child does, if and only if the octets are their encoding |
| Supplementary.ReadingIsUnique | driver/gsm_supplementary.cpp:21-32 | one message holds at most one set of values under the same tags |
| Supplementary.ProcessUssRequestResult | driver/gsm_supplementary.cpp:408-463 | refused exactly for a wrong request or a packed length outside 1..40; otherwise the octets stored through the running offset, all lengths computed beforehand, are the nested return result |
| Supplementary.ForwardingInfoResult | driver/gsm_supplementary.cpp:293-372 | the same for the forwarding feature with its optional service, number and time |
| Supplementary.AnswerInvertsTheFlag | driver/gsm_supplementary.cpp:324 | the answer keeps the transaction identifier and inverts its flag |
| Supplementary.UssAnswerInFigures | driver/gsm_supplementary.cpp:419-463 | the octets of the unstructured answer in figures |
| Supplementary.ForwardingAnswerInFigures | driver/gsm_supplementary.cpp:310-346 | the octets of the forwarding answer in figures, up to the feature |
| Supplementary.FeatureInFigures | driver/gsm_supplementary.cpp:347-369 | service, status, number and time of the feature in figures |
| Supplementary.AnswerIsReadBack | driver/gsm_supplementary.cpp:293-463 | an answer's tags lead back to every value put in it and to nothing else |
| Supplementary.FeatureOctetsAreInjective | driver/gsm_supplementary.cpp:330-370 | different features have different octets, although three of the fields are optional |
| Supplementary.ForwardingAnswerIsInjective | driver/gsm_supplementary.cpp:293-372 | the whole answer determines transaction, invocation, operation, service code and feature |

## Left out

- SmsDeliver.HostSms.IncomingSmsCpData: a message that exceeds the 176-octet buffer is only told apart, since what the source then leaves in memory is undefined. Only the host branch is modelled.
- SmsDeliver.HostSms.SetHostIncomingSms: null pointers, and sender digits of 16 or more.
- SpeechCodec.EncodeSpeechFrame: takes the importance map as an argument known to hold the map built by MakeImportanceMap.
- A5.GenerateA51: no cryptographic strength is stated.
- Forwarding.ForwardingState.NvramRead: a file is its octets; stream errors are not modelled.
- PacketRings.TxRingIsFifo: the MCU side, which is firmware, is modelled as committing one word at a time while there is room.
- PacketRings.RxRingIsFifo: the receive side's consumer, also firmware, is modelled as advancing by whole packets.
- CompareClock.NextIsFirstMatch: stated on unbounded ticks; CompareClock.NextFitsWords says when the program's words agree.
- Pipeline.PipelineDeliversEveryBlock: in runs flips fall on payload bits and the stealing flags arrive; what inverted flags do to one block is Pipeline.FlagErrors.
- Gsm7.PackGsm7: a null text, which packs to nothing.
- Supplementary.ProcessUssRequestResult: the overload that packs a text first is the composition with Gsm7.PackGsm7; null pointers.
- Values other than 0 and 1 in bit arrays, and frame numbers of 2^32 or more.
- Training sequences other than code 2, and inversion of data bits on the air.
- Parsing of supplementary-service requests, the other result builders, SMS submit and report messages: further instances of the same field reader and of the same buffers.
- Cipher mode negotiation, mobility timers and topology: flags without interplay.
- Snapshots and restoring of the stream objects, tracing, logging, and the doorbell and peer notifications of the packet interface.
- The C54x and ARM processors, MAD2, the SIM, LAPDm and call sessions, the call adapter, the voice codec, A3/A8, cell broadcast and enhanced messaging, which are not part of this model.
