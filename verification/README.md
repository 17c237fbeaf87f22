# TITAN: ratchets, link layer, hashing, audit log and reservoir arithmetic

Dafny models of the parts of TITAN that carry state or arithmetic from call to call, with proofs of what they keep.
`dafny verify dfyconfig.toml` checks everything.

| module | models |
|---|---|
| SymmetricRatchet | the KDF chain and the receiving ratchet with its cache of skipped keys, as classes |
| DoubleRatchetSteps, DoubleRatchetInPlace | the Double Ratchet on values, and as a class updated in place with a bounded cache |
| DoubleRatchetProtocol | two parties over a network that delays, reorders and drops, as a state machine |
| DoubleRatchetForced | what the step forced after 200 messages does to the agreement |
| DoubleRatchetReplay | what a header of an earlier key pair does when it is delivered a second time |
| DoubleRatchetRuns | two objects of the class that perform runs of the protocol |
| Crc32, CrcErrors, HlpPacket, HlpExamples, SequenceWindow | CRC-32 and which bit errors it catches, the HLP packet with a worked example, and the anti-replay window |
| Cobs, CobsRust, CobsC, CobsAccumulator | COBS as a function, its Rust and C codecs, and the C frame accumulator |
| Sha256, Sha256Constants, Sha256Vectors | the streaming hash and the padded-message hash of FIPS 180-4, where its constants come from, and the examples of the standard |
| AsconPermutation, Ascon, AsconVectors, SpiLink | the permutation, Ascon-128 encryption, three encryptions worked through, and the encrypted SPI frames |
| AuditLog | the HMAC-chained log with rotation |
| FixedPoint, EsnReservoir, SparseReservoir | shift-add arithmetic, the Q4.12 network, and the sparse Q8.8 reservoir |
| Octets, Prelude | bytes and numbers; Option, Result, powers of two, quotients |

Code that changes state in place is modelled by classes and by methods with loops, each proved against a function of its
inputs and its old state. What the source promises is then proved about those functions. Where a standard fixes such a
function bit by bit, its values on published examples are proved step by step as well.

Assumptions appear as hypotheses where they are used. HKDF, HMAC and X25519 are uninterpreted functions. Agreement of
the two ratchet parties uses only that both sides of a Diffie-Hellman exchange compute the same value, and that new key
pairs have new public keys. No function is assumed to be free of collisions. Where keys or logs differ, the statement
says exactly when they do not: the inputs of the two sides are the same, or a named function maps two named inputs of
that computation to one result (`Coincide`, `CollisionAt`, `GapCollides`). That this need not happen with results of
fixed length is shown by example (`ForcedStepReachedIn32Bytes`, `ReplayReachedIn32Bytes`). Fresh secrets, the random
first chain key of the log, and timestamps are inputs.

## Where the code and its documentation differ

- The forced step after 200 messages (`ratchet.rs:296-301`) replaces only the sender's root key. Its comment promises
  forward secrecy. No message of the chain it opens gives the receiver its sender's key (`ForcedStepDisagrees`,
  `ForcedChainInAnyOrder`, `AgreesIffNotForced`), and neither do the replies, nor any exchange after them
  (`ForcedStepEndsAgreement`), but for the coincidences named there.
- A header that was decrypted before is recognised only while its key pair is the current one. An older one is taken for
  a new key pair: within the skip limits it is accepted, but for such coincidences with a wrong key, and later messages
  no longer give their sender's keys (`DuplicateIsHarmlessIff`, `ReplayIsAcceptedWrongly`, `ReplayLosesThePeer`,
  `ReplayReached`). The same happens to a late message whose cached key was thrown out (`EvictedKey`). A refused header
  may cost the receiving chain (`RefusedHeaderLosesChain`).
- `protocol.rs:304-306` claims that the CRC detects all errors of 1, 2 and 3 bits, up to 2^32 bits of data. For 1 and 2
  bits that is so (`TwoBitsUnnoticedIff`); for 3 bits it is not, from 11455 bytes on, and packets may be that long
  (`ThreeBitsUnnoticed`, `ThreeBitsAreAccepted`).
- `cobs.rs` and `cobs_framing.c` are described as a codec. A zero directly after a full 254-byte block is lost
  (`RoundTripIff`, `RoundTripFails`).
- `HLP_MAX_PAYLOAD` (`protocol.rs:21-22`) is not enforced. The real limit is that of the 16-bit length (`RoundTripIff`).
- `audit.rs:9` says that no entry can be deleted without breaking the chain, and `audit.rs:10` that modifying any entry
  shows. The HMAC key of each entry is the HMAC stored before it, so `verify_chain` by itself accepts, for any contents,
  the log chained anew (`VerifiesIffRechained`): there is evidence only against a last HMAC kept elsewhere
  (`TamperEvidentIff`). Even then severities and the first entry's content are not covered, and plain removal of the
  oldest or newest entries passes (`DeletionDetectedIff`).
- `esn_fixedpoint.py:296-298` quantises the leak rate and its complement separately. Rounding can make the two weights
  add up to 4097, and then a state can leave [-4096, 4096] (`LeakWeightsSumIff`, `LeakWeightsExceed`).
- `spi_ascon_init` sets the transmit counter back to 0 while the key stays the one fused into the part, so the first
  frames after two initialisations share their nonce (`ReinitialisedReuses`, `NonceReuseIff`).
- `spi_ascon_encrypt_frame` is documented to return 0 on error. For a payload over 64 bytes it sends the payload in the
  clear instead, even on an enabled link (`EncryptFrame`).

## Model

| member | source | states |
|---|---|---|
| SymmetricRatchet.RatchetState.constructor | titan_v14/sw/hidra_core/src/ratchet.rs:75-87 | A new chain starts from the chain key derived from the root key, at message number 0. |
| SymmetricRatchet.StreamKeyIs | titan_v14/sw/hidra_core/src/ratchet.rs:75-123 | Key n of a chain is the message expansion of the root key after n + 1 chain expansions. |
| SymmetricRatchet.RatchetState.Advance | titan_v14/sw/hidra_core/src/ratchet.rs:99-123 | Hands out the key and number of the next message and moves to the next chain key. |
| SymmetricRatchet.RatchetState.SkipTo | titan_v14/sw/hidra_core/src/ratchet.rs:129-153 | Fails, changing nothing, for a number behind the counter or more than 100 ahead; otherwise returns exactly that message's key of the stream and stands after it. |
| SymmetricRatchet.RecvRatchet.constructor | titan_v14/sw/hidra_core/src/ratchet.rs:557-562 | A new receiving ratchet has its chain at 0 and an empty cache. |
| SymmetricRatchet.RecvRatchet.Lookup | titan_v14/sw/hidra_core/src/ratchet.rs:568-608 | The in-place lookup computes the specified outcome: cached key, skipped and cached keys with eviction of the oldest, or an error. |
| SymmetricRatchet.CallRefines | titan_v14/sw/hidra_core/src/ratchet.rs:568-608 | A call succeeds exactly if its number is held or at most 100 ahead; it then returns the stream's key, never one already delivered; a failed call changes nothing; the invariant stays. |
| SymmetricRatchet.RunRefines | titan_v14/sw/hidra_core/src/ratchet.rs:525-615 | After every sequence of calls each number below the counter is exactly one of delivered, cached and evicted, cached keys are the stream's, and the cache holds at most 256. |
| SymmetricRatchet.EachKeyAtMostOnce | titan_v14/sw/hidra_core/src/ratchet.rs:568-608 | Over every sequence of calls the answer for n is only ever K(n), at most once per n. |
| DoubleRatchetInPlace.DoubleRatchet.Alice | titan_v14/sw/hidra_core/src/ratchet.rs:246-268 | The initiator starts with one root step done, a sending chain and no receiving chain. |
| DoubleRatchetInPlace.DoubleRatchet.Bob | titan_v14/sw/hidra_core/src/ratchet.rs:272-290 | The responder starts with the shared root key and no chain. |
| DoubleRatchetInPlace.DoubleRatchet.DhRatchetStep | titan_v14/sw/hidra_core/src/ratchet.rs:469-488 | The step gives a new key pair, root key and sending chain, and records the length of the chain it leaves. |
| DoubleRatchetInPlace.DoubleRatchet.RatchetEncrypt | titan_v14/sw/hidra_core/src/ratchet.rs:294-328 | Encrypting in place gives the header, key and state of the value-level step, forced step and missing peer key included. |
| DoubleRatchetInPlace.DoubleRatchet.SkipMessageKeys | titan_v14/sw/hidra_core/src/ratchet.rs:425-455 | Caches the keys before a given number, or fails beyond 100, with the cache kept within 256. |
| DoubleRatchetInPlace.DoubleRatchet.RatchetDecrypt | titan_v14/sw/hidra_core/src/ratchet.rs:332-455 | Decrypting in place gives the result of the value-level step, and one of the states that it can lead to when an oldest key is thrown out for each key skipped once 256 are cached: the whole state of the step for a cached key and whenever the skipped keys fit, so always within the bounds of a run, and otherwise a part of its cache. |
| DoubleRatchetSteps.FirstMessage | titan_v14/sw/hidra_core/src/ratchet.rs:246-328 | The first message written out: header and key on the sending side, and the key on the receiving side, as expressions in the two secrets and the shared root key. |
| DoubleRatchetSteps.FirstAnswer | titan_v14/sw/hidra_core/src/ratchet.rs:294-488 | The same for the first answer, from the root key one step on and the responder's new key pair, and for the initiator's next message, two steps on, whose header tells the length of her first chain. |
| DoubleRatchetSteps.FailedDecryptUnchangedIff | titan_v14/sw/hidra_core/src/ratchet.rs:332-422 | A failed decryption leaves the party as it was exactly if the header named the current key pair. |
| DoubleRatchetSteps.RefusedHeaderLosesChain | titan_v14/sw/hidra_core/src/ratchet.rs:352-387 | A header of a new key pair that names more than 100 skipped messages costs the receiving chain: good messages of the current key pair are then refused. |
| DoubleRatchetInPlace.StashPart | titan_v14/sw/hidra_core/src/ratchet.rs:403-416 | Keys already evicted do not change which keys are cached afterwards. |
| DoubleRatchetInPlace.TakePart | titan_v14/sw/hidra_core/src/ratchet.rs:390-422 | Which keys were evicted does not change the key taken from the chain. |
| DoubleRatchetProtocol.SendKeepsInv | titan_v14/sw/hidra_core/src/ratchet.rs:294-328 | Sending keeps the two-party invariant and puts a header on the network that carries the next key of the sender's epoch. |
| DoubleRatchetProtocol.DeliveryAgrees | titan_v14/sw/hidra_core/src/ratchet.rs:332-422 | In every world of the invariant, an undelivered message within the skip limits decrypts to its sender's key. |
| DoubleRatchetProtocol.StepKeepsInv | titan_v14/sw/hidra_core/src/ratchet.rs:294-455 | Every enabled send or delivery keeps the two-party invariant. |
| DoubleRatchetProtocol.Agreement | titan_v14/sw/hidra_core/src/ratchet.rs:246-455 | After every run with delay, reordering and loss, within 200 messages a chain, 100 skips and 256 cached keys, each delivery of an undelivered header returns exactly the key the sender derived. |
| DoubleRatchetProtocol.RootsInStep | titan_v14/sw/hidra_core/src/ratchet.rs:303-313 | After every such run one party's root key is exactly one root step ahead of the other's; a party has a sending chain exactly if it has a peer key; each header belongs to an epoch that has begun, carries that epoch's public key, its number below that epoch's count and the final length of its sender's preceding chain; and its receiver is at most one epoch behind, so no key pair is skipped. |
| DoubleRatchetProtocol.DuplicateIsHarmlessIff | titan_v14/sw/hidra_core/src/ratchet.rs:332-387 | A decrypted header delivered again is refused as a replay and changes nothing exactly while its key pair is the receiver's current peer key; an older one costs the receiving chain, or makes the receiver step to it and, up to number 100, answer Ok. |
| DoubleRatchetReplay.ReplayIsAcceptedWrongly | titan_v14/sw/hidra_core/src/ratchet.rs:332-387 | Such an older header is accepted exactly within the skip limits, and then has its sender's key exactly if the receiver's step coincides with that of the header's epoch: equal root keys and secrets, or a named collision. |
| DoubleRatchetReplay.ReplayLosesThePeer | titan_v14/sw/hidra_core/src/ratchet.rs:332-387 | After that step an uncached message of the peer's two newest epochs gives its sender's key exactly within the skip limits and by such a coincidence. |
| DoubleRatchetReplay.ReplayReached | titan_v14/sw/hidra_core/src/ratchet.rs:246-422 | A run of three messages reaches it: Bob accepts Alice's first header a second time, with her key exactly if his fifth root step coincides with the first, and has the key of her next message exactly by another such coincidence. |
| DoubleRatchetReplay.ReplayReachedIn32Bytes | titan_v14/sw/hidra_core/src/ratchet.rs:246-422 | For example, with simple functions of 32 bytes, both keys are wrong. |
| DoubleRatchetReplay.EvictedKey | titan_v14/sw/hidra_core/src/ratchet.rs:332-455 | A message that comes for the first time after its cached key was thrown out is refused as a replay if it is of the current key pair; an older one is treated as a replay of it would be. |
| DoubleRatchetRuns.Perform | titan_v14/sw/hidra_core/src/ratchet.rs:246-455 | Two objects of the class perform any run within the bounds: they end in the states of the model, and every first delivery gives the key the sender's object handed out. |
| DoubleRatchetForced.ForcedStepDisagrees | titan_v14/sw/hidra_core/src/ratchet.rs:294-328 | A message of a forced chain, whatever its number, that reaches a receiver first is accepted exactly within the skip limits, and gives its sender's key exactly if the steps of the two sides coincide: equal root keys and secrets, or a named collision. |
| DoubleRatchetForced.ForcedChainInAnyOrder | titan_v14/sw/hidra_core/src/ratchet.rs:294-422 | The same for every message of the chain that comes after the receiver has stepped, in whatever order and however often they come. |
| DoubleRatchetForced.AgreesIffNotForced | titan_v14/sw/hidra_core/src/ratchet.rs:294-328 | After any run within the bounds, let a party send any number of messages: the last one, delivered at once within the skip limits, gives its key if and only if the chain had room for all of them, so that no step was forced, or the last step forced coincides with the receiver's. |
| DoubleRatchetForced.ForcedStepEndsAgreement | titan_v14/sw/hidra_core/src/ratchet.rs:294-422 | From a forced step on no exchange of an alternating conversation agrees, in either direction and however long it is, unless a root step led nowhere or a function collides on inputs of the conversation. |
| DoubleRatchetForced.ForcedStepReached | titan_v14/sw/hidra_core/src/ratchet.rs:296-301 | The smallest run that shows it: Alice sends 200 messages, and Bob accepts her 201st, with her key exactly if a step from the shared root key and one from the root key after it coincide. |
| DoubleRatchetForced.ForcedStepReachedIn32Bytes | titan_v14/sw/hidra_core/src/ratchet.rs:296-301 | For example, with simple functions of 32 bytes, the key Bob derives is wrong. |
| Crc32.FeedByte | titan_v14/sw/hidra_core/src/protocol.rs:311-318 | Eight turns of the bit loop are one step of the byte-wise register. |
| Crc32.Compute | titan_v14/sw/hidra_core/src/protocol.rs:308-321 | The two loops compute the reflected CRC-32 of the data. |
| HlpExamples.CheckValue | titan_v14/sw/hidra_core/src/protocol.rs:308-321 | The check value of CRC-32: the digits 1 to 9 give CBF43926. |
| Crc32.FeedIsBits | titan_v14/sw/hidra_core/src/protocol.rs:310-318 | Feeding a byte is feeding its eight bits, lowest first. |
| Crc32.CheckedIffResidue | titan_v14/sw/hidra_core/src/protocol.rs:308-321 | Data followed by a little-endian value is followed by its own CRC exactly if the register ends at one fixed residue. |
| Crc32.BurstIsCaught | titan_v14/sw/hidra_core/src/protocol.rs:303-321 | Every burst of up to 32 bits is detected: two equal-length frames that both carry their own CRC cannot differ inside 32 consecutive bits only. |
| HlpPacket.ToBytes | titan_v14/sw/hidra_core/src/protocol.rs:117-134 | The pushes build command, 16-bit length, sequence, payload and CRC-32, all little-endian. |
| HlpPacket.FromBytes | titan_v14/sw/hidra_core/src/protocol.rs:137-164 | The checks return the parsed packet or the first of the four errors, in the source's order. |
| HlpPacket.RoundTripIff | titan_v14/sw/hidra_core/src/protocol.rs:117-164 | A printed packet followed by anything parses back to itself exactly if its payload has at most 65535 bytes. |
| HlpPacket.ParsesIff | titan_v14/sw/hidra_core/src/protocol.rs:137-164 | A buffer parses to a packet exactly if it begins with that packet's bytes and the payload is at most 65535 long. |
| HlpPacket.LengthOnWire | titan_v14/sw/hidra_core/src/protocol.rs:117-134 | Bytes 1 and 2 of a printed packet of at most 65535 payload bytes are its length, the lower byte first. |
| HlpPacket.AcceptedLength | titan_v14/sw/hidra_core/src/protocol.rs:137-164 | The payload of every accepted buffer is as long as bytes 1 and 2 say, the lower byte first. |
| HlpExamples.HeartbeatPrinted | titan_v14/sw/hidra_core/src/protocol.rs:117-134 | A heartbeat with sequence number 1 and payload AA is FE 01 00 01 00 00 00 AA E3 B1 D7 22. |
| HlpExamples.HeartbeatParsed | titan_v14/sw/hidra_core/src/protocol.rs:137-164 | Those bytes, followed by anything, parse to that packet. |
| CrcErrors.PowerReturnsIff | titan_v14/sw/hidra_core/src/protocol.rs:303-318 | The step of the register returns to where it began exactly after multiples of 2^32 - 1 turns. |
| CrcErrors.TwoBitsUnnoticedIff | titan_v14/sw/hidra_core/src/protocol.rs:303-306 | Two wrong bits in a frame go unnoticed exactly if they are a multiple of 2^32 - 1 bits apart, whatever the frame holds. |
| CrcErrors.ThreeBitsUnnoticedIff | titan_v14/sw/hidra_core/src/protocol.rs:303-306 | Three wrong bits go unnoticed exactly if the powers of the step for their distances from the last one cancel, whatever the frame holds. |
| CrcErrors.ThreeBitsUnnoticed | titan_v14/sw/hidra_core/src/protocol.rs:303-306 | The claim of distance 4 fails: in every frame of more than 11454 bytes three bits, 49961 and 41678 places apart, can be turned round unnoticed. |
| HlpPacket.TwoBitsAreRejected | titan_v14/sw/hidra_core/src/protocol.rs:137-164 | One or two wrong bits anywhere in an accepted frame, the length field apart, are always rejected. |
| HlpPacket.ThreeBitsAreAccepted | titan_v14/sw/hidra_core/src/protocol.rs:137-164 | Every accepted packet of more than 11454 bytes has a neighbour three bits away that is accepted as another packet. |
| HlpPacket.BurstIsRejected | titan_v14/sw/hidra_core/src/protocol.rs:137-164 | Any change of an accepted frame inside 32 consecutive bits that leaves the length field alone is rejected, whatever the same burst changes after the frame. |
| SequenceWindow.SequenceValidator.Validate | titan_v14/sw/hidra_core/src/protocol.rs:213-258 | The bitmap decides exactly as a set of accepted numbers would: too old iff 64 or more behind an accepted number, duplicate iff accepted, else accepted; and the counters add up. |
| SequenceWindow.SequenceValidator.Reset | titan_v14/sw/hidra_core/src/protocol.rs:271-277 | Reset forgets every accepted number. |
| SequenceWindow.ShiftTracks | titan_v14/sw/hidra_core/src/protocol.rs:223-234 | Shifting the bitmap by the advance and setting bit 0 describes the accepted set with the new maximum. |
| SequenceWindow.NeverAcceptedTwice | titan_v14/sw/hidra_core/src/protocol.rs:213-258 | Over every sequence of calls no number is accepted twice, and the accepted set is exactly the numbers answered Ok. |
| SequenceWindow.AcceptedIff | titan_v14/sw/hidra_core/src/protocol.rs:213-258 | In every sequence of calls a number is accepted exactly if no call before was accepted with the same number or with one 64 or more above, and is too old exactly in the last case. |
| CobsRust.Encode | titan_v14/sw/hidra_net/src/cobs.rs:40-84 | The loop over blocks computes the encoding. |
| CobsRust.Decode | titan_v14/sw/hidra_net/src/cobs.rs:89-130 | The loop over codes computes the decoding, with the position of an unexpected zero. |
| CobsC.CobsEncode | titan_v14/sw/callwhite_mcu/src/cobs_framing.c:12-47 | The C encoder computes the same function, never writes at or past in_len + in_len/254 + 1, and leaves the rest of the buffer alone. |
| CobsC.CobsDecode | titan_v14/sw/callwhite_mcu/src/cobs_framing.c:52-92 | The C decoder computes the same function up to error positions, writing only below in_len. |
| Cobs.RoundTrip | titan_v14/sw/hidra_net/src/cobs.rs:40-130 | Decoding an encoding gives the data without exactly those zeros that directly follow a full 254-byte block. |
| Cobs.RoundTripIff | titan_v14/sw/hidra_net/src/cobs.rs:57-61 | The round trip is the identity if and only if no zero directly follows a full block. |
| Cobs.EncodedByte | titan_v14/sw/hidra_net/src/cobs.rs:40-84 | Without a run of 254 nonzero bytes the encoding has one byte more than the data, nonzero bytes move up by one place, and the first byte and each zero become the distance to the next such place. |
| Cobs.RoundTripFails | titan_v14/sw/hidra_net/src/cobs.rs:124 | 254 ones and a zero come back without the zero. |
| Cobs.EncodeSize | titan_v14/sw/hidra_net/src/cobs.rs:40-84 | An encoding contains no zero and has between 1 and n + n/254 + 1 bytes. |
| CobsAccumulator.Accumulator.AddByte | titan_v14/sw/callwhite_mcu/src/cobs_framing.c:99-120 | One byte does what the specified step does, and the count stays within the 2048-byte buffer. |
| CobsAccumulator.FeedData | titan_v14/sw/callwhite_mcu/src/cobs_framing.c:113-119 | What is pending after any number of nonzero bytes, and how often the buffer was dropped on the way. |
| CobsAccumulator.FrameIntactIff | titan_v14/sw/callwhite_mcu/src/cobs_framing.c:99-120 | A nonempty frame comes out unchanged and alone exactly if it has at most 2048 bytes. |
| CobsAccumulator.StreamReceived | titan_v14/sw/callwhite_mcu/src/cobs_framing.c:99-120 | Any series of zero-free frames of 1 to 2048 bytes, each followed by 0x00, is received as exactly those frames in order. |
| CobsAccumulator.Resynchronises | titan_v14/sw/callwhite_mcu/src/cobs_framing.c:104-111 | After any bytes whatsoever one delimiter suffices: all frames after it are received, in order. |
| CobsAccumulator.MessagesArrive | titan_v14/sw/callwhite_mcu/src/cobs_framing.c:12-120 | Messages of at most 2039 bytes sent through encoder, framing and decoder all arrive, each without the zeros directly after full blocks. |
| Sha256.ShiftsAreRotations | titan_v14/sw/callwhite_mcu/src/sha256.h:37-45 | The shift pairs of the source are the rotations of FIPS 180-4 section 4.1.2. |
| Sha256Constants.RoundConstantsAreCubeRoots | titan_v14/sw/callwhite_mcu/src/sha256.h:21-32 | Round constant i is the first 32 bits of the fraction of the cube root of prime i, as FIPS 180-4 section 4.2.2 defines it. |
| Sha256Constants.InitialWordsAreSquareRoots | titan_v14/sw/callwhite_mcu/src/sha256.h:121-128 | Initial word i is the first 32 bits of the fraction of the square root of prime i, as section 5.3.3 defines it. |
| Sha256Vectors.AbcDigest | titan_v14/sw/callwhite_mcu/src/sha256.h:60-207 | The digest of abc is that of the first example of FIPS 180-4. |
| Sha256Vectors.TwoBlocksDigest | titan_v14/sw/callwhite_mcu/src/sha256.h:60-207 | The digest of the message of 56 bytes, which takes two blocks, is that of the second example. |
| Sha256.Context.Init | titan_v14/sw/callwhite_mcu/src/sha256.h:120-131 | Initialisation sets the initial hash value of FIPS 180-4 section 5.3.3, no bytes and no bits, whatever the memory held. |
| Sha256.Context.Expand | titan_v14/sw/callwhite_mcu/src/sha256.h:66-75 | The two loops fill the message schedule. |
| Sha256.Context.RunRounds | titan_v14/sw/callwhite_mcu/src/sha256.h:77-101 | The 64 turns over eight variables are the 64 rounds of the compression function. |
| Sha256.Context.Transform | titan_v14/sw/callwhite_mcu/src/sha256.h:60-112 | One block in place is one application of the compression function. |
| Sha256.Context.Update | titan_v14/sw/callwhite_mcu/src/sha256.h:139-149 | The byte loop leaves the context that feeding the bytes one by one specifies, with buflen below 64. |
| Sha256.Context.Final | titan_v14/sw/callwhite_mcu/src/sha256.h:157-194 | Finalisation writes the digest of what was fed and clears the context. |
| Sha256.Hash | titan_v14/sw/callwhite_mcu/src/sha256.h:202-207 | One-shot hashing writes the FIPS 180-4 digest. |
| Sha256.FeedStands | titan_v14/sw/callwhite_mcu/src/sha256.h:139-149 | After any input the context stands for the whole message: the hash of its complete blocks, the rest, and its length in bits modulo 2^64. |
| Sha256.FinishStands | titan_v14/sw/callwhite_mcu/src/sha256.h:157-185 | Padding in the buffer, in one block or two, gives the digest over the padded message of FIPS 180-4 section 5.1.1. |
| Sha256.StreamingIsStandard | titan_v14/sw/callwhite_mcu/src/sha256.h:139-194 | However a message is cut into update calls, the result is the compression function folded over the blocks of the padded message. |
| Sha256.LengthBytesSpell | titan_v14/sw/callwhite_mcu/src/sha256.h:177-184 | The eight length bytes spell the bit count, highest byte first. |
| AsconPermutation.SubstituteIsTable | titan_v14/sw/callwhite_mcu/src/spi_ascon.h:76-86 | The bit-sliced substitution sends each of the 64 columns through the S-box table of Ascon v1.2 section 2.6.2. |
| AsconPermutation.SpreadsAreSigmas | titan_v14/sw/callwhite_mcu/src/spi_ascon.h:88-94 | The shift pairs of the linear layer are the rotations of the standard. |
| AsconPermutation.SigmaInjective | titan_v14/sw/callwhite_mcu/src/spi_ascon.h:88-94 | Each word function of the linear layer is injective, for any pair of rotation distances. |
| AsconPermutation.SubstituteInjective | titan_v14/sw/callwhite_mcu/src/spi_ascon.h:76-86 | The substitution layer is injective. |
| AsconPermutation.PermuteInjective | titan_v14/sw/callwhite_mcu/src/spi_ascon.h:98-103 | The permutation never sends two states to one, for any number of rounds. |
| AsconPermutation.AsconState.RoundInPlace | titan_v14/sw/callwhite_mcu/src/spi_ascon.h:71-95 | One round in place is the round function: constant, substitution, diffusion. |
| AsconPermutation.AsconState.PermuteInPlace | titan_v14/sw/callwhite_mcu/src/spi_ascon.h:98-103 | The loop applies the last rounds, with their constants in order. |
| Ascon.Load64 | titan_v14/sw/callwhite_mcu/src/spi_ascon.h:108-113 | The loop loads eight bytes, highest first. |
| Ascon.Store64 | titan_v14/sw/callwhite_mcu/src/spi_ascon.h:115-120 | The loop stores a word, highest byte first, and nothing else. |
| Ascon.StoreLoad | titan_v14/sw/callwhite_mcu/src/spi_ascon.h:108-120 | Storing what was loaded gives the bytes back. |
| Ascon.LoadOfStore | titan_v14/sw/callwhite_mcu/src/spi_ascon.h:108-120 | Loading what was stored gives the word back. |
| Ascon.Initialize | titan_v14/sw/callwhite_mcu/src/spi_ascon.h:149-156 | The state set up from key and nonce. |
| Ascon.AbsorbData | titan_v14/sw/callwhite_mcu/src/spi_ascon.h:158-172 | The block loop and the padded last block take in the padded associated data; empty data is skipped. |
| Ascon.EncryptData | titan_v14/sw/callwhite_mcu/src/spi_ascon.h:175-189 | The block loop and the padded last block write the ciphertext of the standard and leave its final state. |
| Ascon.Finalize | titan_v14/sw/callwhite_mcu/src/spi_ascon.h:191-200 | The tag bytes. |
| Ascon.Encrypt128 | titan_v14/sw/callwhite_mcu/src/spi_ascon.h:137-201 | The whole encryption writes ciphertext and tag of Ascon-128 over the padded inputs, and touches nothing else. |
| AsconVectors.EmptyEncrypted | titan_v14/sw/callwhite_mcu/src/spi_ascon.h:137-201 | With key and nonce 00 to 0F and nothing to encrypt, the tag is E355159F292911F794CB1432A0103A8A. |
| AsconVectors.ByteEncrypted | titan_v14/sw/callwhite_mcu/src/spi_ascon.h:137-201 | With one zero byte of data and of plaintext, the ciphertext is BD and the tag 4102B707775C3C155AE497B43BF834E5. |
| AsconVectors.NineEncrypted | titan_v14/sw/callwhite_mcu/src/spi_ascon.h:137-201 | With the bytes 0 to 8 as data and as plaintext, two blocks each, ciphertext and tag are 3225026599BCD4FCC4 and E2222006C2A2294B855A474A7BC0C183. |
| Ascon.PrefixIff | titan_v14/sw/callwhite_mcu/src/spi_ascon.h:175-189 | Online and injective: for any two plaintexts, of any lengths, the ciphertexts agree up to a byte exactly if the plaintexts do. |
| Ascon.EncryptInjective | titan_v14/sw/callwhite_mcu/src/spi_ascon.h:137-201 | Under one key, nonce and associated data, equal ciphertexts come from equal plaintexts and have equal tags. |
| Ascon.DecryptIff | titan_v14/sw/callwhite_mcu/src/spi_ascon.h:137-201 | The decryption of the standard returns a plaintext exactly for the ciphertext and tag that the encryption makes of it. |
| Ascon.StartInjective | titan_v14/sw/callwhite_mcu/src/spi_ascon.h:149-173 | Under one key and the same associated data, the plaintext starts in the same state only for the same nonce. |
| SpiLink.Link.constructor | titan_v14/sw/callwhite_mcu/src/spi_ascon.h:58-64 | A link starts disabled, with a zero key and zero counters. |
| SpiLink.Link.EncryptFrame | titan_v14/sw/callwhite_mcu/src/spi_ascon.h:221-266 | An enabled link writes an encrypted frame and advances its 32-bit counter; a disabled link, or a payload over 64 bytes, gives a clear frame and leaves the counter. |
| SpiLink.Link.Init | titan_v14/sw/callwhite_mcu/src/spi_ascon.h:272-278 | Initialisation stores the key, zeroes both counters and enables the link. |
| SpiLink.Link.SwitchOff | titan_v14/sw/callwhite_mcu/src/spi_ascon.h:283 | Disabling clears the enabled flag and nothing else. |
| SpiLink.OpenIff | titan_v14/sw/callwhite_mcu/src/spi_ascon.h:203-266 | Reading a frame with the key yields counter, command and payload exactly for the frame that was made from them. |
| SpiLink.FrameLayout | titan_v14/sw/callwhite_mcu/src/spi_ascon.h:240-262 | A frame byte by byte: the counter, highest byte first, command, length, and what encrypting the payload with the first five bytes as associated data gives. |
| SpiLink.NonceBytes | titan_v14/sw/callwhite_mcu/src/spi_ascon.h:231-238 | The nonce is the key with the counter, highest byte first, folded into bytes 12 to 15. |
| SpiLink.NonceIff | titan_v14/sw/callwhite_mcu/src/spi_ascon.h:231-237 | Two counters give the same nonce exactly if they are equal. |
| SpiLink.RunOpens | titan_v14/sw/callwhite_mcu/src/spi_ascon.h:221-283 | In every run of frames, initialisations and disablings each encrypted frame opens, with the key of the last initialisation, to its request; its counter is the number of encrypted frames since then modulo 2^32. |
| SpiLink.NonceReuseIff | titan_v14/sw/callwhite_mcu/src/spi_ascon.h:221-283 | Two encrypted frames of a run under one key share a nonce exactly if the numbers of encrypted frames since their own last initialisations are equal modulo 2^32. |
| SpiLink.ReinitialisedReuses | titan_v14/sw/callwhite_mcu/src/spi_ascon.h:272-278 | The first frames after any two initialisations with one key share their nonce. |
| SpiLink.NoReuse | titan_v14/sw/callwhite_mcu/src/spi_ascon.h:221-283 | If no key is initialised twice, no nonce comes back under one key within 2^32 events. |
| AuditLog.Logger.constructor | titan_v14/sw/hidra_core/src/audit.rs:135-147 | A new logger has an empty log and a given random key. |
| AuditLog.Logger.Log | titan_v14/sw/hidra_core/src/audit.rs:150-192 | One call appends the chained entry and counts critical and fatal events; a log with room grows by one, a full one of n entries keeps the newest (n + 2) / 2, and what is kept is the end of the full history. |
| AuditLog.Logger.VerifyChain | titan_v14/sw/hidra_core/src/audit.rs:195-219 | The loop answers true exactly if every entry after the first carries the HMAC that the entry before it gives, and always for a log that the logger kept itself. |
| AuditLog.Logger.LastEntries | titan_v14/sw/hidra_core/src/audit.rs:232-235 | The last n entries, or all of them. |
| AuditLog.LogKeepsSound | titan_v14/sw/hidra_core/src/audit.rs:150-192 | Every call keeps: the log is the end of the full history, with exactly as many entries as the number of calls and the limit determine, and the counter counts the whole history. |
| AuditLog.RunVerifies | titan_v14/sw/hidra_core/src/audit.rs:150-219 | After every run, across rotations, the log verifies and records consecutive calls up to the newest, numbered up to next_seq - 1: all calls, or at least (max_entries + 2) / 2 and at most max_entries of them. |
| AuditLog.CountedIff | titan_v14/sw/hidra_core/src/audit.rs:80-97 | The events counted as critical are exactly authentication failures, replays, lost heartbeats, kills, tampering and anomalies. |
| AuditLog.KeptNext | titan_v14/sw/hidra_core/src/audit.rs:188-191 | The closed form for the number of entries kept: one call adds one, and a full log keeps the newer half. |
| AuditLog.MessageLayout | titan_v14/sw/hidra_core/src/audit.rs:163-168 | The HMAC covers the sequence number and the time, eight bytes each, lowest first, and then the event. |
| AuditLog.AgreeOrCollide | titan_v14/sw/hidra_core/src/audit.rs:195-219 | Two verifying logs of one length with the same last HMAC agree on all HMACs and, from index 1 on, on sequence, time and encoded event, or exhibit an HMAC collision. |
| AuditLog.VerifiesIffRechained | titan_v14/sw/hidra_core/src/audit.rs:195-219 | For every contents and every first HMAC exactly one log verifies: the one whose HMACs are computed anew along the chain. |
| AuditLog.RechainedVerifies | titan_v14/sw/hidra_core/src/audit.rs:195-219 | Any contents whatsoever, given HMACs computed along the chain, pass verify_chain. |
| AuditLog.TamperEvidentIff | titan_v14/sw/hidra_core/src/audit.rs:1-13 | Against a last HMAC kept elsewhere, and where no position of the two logs shows two inputs with one HMAC, exactly the logs that agree in this sense can stand in for a verifying log: severities and the first entry's content are not protected. verify_chain itself compares with no such HMAC. |
| AuditLog.DeletionDetectedIff | titan_v14/sw/hidra_core/src/audit.rs:1-13 | Deleting a stretch of entries and nothing else goes unnoticed exactly if entries remain on at most one side of it, or the HMACs at the gap collide. |
| FixedPoint.ClampIs | titan_v14/scripts/aegis/fixed_point.py:90-104 | Clamping lands in range and is the identity exactly on the range; saturation goes to the nearer bound, wrapping keeps the residue. |
| FixedPoint.SubUndoesAddIff | titan_v14/scripts/aegis/fixed_point.py:119-137 | Subtracting what was added gives the number back exactly if the sum was not saturated; with wrapping, always. |
| FixedPoint.ShiftAdd | titan_v14/scripts/aegis/fixed_point.py:184-186 | The shift-add loop is the product with the low bits of the multiplier, and the whole product if they are all its bits. |
| FixedPoint.Multiply | titan_v14/scripts/aegis/fixed_point.py:147-199 | Multiplication is the product truncated toward zero and clamped; operands of different formats are refused. |
| FixedPoint.TruncateIff | titan_v14/scripts/aegis/fixed_point.py:192-199 | Truncation is the one quotient between zero and the exact one and less than one away from it. |
| FixedPoint.MaskKeeps | titan_v14/scripts/aegis/fixed_point.py:188-190 | The double-width mask takes nothing away. |
| FixedPoint.GoldenMultiply | titan_v14/scripts/aegis/gen_mul_vectors.py:10-62 | The golden multiplier gives the 16-bit pattern of the same product, and flags overflow exactly if clamping changed it. |
| FixedPoint.Q88MulIsProduct | titan_v14/scripts/aegis/generate_esn_weights.py:49-53 | The multiplier of the weight generator is the same product at Q8.8. |
| FixedPoint.DotProduct | titan_v14/scripts/aegis/fixed_point.py:346-365 | The dot product is the fold of clamped sums of clamped products, or the source's error. |
| FixedPoint.DotError | titan_v14/scripts/aegis/fixed_point.py:346-365 | Without saturation a dot product of n terms is less than n units in the last place from the exact one. |
| FixedPoint.MultiplyFull | titan_v14/scripts/aegis/esn_fixedpoint.py:223-252 | The full multiplier is the product with the 16 low bits of the multiplier's magnitude. |
| FixedPoint.FullProductIff | titan_v14/scripts/aegis/esn_fixedpoint.py:223-252 | It is exact if and only if the multiplicand is zero or the multiplier's magnitude has at most 16 bits. |
| FixedPoint.MatVec | titan_v14/scripts/aegis/esn_fixedpoint.py:168-220 | Each row result is the accumulated sum shifted right once and clamped, zero weights skipped. |
| FixedPoint.RowError | titan_v14/scripts/aegis/esn_fixedpoint.py:168-220 | Without saturation a row result is less than one unit in the last place below the exact sum, however long the row. |
| EsnReservoir.MultiplyInterp | titan_v14/scripts/aegis/esn_fixedpoint.py:151-161 | The interpolation multiplier truncates the product toward zero. |
| EsnReservoir.TanhQ412 | titan_v14/scripts/aegis/esn_fixedpoint.py:111-148 | The lookup with interpolation computes the specified tanh of a Q4.12 input. |
| EsnReservoir.TanhInCell | titan_v14/scripts/aegis/esn_fixedpoint.py:124-148 | For any table within one, the value inside a cell lies between the two table entries. |
| EsnReservoir.TanhAtEntry | titan_v14/scripts/aegis/esn_fixedpoint.py:124-148 | At the inputs that belong to table entries the value is the entry. |
| EsnReservoir.TanhBounded | titan_v14/scripts/aegis/esn_fixedpoint.py:111-148 | For any table within one, the value stays within one. |
| EsnReservoir.TanhMonotone | titan_v14/scripts/aegis/esn_fixedpoint.py:111-148 | For a nondecreasing table within one the interpolated tanh is nondecreasing over all inputs, across cells and both cut-offs. |
| EsnReservoir.LeakyBetween | titan_v14/scripts/aegis/esn_fixedpoint.py:379-393 | With nonnegative weights that add up to 4096 the integrator lies between the old state and the value of tanh, is the old state without leak and the value of tanh with full leak. |
| EsnReservoir.LeakyBoundedIff | titan_v14/scripts/aegis/esn_fixedpoint.py:379-386 | The integrator keeps all states within one, for all states and activations within one, exactly if the magnitudes of its weights add up to at most 4096. |
| EsnReservoir.LeakWeightsSumIff | titan_v14/scripts/aegis/esn_fixedpoint.py:296-298 | With the rounding of a double subtraction, the two weights computed from a leak rate between 0 and 1 are nonnegative and add up to 4096 exactly if the leak rate and the rest of its rounded complement round to one weight, as they do unless the leak rate is within 2^-42 units of the middle between two weights; otherwise to 4095 or 4097. |
| EsnReservoir.LeakWeightsExceed | titan_v14/scripts/aegis/esn_fixedpoint.py:296-298 | A leak rate whose weights are 1 and 4096, and a neuron that then reaches 4097. |
| EsnReservoir.RoundIff | titan_v14/scripts/aegis/esn_fixedpoint.py:296-298 | Rounding gives the nearest integer, and of two nearest ones the even one, and nothing else does. |
| EsnReservoir.PreIs | titan_v14/scripts/aegis/esn_fixedpoint.py:364-380 | The sum before tanh is that of the exact input row and the exact recurrent row, each rounded down and cut to the format, and cut again. |
| EsnReservoir.PreError | titan_v14/scripts/aegis/esn_fixedpoint.py:364-380 | Where nothing is cut, it is less than two units in the last place below the exact sum of both rows. |
| EsnReservoir.NeuronBetween | titan_v14/scripts/aegis/esn_fixedpoint.py:382-405 | The next state of a neuron lies between its old state and tanh of the sum, and is the one or the other without leak or with full leak. |
| EsnReservoir.OverflowIff | titan_v14/scripts/aegis/esn_fixedpoint.py:400-403 | An overflow is counted exactly if the new state is at either end of the range and the sum before tanh is above 0.1 in magnitude. |
| EsnReservoir.EchoRun | titan_v14/scripts/aegis/esn_fixedpoint.py:339-407 | One neuron with unit weights and full leak answers with tanh of its input, and then with tanh of the next input and that answer. |
| EsnReservoir.NeuronStaysWithinOne | titan_v14/scripts/aegis/esn_fixedpoint.py:372-397 | With a table within one and weights whose magnitudes add up to at most 4096, the final saturation changes nothing and no overflow is counted. |
| EsnReservoir.EveryRunStaysWithinOne | titan_v14/scripts/aegis/esn_fixedpoint.py:339-407 | With a table within one and integrator weights whose magnitudes add up to at most 4096, in every run, for any matrices and inputs, every state stays in [-4096, 4096] and overflow_count stays 0. |
| EsnReservoir.FixedPointEsn.constructor | titan_v14/scripts/aegis/esn_fixedpoint.py:288-320 | A new network is in the zero state with no overflow counted. |
| EsnReservoir.FixedPointEsn.ResetState | titan_v14/scripts/aegis/esn_fixedpoint.py:334-337 | Reset zeroes the state and leaves the overflow count. |
| EsnReservoir.FixedPointEsn.UpdateState | titan_v14/scripts/aegis/esn_fixedpoint.py:339-402 | One update computes the next state of all neurons from the old one and adds the overflows. |
| SparseReservoir.BuildCsr | titan_v14/scripts/aegis/generate_esn_weights.py:77-86 | The loops store the nonzero weights of every row, row after row, with their columns and the row pointers. |
| SparseReservoir.ColumnsAre | titan_v14/scripts/aegis/generate_esn_weights.py:77-86 | The columns stored for a row go up and are exactly those of its nonzero weights, each with its weight. |
| SparseReservoir.SparseIsDense | titan_v14/scripts/aegis/generate_esn_weights.py:105-109 | The stored weights of a row give the same sum as the whole row. |
| SparseReservoir.DenseAccIs | titan_v14/scripts/aegis/generate_esn_weights.py:103-107 | The accumulator is the exact product of input weight and recurrent row with the input and all states. |
| SparseReservoir.TanhIsEntry | titan_v14/scripts/aegis/generate_esn_weights.py:41-47 | Every eight units of the input between -1024 and 1024 share a table entry; from there on the value is one. |
| SparseReservoir.TanhMonotone | titan_v14/scripts/aegis/generate_esn_weights.py:41-47 | For a nondecreasing table within one, tanh is nondecreasing over all inputs. |
| SparseReservoir.TanhOfIs | titan_v14/scripts/aegis/generate_esn_weights.py:109-118 | Tanh is taken of the accumulator divided by 256, rounded toward zero. |
| SparseReservoir.NeuronStaysWithinOne | titan_v14/scripts/aegis/generate_esn_weights.py:111-124 | A state within one moves part of the way to the value of tanh: it stays between the two, and no clamp changes anything. |
| SparseReservoir.NeuronAtEnds | titan_v14/scripts/aegis/generate_esn_weights.py:111-124 | Without leak the state stays, with full leak it becomes the value of tanh. |
| SparseReservoir.EveryRunStaysWithinOne | titan_v14/scripts/aegis/generate_esn_weights.py:92-129 | In every run every state stays in [-256, 256]. |
| SparseReservoir.AccumulatorFits | titan_v14/scripts/aegis/generate_esn_weights.py:103-109 | With at most 127 stored weights the accumulator fits a signed 32-bit word. |
| SparseReservoir.AccumulatorOverflows | titan_v14/scripts/aegis/generate_esn_weights.py:103-109 | With 128 stored weights it need not. |
| SparseReservoir.EveryRunFits | titan_v14/scripts/aegis/generate_esn_weights.py:92-129 | In every run of up to 127 neurons the accumulator fits after each stored weight of each row. |
| SparseReservoir.EveryStepFits | titan_v14/scripts/aegis/generate_esn_weights.py:92-129 | In every such run the whole accumulator of every neuron fits at the end of its row. |
| SparseReservoir.WordOfState | titan_v14/scripts/aegis/generate_esn_weights.py:32-33 | The words of the history are the states in two's complement. |
| SparseReservoir.Step | titan_v14/scripts/aegis/generate_esn_weights.py:100-126 | One step over the stored weights gives the state that the dense matrix gives. |
| SparseReservoir.GoldenReference | titan_v14/scripts/aegis/generate_esn_weights.py:92-129 | The reference history is that of the dense matrix, step for step. |

## Left out

- HKDF, HMAC-SHA256, X25519 and the post-quantum and AEAD crates: uninterpreted or absent; no secrecy claims are made.
- Zeroization, constant-time behaviour and wall-clock time.
- 64-bit counters of the ratchets and of the audit log (`message_number`, `next_seq`, `critical_count`): unbounded here; they would need 2^64 calls to wrap.
- `DhRatchetHeader` wire format, public-key and cache-size getters, the statistics and re-key warning of the sequence validator, CRC-16, and `SendRatchet`, which only forwards to `advance`.
- DoubleRatchetInPlace.DoubleRatchet.RatchetDecrypt: which of several oldest keys is thrown out depends on the hash map; the contract allows each of them.
- DoubleRatchetProtocol.Agreement: old-epoch duplicates, cache overflow across epochs and chains beyond 200 messages are excluded by its hypotheses; what they lead to is stated by `DuplicateIsHarmlessIff` and in DoubleRatchetForced and DoubleRatchetReplay, for the step at which it happens and the exchanges after it, not for every interleaving with messages sent before.
- CrcErrors.ThreeBitsUnnoticedIff: that no three wrong bits cancel in frames of at most 11454 bytes is not shown; it would take a search over all distances.
- SequenceWindow.SequenceValidator.Validate: the 64-bit window is modelled as its 64 bits rather than as an integer.
- CobsC.CobsDecode: `*out_len` is left unwritten by the C code on errors; the model returns 0 there. Input and output buffers do not overlap.
- Ascon.Encrypt128: plaintext and ciphertext buffers do not overlap; the source has no decryption, so the one used in `DecryptIff` is that of the standard.
- SpiLink: the receive counter is only stored by the source; there is no receiving side to model.
- AuditLog: the debug form of an event and HMAC-SHA256 are parameters; the display form of severities and the counters' getters are absent.
- FixedPoint: conversion from and to floats, `negate`, `abs_val`, `relu`, the sigmoid table and the binary and hex printers.
- EsnReservoir: weights, inputs and the tanh table are given as raw integers, so `math.tanh`, the quantisation of matrices and the readout are absent; `fp_tanh_q412` is modelled for Q4.12 inputs, the only ones it is called with here.
- EsnReservoir.LeakWeightsSumIff: of the floating-point operations only the rounding of `1.0 - leak_rate` is modelled, by its bound of 2^-54; scaling by 4096 is exact.
- Sha256Constants.RoundConstantsAreCubeRoots: that the numbers listed are the first 64 primes is not proved.
- SparseReservoir: random generation and scaling of the weights, and the VHDL and CSV writers.
- Hardware drivers, host tools, plots, statistics, co-simulation, and the remaining crates of the workspace.
