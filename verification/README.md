# A verified model of the Citadel protocol's ratchets and packet pipeline

This Dafny project models the parts of the Citadel workspace that keep two endpoints on common keys
and carry data between them, and proves what they guarantee. `dafny verify dfyconfig.toml` checks it.
Nothing was executed.

**Rekeying.** `Toolsets` is the sliding window of ratchet versions, indexed by wrapping 32-bit
subtraction. `SessionCrypto` is the container around it, with the update lock and the lagging usable
version. `RekeyModel` puts two endpoints on two FIFO streams and lets them send messages, start rekeys
and take deliveries in any order; each step does what the packet processors of `citadel_proto` do, and
`RekeyProcessors` says of every packet in every state what comes of it.
`RekeyInvariant`, `RekeyHandshake` and `RekeySteps` hold the phases of the handshake and show that
every step keeps to them. `RekeyTheorems` says how the two windows stand to each other, `RekeyStray`
follows the one packet that does not fit the phases, `RekeyRuns` states what holds over whole runs, and
`RekeyTies` and `RekeyTieOutcome` what becomes of two proposals that cross.

**Groups, waves, packets.** `GroupLayout` is the splitter and its configuration, `GroupReceivers` and
`GroupSenders` are the two ends of a group, `GroupReassembly`, `GroupTheorems`, `GroupGaps` and, for both
ends together, `GroupDialogue` the results about them. `FileTransfer` puts a whole file together.
`Streaming` cuts a source into groups and reserves their identifiers, `Nonces` is the pairing of wave and
group, `SessionNonces` the numbers of all waves of a session, `PacketVectors` the mapping to ports. `Arith`, `Finite`, `Bytes` and `Words` are the arithmetic underneath.

**Protection and keys.** `AntiReplay` is the packet-identifier history, `Layers` and `LayerTheorems`
the stacked encryption of a packet, `KyberMode` the hybrid cipher with its in-place buffer, `KeyChain`
and `KeyAgreement` the derivation of keys and the exchange, `KeyBinding` what the keys commit to.
`SecurePackets` is the packet builder.

Ciphers, signatures, the key encapsulation, hashes and the serialisation of an entropy bank are
function values with the contract they are used under (`Correct`, `Faithful`, `Matched`, `Sound`; a
lemma beside each, `CorrectExists` and the like, gives values that meet it). Randomness is a parameter.

Some promises of the code turn out to hold under a condition, and the condition is proved exact:

- A rekey that lost a tie is answered with a TRUNCATE although nothing was transferred
  (`rekey_packet.rs:127-146`; the message path at `primary_group_packet.rs:319` does not do this). The
  initiator takes that TRUNCATE as the end of an update and its usable version runs past its newest.
  In every run both ends keep a usable ratchet (`UsableExactlyWithoutStrays`), and no step meets a fault
  (`FaultlessExactlyWithoutStrays`), if and only if no TRUNCATE reaches an endpoint that does not hold
  the lock as Bob. Until then every packet in flight can be deciphered; twelve steps lead to one that
  cannot (`StrayLeadsToUndecipherable`). `MessageRekeysAreClean` shows that rekeys which ride on messages
  never lead there.
- When two proposals cross, exactly one commits at both ends and it is the initiator's, if and only if no
  such TRUNCATE is already on its way to the initiator. In that case both ends have a usable ratchet
  afterwards if and only if the responder's proposal rode on a message (`TieCommitsInitiatorsProposal`).
- No two waves of a session share a nonce number while it takes at most 2^32 group identifiers. Beyond
  that two do, if identifiers 0 and 2^32 belong to transfers (`NoncesDistinctExactly`); with exactly one
  identifier more they do if and only if a wave of group 2^32 clashes with one before it
  (`NoncesAtTheBound`). Messages have no waves, so a session of messages alone never repeats a number.
- In-place decryption leaves its window, and panics, exactly on buffers whose decoded length exceeds a
  scrambled part of whole blocks (`DecryptInPlace`, `OverreachingBuffer`).
- The packet builder sums partition sizes in 32 bits and works exactly while they fit (`BuildPacket`).
- A group whose length is a multiple of a wave's never completes, at the receiver or in the sender's
  count of waves acknowledged once each; the receiver panics on any packet of its last wave but the first
  and the last (`WholeLastWaveOverflows`, `RecoveredExactly`, `AcksCompleteExactly`; `FileRecoveredExactly` for files).
- The sender counts an acknowledgement that comes again, so it may report completion early; the exact
  tally is `AcksTally`, and `RepeatedAckCompletes` gives a case. Told each wave once, as the receiver does,
  it completes when the receiver does (`BothEndsComplete`).
- A packet identifier is accepted a second time exactly in the window behind the history
  (`AcceptedExactly`, `InOrderReplayWindow`), and a packet when all its layers accept theirs
  (`TakenExactly`, `InOrderPacketReplay`).
- While a group is open `get_missing_waves` lists the outstanding waves if and only if wave 0 is not one
  of them (`MissingWavesExactly`, `FirstWaveOverlooked`).

## Model

| member | source | states |
|---|---|---|
| Toolsets.UpdatedContents | citadel_crypt/src/toolset.rs:94-139 | an update succeeds exactly for the successor version (wrapping) of the same client, and then adds that version, and nothing else, to what the window looks up |
| Toolsets.DeregisteredContents | citadel_crypt/src/toolset.rs:147-166 | deregistration succeeds exactly for the oldest version and above the capacity, and then removes that version and nothing else |
| Toolsets.RunRefinesStore | citadel_crypt/src/toolset.rs:94-166 | over every run of updates and deregistrations that fits 32 bits the deque answers every lookup as a version-to-ratchet map does, through wrap-around |
| Toolsets.WindowBounds | citadel_crypt/src/toolset.rs:210-225 | a version is found exactly when it lies in the window from oldest to most recent |
| Toolsets.InitialContents | citadel_crypt/src/toolset.rs:64-74 | a new window holds exactly its first ratchet |
| Toolsets.Toolset.constructor | citadel_crypt/src/toolset.rs:64-74 | builds the initial window |
| Toolsets.Toolset.FromRatchets | citadel_crypt/src/toolset.rs:262-276 | builds the window from an auxiliary ratchet and a first one |
| Toolsets.Toolset.AppendHyperRatchet | citadel_crypt/src/toolset.rs:124-139 | pushes in front and reports whether the window now needs truncation |
| Toolsets.Toolset.UpdateFrom | citadel_crypt/src/toolset.rs:94-121 | takes the next version or changes nothing |
| Toolsets.Toolset.DeregisterOldest | citadel_crypt/src/toolset.rs:147-166 | pops the back and advances the oldest version, or changes nothing |
| Toolsets.Toolset.GetHyperRatchet | citadel_crypt/src/toolset.rs:210-225 | looks up by wrapping distance from the newest version |
| SessionCrypto.PeerSessionCrypto.constructor | citadel_crypt/src/endpoint_crypto_container.rs:37-47 | the state of a new session |
| SessionCrypto.PeerSessionCrypto.GetHyperRatchet | citadel_crypt/src/endpoint_crypto_container.rs:64-67 | a given version, or the usable one |
| SessionCrypto.PeerSessionCrypto.CommitNextHyperRatchetVersion | citadel_crypt/src/endpoint_crypto_container.rs:71-109 | commits a constructor as the next version and says what happened |
| SessionCrypto.PeerSessionCrypto.UpdateSyncSafe | citadel_crypt/src/endpoint_crypto_container.rs:120-163 | commits, or omits when this end wins the tie, and who holds the lock afterwards |
| SessionCrypto.PeerSessionCrypto.MaybeUnlock | citadel_crypt/src/endpoint_crypto_container.rs:167-190 | flips the flag exactly when the lock was set by the side asked for |
| SessionCrypto.PeerSessionCrypto.PostAliceStage1OrPostStage1Bob | citadel_crypt/src/endpoint_crypto_container.rs:194-196 | advances the usable version, wrapping |
| SessionCrypto.PeerSessionCrypto.DeregisterOldestHyperRatchet | citadel_crypt/src/endpoint_crypto_container.rs:112-117 | deregisters in the toolset and keeps the rest |
| SessionCrypto.PeerSessionCrypto.GetNextConstructor | citadel_crypt/src/endpoint_crypto_container.rs:212-228 | takes the lock as Alice if it is free and builds on the usable ratchet |
| SessionCrypto.PeerSessionCrypto.GetAndIncrementGroupId | citadel_crypt/src/endpoint_crypto_container.rs:199-202 | hands out consecutive identifiers, wrapping |
| RekeyHandshake.HandshakeDelivered | citadel_proto/src/proto/packet_processor/rekey_packet.rs:50-288 | in every phase of the handshake the next control packet is taken without fault and leads to the phase that follows, for both roles and with or without truncation |
| RekeyHandshake.ProposalWins | citadel_proto/src/proto/packet_processor/rekey_packet.rs:52-83 | a proposal that wins is committed by its receiver and answered with the transfer |
| RekeyHandshake.ProposalLoses | citadel_crypt/src/endpoint_crypto_container.rs:120-163 | the initiator omits the responder's proposal while its own is in flight, and commits nothing |
| RekeyHandshake.AnswerTaken | citadel_proto/src/proto/packet_processor/rekey_packet.rs:85-155 | the proposer commits the same ratchet, truncates if told to, unlocks now or waits for the acknowledgement, and sends back one TRUNCATE: a rekey's under the new version, a message's under that of the answer |
| RekeyHandshake.TruncationTaken | citadel_proto/src/proto/packet_processor/rekey_packet.rs:157-232 | the receiver drops the same version the proposer dropped, advances and unlocks |
| RekeyHandshake.AckTaken | citadel_proto/src/proto/packet_processor/rekey_packet.rs:234-288 | the acknowledgement finds the lock set and releases it |
| RekeyHandshake.UnlockedExactlyWhenMayPropose | citadel_crypt/src/endpoint_crypto_container.rs:212-228 | the flag is clear exactly in the phases where that end may start an update |
| RekeyProcessors.UnknownVersionDropped | citadel_proto/src/proto/packet_processor/rekey_packet.rs:36-43 | a packet is dropped without trace if and only if its version is not held |
| RekeyProcessors.OrphanReported | citadel_proto/src/proto/packet_processor/rekey_packet.rs:93-105 | an answer without constructor is reported exactly where one is needed, and changes no session state |
| RekeyProcessors.CommitReported | citadel_crypt/src/endpoint_crypto_container.rs:71-109 | commits on the window's own owner and version do not fail; only a status that carries no transfer counts as a failed one |
| RekeyProcessors.AnswerDropsItsConstructor | citadel_proto/src/proto/packet_processor/rekey_packet.rs:93-105 | an answer uses up the constructor it is for, whatever comes of it, and no other |
| RekeyProcessors.OmissionReleasesAlice | citadel_proto/src/proto/packet_processor/rekey_packet.rs:107-146 | told of an omission an end gives up the lock it took as Alice and no other, and answers a rekey with a TRUNCATE under its usable version |
| RekeyProcessors.TransferCommits | citadel_proto/src/proto/packet_processor/rekey_packet.rs:107-146 | in any state a transfer adds the ratchet made from the constructor, advances, and unlocks exactly a lock taken as Alice |
| RekeyProcessors.RefusedDeregistration | citadel_proto/src/proto/packet_processor/rekey_packet.rs:107-146 | if the deregistration asked for is refused the commit stays, but nothing is advanced or unlocked, and only the message path sends a TRUNCATE |
| RekeyProcessors.BareStatusIgnored | citadel_proto/src/proto/packet_processor/rekey_packet.rs:107-146 | a status without transfer changes nothing and is not answered |
| RekeyProcessors.EmptyAnswer | citadel_proto/src/proto/packet_processor/primary_group_packet.rs:257-346 | an acknowledgement without transfer leaves the session alone |
| RekeyProcessors.TruncateAlwaysAdvances | citadel_proto/src/proto/packet_processor/rekey_packet.rs:157-232 | a TRUNCATE advances the usable version and flips the flag in any state, drops the oldest version only where the window allows it, and is acknowledged only if it asked for that and a usable ratchet is left |
| RekeyProcessors.AckReleasesAlice | citadel_proto/src/proto/packet_processor/rekey_packet.rs:234-288 | an acknowledgement releases a lock taken as Alice and does nothing else |
| RekeyProcessors.RekeyProposedExactly | citadel_proto/src/proto/state_container.rs:1876-2016 | a rekey is proposed if and only if unlocked with a usable ratchet; without one the lock is taken all the same |
| RekeyProcessors.MessageSentExactly | citadel_proto/src/proto/state_container.rs:1575-1700 | a message goes out if and only if there is a usable ratchet, and carries a proposal if and only if unlocked |
| RekeyStray.StatusStep | citadel_proto/src/proto/packet_processor/primary_group_packet.rs:99-346 | every send, rekey and delivery except that of a stray TRUNCATE reports no fault and keeps the invariant of streams, windows and locks, with at most one stray TRUNCATE in flight set aside |
| RekeyRuns.InFlightPacketsDecipherable | citadel_crypt/src/endpoint_crypto_container.rs:71-228 | at every point of every run before a stray TRUNCATE is taken, each packet in flight names a version both ends hold, with the same key |
| RekeyRuns.FaultlessExactlyWithoutStrays | citadel_proto/src/proto/packet_processor/rekey_packet.rs:50-288 | over all runs: no step meets an unknown version, a failed commit or deregistration, a missing constructor or usable ratchet or an unlock of a clear flag, if and only if no stray TRUNCATE is taken |
| RekeyRuns.StrayLeadsToUndecipherable | citadel_proto/src/proto/packet_processor/rekey_packet.rs:127-232 | twelve concrete steps to a message under a version its receiver does not hold |
| RekeyRuns.UnlockedIsCurrent | citadel_crypt/src/endpoint_crypto_container.rs:120-228 | until a stray TRUNCATE is taken an unlocked end uses its newest version and keeps no constructor; the usable ratchet is there and no window exceeds the capacity by more than one |
| RekeyRuns.AnswerTruncates | citadel_proto/src/proto/packet_processor/rekey_packet.rs:105-128 | over whole runs, until a stray TRUNCATE is taken: whenever the answer to a proposal is delivered, its receiver gains one version and appends one TRUNCATE, under its new version if the proposal was a rekey and under the answer's if it rode on a message |
| RekeyRuns.QuietEndpointsAgree | citadel_crypt/src/endpoint_crypto_container.rs:120-228 | until a stray TRUNCATE is taken, with nothing in flight both ends hold the same versions and keys and both locks are clear |
| RekeyTies.StreamsDrain | citadel_proto/src/proto/packet_crafter.rs:938-1020 | deliveries alone empty both streams: answers to answers come to an end |
| RekeyTieOutcome.TieCommitsInitiatorsProposal | citadel_crypt/src/endpoint_crypto_container.rs:120-163 | when both ends have proposed, by either path, draining the streams in any order commits exactly one version at each end, made from the initiator's proposal, if and only if no TRUNCATE was on its way to the initiator; then both ends are usable if and only if the responder's proposal rode on a message |
| RekeyTieOutcome.TieBehindStray | citadel_proto/src/proto/packet_processor/rekey_packet.rs:127-146 | nine concrete steps to a tie with such a TRUNCATE ahead of it |
| RekeyStray.UsableExactlyWithoutStrays | citadel_proto/src/proto/packet_processor/rekey_packet.rs:85-232 | over all runs: both ends always have a usable ratchet if and only if no TRUNCATE is taken by an end that is not locked as Bob |
| RekeyStray.CrossingRekeysLoseTheUsableRatchet | citadel_proto/src/proto/packet_processor/rekey_packet.rs:127-146 | the concrete run of seven steps in which it goes wrong |
| RekeyStray.StrayArrives | citadel_proto/src/proto/packet_processor/rekey_packet.rs:157-232 | what the stray TRUNCATE does: the usable version moves one past the newest |
| RekeyStray.CleanRunsAreStrayFree | citadel_proto/src/proto/packet_processor/rekey_packet.rs:85-155 | runs without a delivered omission of a rekey have no stray TRUNCATE |
| RekeyStray.MessageRekeysAreClean | citadel_proto/src/proto/packet_processor/primary_group_packet.rs:257-346 | if the responder rekeys only along with messages, every run is clean |
| Nonces.PairBijection | citadel_crypt/src/scramble/crypt_splitter.rs:62-69 | wave and group pair to a number one to one and onto |
| Nonces.NonceFits | citadel_crypt/src/scramble/crypt_splitter.rs:62-69 | the number fits 64 bits exactly when both parts fit 32 |
| Nonces.NonceVersionsDistinct | citadel_crypt/src/scramble/crypt_splitter.rs:62-69 | below that bound different waves get different numbers |
| Nonces.NonceWraps | citadel_crypt/src/scramble/crypt_splitter.rs:62-69 | at the bound the first number comes up again |
| Streaming.GroupsPartitionSource | citadel_crypt/src/streaming_crypt_scrambler.rs:110-139 | the groups are as many as announced, carry consecutive identifiers and join to the source |
| Streaming.GroupAt | citadel_crypt/src/streaming_crypt_scrambler.rs:195-289 | where group k lies in the source |
| Streaming.ScrambleEncryptSource | citadel_crypt/src/streaming_crypt_scrambler.rs:84-139 | refuses exactly a group size over the limit, else starts at the first byte with the size given or the default |
| Streaming.AsyncCryptScrambler.constructor | citadel_crypt/src/streaming_crypt_scrambler.rs:122-139 | a scrambler with nothing read |
| Streaming.AsyncCryptScrambler.PollTask | citadel_crypt/src/streaming_crypt_scrambler.rs:195-217 | a finished encryption yields the next group, a pending or failed one changes nothing |
| Streaming.AsyncCryptScrambler.PollScrambleNextGroup | citadel_crypt/src/streaming_crypt_scrambler.rs:219-289 | what has been yielded is always a prefix of the groups, and at the end it joins to the source |
| Streaming.ReserveFileGroups | citadel_proto/src/proto/session.rs:1201-1233 | a transfer reserves as many identifiers as it has groups |
| Streaming.StartTransfer | citadel_proto/src/proto/session.rs:1201-1227 | a file request takes its first identifier even if the source is refused, and otherwise as many as the scrambler it starts has groups |
| Streaming.ReserveAll | citadel_proto/src/proto/session.rs:1201-1233 | handing out identifiers to any list of messages and transfers, refused ones among them, each starts where the ones before it end and so does the counter afterwards, modulo 2^64 |
| Streaming.RangesDisjoint | citadel_proto/src/proto/session.rs:1201-1233 | over any mix of transfers and messages the ranges reserved, before the counter wraps, do not meet |
| SessionNonces.WavesSent | citadel_crypt/src/streaming_crypt_scrambler.rs:195-289 | the waves counted for group k of a transfer are those cut from group k of its file |
| SessionNonces.NumberOfStart | citadel_crypt/src/streaming_crypt_scrambler.rs:195-289 | a wave's number is the one computed from the identifier its transfer was given |
| SessionNonces.WaveEncryptedUnderNumber | citadel_crypt/src/scramble/crypt_splitter.rs:262-307 | the packets sent for wave w of group k of a transfer are the slots of what the ratchet's cipher makes of that wave under the number of that place, with the identifier reserved for it |
| SessionNonces.NoNonceSharedInSession | citadel_crypt/src/scramble/crypt_splitter.rs:262-307 | while at most 2^32 identifiers are taken, any two different waves of a session are encrypted by calls with different nonce numbers |
| SessionNonces.NoncesDistinctExactly | citadel_crypt/src/scramble/crypt_splitter.rs:62-69 | that bound is exact where identifiers 0 and 2^32, once taken, belong to transfers |
| SessionNonces.NoncesAtTheBound | citadel_crypt/src/scramble/crypt_splitter.rs:62-69 | up to one identifier past the bound, whoever owns them, numbers are shared if and only if a wave w of group 2^32 meets the wave and group that pair to w |
| SessionNonces.LargeFileRepeatsNumber | citadel_crypt/src/scramble/crypt_splitter.rs:62-69 | a concrete transfer that repeats a number |
| GroupLayout.ConfigDescribes | citadel_crypt/src/scramble/crypt_splitter.rs:71-141 | the configuration gives the waves that are cut, the packets they need and the size of the last one, in all three branches |
| GroupLayout.PacketsCoverGroup | citadel_crypt/src/scramble/crypt_splitter.rs:183-307 | for every length and width the packets are numbered 0 up to packets_needed without gap, and all but the last are full |
| GroupLayout.EmittedIs | citadel_crypt/src/scramble/crypt_splitter.rs:262-307 | packet n carries slot n mod width of the ciphertext of wave n div width |
| GroupReceivers.GroupReceiver.constructor | citadel_crypt/src/scramble/crypt_splitter.rs:499-571 | one empty store for each wave, sized from the configuration |
| GroupReceivers.GroupReceiver.OnPacketReceived | citadel_crypt/src/scramble/crypt_splitter.rs:574-695 | the new state and the status, for every packet the source does not panic on |
| GroupReceivers.GroupReceiver.CopyOut | citadel_crypt/src/scramble/crypt_splitter.rs:638-653 | overwrites the wave's place in the slab and nothing else |
| GroupReceivers.InsertedExactly | citadel_crypt/src/scramble/crypt_splitter.rs:603-763 | of any packet: its place follows from its number alone, it is taken exactly if that place lies in the buffer and is long enough, and no other byte changes |
| GroupReceivers.GroupReceiver.GetMissingWaves | citadel_crypt/src/scramble/crypt_splitter.rs:698-725 | the unset flags from the lowest sequential wave to the last completed one |
| GroupReassembly.FirstArrival | citadel_crypt/src/scramble/crypt_splitter.rs:574-695 | a first arrival is in bounds, fills its slot or finishes its wave, and the state is again the one its set of packets determines |
| GroupReassembly.FullStore | citadel_crypt/src/scramble/crypt_splitter.rs:609-640 | once all packets of a wave are in, the bytes written are its ciphertext |
| GroupReassembly.EmptyExactly | citadel_crypt/src/scramble/crypt_splitter.rs:655-661 | no store is left exactly when every packet has arrived |
| GroupTheorems.Reassembles | citadel_crypt/src/scramble/crypt_splitter.rs:574-741 | in any order, with any repetitions: nothing panics, and the status of every arrival is the one its predecessors determine: a repetition, an insertion, the completion of its wave with that wave's last packet, or of the group with the last of all; the slab is then the plaintext |
| GroupDialogue.NamedExactly | citadel_crypt/src/scramble/crypt_splitter.rs:609-661 | the completions reported name every wave once its packets are all in, each once, and no other |
| GroupDialogue.BothEndsComplete | citadel_proto/src/proto/state_container.rs:1299-1405 | with every completed wave acknowledged, the sender reports the group complete at an acknowledgement if and only if the receiver reported it at that arrival |
| GroupTheorems.WholeGroupNeverCompletes | citadel_crypt/src/scramble/crypt_splitter.rs:99-125 | with a whole last wave no packets at all complete the group |
| GroupTheorems.WholeLastWaveOverflows | citadel_crypt/src/scramble/crypt_splitter.rs:516-536 | with a whole last wave, after any packets, a packet of that wave panics the receiver if and only if it is neither the wave's first nor its last |
| GroupTheorems.RecoveredExactly | citadel_crypt/src/scramble/crypt_splitter.rs:516-536 | once all packets have arrived the plaintext is recovered if and only if the length is not a multiple of a wave's |
| FileTransfer.FileRecoveredExactly | citadel_crypt/src/streaming_crypt_scrambler.rs:84-289 | a file whose groups all arrive, in any order and with repetitions, comes together if and only if neither the group size, where it is used, nor the last group is a multiple of a wave |
| FileTransfer.NoGroupWhole | citadel_crypt/src/streaming_crypt_scrambler.rs:110-139 | that condition in terms of file length and group size alone |
| GroupGaps.MissingWavesExactly | citadel_crypt/src/scramble/crypt_splitter.rs:663-725 | after any packets the slice is in bounds; while the group is open the answer is the outstanding waves if and only if wave 0 is not outstanding, and no answer at all if it is; of a complete group at most one wave is named |
| GroupGaps.FirstWaveOverlooked | citadel_crypt/src/scramble/crypt_splitter.rs:698-725 | a concrete reception in which wave 0 is outstanding and nothing is listed |
| GroupSenders.GroupSenderDevice.constructor | citadel_crypt/src/scramble/crypt_splitter.rs:811-823 | holds all packets, none sent or acknowledged |
| GroupSenders.GroupSenderDevice.GetNextPacket | citadel_crypt/src/scramble/crypt_splitter.rs:851-861 | hands out the next number and forgets it |
| GroupSenders.GroupSenderDevice.OnWaveTailAckReceived | citadel_crypt/src/scramble/crypt_splitter.rs:869-884 | frees the wave's numbers and counts its packets |
| GroupSenders.GroupSenderDevice.GetPacketsInWave | citadel_crypt/src/scramble/crypt_splitter.rs:908-915 | the packets the configuration gives the wave |
| GroupSenders.SendsInSequence | citadel_crypt/src/scramble/crypt_splitter.rs:851-861 | all packets leave once and in sequence, memory holds the rest, and then there are no more |
| GroupSenders.AckedPackets | citadel_crypt/src/scramble/crypt_splitter.rs:869-884 | after any acknowledgements, repeated or not, the count is the packets of the waves named, as often as they were named |
| GroupSenders.AcksTally | citadel_crypt/src/scramble/crypt_splitter.rs:869-884 | for any acknowledgements completion is reported exactly when the whole waves and last waves named add up to the packets needed |
| GroupSenders.AcksWithoutTheLast | citadel_crypt/src/scramble/crypt_splitter.rs:869-884 | if the last wave is never named, completion is reported exactly at as many acknowledgements as waves, and only when the last wave counts like the others or counts nothing |
| GroupSenders.RepeatedAckCompletes | citadel_crypt/src/scramble/crypt_splitter.rs:869-884 | three acknowledgements of wave 0 complete a group of three waves |
| GroupSenders.AcksCompleteExactly | citadel_crypt/src/scramble/crypt_splitter.rs:869-884 | each wave once, in any order: the handler reports completion exactly on the last, and never when the last wave is whole |
| GroupSenders.NothingHeld | citadel_crypt/src/scramble/crypt_splitter.rs:869-884 | with every wave acknowledged and the last one partial, no packet is left in memory |
| PacketVectors.Coordinates | citadel_crypt/src/packet_vector.rs:49-64 | finds the first entry with these ports, and nothing exactly when there is none |
| PacketVectors.VectorInverts | citadel_crypt/src/packet_vector.rs:27-64 | header fields give back the sequence number if and only if its wave index fits 32 bits |
| PacketVectors.VectorIsFound | citadel_crypt/src/packet_vector.rs:27-64 | what is written for a packet is found again, at the same place of a wave |
| PacketVectors.CreatePortMapping | citadel_crypt/src/misc.rs:64-83 | two permutations give a mapping without repeated pairs |
| AntiReplay.AntiReplayAttackContainer.GetNextPid | citadel_pqcrypto/src/replay_attack_container.rs:31-33 | consecutive identifiers, wrapping |
| AntiReplay.AntiReplayAttackContainer.OnPidReceived | citadel_pqcrypto/src/replay_attack_container.rs:38-74 | the verdict and the new history |
| AntiReplay.AntiReplayAttackContainer.HasTrackedPackets | citadel_pqcrypto/src/replay_attack_container.rs:76-78 | whether anything was sent or evicted |
| AntiReplay.AntiReplayAttackContainer.Reset | citadel_pqcrypto/src/replay_attack_container.rs:80-85 | back to the initial state |
| AntiReplay.HistoryRemembers | citadel_pqcrypto/src/replay_attack_container.rs:38-74 | after any arrivals, what arrived is exactly the held set and everything below the base |
| AntiReplay.AcceptedExactly | citadel_pqcrypto/src/replay_attack_container.rs:38-74 | a new identifier is never rejected; an old one is accepted exactly when it is not held and not more than the history length below the base |
| AntiReplay.NoReplayAmongFew | citadel_pqcrypto/src/replay_attack_container.rs:38-74 | while no more than 1024 identifiers have come, repetitions are all refused |
| AntiReplay.InOrderReplayWindow | citadel_pqcrypto/src/replay_attack_container.rs:38-74 | after k identifiers in order, p is accepted again if and only if p + 1024 < k <= p + 2048 |
| AntiReplay.OldestAcceptedTwice | citadel_pqcrypto/src/replay_attack_container.rs:38-74 | 1025 identifiers in order are enough |
| AntiReplay.RefusedForGood | citadel_pqcrypto/src/replay_attack_container.rs:38-74 | an identifier more than 1024 below the base is refused then and after any further arrivals |
| Layers.StackedRatchet.constructor | citadel_pqcrypto/src/lib.rs:250-258 | counters and histories of every layer start empty |
| Layers.StackedRatchet.ProtectMessagePacket | citadel_crypt/src/stacked_ratchet.rs:195-223 | an error exactly for a level without layer; else the header unchanged and the payload sealed by layers 0 to the level, each with its own identifier |
| Layers.StackedRatchet.ValidateMessagePacket | citadel_crypt/src/stacked_ratchet.rs:225-239 | the layers undone in reverse, stopping at the first that fails, and the histories afterwards |
| LayerTheorems.OpenedSealed | citadel_pqcrypto/src/lib.rs:559-628 | sealed layers open to the payload when every layer accepts its identifier |
| LayerTheorems.TakenExactly | citadel_pqcrypto/src/lib.rs:586-628 | whatever the histories, a packet opens to its payload if every one of its layers accepts its identifier, and fails otherwise |
| LayerTheorems.AnyOrderDelivery | citadel_crypt/src/stacked_ratchet.rs:209-239 | packets of any mix of levels, delivered in any order and after any repetitions, each open to their payload the first time |
| LayerTheorems.RepetitionRefused | citadel_pqcrypto/src/lib.rs:586-628 | up to 1024 different packets, however often delivered, a repeated packet is refused and changes no history |
| LayerTheorems.InOrderPacketReplay | citadel_pqcrypto/src/replay_attack_container.rs:38-74 | after k packets in order, of any levels, packet d is taken again if and only if in each of its layers between 1025 and 2048 packets have passed from d on |
| LayerTheorems.OneLevelReplay | citadel_pqcrypto/src/replay_attack_container.rs:38-74 | with one level throughout that is d + 1024 < k <= d + 2048 |
| KyberMode.InPlaceBuffer.constructor | citadel_pqcrypto/src/bytes_in_place.rs:12-20 | the window is the whole buffer |
| KyberMode.InPlaceBuffer.ExtendFromSlice | citadel_pqcrypto/src/bytes_in_place.rs:28-34 | buffer and window grow together |
| KyberMode.InPlaceBuffer.Truncate | citadel_pqcrypto/src/bytes_in_place.rs:36-40 | the window stays on the buffer if and only if the length asked for does not exceed it |
| KyberMode.SwapInPlace | citadel_pqcrypto/src/wire.rs:90-105 | moves byte k of a block on by entry k of the dictionary around 256, back when reversed, and refuses another length |
| KyberMode.SwapBlocks | citadel_pqcrypto/src/wire.rs:65-67 | shifts every block of the buffer |
| KyberMode.ScrambleInPlace | citadel_pqcrypto/src/wire.rs:55-70 | pads to whole blocks, also from nothing, and moves every byte on by the entry for its place in its block |
| KyberMode.PaddingIsLeast | citadel_pqcrypto/src/wire.rs:55-63 | the padding is the least that makes a positive number of whole blocks |
| KyberMode.ScramblesOneWay | citadel_pqcrypto/src/wire.rs:90-105 | dictionary and text determine the scrambled bytes |
| KyberMode.ZeroBlockReveals | citadel_pqcrypto/src/wire.rs:90-105 | a block of zeros scrambles to the dictionary |
| KyberMode.ScrambledBlockBindsDictionary | citadel_pqcrypto/src/wire.rs:90-105 | dictionaries that scramble one block alike are the same |
| KyberMode.DescrambleInPlace | citadel_pqcrypto/src/wire.rs:72-88 | refuses exactly a length that is not a multiple of a block, else moves every byte back by its entry |
| KyberMode.DescramblesToInput | citadel_pqcrypto/src/wire.rs:55-105 | descrambling and cutting gives back the input for every dictionary and padding |
| KyberMode.EncryptInPlace | citadel_pqcrypto/src/encryption.rs:130-180 | the buffer after signing, encrypting, scrambling, wrapping and the checksum |
| KyberMode.TakeLength | citadel_pqcrypto/src/encryption.rs:266-291 | reads and removes the length in the last eight bytes, or fails |
| KyberMode.DecryptInPlace | citadel_pqcrypto/src/encryption.rs:182-239 | panics exactly when the scrambled part is whole blocks, no shorter than a tag, and the decoded length exceeds it; otherwise succeeds exactly when every check does, and then leaves the text |
| KyberMode.OpenAndVerify | citadel_pqcrypto/src/encryption.rs:221-236 | opens the descrambled buffer and takes the text if the signature behind it verifies, in place |
| KyberMode.OverreachingBuffer | citadel_pqcrypto/src/encryption.rs:266-291 | a buffer with matching checksum on which the window is left |
| KyberMode.DecryptsToInput | citadel_pqcrypto/src/encryption.rs:130-239 | decryption undoes encryption for every text, header, nonce, dictionary and padding, and never leaves the window on what was encrypted |
| KyberMode.AcceptedIsSigned | citadel_pqcrypto/src/encryption.rs:182-239 | what is accepted has the right checksum, its descrambled body opens under the header, and the signature carried behind the text verifies for header and text |
| KeyAgreement.ExchangeAgrees | citadel_crypt/src/stacked_ratchet.rs:632-917 | Bob answers if and only if the level asked for matches the layers, and then both ends hold the same chains, keys and banks in opposite roles |
| KeyAgreement.RekeyAgrees | citadel_crypt/src/stacked_ratchet.rs:113-139 | a rekey between paired ends succeeds if and only if its level matches, and pairs them again (what it builds on: `RekeyedLayers`, `RekeyBindsPast`) |
| KeyAgreement.StayPaired | citadel_pqcrypto/src/lib.rs:305-485 | through any number of rekeys, by either side, some refused, the ends stay paired |
| KeyAgreement.TrafficDecrypts | citadel_pqcrypto/src/lib.rs:433-453 | after any rekeys, in symmetric and in Kyber mode, each end selects a module for sending and one for receiving, and what either seals the other opens, in every layer |
| KeyAgreement.FirstExchangePairs | citadel_crypt/src/stacked_ratchet.rs:632-917 | the first exchange, without a chain, pairs the ends (their keys: `FirstExchangeKeys`) |
| KeyBinding.XorByteBit | citadel_pqcrypto/src/lib.rs:333-349 | the exclusive or, bit by bit |
| KeyBinding.KeysBindChainAndSecret | citadel_pqcrypto/src/lib.rs:305-392 | equal keys mean equal chain value and equal shared secret, or two inputs derived from them that a hash maps to one digest |
| KeyBinding.FirstKeysBindSecret | citadel_pqcrypto/src/lib.rs:382-400 | the first two keys are the halves of the secret's digest: equal keys mean equal secrets or a collision |
| KeyBinding.ChainBindsKeys | citadel_pqcrypto/src/lib.rs:354-398 | equal chain values mean equal exclusive or of the two keys, or a collision |
| KeyBinding.NextChainsBind | citadel_crypt/src/stacked_ratchet.rs:113-139 | each layer goes on with its own keys; equal chain values for the next constructors mean equal chain values in every layer before, or a collision |
| KeyBinding.FirstExchangeKeys | citadel_crypt/src/stacked_ratchet.rs:632-917 | after a first exchange, in every layer and in the scramble layer, Alice's sending key followed by Bob's is the digest of the secret encapsulated for it, and the bank is the one Bob drew |
| KeyBinding.RekeyedLayers | citadel_crypt/src/stacked_ratchet.rs:113-139 | after a rekey every layer of both ends is derived from the layers before and the new secret, under the version agreed on, the end's own identifier and the entropy Bob drew |
| KeyBinding.RekeyBindsPast | citadel_crypt/src/stacked_ratchet.rs:113-139 | two rekeys of a layer with the same keys that yield the same keys had the same chain value in every layer and the same secret, or there is a collision at hand |
| KeyBinding.AcceptedAnswerOpens | citadel_crypt/src/stacked_ratchet.rs:632-917 | whatever answer comes, Alice finishes only if every bank opens under the key derived for Bob and the first and the scramble bank agree |
| SecurePackets.PartitionedSecBuffer.constructor | citadel_crypt/src/secure_buffer/partitioned_sec_buffer.rs:13-25 | an empty buffer of three partitions |
| SecurePackets.PartitionedSecBuffer.ReservePartition | citadel_crypt/src/secure_buffer/partitioned_sec_buffer.rs:28-101 | succeeds exactly in order and once, and appends the partition |
| SecurePackets.PartitionedSecBuffer.WritePartition | citadel_crypt/src/secure_buffer/partitioned_sec_buffer.rs:37-58 | fills the window of a partition and nothing else, exactly when its start fits 32 bits |
| SecurePackets.SecureMessagePacket.constructor | citadel_crypt/src/secure_buffer/sec_packet.rs:70-74 | the header reserved |
| SecurePackets.SecureMessagePacket.WritePayload | citadel_crypt/src/secure_buffer/sec_packet.rs:106-127 | appends length and payload, exactly at the first stage, with a header reserved and a length that fits 32 bits; refusal and overflow each have their exact condition |
| SecurePackets.SecureMessagePacket.WriteHeader | citadel_crypt/src/secure_buffer/sec_packet.rs:129-145 | fills the header in front, exactly at the second stage |
| SecurePackets.SecureMessagePacket.WritePayloadExtension | citadel_crypt/src/secure_buffer/sec_packet.rs:148-165 | appends the extension and gives the packet, exactly at the last stage, with header and payload written and together within 32 bits |
| SecurePackets.DecomposesAs | citadel_crypt/src/secure_buffer/sec_packet.rs:77-103 | length, payload and extension come apart as they were put together |
| SecurePackets.DecomposesExactly | citadel_crypt/src/secure_buffer/sec_packet.rs:77-103 | bytes come apart into a payload and an extension if and only if they are these two behind the payload's length |
| SecurePackets.MalformedExactly | citadel_crypt/src/secure_buffer/sec_packet.rs:77-103 | bytes are refused exactly if they are short of the length field or of what it announces |
| SecurePackets.BuildPacket | citadel_crypt/src/secure_buffer/sec_packet.rs:70-165 | a packet is built if and only if there is a header and header, length field and payload fit 32 bits, and behind its header it decomposes into payload and extension |

## Left out

- InFlightPacketsDecipherable: stated until a stray TRUNCATE is taken, because the code breaks it after one (`StrayLeadsToUndecipherable`); not shown to fail after every stray.
- UnlockedIsCurrent: stated until a stray TRUNCATE is taken, because the usable version runs past the newest with it.
- QuietEndpointsAgree: stated until a stray TRUNCATE is taken; what agreement is left afterwards is not described.
- TieCommitsInitiatorsProposal: stated for ties that arise before any stray TRUNCATE is taken.
- NoncesDistinctExactly: assumes that identifiers 0 and 2^32, once taken, belong to transfers, because only waves have numbers; for sessions past 2^32 + 1 identifiers in which one of them belongs to a message it says nothing.
- Reassembles: stated for groups of at most 2^32 waves, because the wave index goes into the header as 32 bits.
- BothEndsComplete: acknowledgements are taken in the order they were sent; groups whose last wave is whole, which complete at neither end with waves acknowledged once each, are left to other results (`WholeGroupNeverCompletes`, `AcksCompleteExactly`).
- TrafficDecrypts: of the hybrid module it follows the symmetric keys; the rest of that module is `KyberMode`.
- RekeyBindsPast: the two layers are taken to go in with the same two keys, because the digest is masked with them before it is hashed.
- DecryptInPlace: on an error or a panic the contents left behind are not specified.
- AnyOrderDelivery: stated for at most 2^64 packets on one ratchet, because the identifier counter wraps.
- BuildPacket: the closures that fill the windows are replaced by the bytes they write, and their errors are not modelled; a sum over 32 bits is reported as one outcome, whether the build checks it or wraps.
- Capacity of the window: the release value 128 is used, the debug value is not.
- Perfect-secrecy mode and its outbound queue (`state_container.rs:1505-1548`): best-effort mode is modelled.
- Message tickets: a header acknowledgement is matched by the number of the message, not by group identifier and virtual target.
- File transfers that hold on to one ratchet for the whole file, `refresh_state`, `new_debug`.
- Sessions between more than two endpoints, and UDP or other unordered streams for control packets.
- Group sizing in Kyber mode, where ciphertext lengths vary.
- Nonce bytes made from the nonce number by `EntropyBank::get_nonce`.
- Serialisation of key stores and ratchets, including the role restored on loading.
- Algorithms behind the primitives, and anything that follows from them being hard to break.
- Timers and the session queue (`session_queue_handler.rs`), timeouts and clocks.
- Header contents, object identifiers, transport, node discovery, accounts, persistence and the SDK.
