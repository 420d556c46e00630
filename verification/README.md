# Fabric Machine, verified

Fabric Machine is a Hyperledger Fabric peer that hands block validation to an FPGA. This project
models the parts of it on which correctness hangs and proves, in Dafny, what they promise: over all
inputs, all interleavings, all crash points and all orders in which maps are iterated and results
arrive. `dafny verify dfyconfig.toml` checks everything.

The files follow the program:

- `Mvcc`, `Validator`, `Serializability`, `Replay`, `Metadata`: multi-version validation of a block,
  the software and the hardware branch, the theorem that the commit is serializable, the passes
  around validation that make a stored block replayable, and private versions that catch up with
  their hashes.
- `Pipeline`: the commit pipeline as a state machine. A step is one lock-protected region of main, of
  a ledger goroutine or of a state goroutine, or one access to the err they share; a run is any
  sequence of enabled steps.
- `Recovery`: the serial commit path and the recovery at start, as a class whose fields are what is
  on disk and which may die after any disk write; `RecoveryModes` compares it with parallel commit.
- `CommitHash`: the chain of commit hashes, for an arbitrary hash function.
- `Wire`, `WireOrder`: the hand-written protobuf walker, against message trees of varint and
  length-delimited fields (Protocol Buffers Encoding, "Base 128 Varints" and "Message Structure").
- `CertificateCache`, `LoadedTable`, `Packets`, `Annotations`, `TxPackets`, `FieldOrder`,
  `BlockDeliver`: the identity cache and the ids of a loaded table, annotations and locators, stripping and correction, what the order of fields does
  to them, and the packets of a block with the receiver that puts the block together again. A slice
  out of bounds, which panics in Go, is a result without a value.
- `Layout`, `Handshake`: the 401-bit result layout and the reading of 13 registers while the hardware
  may load the next result. The hardware's timing is an arbitrary function from accesses to bool.
- `TxMerge`, `Reconcile`: merging transaction results, and private data of old blocks.
- `Scheduler`: the bounded window of the simulator's vscc stage.
- `LedgerCreation`: creating a ledger, and recovering a creation cut short.

Where the program does not do what its comments or its design promise, the model follows the program.
The main cases, each with the exact condition under which it does:

- The hardware branch takes flags by position among the transactions that were kept, not by index in
  the block (`Validator.HardwareAgreesIffNothingValidPastGap`).
- Parallel commit can panic in three ways, and no other (`Pipeline.PanicsIff`): the gate before
  validation is bypassed with hardware on and the software state database off; it reads a nil
  savepoint before the genesis block is in place, which only a direct call of CommitLegacy gets to,
  since Create commits the genesis block serially; and both goroutines of a block assign one variable
  err, so that a block refused by the block store, when the private data store is ahead, makes the
  state goroutine panic (`Pipeline.SharedErrPanics`).
- If the private data store starts ahead of the block store, the next block waits for it for ever and
  no block is stored any more (`Pipeline.StoreGrowsIffPvtNotAhead`).
- A peer that commits in parallel can die in a state that recovery refuses to open
  (`RecoveryModes.EveryCrashReopensIffSerial`).
- The identity cache does not recognise an identity under id 0, which is the first id that
  loadIdentityTable hands out (`CertificateCache.InsertKeepsBijectiveIff`), and serializeCertificate
  lays out lengths for ordinary sizes only (`CertificateCache.SerializesIdentityIff`).
- Ids of more than 16 bits are cut: the 257th certificate of a role in an organization is sent as the
  first (`LoadedTable.CrowdedAliases`, `LoadedTable.LoadedIdsFitIffFew`,
  `Packets.PacketRoundTripIffNarrow`).
- A transaction whose action carries its payload in front of its header makes the sender panic; the
  action is a bytes field that the client serializes (`TxPackets.GeneratedWellPlacedIff`,
  `FieldOrder.SendableIffHeaderFirst`). So does a transaction without endorsements
  (`Annotations.GenerateTransactionAnnotation`).
- The pointer TX_ACTION is corrected in its offset and not in its length, and ends beyond the action
  (`TxPackets.TxActionLeadsIff`); TX_START is never corrected (`TxPackets.TxStartMissesByRemoved`);
  more than eight endorsers overwrite the wrong entry (`TxPackets.EndorserCount`).
- A duplicate chaincode upgrade still supersedes the valid one (`TxMerge.NoUpgradeValidIff`).
- A creation that dies between the private data store and the block store makes its channel one that
  can never be created (`LedgerCreation.CreationCutShort`, `LedgerCreation.BarredForever`).
- Creating another ledger after a failed creation overwrites the flag of the first, which is then
  never listed (`LedgerCreation.OverwrittenFlagSoundIff`, `LedgerCreation.OverwrittenFlagLosesLedger`).

A fact about the format of commit hashes, not a defect: the preimage ends with the previous hash
without a length, so at different heights equal hashes need no collision if updates end with a hash
(`CommitHash.EqualHashesOtherHeight`, `CommitHash.CutChainAgrees`). Whether the serializer of update
batches can emit such bytes is not part of this model.

Contracts of code that is not part of this model, taken from how it is used: applyWriteSet is a point
overlay, Exists and Contains are membership with deletes included, ApplyPrivacyAwareUpdates writes state
and savepoint atomically, a commit to the private data store makes its height one more than the block,
and the block store appends only the block whose number is its height. While the process lives, the
block store may fail before its write and, for `LedgerCreation.OverwrittenFlagLosesLedger` alone,
behind it; every later failure of a serial commit is a panic. Hash functions are parameters.

## Model

| member | source | states |
|---|---|---|
| Mvcc.VerdictIsValid | v2.2/core/ledger/kvledger/txmgmt/validation/validator.go:196-224 | A transaction is VALID exactly when every read, range scan and hashed read of every name space is current. |
| Validator.StateValidator.ValidateReadSet | v2.2/core/ledger/kvledger/txmgmt/validation/validator.go:229-236 | True exactly when every public read still has its recorded version and no earlier valid write of the block touches its key. |
| Validator.StateValidator.ValidateKVRead | v2.2/core/ledger/kvledger/txmgmt/validation/validator.go:241-260 | A read is current iff its key is not in the batch, deletes included, and the committed version is the recorded one; the hashed form (330-346) is the same check. |
| Validator.StateValidator.ValidateRangeQueries | v2.2/core/ledger/kvledger/txmgmt/validation/validator.go:263-275 | True exactly when re-running every scan over state and batch gives the recorded pairs, no more and no fewer. |
| Validator.StateValidator.ValidateNsHashedReadSets | v2.2/core/ledger/kvledger/txmgmt/validation/validator.go:307-315 | True exactly when every hashed private read of every collection is current. |
| Validator.StateValidator.ValidateTx | v2.2/core/ledger/kvledger/txmgmt/validation/validator.go:196-224 | The code of the first conflict, in the order reads, scans, hashed reads, name space by name space. |
| Validator.StateValidator.ValidateAndPrepareBatch | v2.2/core/ledger/kvledger/txmgmt/validation/validator.go:112-141 | Codes written into the transactions and the returned batch are those of the reference definition, in which each verdict depends on the writes of the valid transactions before it. |
| Validator.StateValidator.PrepareHardwareBatch | v2.2/core/ledger/kvledger/txmgmt/validation/validator.go:142-179 | Codes are the hardware flags by position; an invalid block, or a flag missing for a position, stops it and what was written until then is known. |
| Validator.StateValidator.PrepareBatch | v2.2/core/ledger/kvledger/txmgmt/validation/validator.go:104-179 | Which branch a block takes: software before the starting block or without hardware, hardware otherwise. |
| Validator.HardwareAgreesIffNothingValidPastGap | v2.2/core/ledger/kvledger/txmgmt/validation/validator.go:154-167 | With flags that match MVCC by index in the block, indexing them by position selects the same valid transactions iff nothing valid follows the first dropped transaction, that is, iff no flag from that place on is VALID; then the batches are equal. |
| Validator.FlagPastGap | v2.2/core/ledger/kvledger/txmgmt/validation/validator.go:154-159 | Past the first gap the flag picked for a position is never a valid one unless some later transaction was valid. |
| Validator.DroppedTransactionLosesWrites | v2.2/core/ledger/kvledger/txmgmt/validation/validator.go:155-163 | For every write set: drop the first of two transactions and the hardware branch loses all writes of the valid second one. |
| Serializability.BatchIsSerial | v2.2/core/ledger/kvledger/txmgmt/validation/validator.go:123-141 | Writing the one batch of a block equals applying the write sets of its VALID transactions one after the other. |
| Serializability.ChainVersions | v2.2/core/ledger/kvledger/txmgmt/validation/validator.go:133-134 | Along any chain every version in the state is older than the next block. |
| Serializability.LaterStatesOnlyNewer | v2.2/core/ledger/kvledger/txmgmt/validation/validator.go:133-134 | A later state holds for a key what an earlier one held, nothing, or something written since. |
| Serializability.VersionDeterminesValue | v2.2/core/ledger/kvledger/txmgmt/validation/validator.go:241-260 | Along the chain a version determines the value: equal versions in two states mean equal values. |
| Serializability.ValidSeesEndorsedValues | v2.2/core/ledger/kvledger/txmgmt/validation/validator.go:196-258 | A VALID transaction sees at its serial position exactly the values, and the ranges, that it was endorsed on, however many blocks lie in between. |
| Serializability.InvocationRepeats | v2.2/core/ledger/kvledger/txmgmt/validation/validator.go:196-258 | Invoked again at its serial position, a VALID transaction produces the write set it was endorsed with. |
| Serializability.CommitIsSerializable | v2.2/core/ledger/kvledger/txmgmt/validation/validator.go:104-141 | For every chain of endorsed transactions the committed state is that of re-executing the VALID invocations one by one in (block, index) order. |
| Replay.Preprocess | v1.4/core/ledger/kvledger/txmgmt/validator/valimpl/helper.go:99-183 | Keeps exactly the parsable transactions still flagged valid, flags the rejected ones, and fails exactly on an unflagged malformed one. |
| Replay.Postprocess | v1.4/core/ledger/kvledger/txmgmt/validator/valimpl/helper.go:225-231 | The filter holds each verdict at the index of its transaction and is otherwise as before. |
| Replay.ProcessBlock | v1.4/core/ledger/kvledger/txmgmt/validator/statebasedval/state_based_validator.go:113-191 | The three passes together give filter and update batch of the reference definition. |
| Replay.KeptDetermined | v1.4/core/ledger/kvledger/txmgmt/validator/valimpl/helper.go:108-131 | A filter that is valid at exactly the indices judged VALID makes preprocessing keep exactly those transactions. |
| Replay.ReplayEqualsOriginal | v1.4/core/ledger/kvledger/txmgmt/validator/valimpl/helper.go:225-231 | Replaying a stored block with MVCC off, against any state, cannot fail, leaves the filter as it is and gives the batch of the original MVCC pass. |
| Metadata.Validator.IncrementPvtdataVersionIfNeeded | v1.4/core/ledger/kvledger/txmgmt/validator/valimpl/helper.go:252-285 | For every order of the keys: an entry changes iff its latest value hashes to the hashed value under another version, and then gets that version. |
| Metadata.CatchUpAgreesIff | v1.4/core/ledger/kvledger/txmgmt/validator/valimpl/helper.go:258-283 | A key whose metadata was updated ends with the value and version of its hash iff the latest private value is the one hashed; otherwise the private state is as it would have been. |
| Pipeline.StepKeepsControl | v2.2/core/ledger/kvledger/kv_ledger.go:491-531 | Every step of main and of the two kinds of goroutine, the accesses to their shared err among them, keeps heights, queues and turns, whatever the accelerator answers. |
| Pipeline.StepKeepsContents | v2.2/core/ledger/kvledger/kv_ledger.go:491-531 | And every step keeps the state, the pending batch and the stored filters those of the serial commit. |
| Pipeline.EveryInterleavingKeepsStep | v2.2/core/ledger/kvledger/kv_ledger.go:491-531 | In every reachable state the block store is at most one ahead of the state and history at most one, and nothing has panicked unless a ledger goroutine can be refused by the block store. |
| Pipeline.EveryInterleavingIsSafe | v2.2/core/ledger/kvledger/kv_ledger.go:491-531 | In every reachable state, wherever the private data store starts, the block store is a prefix of the chain with serial flags and the state is that of the serial commit. |
| Pipeline.ValidateWaitsForCommit | v2.2/core/ledger/kvledger/txmgmt/txmgr/lockbased_txmgr.go:206-224 | The gate: validation of block n starts only when nothing is left in `current`, and sees the state after block n - 1. |
| Pipeline.StateJobWritesItsBlock | v2.2/core/ledger/kvledger/txmgmt/txmgr/lockbased_txmgr.go:533-603 | A state goroutine finds the batch of its own block in `current`. |
| Pipeline.StepShrinksRemaining | v2.2/core/ledger/kvledger/kv_ledger.go:582-632 | Every step uses up remaining work. |
| Pipeline.SomeStepEnabled | v2.2/core/ledger/kvledger/kv_ledger.go:582-632 | While work remains some goroutine can move, so neither spin loop can block for ever. |
| Pipeline.EveryRunFinishes | v2.2/core/ledger/kvledger/kv_ledger.go:491-531 | Every run takes at most eight steps per block and, unless everything is committed everywhere, can be continued. |
| Pipeline.BypassedGatePanics | v2.2/core/ledger/kvledger/txmgmt/txmgr/lockbased_txmgr.go:210-210 | With hardware on and no software state database the gate is bypassed and some interleaving panics. |
| Pipeline.NoGenesisPanics | v2.2/core/ledger/kvledger/txmgmt/txmgr/lockbased_txmgr.go:209-210 | From an empty ledger, parallel commit reaches block 1 before a savepoint exists. |
| Pipeline.SharedErrPanics | v2.2/core/ledger/kvledger/kv_ledger.go:492-508 | With the private data store ahead, the block at its height is refused by the block store; the error, in the variable that both goroutines of the block use, makes the state goroutine panic in some interleaving. |
| Pipeline.PanicsIff | v2.2/core/ledger/kvledger/kv_ledger.go:491-508 | Parallel commit can panic iff there are two blocks to commit and the gate is bypassed, or the genesis block is not in place, or the private data store is ahead and the chain gets to its height. |
| Pipeline.StoreGrowsIffPvtNotAhead | v2.2/core/ledger/kvledger/kv_ledger.go:588-597 | Some run appends a block iff the private data store is not ahead of the block store at start; otherwise the next block waits for ever. |
| Pipeline.StateOutrunsStore | v2.2/core/ledger/kvledger/kv_ledger.go:492-508 | The state can hold all remaining blocks while the block store has none of them. |
| PipelineSerializability.ParallelCommitIsSerializable | v2.2/core/ledger/kvledger/kv_ledger.go:491-531 | A finished parallel run leaves the state of the serial re-execution and the filters of serial validation. |
| Recovery.KvLedger.CommitToPvtAndBlockStore | v2.2/core/ledger/kvledger/kv_ledger.go:582-632 | Both stores or, at a crash, exactly the writes that were made; spins iff the private data store is at another height. |
| Recovery.KvLedger.CommitLegacy | v2.2/core/ledger/kvledger/kv_ledger.go:447-558 | Serial commit: outcome and stores for every number of disk writes the process survives; state and history are never ahead of the block store. |
| Recovery.KvLedger.ShouldRecover | v2.2/core/ledger/kvledger/txmgmt/txmgr/lockbased_txmgr.go:618-627 | Whether a database lags behind the block store, and the first block it misses. |
| Recovery.KvLedger.RecommitInto | v2.2/core/ledger/kvledger/kv_ledger.go:338-354 | Replays the blocks of a range into one database, each once and in order, and touches nothing else. |
| Recovery.KvLedger.RecommitIntoBoth | v2.2/core/ledger/kvledger/kv_ledger.go:338-354 | The same into both databases, block by block. |
| Recovery.KvLedger.SyncDatabases | v2.2/core/ledger/kvledger/kv_ledger.go:234-293 | On success both databases equal the fold of the stored chain and every block has been applied to the state once, in order; a database ahead of a non-empty block store is refused; a crash leaves a state from which it can run again. |
| Recovery.CrashAndReopen | v2.2/core/ledger/kvledger/kv_ledger.go:510-531 | Crash after any number of disk writes of a commit, reopen: both databases equal the fold of the block store, each block applied once; the next commit can go on unless the crash fell between the two store writes. |
| Recovery.EveryRunReopens | v2.2/core/ledger/kvledger/kv_ledger.go:234-293 | Over any sequence of commits and restarts, each dying after any number of disk writes, reopening included: no stored block is lost, no database gets ahead, every block is applied once and in order, and one restart left to finish brings both databases to the fold of the block store. |
| RecoveryModes.EveryCrashReopensIffSerial | v2.2/core/ledger/kvledger/kv_ledger.go:258-266 | A peer that dies anywhere in a run can be reopened in every case iff it commits serially. |
| RecoveryModes.MvccReplays | v2.2/core/ledger/kvledger/txmgmt/txmgr/lockbased_txmgr.go:635-650 | Validation with its passes obeys the replay law on which recovery rests. |
| CommitHash.PreimageEqualIff | v2.2/core/ledger/kvledger/kv_ledger.go:671-678 | Two preimages are equal iff the flags are, and updates with previous hash are as one string. |
| CommitHash.PreimageInjective | v2.2/core/ledger/kvledger/kv_ledger.go:671-678 | With previous hashes of one length the preimage determines flags, updates and previous hash. |
| CommitHash.HashPresentIff | v2.2/core/ledger/kvledger/kv_ledger.go:484-489 | A block gets a commit hash iff it follows the genesis block on a chain that held no other block without one. |
| CommitHash.EqualHashesEqualChains | v2.2/core/ledger/kvledger/kv_ledger.go:671-682 | Equal commit hashes at equal height: the same flags and updates in every block from 1 on, or it names a block whose two preimages differ and have one hash. |
| CommitHash.HashesEqualIff | v2.2/core/ledger/kvledger/kv_ledger.go:671-682 | Where no block of the two chains collides with its counterpart, the hashes are equal iff all flags and updates from block 1 on are. |
| CommitHash.EqualHashesOtherHeight | v2.2/core/ledger/kvledger/kv_ledger.go:671-682 | Equal hashes at different heights: it names two blocks that collide, or a block of the longer chain whose updates, with a hash behind them, are the updates of block 1 of the shorter. |
| CommitHash.CutChainAgrees | v2.2/core/ledger/kvledger/kv_ledger.go:674-680 | That second case does give equal hashes, for every chain and every place to cut it: the last field of the preimage has no length in front. |
| CommitHash.Ledger.AddBlockCommitHash | v2.2/core/ledger/kvledger/kv_ledger.go:671-682 | The new hash is that of length, flags, updates and previous hash, in memory and in the block. |
| CommitHash.Ledger.Commit | v2.2/core/ledger/kvledger/kv_ledger.go:484-489 | The store goes on with the hash chain; a block that is not stored still moves the hash in memory. |
| CommitHash.Ledger.Restart | v2.2/core/ledger/kvledger/kv_ledger.go:182-209 | Reopening at any height resumes the chain from the store. |
| Wire.ReadWrittenVarint | v2.2/fabricmachine/protocol/sproto.go:10-21 | Reading a written varint gives its value and length, whatever follows. |
| Wire.VarintPrefixFree | v2.2/fabricmachine/protocol/sproto.go:10-21 | What follows a varint is determined. |
| Wire.GetVarint | v2.2/fabricmachine/protocol/sproto.go:10-21 | The loop reads the varint of the data, with the wrap-around of 64-bit shifts. |
| Wire.ProtoGetFieldLength | v2.2/fabricmachine/protocol/sproto.go:24-38 | Field number, length and content position decoded from any two varints. |
| Wire.ReadField | v2.2/fabricmachine/protocol/sproto.go:24-38 | On an encoded field: its number, and the range of exactly its content. |
| Wire.FindsFirst | v2.2/fabricmachine/protocol/sproto.go:41-53 | The search result is the first field with the number, and none iff there is none. |
| Wire.ProtoSearchFieldPos | v2.2/fabricmachine/protocol/sproto.go:41-53 | Position and length of the first field with the number, -1 iff there is none; the scan ends. |
| Wire.LocateAt | v2.2/fabricmachine/protocol/sproto.go:56-66 | The located range holds exactly the content of the first-match descendant. |
| Wire.ProtoGetFieldPos | v2.2/fabricmachine/protocol/sproto.go:56-66 | For every message tree and path: the content range of the first-match descendant, -1 iff there is none. |
| WireOrder.LocateBefore | v2.2/fabricmachine/protocol/annotation.go:91-116 | In a message in field order, content on the smaller of two paths that part ends before content on the larger. |
| WireOrder.LocateDeeper | v2.2/fabricmachine/protocol/annotation.go:91-116 | A longer path leads further in, a byte or more per step. |
| CertificateCache.SerializesIdentityIff | v2.2/fabricmachine/protocol/certificate.go:39-50 | serializeCertificate gives the protobuf encoding of the identity iff the name is shorter than 128 bytes and the certificate has 128 to 16383. |
| CertificateCache.Cache.InsertCertificate | v2.2/fabricmachine/protocol/certificate.go:74-89 | The two maps and the result code after an insertion. |
| CertificateCache.Cache.RemoveCertificateFromCache | v2.2/fabricmachine/protocol/certificate.go:92-96 | The two maps after a removal. |
| CertificateCache.InsertKeepsBijectiveIff | v2.2/fabricmachine/protocol/certificate.go:74-89 | An insertion keeps the maps mutually inverse iff it does not re-insert an identity whose id is not positive under a fresh id. |
| CertificateCache.RemoveKeepsConsistent | v2.2/fabricmachine/protocol/certificate.go:92-96 | A removal keeps consistency and the inverse. |
| CertificateCache.EveryRunConsistent | v2.2/fabricmachine/protocol/certificate.go:53-96 | Over every sequence of insertions and removals, from any consistent cache, a cached identity is fetched back by its id; with positive ids mutually inverse maps stay so. |
| CertificateCache.LoadIdentityTable | v2.2/fabricmachine/protocol/config.go:22-41 | The ids handed out, in order: role, organization and running number of the role; and the cache after every readable certificate has been inserted under its id. |
| CertificateCache.LoadedIdsLeadBack | v2.2/fabricmachine/protocol/config.go:22-41 | In a table loaded from any configuration the id of every cached identity leads back to it. |
| LoadedTable.LoadedIdsFitIff | v2.2/fabricmachine/protocol/config.go:22-41 | For up to 16 organizations and 4 roles: the ids of the loaded table all fit an annotation iff every certificate whose id would have more than 16 bits repeats an earlier one. |
| LoadedTable.LoadedIdsFitIffFew | v2.2/fabricmachine/protocol/config.go:22-41 | With up to 256 readable certificates per role and organization they fit; in a table without repetitions only then. |
| LoadedTable.CrowdedAliases | v2.2/fabricmachine/protocol/annotation.go:299-303 | The 257th certificate of a role is cached under an id of 17 bits; a packet with its identity is sent with the id of the first and comes back with the identity of the first. |
| CertificateCache.IdsAreDistinct | v2.2/fabricmachine/protocol/certificate.go:23-26 | For up to 16 organizations and 4 roles all ids are different. |
| Packets.AdjustDataBasedOnLocator | v2.2/fabricmachine/protocol/annotation.go:280-315 | It gets through without a slice out of bounds iff the locators are disjoint, in packet order and inside the packet; then: payload without the located identities, and the list with ids in the locators and offsets corrected. |
| Packets.PacketRoundTripIffCached | v2.2/fabricmachine/protocol/annotation.go:280-315 | If the annotated identities are sent under ids of their own, putting the named identities back gives the packet byte for byte iff every one was cached, and never more bytes. |
| Packets.ComesBackIff | v2.2/fabricmachine/protocol/annotation.go:299-303 | A cached identity comes back as itself iff its id has 16 bits, the maps being mutually inverse. |
| Packets.PacketRoundTripIffNarrow | v2.2/fabricmachine/protocol/annotation.go:280-315 | Where every identity is cached and the 16 bits sent of its id name one, the packet comes back iff no id has more bits. |
| Packets.RangeMoves | v2.2/fabricmachine/protocol/annotation.go:280-315 | A range of which no locator removes a byte is found in the payload, all of it, at its offset less what was removed in front of it. |
| Packets.RangeFoundIff | v2.2/fabricmachine/protocol/annotation.go:280-315 | There is a fixed offset at which the payload has the range whatever the packet holds iff no locator removes a byte of it, and it is that offset. |
| Packets.PointerLeadsIff | v2.2/fabricmachine/protocol/annotation.go:305-308 | A corrected pointer has all bytes of its range in the payload, whatever the packet holds, iff no locator removes a byte of the range and the locators listed before the pointer remove as much as those placed before it. |
| Packets.SortedPointerLeads | v2.2/fabricmachine/protocol/annotation.go:305-308 | A pointer listed behind the locators placed before it, and before those placed behind its range, leads to all of its range. |
| Packets.EnclosingPointerOvershoots | v2.2/fabricmachine/protocol/annotation.go:305-308 | A pointer with locators in its range keeps its length: what followed the range starts that much before the end of the corrected range as they remove. |
| Packets.EnclosingPointerLeadsIff | v2.2/fabricmachine/protocol/annotation.go:305-308 | Such a pointer leads to all of its range, whatever the packet holds, iff the locators in it are empty. |
| Annotations.FirstEndorser | v2.2/fabricmachine/protocol/annotation.go:222-231 | The endorser path leads to the content of the first endorsement of the action. |
| Annotations.LocateEndorsers | v2.2/fabricmachine/protocol/annotation.go:229-246 | One locator per endorsement, up to eight, delimiting exactly its identity; the counter ends at the number of endorsements, or nine. |
| Annotations.AnnotateEndorsers | v2.2/fabricmachine/protocol/annotation.go:229-251 | The slots after it, unused ones inactive, and the count patched into the entry it hits. |
| Annotations.GenerateTransactionAnnotation | v2.2/fabricmachine/protocol/annotation.go:212-260 | It gets through iff there is an endorsement; then the whole list, for fields in any order: where each path of the table leads, or position -1 for one that leads nowhere. |
| TxPackets.TheTableIsTable | v2.2/fabricmachine/protocol/annotation.go:91-116 | The table of the program has the paths and kinds that the theorems are about. |
| TxPackets.GeneratedWellPlacedIff | v2.2/fabricmachine/protocol/annotation.go:212-260 | The locators of a generated list are disjoint and in packet order iff the creator ends in front of the creator of the action, and that one in front of the identity of the first endorsement. |
| TxPackets.SortedSendable | v2.2/fabricmachine/protocol/block_deliver.go:23-27 | With fields in number order a transaction in which the three locators lead somewhere can be sent. |
| FieldOrder.PayloadFirstFails | v2.2/fabricmachine/protocol/annotation.go:291-297 | An action with its payload in front of its header, which decodes to the same message, cannot be sent: a slice runs backwards. |
| FieldOrder.SendableIffHeaderFirst | v2.2/fabricmachine/protocol/annotation.go:291-297 | A transaction in both orders of its fields, for all identities: it can be sent iff the header of the action comes first. |
| TxPackets.EndorserCount | v2.2/fabricmachine/protocol/annotation.go:246-247 | Up to eight endorsements the ENDORSER entry holds their count; beyond, nine is written over the length of the read-write set. |
| TxPackets.EndorserEntryHitsTagIff | v2.2/fabricmachine/protocol/annotation.go:226-227 | The ENDORSER entry points at the tag of the first endorsement iff that takes two length bytes. |
| TxPackets.GetAnnotationActiveSize | v2.2/fabricmachine/protocol/annotation.go:318-328 | The number of active entries. |
| TxPackets.ActiveSizeIsNinePlusEndorsers | v2.2/fabricmachine/protocol/annotation.go:318-328 | Nine plus the number of endorsements, up to eight, are active. |
| TxPackets.SendTransaction | v2.2/fabricmachine/protocol/block_deliver.go:23-27 | Sends iff there is an endorsement and the locators are well placed; then the packet: corrected list, active size, stripped payload. |
| TxPackets.PointersKeepContent | v2.2/fabricmachine/protocol/annotation.go:280-315 | In a sent transaction the pointers to chaincode name, endorser action, read-write set (up to eight endorsements) and signature have in the payload exactly the content their paths lead to. |
| TxPackets.PointersKeepAddressing | v2.2/fabricmachine/protocol/annotation.go:280-315 | Every pointer but TX_START leads to the first byte it led to. |
| TxPackets.TxActionOvershoots | v2.2/fabricmachine/protocol/annotation.go:305-308 | TX_ACTION keeps its length although identities in its range are removed: what follows the action starts that much before the end of the pointer. |
| TxPackets.TxActionLeadsIff | v2.2/fabricmachine/protocol/annotation.go:305-308 | TX_ACTION leads to all of the action, whatever the packet holds, iff every identity in it is empty. |
| TxPackets.TxStartMissesByRemoved | v2.2/fabricmachine/protocol/annotation.go:91-93 | TX_START has the path of the signature and is off by all removed bytes. |
| BlockDeliver.FindTransactions | v2.2/fabricmachine/protocol/block_deliver.go:58-75 | Start and length of every transaction, in order, up to the end of the data field. |
| BlockDeliver.FindParts | v2.2/fabricmachine/protocol/block_deliver.go:44-79 | Header, transactions and metadata partition the serialized block. |
| BlockDeliver.SendBlockMeta | v2.2/fabricmachine/protocol/block_deliver.go:30-34 | Sends iff the orderer annotation lies inside the packet; then two annotations, the identity of the orderer stripped. |
| BlockDeliver.MetaPointerLeadsIff | v2.2/fabricmachine/protocol/annotation.go:262-277 | The pointer to the orderer signature leads to all of it iff the identity lies in front of it or is empty. |
| BlockDeliver.MetaPointerKeepsContent | v2.2/fabricmachine/protocol/annotation.go:262-277 | In metadata in number order it has in the payload exactly the signature. |
| BlockDeliver.AnnotateBlockId | v2.2/fabricmachine/protocol/annotation.go:189-205 | Start and length of the block-number entry, for every header. |
| BlockDeliver.BlockIdHoldsSecond | v2.2/fabricmachine/protocol/annotation.go:189-205 | The entry delimits the second varint of the first field of the header, which is the block number of every block but block 0. |
| BlockDeliver.SendBlock | v2.2/fabricmachine/protocol/block_deliver.go:37-90 | Gets through iff every transaction and the metadata can be sent; then the packets: header with its four annotations, transactions in order, metadata. |
| BlockDeliver.SortedBlockSendable | v2.2/fabricmachine/protocol/block_deliver.go:37-90 | A block whose transactions are in number order, with creator, action header and endorsements, and whose metadata is signed can be sent. |
| BlockDeliver.BlockRoundTripIffCached | v2.2/fabricmachine/protocol/block_deliver.go:37-90 | For every block that can be sent and whose identities are sent under ids of their own: the received packets, identities put back, join to the serialized block byte for byte iff every annotated identity was cached. |
| BlockDeliver.FittingBlockIdsPass | v2.2/fabricmachine/protocol/block_deliver.go:37-90 | Every block meets that if the ids of the cache fit. |
| Layout.HeadRoundTrip | v2.2/fabricmachine/api/regmap.go:98-116 | Block number, transaction count and valid bit come back from the 401-bit layout, whatever the padding holds. |
| Layout.LatencyRoundTripIff | v2.2/fabricmachine/api/regmap.go:139-144 | The latency comes back in nanoseconds iff it is below 2^61 clock periods; the source multiplies in int64. |
| Layout.FlagsRoundTrip | v2.2/fabricmachine/api/regmap.go:120-135 | Every transaction flag comes back. |
| Layout.GetTxsVldFlags | v2.2/fabricmachine/api/regmap.go:120-135 | The loops unpack bit k of the flag registers into flag k. |
| Handshake.FabricMachine.ReadResRegs | v2.2/fabricmachine/api/regmap.go:70-82 | The registers of a range, read from the most significant down, and the card after it. |
| Handshake.FabricMachine.GetBlockTxsVldFlags | v2.2/fabricmachine/api/api.go:58-72 | One code per reported transaction; fails iff more than 256 are reported. |
| Handshake.FabricMachine.GetBlockData | v2.2/fabricmachine/api/api.go:80-117 | The call as a function of the times at which the hardware is ready, for every number of tries. |
| Handshake.SweepQuiet | v2.2/fabricmachine/api/regmap.go:73-81 | While a register stays unread nothing is loaded and the words are of one result. |
| Handshake.CallNeverTears | v2.2/fabricmachine/api/api.go:80-117 | Wherever a load falls, a successful call returns the registers of the one block asked for and leaves the card ready for the next; a call that gives up can be repeated. |
| Handshake.CallEnds | v2.2/fabricmachine/api/api.go:95-98 | Once the hardware is ready, polling finds the block after a bounded number of looks. |
| Handshake.DataOfResult | v2.2/fabricmachine/api/api.go:109-115 | The returned fields are those of the result, the latency in nanoseconds iff it is below 2^61 clock periods; more than 256 transactions panic. |
| Handshake.EachBlockOnceInOrder | v2.2/fabricmachine/api/api.go:74-80 | Over any run of calls every block is delivered once, whole and in order. |
| Handshake.AscendingTears | v2.2/fabricmachine/api/regmap.go:73-76 | Read upwards, some timing joins the lower registers of one block with the number of the next. |
| Handshake.ReReadTears | v2.2/fabricmachine/api/api.go:77-79 | A block asked for again after it was read comes back, with some timing, with the flags of the next. |
| TxMerge.TxValidator.MarkTXIdDuplicates | v1.4/core/committer/txvalidator/validator.go:251-267 | Exactly the transactions that repeat an earlier id are flagged as duplicates. |
| TxMerge.TxValidator.InvalidateSuperseded | v1.4/core/committer/txvalidator/validator.go:533-556 | For every order of the map: exactly the upgrades with a later one of the same chaincode are version conflicts. |
| TxMerge.TxValidator.InvalidTXsForUpgradeCC | v1.4/core/committer/txvalidator/validator.go:528-571 | And exactly the still valid invocations of an upgraded chaincode. |
| TxMerge.TxValidator.AllValidated | v1.4/core/committer/txvalidator/validator.go:241-249 | The first transaction without a verdict, if there is one. |
| TxMerge.TxValidator.Validate | v1.4/core/committer/txvalidator/validator.go:171-235 | For every order of arrival: the error of the lowest failing index, else the first unvalidated transaction, else the flags. |
| TxMerge.OutcomeDetermined | v1.4/core/committer/txvalidator/validator.go:171-235 | The results alone determine the outcome. |
| TxMerge.NoSharedTxid | v1.4/core/committer/txvalidator/validator.go:213-215 | With the duplicate check on, no two valid transactions share an id. |
| TxMerge.NoValidInvokeOfUpgraded | v1.4/core/committer/txvalidator/validator.go:558-570 | No valid transaction invokes a chaincode upgraded in the block. |
| TxMerge.UpgradeValidIff | v1.4/core/committer/txvalidator/validator.go:528-571 | When an upgrade stays valid, exactly. |
| TxMerge.OneUpgradeValid | v1.4/core/committer/txvalidator/validator.go:533-556 | At most one upgrade of a chaincode stays valid. |
| TxMerge.NoUpgradeValidIff | v1.4/core/committer/txvalidator/validator.go:213-220 | A chaincode ends without a valid upgrade iff its last one repeats an id or invokes an upgraded chaincode: such a one still supersedes the others. |
| Reconcile.UniquePvtData.UpdateUsingPvtWrite | v2.2/core/ledger/kvledger/txmgmt/txmgr/lockbased_txmgr.go:363-376 | A write replaces the kept one iff its version is higher. |
| Reconcile.UniquePvtData.UpdateUsingBlockPvtdata | v2.2/core/ledger/kvledger/txmgmt/txmgr/lockbased_txmgr.go:316-361 | The writes of a block, transaction by transaction down to the key; fails iff a collection does not unmarshal. |
| Reconcile.UniquePvtData.ConstructUniquePvtData | v2.2/core/ledger/kvledger/txmgmt/txmgr/lockbased_txmgr.go:304-314 | For every order of the blocks each key keeps its write of highest version, the first in its block. |
| Reconcile.HighestDetermined | v2.2/core/ledger/kvledger/txmgmt/txmgr/lockbased_txmgr.go:304-376 | That property determines the map, so the order of the blocks does not count. |
| Reconcile.UniquePvtData.CheckIfPvtWriteIsStale | v2.2/core/ledger/kvledger/txmgmt/txmgr/lockbased_txmgr.go:415-471 | Whether a write is stale, and the version patched into one that matches by hash. |
| Reconcile.UniquePvtData.FindAndRemoveStalePvtData | v2.2/core/ledger/kvledger/txmgmt/txmgr/lockbased_txmgr.go:378-395 | For every order of the keys exactly the stale writes go. |
| Reconcile.ReconcileOldBlocks | v2.2/core/ledger/kvledger/txmgmt/txmgr/lockbased_txmgr.go:265-281 | From reconciled data to the update batch. |
| Reconcile.BatchAgreesWithHashes | v2.2/core/ledger/kvledger/txmgmt/txmgr/lockbased_txmgr.go:415-471 | A key gets into the batch iff its write of highest version agrees with the committed hash, and then carries the committed version; without a committed hash iff it is a delete. |
| Reconcile.BatchDetermined | v2.2/core/ledger/kvledger/txmgmt/txmgr/lockbased_txmgr.go:304-395 | One batch for every order of blocks and keys. |
| Scheduler.StepKeepsWindow | v2.2/scripts/fabric/fm_simulator.py:179-202 | Whatever completes: retired, in progress and yet to issue are contiguous, the window is at most as wide as there are threads, its head is unfinished, exactly the unfinished ones have a future, and the queue still holds the blocks behind. |
| Scheduler.StepShrinks | v2.2/scripts/fabric/fm_simulator.py:179-202 | With a thread every turn of the loop gets closer to the end. |
| Scheduler.EndedRunRetiresAll | v2.2/scripts/fabric/fm_simulator.py:168-206 | A run that has ended retired every transaction of the block once and in order, and took no transaction of the blocks behind it. |
| Scheduler.EndsIff | v2.2/scripts/fabric/fm_simulator.py:168-206 | There is a bound on all runs iff there is a thread or nothing to do. |
| Scheduler.CompleteOne | v2.2/scripts/fabric/fm_simulator.py:190-193 | Counting completions one by one, in any order, retires the same transactions as counting all and retiring once. |
| Scheduler.TxVscc.FinishTx | v2.2/scripts/fabric/fm_simulator.py:141-154 | The finished transactions at the front, and no other, leave. |
| Scheduler.TxVscc.HandleCompleted | v2.2/scripts/fabric/fm_simulator.py:188-194 | Any set of completed futures, in any order, is counted once each. |
| Scheduler.TxVscc.Run | v2.2/scripts/fabric/fm_simulator.py:168-206 | The loop ends with every transaction of the block retired in order, nothing outstanding, and the rest of the queue untouched. |
| Scheduler.TxVscc.RunSimulation | v2.2/scripts/fabric/fm_simulator.py:233-243 | Block after block from one queue: the transactions of all blocks, numbered through, retire once and in order. |
| LedgerCreation.Provider.Create | v2.2/core/ledger/kvledger/kv_ledger_provider.go:279-307 | The disk after a creation that dies after any number of writes, private data store and block store apart, and whether it waits for ever on the way. |
| LedgerCreation.Provider.RecoverUnderConstructionLedger | v2.2/core/ledger/kvledger/kv_ledger_provider.go:422-452 | The disk after a recovery that dies after any number of writes. |
| LedgerCreation.CreateSoundAtEveryCrash | v2.2/core/ledger/kvledger/kv_ledger_provider.go:279-307 | Listed ledgers always have metadata and their genesis block, and an unlisted one with a block is flagged. |
| LedgerCreation.RecoverySettles | v2.2/core/ledger/kvledger/kv_ledger_provider.go:422-452 | Recovery, itself cut short anywhere, loses no block; run to its end it clears the flag and a ledger is listed iff its genesis block is stored. |
| LedgerCreation.EveryRunRecovers | v2.2/core/ledger/kvledger/kv_ledger_provider.go:279-307 | The same over every run of creations and recoveries that starts a creation only when none is unfinished. |
| LedgerCreation.OverwrittenFlagSoundIff | v2.2/core/ledger/kvledger/kv_ledger_provider.go:301-304 | A creation started over the flag of a failed one keeps the disk sound iff the failed one had not stored its genesis block. |
| LedgerCreation.OverwrittenFlagLosesLedger | v2.2/core/ledger/kvledger/kv_ledger_provider.go:301-304 | If the block store can store a block and report an error, a run that gets there: a creation that fails so, and another one; whatever recoveries and creations of other ledgers follow, the first ledger has its block and is never listed. |
| LedgerCreation.CreatableIff | v2.2/core/ledger/kvledger/kv_ledger.go:587-597 | A channel that is not listed can be created iff its private data store is empty; else the commit of its genesis block waits for ever. |
| LedgerCreation.CreationCutShort | v2.2/core/ledger/kvledger/kv_ledger_provider.go:279-307 | A creation that dies after any of its writes, then a finished recovery: the ledger is listed iff its block was stored, the channel can be created again iff not even its private data was. |
| LedgerCreation.BarredForever | v2.2/core/ledger/kvledger/kv_ledger_provider.go:422-452 | Private data stored and no block: over every run of creations, its own included, and recoveries the channel is never listed. |

## Left out

- Validator.StateValidator.ValidateRangeQueries: does not model iterators, Merkle-hash validation or an empty end key; a scan is the map of the keys and versions it returned.
- Replay.ProcessBlock: does not model the hardware branch of the older validator, nor the private batch it prepares.
- Recovery.KvLedger.CommitLegacy: does not model hardware; the hardware branch would poll for results that are not sent again.
- Annotations.GenerateTransactionAnnotation: does not model transactions of 2^16 bytes or more; bytes that are no message where a path of the table goes through, as in a configuration transaction, whose block CheckMessageData (v2.2/fabricmachine/protocol/protocol.go:94-113) keeps from being sent; nor an endorsement that is not a message of two fields, such as one with an empty signature, behind which the walk reads the next one askew.
- Wire.ProtoGetFieldPos: does not model fixed-width wire types, which the walker does not handle, nor bytes that are no encoding of a tree.
- BlockDeliver.SendBlock: does not model which packets are out before a panic, nor the UDP transport behind it; nor configuration blocks, which its one caller filters out with block 0 (v2.2/fabricmachine/protocol/protocol.go:94-113, 186-194).
- TxPackets.SendTransaction: does not model configuration transactions, for the same reason.
- BlockDeliver.FindTransactions: does not model a data field that holds other fields than transactions, which proto.Marshal of a block never writes.
- Packets.PacketRoundTripIffCached: does not cover packets with an identity under an id of more than 16 bits (Packets.PacketRoundTripIffNarrow does), or one that is not cached while id 65535, the pattern for that, is in use.
- CertificateCache.LoadIdentityTable: does not model reading configuration and certificate files; it takes the role index and the file of each certificate.
- Handshake.FabricMachine.GetBlockData: does not model errors of the memory map; an unbounded call is given the number of looks after which the block is there.
- TxMerge.TxValidator.Validate: does not model validateTx itself; its results are inputs, in any order.
- Reconcile.ReconcileOldBlocks: does not model the purge manager, the bookkeeping of expiring keys and the write of the batch.
- Metadata.Validator.IncrementPvtdataVersionIfNeeded: does not model collecting the updated keys, nor the hash check of private data before it.
- CommitHash.Ledger.Commit: does not model the serialization of the update batch into bytes.
- Scheduler.TxVscc.Run: does not model time; which futures have completed at a wait is arbitrary. Its thread pool rejects zero threads before the loop starts.
- LedgerCreation.Provider.Create: does not model the state and history writes of the genesis block, which opening the ledger repeats (Recovery), blocks after it, nor the upgrade of the id store format.
- Pipeline.EveryInterleavingIsSafe: does not model crashes, which Recovery adds, nor errors of the stores other than the refusal of a block whose number is not the height.
- Range bounds, metadata merging inside applyWriteSet, custom transaction processors and the preloading cache for CouchDB.
- Signature, MSP and certificate checks.
- generateCertificateUpdateAnnotation: its loop never matches a case, so its annotations stay zero.
- PCIe mapping, gRPC, viper configuration, logging, metrics, SendToHardware, deliverBlocks, statistics scripts.
