# oneclient, modelled and proved in Dafny

A model of the five hardest parts of the oneclient file-system client, and proofs of what each of them, and two
of them together, promise. `dafny verify dfyconfig.toml` checks the whole project.

Each part has a pure state machine or a set of specification functions, lemmas about all inputs or all runs,
and the source's loops and objects written as methods and classes that are proved to do exactly what the
specification says.

| part | modules |
|---|---|
| Write-behind buffer and read-ahead cache of an open file | `FlatFile`, `WriteOrder`, `BufferModel`, `BufferProofs`, `BufferEffects`, `BufferOrder`, `OrderExactness`, `OvertakenWrite`, `BufferAgent`, `Multiwrite` |
| POSIX files over a key-value object store | `BlockStore`, `KeyScheme`, `KeyedObjects`, `KeyValueAdapter` |
| The buffering agent over that store | `StorageStack` |
| Macaroons: base64, packets, hash chain, wire form, verifier, tokens | `Base64`, `Base64Proofs`, `Base64Text`, `Base64Codec`, `Packet`, `Macaroon`, `MacaroonWire`, `MacaroonText`, `MacaroonCodec`, `Verifier`, `VerifierProofs`, `ChainIntegrity`, `VerifierEngine`, `Attenuation`, `Token` |
| Cache expiration wheel | `ExpirationModel`, `ExpirationProofs`, `ExpirationRuns`, `ExpirationHelper` |
| Event aggregation pipeline | `WriteEvents`, `EventPipeline`, `EventBatches`, `EventSystem`, `EventStream` |

## Main results

* **Buffering.** In every interleaving of agent calls, scheduled pushes, storage writes, completion callbacks
  (in two halves) and prefetch answers, with outstanding multiwrites overtaking each other, accepted bytes are
  acknowledged, pending or buffered, and a read returns a non-empty prefix of what landed in the storage, unless it is
  at the end of the file, and exactly as many bytes as the block that answers has. That is what the accepted writes
  amount to, and fsync and release leave all of them in the
  storage, whenever no push overlaps what an outstanding multiwrite has left; and exactly then the order in which the
  storage serves them is irrelevant.
* **Block storage.** Writing, truncating and reading block by block, with short and missing objects, refine the
  same operations on a flat file; other files are untouched; the first listed key gives the size.
* **Both together.** The block adapter writes block by block, a read-ahead may come out mixed, and each multiwrite
  keeps only its own order. Its reads still keep the contract the buffering agent relies on, the objects hold what
  landed, and every other file keeps its objects; so under the same condition on pushes read-your-writes and
  durability hold of the objects themselves.
* **Macaroons.** Everything that can be built survives serialization, and the token form of it; the verifier
  accepts exactly what a proof tree certifies, for every pool of discharges, and for macaroons as issued and
  prepared for a request exactly what their caveats allow, nested discharges and equal identifiers included; the
  in-place verifier computes that function. What verifies carries the signature of its own identifier and caveats;
  where the hash has no collision, nothing of that can be exchanged, and a discharge serves one root only. The parser
  takes exactly the texts that are a macaroon's packets in order.
* **Cache expiration.** Over every history, with ticks taken apart into their steps: where records are filed, when
  exactly a record is purged, what is never purged, and that pins are conserved.
* **Events.** The reports on a file, together with what is still buffered, amount to the aggregate of the events
  processed while there was a subscription; each report holds exactly the events up to the one that first reaches a
  live threshold; counts stay below live thresholds; unsubscribe handlers run at most
  once and find what they take back, whatever the interleaving of posts, removals and the worker.

## What the code does not do

Some natural statements are false of the code. The code is kept as it is; a lemma says exactly when the statement
holds and, where that does not show one, another gives an input.

* A multiwrite reports the bytes of its last buffer only, unless it broke off earlier
  (`Multiwrite.MultiwriteOutcome`, `Multiwrite.CountIsLost`).
* A write can be lost to an older one: a multiwrite posts its next buffer only when the one before is stored, so a
  newer multiwrite gets in between (`OrderExactness.OrderSafeExactly`, `OrderExactness.PushExactly`,
  `OvertakenWrite.OvertakenExample`, `StorageStack.StackOvertakenExample`). The example keeps to the order of the one
  worker's queue (src/cache/helpersCache.h:105).
* Keys of one file sort by block number only up to block 999999 (`KeyScheme.OrderExactlyUpToMax`).
* A read can leave the caller's bytes in the holes of a file; which ones depends on whether the storage helper
  zeroes the window of a missing object, as S3's does and Swift's does not (`BlockStore.ReadExactly`,
  `BlockStore.ShortBlockExample`, `BlockStore.MissingBlockExample`).
* The base64 reader also takes a stray `A` behind whole groups (`Base64Proofs.PtonExactly`, `Base64Proofs.StrayExample`).
* A zero byte in a packet header reads as the digit 16 (`Packet.HeaderExactly`, `Packet.ZeroByteReads`).
* A discharge that would do is not enough when a later one has the same identifier
  (`VerifierProofs.AcceptedExactly`, `Attenuation.AuthorisedExactly`, `Attenuation.EqualIdsExample`).
* A third-party caveat can be exchanged for a first-party one under the same signature, its predicate being the two
  hashes the signature is made of (`ChainIntegrity.TamperingIsRefused`, `ChainIntegrity.ExchangedExactly`).
* Re-encoding a decoded token gives it back exactly if it was canonical (`Token.ReencodesExactly`).
* A rename in the middle of a tick can leave its new key in the bucket being swept, behind the loop
  (`ExpirationProofs.StrandsExactly`, `ExpirationRuns.StrandedExample`).
* A rename in the middle of a tick to a key the loop has just visited trips an assertion
  (`ExpirationProofs.RenameAssertsExactly`, `ExpirationRuns.AssertionExample`).
* A write event may report an offset that a truncate cut off, once the file has grown past it again
  (`WriteEvents.StaleExactly`, `WriteEvents.StaleExample`).
* A threshold of zero is never above the count (`EventPipeline.ThresholdsExactly`).
* A subscription repeated while its removal is on the way stays registered without being fed
  (`EventSystem.FedExactly`, `EventSystem.LostSubscription`).

The recursive call in `wrapCallback` passes `++i` and uses `buffs[i]` among the arguments of one call
(helpers/include/helpers/IStorageHelper.h:276-278), whose order of evaluation C++ leaves open; the model takes the
reading under which each buffer is written once.

## Model

| member | source | states |
|---|---|---|
| `FlatFile.WriteConcat` | helpers/src/buffering/writeBuffer.h:214-227 | two adjacent writes are one longer write |
| `BufferProofs.AcceptReplays` | helpers/src/buffering/writeBuffer.h:77-103 | after a write is accepted, replaying the buffers is replaying the old ones and then writing; byte totals add up |
| `BufferProofs.CoalescingKeepsMeaning` | helpers/src/buffering/writeBuffer.h:77-103 | for every sequence of writes, replaying the coalesced buffers equals applying the writes one by one |
| `BufferProofs.PushKeeps` | helpers/src/buffering/writeBuffer.h:144-191 | issuing the buffers keeps the invariant and the file the caller sees |
| `BufferProofs.ApplyKeeps` | helpers/src/buffering/writeBuffer.h:184-191 | the storage taking the next buffer of any outstanding multiwrite keeps the invariant |
| `BufferProofs.AnyOrderKeeps` | helpers/include/helpers/IStorageHelper.h:255-289 | and the file the caller sees, if that buffer overlaps nothing that earlier multiwrites have left |
| `BufferProofs.ClearKeeps` | helpers/src/buffering/writeBuffer.h:159-174 | the first half of the completion callback keeps both |
| `BufferProofs.ConfirmKeeps` | helpers/src/buffering/writeBuffer.h:176-182 | the second half keeps both, and subtracts no more than is pending |
| `BufferProofs.CacheReadIsFresh` | helpers/src/buffering/readCache.h:37-87 | a cache that agrees with the file, or is about to be dropped, answers from the file and agrees with it afterwards |
| `BufferProofs.ReadIsFresh` | helpers/src/buffering/bufferAgent.h:100-117 | a read with nothing outstanding answers from the storage's file, which the cache then agrees with |
| `BufferProofs.StepKeeps` | helpers/src/buffering/bufferAgent.h:100-167 | every step keeps the invariant (a stale block implies a pending clear or outstanding bytes), changes the byte account by exactly its bytes, and the visible file by exactly its write, unless the storage takes a buffer before an older one that overlaps it |
| `BufferProofs.RunKeeps` | helpers/src/buffering/bufferAgent.h:100-167 | every run keeps the invariant and the byte account |
| `BufferProofs.RunLands` | helpers/src/buffering/writeBuffer.h:184-191 | every run leaves in the storage what landed there, in the order it landed |
| `BufferProofs.RunShows` | helpers/src/buffering/bufferAgent.h:100-167 | a run in which no buffer is taken before an older one that overlaps it shows exactly the accepted writes |
| `BufferProofs.Conservation` | helpers/src/buffering/writeBuffer.h:144-197 | bytes accepted = acknowledged + pending + buffered in every reachable state, and no confirmation underflows |
| `BufferProofs.ReadsWhatLanded` | helpers/src/buffering/bufferAgent.h:100-129 | in every run a read returns a prefix of what landed at its offset, and nothing only at end of file |
| `BufferProofs.ReadYourWrites` | helpers/src/buffering/bufferAgent.h:100-129 | in every such run a read returns a prefix of what all earlier writes leave at its offset, and nothing only at end of file |
| `BufferProofs.SyncIsDurable` | helpers/src/buffering/bufferAgent.h:144-167 | in every such run, when fsync or release returns, the storage's own file holds every accepted write |
| `BufferProofs.SyncLeavesWhatLanded` | helpers/src/buffering/bufferAgent.h:144-167 | in every run, when fsync or release returns, nothing is outstanding and the storage holds what landed |
| `BufferEffects.ReadAnswersExactly` | helpers/src/buffering/readCache.h:37-87 | the whole answer and cache of a read: all bytes asked for that the held block has, or else the prefetched one, or else those the storage gave; what is then held and prefetched; a cleared or expired cache is not looked at |
| `BufferEffects.ReadIsFull` | helpers/src/buffering/bufferAgent.h:100-117 | in every run, exactly that many bytes of what landed at the offset |
| `BufferEffects.ReadsOn` | helpers/src/buffering/readCache.h:75-87 | after an answer in full from the storage, the bytes behind it come from the read-ahead |
| `BufferEffects.ReadsOnAhead` | helpers/src/buffering/readCache.h:58-73 | and so do those behind a block that came from the read-ahead |
| `BufferEffects.WriteHoldsBack` | helpers/src/buffering/writeBuffer.h:77-103 | a write is held back until the buffered bytes exceed the threshold; then one multiwrite of exactly these bytes goes |
| `BufferEffects.CallsPush` | helpers/src/buffering/bufferAgent.h:131-167 | flush, sync and the scheduled push hand everything over; what they wait for, and which of them leave the cache cleared |
| `BufferEffects.RunCoalesces` | helpers/src/buffering/writeBuffer.h:89-92 | in every run, no buffer continues the one before it |
| `WriteOrder.MergeIsConcat` | helpers/include/helpers/IStorageHelper.h:255-289 | when no write of one multiwrite overlaps one of the other, every interleaving of the two leaves the same file |
| `WriteOrder.OrderExactly` | helpers/include/helpers/IStorageHelper.h:255-289 | the order between two multiwrites is irrelevant, for all bytes written to those ranges, iff no two of their ranges overlap |
| `BufferOrder.IssueOrderIsHarmless` | helpers/src/buffering/writeBuffer.h:184-191 | a storage that finishes multiwrites in issue order never takes a buffer before an older one that overlaps it |
| `BufferOrder.CarefulIsHarmless` | helpers/src/buffering/writeBuffer.h:144-191 | nor does any storage, if nothing is pushed that overlaps what an outstanding multiwrite has left |
| `BufferOrder.FlightStepIsChain` | helpers/include/helpers/IStorageHelper.h:255-281 | the next buffer of an outstanding multiwrite is the one its chain of callbacks writes next, whatever the others have made of the file |
| `BufferOrder.ServeFlight` | helpers/include/helpers/IStorageHelper.h:255-289 | the storage can serve any outstanding multiwrite to its end, without a break |
| `BufferOrder.ServedIsMultiwrite` | helpers/include/helpers/IStorageHelper.h:255-289 | which leaves the file the multiwrite's chain leaves |
| `BufferOrder.CarefulReadsYourWrites` | helpers/src/buffering/bufferAgent.h:100-129 | read-your-writes with multiwrites overtaking each other, when pushes are careful in that sense |
| `BufferOrder.CarefulSyncIsDurable` | helpers/src/buffering/bufferAgent.h:144-167 | and durability |
| `OrderExactness.OrderSafeExactly` | helpers/include/helpers/IStorageHelper.h:255-289 | for any outstanding multiwrites: every order of serving them leaves the same file, for all bytes they write, iff no two overlap in what they have left |
| `OrderExactness.CarelessEndsWrong` | helpers/include/helpers/IStorageHelper.h:255-289 | otherwise there are bytes and an order that leave another file |
| `OrderExactness.PushExactly` | helpers/src/buffering/writeBuffer.h:144-191 | a push keeps the order irrelevant iff it overlaps nothing an outstanding multiwrite has left |
| `OvertakenWrite.OvertakenExample` | helpers/src/buffering/writeBuffer.h:144-205 | a history of three writes and two pushes, everything confirmed, after which the file has lost the last write |
| `OvertakenWrite.OvertakenRead` | helpers/src/buffering/bufferAgent.h:100-117 | the read that follows answers the older byte |
| `BufferAgent.ReadCache.Clear` | helpers/src/buffering/readCache.h:89 | the next read will drop what is cached |
| `BufferAgent.ReadCache.Read` | helpers/src/buffering/readCache.h:37-87 | the cache and the answer are those of the specification's read, for hits, prefetches and misses |
| `BufferAgent.WriteBuffer.Emplace` | helpers/src/buffering/writeBuffer.h:207-212 | a new buffer opens behind the others |
| `BufferAgent.WriteBuffer.Append` | helpers/src/buffering/writeBuffer.h:214-227 | the last buffer grows by the bytes, the others stay |
| `BufferAgent.WriteBuffer.Queue` | helpers/src/buffering/writeBuffer.h:77-94 | the buffers and the buffered size after a write |
| `BufferAgent.WriteBuffer.PushBuffer` | helpers/src/buffering/writeBuffer.h:144-191 | the buffers leave as one multiwrite, if there are any bytes |
| `BufferAgent.BufferAgentCTX.PushIntoStorage` | helpers/src/buffering/writeBuffer.h:135-142 | the scheduled push is the model's push |
| `BufferAgent.BufferAgentCTX.WriteFile` | helpers/src/buffering/bufferAgent.h:119-129 | sh_write is the model's write step and reports every byte as written |
| `BufferAgent.BufferAgentCTX.Flush` | helpers/src/buffering/bufferAgent.h:131-142 | sh_flush up to its wait is the model's flush step |
| `BufferAgent.BufferAgentCTX.BeginSync` | helpers/src/buffering/writeBuffer.h:116-126 | fsync, release and read up to the wait push everything out |
| `BufferAgent.BufferAgentCTX.FinishSync` | helpers/src/buffering/bufferAgent.h:144-167 | the return from the wait is the model's step |
| `BufferAgent.BufferAgentCTX.FinishRead` | helpers/src/buffering/bufferAgent.h:100-117 | the answer comes from the file all earlier writes made, exactly as many bytes as the block that answers has |
| `BufferAgent.BufferAgentCTX.CallbackFirstHalf` | helpers/src/buffering/writeBuffer.h:159-174 | the callback's clearing of the read cache |
| `BufferAgent.BufferAgentCTX.CallbackSecondHalf` | helpers/src/buffering/writeBuffer.h:176-182 | the callback's confirmation |
| `Multiwrite.ChainFrom` | helpers/include/helpers/IStorageHelper.h:255-281 | what the chain of callbacks leaves in the file and reports, from any buffer on |
| `Multiwrite.StopsSomewhere` | helpers/include/helpers/IStorageHelper.h:255-281 | whatever the answers, there is a last write issued |
| `Multiwrite.MultiwriteOutcome` | helpers/include/helpers/IStorageHelper.h:255-289 | however the storage answers, exactly the issued writes land in order; the count is right iff the chain broke off before the last buffer or those before it are empty |
| `Multiwrite.FullMultiwrite` | helpers/include/helpers/IStorageHelper.h:283-289 | with everything stored, the file is as if the buffers were written in order, the count that of the last |
| `Multiwrite.CountIsLost` | helpers/include/helpers/IStorageHelper.h:261-262 | two stored buffers of two bytes are reported as two bytes |
| `BlockStore.IndexIsQuotient` | helpers/src/keyValueAdapter.cc:192-200 | dividing and subtracting finds the block and the offset within it |
| `BlockStore.PutBlock` | helpers/src/keyValueAdapter.cc:105-127 | a write inside one block is the flat write at the block's place |
| `BlockStore.NewBlockIsWrite` | helpers/src/keyValueAdapter.cc:109-125 | fetching a block into zeros, patching it and cutting it to size is a write within the block |
| `BlockStore.StoreChunksIsWrite` | helpers/src/keyValueAdapter.cc:89-138 | the loop over blocks is the flat write of the whole buffer and keeps object sizes |
| `BlockStore.CutBlocks` | helpers/src/keyValueAdapter.cc:161-181 | keeping the blocks below and cutting or padding the last is flat truncation |
| `BlockStore.FillBlocksIsReadInto` | helpers/src/keyValueAdapter.cc:48-87 | for storages that zero the window of a missing object and for those that do not: the read loop delivers every stored byte of the window and leaves the rest of the buffer alone |
| `BlockStore.ReadExactly` | helpers/src/keyValueAdapter.cc:48-87 | for both kinds of storage, the answer is the flat file's bytes iff the buffer was zero wherever its bytes are left alone |
| `BlockStore.ShortBlockExample` | helpers/src/swiftHelper.cc:80-101 | the hole of a short object shows the caller's byte, whatever the storage |
| `BlockStore.MissingBlockExample` | helpers/src/s3Helper.cc:57-62 | a missing object shows the caller's bytes, or zeros if the storage wipes |
| `KeyScheme.KeyRoundTrip` | helpers/src/keyValueHelper.h:51-66 | the id comes back out of its key, for every 64-bit id |
| `KeyScheme.AdjustedExactly` | helpers/src/keyValueHelper.h:123-127 | everything from the first character on that is no slash is kept, and a slash put behind it; there is no prefix iff there is no such character |
| `KeyScheme.OneTrimming` | helpers/src/keyValueHelper.h:123-127 | that rest is the only part of the path with only slashes in front of it and none at its start |
| `KeyScheme.SameFileExactly` | helpers/src/keyValueHelper.h:123-127 | two paths name the same file iff they agree behind their leading slashes |
| `KeyScheme.KeyInjective` | helpers/src/keyValueHelper.h:51-58 | keys are equal iff the paths agree behind their leading slashes and the ids are equal |
| `KeyScheme.KeysDecrease` | helpers/src/keyValueHelper.h:51-58 | up to 999999, keys of one file sort in strictly decreasing id order, both directions |
| `KeyScheme.OrderExactlyUpToMax` | helpers/src/keyValueHelper.h:51-58 | the order holds for all ids up to n iff n is at most 999999 |
| `KeyedObjects.ListedIffBlock` | helpers/src/s3Helper.cc:68-89 | the listing under a file's prefix is exactly its blocks' keys |
| `KeyedObjects.FirstKeyIsTop` | helpers/src/s3Helper.cc:85-88 | the first listed key is that of the last block, so it gives the file's size |
| `KeyedObjects.OtherFilesKept` | helpers/src/keyValueHelper.h:123-127 | files under other prefixes keep all their blocks |
| `KeyedObjects.OtherPathsKept` | helpers/src/keyValueAdapter.cc:89-190 | a change to the file of one path leaves that of every other which differs behind the leading slashes |
| `KeyedObjects.CutFile` | helpers/src/keyValueAdapter.cc:161-181 | rewriting the last kept block and deleting the keys behind it truncates this file and no other |
| `KeyedObjects.EmptyFile` | helpers/src/keyValueAdapter.cc:180-181 | deleting every key truncates to nothing |
| `KeyValueAdapter.PutChunksBlocks` | helpers/src/keyValueAdapter.cc:100-130 | under its keys, the write loop does to a file's blocks what the block store's loop does |
| `KeyValueAdapter.PutChunksOthers` | helpers/src/keyValueAdapter.cc:100-130 | the write loop touches no other file |
| `KeyValueAdapter.WriteRefinesFlat` | helpers/src/keyValueAdapter.cc:89-138 | the objects after a write read as the old file zero-extended to the offset with the buffer spliced in, size invariant kept |
| `KeyValueAdapter.Adapter.GetBlockId` | helpers/src/keyValueAdapter.cc:192-195 | the quotient is the block the offset falls in |
| `KeyValueAdapter.Adapter.GetBlockOffset` | helpers/src/keyValueAdapter.cc:197-200 | the remainder is the offset within it |
| `KeyValueAdapter.Adapter.GetBlock` | helpers/src/keyValueAdapter.cc:202-216 | the stored bytes of the range, none for a missing object |
| `KeyValueAdapter.Adapter.GetObjectsSize` | helpers/src/s3Helper.cc:68-89 | the size told by the first listed key is the size of the flat file |
| `KeyValueAdapter.Adapter.PutBlockObject` | helpers/src/keyValueAdapter.cc:105-127 | one turn of the write loop |
| `KeyValueAdapter.Adapter.WriteBlocks` | helpers/src/keyValueAdapter.cc:100-130 | the write loop computes the specified objects |
| `KeyValueAdapter.Adapter.WriteFile` | helpers/src/keyValueAdapter.cc:89-138 | ash_write: the flat write; the file of every path that differs behind the leading slashes is kept; for a prefix of slashes nothing is stored |
| `KeyValueAdapter.Adapter.KeysToDelete` | helpers/src/keyValueAdapter.cc:149-159 | the listed keys at or past the new end |
| `KeyValueAdapter.Adapter.RewriteBlock` | helpers/src/keyValueAdapter.cc:169-178 | the block holds its first n bytes, zero-padded |
| `KeyValueAdapter.Adapter.TruncateBlocks` | helpers/src/keyValueAdapter.cc:140-190 | the three cases of truncation each give the flat truncation |
| `KeyValueAdapter.Adapter.TruncateFile` | helpers/src/keyValueAdapter.cc:140-190 | ash_truncate: exactly cut or zero-extended, zero size, block multiples and growth over missing blocks included; the files of other paths are kept |
| `KeyValueAdapter.Adapter.ReadBlocks` | helpers/src/keyValueAdapter.cc:66-78 | the read loop fills the buffer as specified |
| `KeyValueAdapter.Adapter.ReadObjects` | helpers/src/keyValueAdapter.cc:52-80 | size check, clipping and loop leave what the specification's read leaves |
| `KeyValueAdapter.Adapter.ReadFile` | helpers/src/keyValueAdapter.cc:48-87 | ash_read: as many bytes as the file has there; the flat file's bytes iff the buffer was zero wherever its bytes are left alone, hence always from a zero-filled one |
| `StorageStack.AdapterReadsFlat` | helpers/src/buffering/readCache.h:92-133 | with no write in between, reading into the read cache's zero-filled buffer gives the flat file's bytes |
| `StorageStack.ServedIsAnswered` | helpers/src/buffering/readCache.h:92-133 | so the adapter keeps the contract the agent relies on |
| `StorageStack.BeginStores` | helpers/src/keyValueAdapter.cc:89-100 | the objects a write is going to leave hold the file the flat write leaves |
| `StorageStack.BlockStores` | helpers/src/keyValueAdapter.cc:100-130 | storing a block leaves what finishing the write is going to leave, and touches no other file |
| `StorageStack.StackStep` | helpers/src/storageHelperFactory.cc:84-97 | every step of the agent over the adapter, whichever multiwrite the worker serves, is a step of the agent over a flat file, or none; the objects hold that file up to the write under way |
| `StorageStack.StackRun` | helpers/src/storageHelperFactory.cc:84-97 | every history of the one is, for the agent, a history of the other, and every other file keeps its objects |
| `StorageStack.StackReadsWhatLanded` | helpers/src/storageHelperFactory.cc:84-97 | in every interleaving a read answers a prefix of what landed |
| `StorageStack.StackReadsYourWrites` | helpers/src/storageHelperFactory.cc:84-97 | read-your-writes over buffers, cache, multiwrites and blocks, in every interleaving of their steps in which no push overlaps what an outstanding multiwrite has left |
| `StorageStack.StackSyncIsDurable` | helpers/src/storageHelperFactory.cc:84-97 | in those, when fsync or release returns, the objects hold every accepted write, and no other file has changed |
| `StorageStack.StackFollows` | helpers/src/keyValueAdapter.cc:89-138 | every history of the agent without reads, in whatever order its multiwrites are served, is one of the stack |
| `StorageStack.StackOvertakenExample` | helpers/include/helpers/IStorageHelper.h:255-289 | so the objects lose the newer write in the history above |
| `StorageStack.MultiwriteOnObjects` | helpers/include/helpers/IStorageHelper.h:255-289 | a multiwrite whose writes are all stored leaves in the objects the file the chain of flat writes leaves |
| `Base64Proofs.UndoEncode` | deps/libmacaroons/base64.c:136-173 | joining the groups of an encoding gives its bytes back |
| `Base64Proofs.EncodeUndo` | deps/libmacaroons/base64.c:216-264 | only encodings are undone, or one of whole triples with a zero group behind it |
| `Base64Proofs.RoundTrip` | deps/libmacaroons/base64.c:185-283 | reading undoes writing whenever the target is large enough, through any spaces, padding and either alphabet, and fails when it is not |
| `Base64Proofs.TextRoundTrip` | deps/libmacaroons/base64.c:124-177 | the same for the plain text |
| `Base64Proofs.PtonExactly` | deps/libmacaroons/base64.c:185-283 | the reader returns x for exactly these texts |
| `Base64Proofs.StrayExample` | deps/libmacaroons/base64.c:277-280 | the text "A" reads as no bytes |
| `Base64Proofs.TextLength` | deps/libmacaroons/base64.c:124-177 | how long the text is, and that the checked target size suffices |
| `Base64Text.ReaderTolerates` | deps/libmacaroons/base64.c:202-214 | white space anywhere, the other two letters anywhere, and padding make no difference to what any text reads as |
| `Base64Text.TextIsNumbers` | deps/libmacaroons/base64.c:136-173 | each four letters are, in six-bit digits, the number their three bytes make, and the last two or three that of the last one or two, shifted |
| `Base64Text.KnownTexts` | deps/libmacaroons/base64.c:57-58 | three bytes that spell ABCD, abcd, 0123 and -_-_ |
| `Base64Codec.PutTriples` | deps/libmacaroons/base64.c:136-153 | the loop over whole triples writes their letters, or stops when the target is too small |
| `Base64Codec.Ntop` | deps/libmacaroons/base64.c:124-177 | text, terminator and length in the target, or -1 iff it is too small |
| `Base64Codec.Accept` | deps/libmacaroons/base64.c:216-264 | one letter is or-ed into the target in place |
| `Base64Codec.SkipTail` | deps/libmacaroons/base64.c:267-275 | what may follow the first pad character |
| `Base64Codec.PtonInto` | deps/libmacaroons/base64.c:185-283 | the in-place reader computes the specified result |
| `Packet.ReadPacketSize` | deps/libmacaroons/packet.c:63-99 | parse_packet's digit loop |
| `Packet.HeaderRoundTrip` | deps/libmacaroons/packet.c:50-61 | reading a written header gives the size |
| `Packet.HeaderExactly` | deps/libmacaroons/packet.c:78-89 | a header that reads as a size is the one written for it iff it holds no zero byte |
| `Packet.ZeroByteReads` | deps/libmacaroons/packet.c:78-89 | three zeros and a zero byte read as sixteen, which is written otherwise |
| `Packet.HeaderDigits` | deps/libmacaroons/packet.c:55-58 | the digits are the lower-case hexadecimal ones of the size shifted by 12, 8, 4 and 0 bits |
| `Packet.KvExactly` | deps/libmacaroons/packet.c:130-170 | a packet parses to a key and a value iff it is header, key without a space, space, value and newline |
| `Packet.KvAtFront` | deps/libmacaroons/packet.c:109-128 | a packet is found again in front of whatever follows |
| `Macaroon.ParseSignature` | deps/libmacaroons/packet.c:288-310 | a signature that parses has 32 bytes |
| `Macaroon.AttenuateOk` | deps/libmacaroons/macaroons.c:248-307 | a caveat added to a well-formed macaroon leaves it well-formed |
| `Macaroon.BuiltIsWellFormed` | deps/libmacaroons/macaroons.c:156-466 | so is everything that can be built |
| `MacaroonWire.HintSuffices` | deps/libmacaroons/macaroons.c:1045-1092 | the size hint is the length of the padded text and its terminator, which is enough |
| `MacaroonWire.WireShape` | deps/libmacaroons/macaroons.c:1118-1143 | the serialized form is location, identifier, caveats and signature |
| `MacaroonWire.WireCounts` | deps/libmacaroons/macaroons.c:1625-1637 | counting the packets of a written macaroon ends, with at least three |
| `MacaroonWire.ReadAllCaveats` | deps/libmacaroons/macaroons.c:1667-1722 | the caveat loop reads back every caveat's packets |
| `MacaroonWire.SerializeRoundTrip` | deps/libmacaroons/macaroons.c:1569-1746 | a well-formed macaroon comes back from its text, packet for packet |
| `MacaroonWire.BuiltRoundTrip` | deps/libmacaroons/macaroons.c:1094-1152 | so does everything built by creating and adding caveats of either kind |
| `MacaroonText.LoopGroups` | deps/libmacaroons/macaroons.c:1667-1722 | the caveat loop makes of any packets the caveats described: each identifier with the sealed key and location that are its, two of either refused |
| `MacaroonText.ParsedExactly` | deps/libmacaroons/macaroons.c:1569-1746 | bytes are taken for a macaroon iff they are its location, identifier, caveat packets and 32-byte signature in that order, and what follows can be counted |
| `MacaroonText.DeserializedExactly` | deps/libmacaroons/macaroons.c:1569-1746 | a text is, iff that is what it reads as |
| `MacaroonCodec.Serialize` | deps/libmacaroons/macaroons.c:1094-1152 | the text in the buffer, or failure iff the buffer is smaller than the hint |
| `MacaroonCodec.CountPackets` | deps/libmacaroons/macaroons.c:1625-1637 | the counting loop |
| `MacaroonCodec.CollectCaveats` | deps/libmacaroons/macaroons.c:1667-1722 | the caveat loop |
| `MacaroonCodec.DeserializeText` | deps/libmacaroons/macaroons.c:1569-1746 | computes the specified parse |
| `Verifier.LastMatch` | deps/libmacaroons/macaroons.c:748-760 | the last discharge with the identifier, or none |
| `VerifierProofs.AcceptedIsCertified` | deps/libmacaroons/macaroons.c:689-884 | soundness: whatever is accepted has a proof tree - predicates satisfied, each caveat discharged by the last with its identifier, none with it in use, under the opened key, bound to the root |
| `VerifierProofs.PathIsShort` | deps/libmacaroons/macaroons.c:832-836 | a path that repeats nothing never trips the depth check |
| `VerifierProofs.CertifiedIsAccepted` | deps/libmacaroons/macaroons.c:689-884 | completeness for every pool: such a proof tree is accepted |
| `VerifierProofs.AcceptedExactly` | deps/libmacaroons/macaroons.c:805-884 | for every pool of discharges, accepted iff such a proof tree exists |
| `VerifierProofs.AcceptedHasProof` | deps/libmacaroons/macaroons.c:689-884 | in looser terms: an accepted macaroon's caveats are satisfied or discharged by equal identifiers, nothing repeated on a path |
| `VerifierProofs.AcceptedWhenDistinct` | deps/libmacaroons/macaroons.c:750-766 | with distinct identifiers, accepted iff any proof tree certifies |
| `ChainIntegrity.VerifiedIsSigned` | deps/libmacaroons/macaroons.c:805-884 | on every path and for every pool, what verifies carries the signature of its own identifier and caveats under the key, for a discharge hashed together with the root's |
| `ChainIntegrity.RootIsSigned` | deps/libmacaroons/macaroons.c:923-938 | a root macaroon that verifies is signed so under the hash of the caller's key |
| `ChainIntegrity.OneSignature` | deps/libmacaroons/macaroons.c:882 | of two macaroons that differ only in their signature, at most one verifies, on any path |
| `ChainIntegrity.OneSignaturePacket` | deps/libmacaroons/macaroons.c:887-938 | whatever verifiers and pools they are given |
| `ChainIntegrity.SameTip` | deps/libmacaroons/macaroons.c:248-436 | where no two of the hashings collide, equal signatures come from the same key, identifier and caveats, but for a first-party caveat that passes for a third-party one |
| `ChainIntegrity.TamperingIsRefused` | deps/libmacaroons/macaroons.c:805-938 | so with a key or an identifier exchanged, or a caveat dropped, added, moved or otherwise changed, a macaroon is refused |
| `ChainIntegrity.ExchangedExactly` | deps/libmacaroons/macaroons.c:805-884 | a third-party caveat exchanged for the first-party one that passes for it: still verified iff that predicate is satisfied |
| `ChainIntegrity.CaveatHolds` | deps/libmacaroons/macaroons.c:692-803 | each caveat of what verifies holds: its predicate is satisfied, or all discharges have readable identifiers and the last with its own, not in use on the way there, verifies under the key the vid opens to |
| `ChainIntegrity.BoundToOneRoot` | deps/libmacaroons/macaroons.c:519-557 | a discharge verifies for one root and under one key only, wherever it is used |
| `ChainIntegrity.TrustIsPossible` | deps/libmacaroons/macaroons.c:923-938 | there is a hash, and macaroons, for which what is asked of it holds |
| `VerifierEngine.CheckFirstParty` | deps/libmacaroons/macaroons.c:689-720 | succeeds iff the predicate parses and is satisfied |
| `VerifierEngine.OnPath` | deps/libmacaroons/macaroons.c:762-765 | the inner loop finds a repeated entry |
| `VerifierEngine.FindDischarge` | deps/libmacaroons/macaroons.c:745-766 | writes the match into the tree and gathers the failures |
| `VerifierEngine.CheckThirdParty` | deps/libmacaroons/macaroons.c:722-803 | succeeds iff the caveat holds, leaving the path above unchanged |
| `VerifierEngine.CheckCaveat` | deps/libmacaroons/macaroons.c:845-870 | one caveat's verdict and the next signature |
| `VerifierEngine.CheckAll` | deps/libmacaroons/macaroons.c:845-870 | the caveat loop |
| `VerifierEngine.CheckMacaroon` | deps/libmacaroons/macaroons.c:805-884 | the flag-gathering recursion over the shared tree decides the functional verifier, indexing it within bounds |
| `VerifierEngine.Authorise` | deps/libmacaroons/macaroons.c:886-938 | macaroon_verify |
| `Attenuation.IssuedParses` | deps/libmacaroons/macaroons.c:156-466 | issuing succeeds, and the verifier reads back exactly what was put in, every signature of the chain included |
| `Attenuation.PreparedParses` | deps/libmacaroons/macaroons.c:519-557 | preparing binds the signature and touches nothing else |
| `Attenuation.KeyOpens` | deps/libmacaroons/macaroons.c:338-436 | the vid is the nonce and behind it the sealed key, and opens to what was sealed |
| `Attenuation.VerifiedIffAllowed` | deps/libmacaroons/macaroons.c:722-884 | for every pool and on any path, verifying agrees with what the caveats allow |
| `Attenuation.AuthorisedExactly` | deps/libmacaroons/macaroons.c:805-938 | for every pool, equal identifiers included: a request is authorised iff every predicate is satisfied and, for every third-party caveat, the last discharge with its identifier is not already in use on the way there and its own caveats allow the request |
| `Attenuation.FirstPartyExactly` | deps/libmacaroons/macaroons.c:248-307 | with first-party caveats only, whatever discharges come along: verified iff every predicate is among the exact ones or passes a general check |
| `Attenuation.AddedIsNeeded` | deps/libmacaroons/macaroons.c:248-307 | a macaroon with a first-party caveat added, whoever made it, verifies only where its predicate is satisfied |
| `Attenuation.AttenuationNarrows` | deps/libmacaroons/macaroons.c:248-466 | for every pool, adding a caveat never authorises what was not authorised before |
| `Attenuation.AllowedIffGranted` | deps/libmacaroons/macaroons.c:722-760 | when no two discharges have one identifier, taking the last one with it and taking any unused one come to the same |
| `Attenuation.VerifiedIffGranted` | deps/libmacaroons/macaroons.c:722-884 | then verifying agrees, on any path, with that order-free reading |
| `Attenuation.AuthorisedWhenDistinct` | deps/libmacaroons/macaroons.c:805-938 | then a request is authorised iff every predicate is satisfied and every third-party caveat has an unused discharge whose own caveats allow it |
| `Attenuation.EqualIdsExample` | deps/libmacaroons/macaroons.c:757-760 | of two discharges issued and prepared under one identifier the first would do, and a proof tree over it exists, but the last carries a predicate that fails, and the verifier refuses |
| `Token.Encode` | src/auth/tokenHandler.cc:227-244 | encode62's loop |
| `Token.Decode` | src/auth/tokenHandler.cc:202-225 | decode62's loop, errors included |
| `Token.Base62RoundTrip` | src/auth/tokenHandler.cc:202-244 | decoding undoes encoding, for every string |
| `Token.ReencodesExactly` | src/auth/tokenHandler.cc:202-244 | encoding undoes decoding iff the token is canonical |
| `Token.AlphabetExactly` | src/auth/tokenHandler.cc:187-200 | the encoded form is alphanumeric iff the codes cover everything else in the string |
| `Token.CodedText` | src/auth/tokenHandler.cc:187-200 | the six codes |
| `Token.ParseToken` | src/auth/tokenHandler.cc:174-185 | base62 first, the token as it stands on any exception |
| `Token.TokenRoundTrip` | src/auth/tokenHandler.cc:67-70 | a token handed out is alphanumeric and is read back as its macaroon |
| `Token.PlainIsNotBase62` | src/auth/tokenHandler.cc:174-185 | no text is readable both ways: whatever deserializes as base64 fails to decode as base62, so it is read as what it says |
| `Token.SavedTokenRoundTrip` | src/auth/tokenHandler.cc:148-154 | a token saved in plain base64 is read back as its macaroon, for every well-formed one |
| `Token.RestrictedTokenRoundTrip` | src/auth/tokenHandler.cc:32-43 | the restricted token of anything that can be built comes back as that restricted macaroon |
| `Token.RestrictExactly` | src/auth/tokenHandler.cc:32-43 | the restricted macaroon is the old one with one more caveat, which reads as the predicate, under the signature that leads to |
| `Token.RestrictionBinds` | src/auth/tokenHandler.cc:32-43 | it verifies only where the predicate is satisfied |
| `ExpirationProofs.StepKeeps` | src/cache/cacheExpirationHelper.h:60-248 | every call and every step of a tick, visits to keys moved since they were fetched and renames ahead of the loop included, keeps: pinned records in no bucket, the others in exactly the one they name, what the loop has to reach exactly what names the detached bucket |
| `ExpirationProofs.AssertsHold` | src/cache/cacheExpirationHelper.h:83-235 | no assertion of the code fires |
| `ExpirationProofs.RenameAssertsExactly` | src/cache/cacheExpirationHelper.h:198-206 | a rename trips an assertion iff it goes to a key still lying in the bucket being swept |
| `ExpirationProofs.StrandsExactly` | src/cache/cacheExpirationHelper.h:60-72 | a rename breaks the invariant iff it puts an untracked key into the bucket being swept behind the loop |
| `ExpirationProofs.StrandedUnseen` | src/cache/cacheExpirationHelper.h:198-207 | such a key names the detached bucket with nothing left there for the loop to reach |
| `ExpirationProofs.DetainedSeen` | src/cache/cacheExpirationHelper.h:60-72 | ahead of the loop, it joins what the tick purges |
| `ExpirationProofs.EndTickKeeps` | src/cache/cacheExpirationHelper.h:60-72 | at the end of the loop no record names the detached bucket |
| `ExpirationRuns.RunKeeps` | src/cache/cacheExpirationHelper.h:60-248 | invariant and assertions over every history |
| `ExpirationRuns.TickEndsClean` | src/cache/cacheExpirationHelper.h:60-72 | in every history, when a tick ends no record names its bucket |
| `ExpirationRuns.LifeBalance` | src/cache/cacheExpirationHelper.h:60-212 | cache calls = purges + renames away + still tracked, per key: each tracking period has at most one purge |
| `ExpirationRuns.AloneRun` | src/cache/cacheExpirationHelper.h:60-72 | a record left alone keeps its details until purged, once |
| `ExpirationRuns.AgesExactly` | src/cache/cacheExpirationHelper.h:60-72 | and is purged exactly by the tick its bucket stands for |
| `ExpirationRuns.MarkedAgesExactly` | src/cache/cacheExpirationHelper.h:83-152 | after a mark or the last unpin: by exactly the BucketsCount-th tick |
| `ExpirationRuns.ExpiredAgesExactly` | src/cache/cacheExpirationHelper.h:214-235 | after an expire: by the next tick |
| `ExpirationRuns.RenameRetains` | src/cache/cacheExpirationHelper.h:154-212 | a renamed record keeps bucket and pins; a tracked new key adds up the pins, and keeps its own bucket if there are none; no other record changes |
| `ExpirationRuns.RenamedAgesExactly` | src/cache/cacheExpirationHelper.h:196-206 | a record so many ticks from expiry, renamed and left alone, is purged, once, by exactly the tick after them |
| `ExpirationRuns.PinnedIsSafe` | src/cache/cacheExpirationHelper.h:114-128 | a record that has more pins than the history takes from it, and is not renamed, keeps at least the rest of them and is not purged, whatever else happens |
| `ExpirationRuns.SparedByThisTick` | src/cache/cacheExpirationHelper.h:63-71 | a record moved or pinned since the shift is not purged by the tick under way, even if the loop had fetched it and visits it |
| `ExpirationRuns.FetchedThenMarked` | src/cache/cacheExpirationHelper.h:66-67 | fetched, marked, then looked up: not purged; without the mark: purged |
| `ExpirationRuns.StrandedStays` | src/cache/cacheExpirationHelper.h:60-72 | a record naming a bucket that is gone is never purged by ticking |
| `ExpirationRuns.StrandedForever` | src/cache/cacheExpirationHelper.h:60-72 | a key renamed into the bucket being swept, and not visited before the loop ends, survives that tick, whatever else it has to visit, and every later one; the rename trips the assertion iff the key still lies in that bucket |
| `ExpirationRuns.StrandedExample` | src/cache/cacheExpirationHelper.h:164-212 | a history of two marks, a shift, a visit and such a rename, for any three keys |
| `ExpirationRuns.AssertionExample` | src/cache/cacheExpirationHelper.h:198-206 | two marks, a shift and a visit, and then renaming the other key to the one visited trips the assertion, for any two keys |
| `ExpirationRuns.StepPins` | src/cache/cacheExpirationHelper.h:114-212 | only pin and unpin change the total number of pins |
| `ExpirationRuns.PinsConserved` | src/cache/cacheExpirationHelper.h:114-212 | over every history the total is pins minus unpins |
| `ExpirationHelper.CacheExpirationHelper.MarkInteresting` | src/cache/cacheExpirationHelper.h:83-103 | the model's step, and whether cache is called |
| `ExpirationHelper.CacheExpirationHelper.PinRecord` | src/cache/cacheExpirationHelper.h:114-128 | the model's step, and whether cache is called |
| `ExpirationHelper.CacheExpirationHelper.UnpinRecord` | src/cache/cacheExpirationHelper.h:136-152 | the model's step |
| `ExpirationHelper.CacheExpirationHelper.RenameRecord` | src/cache/cacheExpirationHelper.h:163-212 | the model's step, whether cache is called, and that the wheel is in order afterwards iff no key was stranded |
| `ExpirationHelper.CacheExpirationHelper.ExpireRecord` | src/cache/cacheExpirationHelper.h:217-235 | the model's step |
| `ExpirationHelper.CacheExpirationHelper.DetachOldest` | src/cache/cacheExpirationHelper.h:238-248 | the array moves down by one in place |
| `ExpirationHelper.CacheExpirationHelper.Visit` | src/cache/cacheExpirationHelper.h:63-71 | one turn of the loop for any key it holds, and whether purge is called |
| `ExpirationHelper.CacheExpirationHelper.Tick` | src/cache/cacheExpirationHelper.h:60-72 | an undisturbed tick purges exactly the records of the oldest bucket, each once, and changes no other |
| `WriteEvents.AggregateAssociates` | src/events/types/writeEvent.cc:52-64 | aggregation may be regrouped in any way |
| `WriteEvents.FoldConcat` | src/events/types/writeEvent.cc:52-64 | folding batches and then the results is folding everything |
| `WriteEvents.FoldReports` | src/events/types/writeEvent.cc:52-64 | counters and sizes are sums; the file size is known iff something was truncated, and is then that of replaying the operations |
| `WriteEvents.EmittedExactly` | src/events/types/writeEvent.cc:75-97 | the message names exactly the written offsets below the size it reports, so every offset that survives replay |
| `WriteEvents.StaleExactly` | src/events/types/writeEvent.cc:75-97 | it names a vanished offset iff that was cut off, not rewritten, and the file has grown past it |
| `WriteEvents.StaleExample` | src/events/types/writeEvent.cc:75-97 | three operations that do so |
| `WriteEvents.FoldOwner` | src/messages/fuse/fileBlock.h:75-83 | an offset is reported for the first storage and file that were both known when it was written |
| `WriteEvents.EmittedOwner` | src/events/types/writeEvent.cc:75-97 | the message names each of its offsets for that storage and file |
| `EventPipeline.StepKeeps` | src/events/aggregators/eventCounterAggregator.h:74-120 | after every action counter and size are below every live threshold, and there is a buffer iff there are subscriptions |
| `EventPipeline.RunKeeps` | src/events/aggregators/eventSizeAggregator.h:73-118 | the same over every history |
| `EventPipeline.ThresholdsExactly` | src/events/aggregators/eventCounterAggregator.h:88-95 | a subscription keeps the counts below every live threshold iff its own are at least one |
| `EventPipeline.ProcessAddsKnown` | src/events/buffers/eventBufferMap.h:61-79 | processing adds the event to what is reported and buffered, triggered or not |
| `EventPipeline.UnsubscribeKeepsKnown` | src/events/subscriptionHandler.h:70-79 | unsubscribing loses nothing, the flush of the last one included |
| `EventPipeline.Conservation` | src/events/eventHandler.h:83-114 | over every history and for every key: reported and buffered together are the aggregate of the events processed while subscriptions lived |
| `EventPipeline.FileIsReported` | src/events/buffers/eventBufferMap.h:61-79 | so the reports on a file count every accepted operation and know its size exactly |
| `EventBatches.ProcessExactly` | src/events/aggregators/eventCounterAggregator.h:74-83 | an event is held back while both counts stay below every live threshold; otherwise exactly the buffer with it goes out and both counts start anew |
| `EventBatches.ReportsExactly` | src/events/aggregators/eventCounterAggregator.h:74-83 | over any sequence of events: each report holds those up to the one that first reaches a threshold, counted from the report before; the others wait |
| `EventBatches.OneCut` | src/events/aggregators/eventCounterAggregator.h:74-83 | there is only one way to cut them so |
| `EventBatches.BatchAmounts` | src/events/buffers/eventBufferMap.h:61-79 | what a report says of a file is the aggregate of its events on it |
| `EventBatches.SubscribeExactly` | src/events/aggregators/eventCounterAggregator.h:85-112 | subscribing sends out what is buffered iff a new threshold is already reached, and then both counts start anew; the first subscription gets an empty buffer |
| `EventBatches.UnsubscribeExactly` | src/events/aggregators/eventCounterAggregator.h:96-107 | a count starts anew iff its last threshold goes; what is buffered goes out iff the last subscription goes, and the buffer with it |
| `EventBatches.TriggerExactly` | src/events/eventWorker.h:50-56 | a periodic trigger sends out what is buffered |
| `EventSystem.SubscribeHolds` | src/events/subscriptionHandler.h:53-79 | subscribing leaves exactly what the returned handler will take back |
| `EventSystem.UnsubscribeHolds` | src/events/aggregators/eventCounterAggregator.h:96-107 | running the handler takes back exactly that |
| `EventSystem.HandlerFinds` | src/events/subscriptionRegistry.cc:23-45 | a handler about to run finds its thresholds and its subscription, and has not run before |
| `EventSystem.StepKeeps` | src/events/eventWorker.h:117-130 | every post, removal and turn keeps: the outstanding handlers claim exactly what the pipeline holds |
| `EventSystem.RunKeeps` | src/events/eventWorker.h:107-130 | the same over every interleaving |
| `EventSystem.RunsOnce` | src/events/subscriptionRegistry.cc:23-45 | every handler runs at most once |
| `EventSystem.EveryHandlerFinds` | src/events/aggregators/eventSizeAggregator.h:94-105 | in every history, a handler that comes to run finds its thresholds |
| `EventSystem.Conservation` | src/events/eventWorker.h:107-130 | however posts, removals and the worker interleave, reports and buffer grow by exactly the events taken up while there was a subscription |
| `EventSystem.InPipeExactly` | src/events/subscriptionRegistry.cc:23-45 | a subscription is in the pipeline iff the registry holds a handler that entered it or one is on its way out |
| `EventSystem.FedExactly` | src/events/subscriptionHandler.h:57-68 | the turn that makes an unregistered subscription feeds it iff it is not empty and no earlier one under its id is on its way out |
| `EventSystem.RegisteredIsFed` | src/events/eventWorker.h:117-130 | when nothing is subscribed that is empty, registered, or queued to come or go, then in every state of every history exactly the registered subscriptions and those queued to leave are fed; in an idle state exactly the registered |
| `EventSystem.LostSubscription` | src/events/subscriptionHandler.h:59-61 | a history that leaves a registered subscription unfed |
| `EventSystem.WorkInOrder` | src/events/eventWorker.h:107-130 | the worker takes exactly what entered the queue, in that order, but for what is still in it |
| `EventStream.EndOf` | src/events/types/writeEvent.cc:59-61 | one past the last offset |
| `EventStream.WriteEventObject.Absorb` | src/events/types/writeEvent.cc:52-64 | aggregation in place |
| `EventStream.WriteEventObject.Serialize` | src/events/types/writeEvent.cc:75-97 | the clipped copy of the blocks |
| `EventStream.Stream.Push` | src/events/buffers/eventBufferMap.h:61-70 | aggregated into the key's event, or kept as the first |
| `EventStream.Stream.Clear` | src/events/buffers/eventBufferMap.h:72-79 | everything goes to the handler, once |
| `EventStream.Stream.Trigger` | src/events/eventHandler.h:89-93 | a flush that resets both counts |
| `EventStream.Stream.Process` | src/events/aggregators/eventCounterAggregator.h:74-83 | both aggregators' process |
| `EventStream.Stream.Install` | src/events/eventHandler.h:108-114 | the buffer going out of use is flushed |
| `EventStream.Stream.Enter` | src/events/subscriptionHandler.h:53-68 | a new, non-empty subscription enters; the first one brings the buffer |
| `EventStream.Stream.Subscribe` | src/events/aggregators/eventCounterAggregator.h:85-110 | thresholds, triggers, entry, and the handler |
| `EventStream.Stream.Unsubscribe` | src/events/aggregators/eventSizeAggregator.h:94-105 | the handler's effect on every layer |
| `EventStream.Worker.Post` | src/events/eventWorker.h:107-130 | work joins the end of the queue |
| `EventStream.Worker.RemoveSubscription` | src/events/subscriptionRegistry.cc:35-45 | the handler is posted and forgotten, or there is none |
| `EventStream.Worker.AddUnsubscribeHandler` | src/events/subscriptionRegistry.cc:23-33 | kept under the id, or posted if the id is taken |
| `EventStream.Worker.TakeTurn` | src/events/eventWorker.h:117-130 | the next piece of work is the model's turn |

## Left out

- Network, TLS, FUSE and Protobuf code, options, certificates and packaging: plumbing over libraries.
- S3, Swift, Ceph, DirectIO and ProxyIO helpers: they appear only as the storage's contract - reads return a prefix, objects are stored whole, listings are sorted.
- Errors, timeouts and reopening in the buffer, and truncate and unlink through the agent, which bypass both buffers.
- BufferProofs.ReadYourWrites: for runs in which no buffer is taken before an older one that overlaps it, outside of which it is false. A read-ahead that a write overlaps may bring any bytes at all.
- OrderExactness.OrderSafeExactly: over all orders that keep each multiwrite's own; the one worker's queue is first in, first out, which rules some of them out.
- Wall-clock time, bandwidth estimates and the time aggregator: thresholds and sizes are arbitrary values, expiry and periodic triggers arbitrary steps.
- Locks: a call that waits is split at the wait; the per-key locks of the adapter make the rewriting of one block a single step, those of the expiration map its operations.
- Cryptographic strength, memory layout and allocation failure: hashing and sealing are uninterpreted, opening undoes sealing; `Macaroon.SomeCryptoWorks` shows that this can be met.
- The JSON form of macaroons, and `ash_unlink`.
- `MetadataCache`, `HelpersCache` and `FsLogic`: tied to server replies.
- Read events: their aggregation is that of write events without a file size.
- `macaroon_inspect`, accessors and comparison of macaroons: they would only add easy members.
- The cancellation message an unsubscribe handler sends for client-side subscriptions: nothing here reads it.
- MacaroonCodec.DeserializeText: a packet of stated size zero, on which the code counts for ever, and a caveat list that runs past the end are outcomes of their own.
- VerifierEngine.CheckThirdParty: a vid of the wrong size, an assertion failure in the code, counts as a rejection; packets are parsed before the run rather than on the way.
- KeyValueAdapter.Adapter.WriteFile: claimed up to the last byte that six-digit block numbers can hold; past it the key order breaks, which `KeyScheme.OrderExactlyUpToMax` states.
- KeyValueAdapter.Adapter.TruncateFile: the same bound.
- StorageStack.StackReadsYourWrites: for writes within that bound.
- StorageStack.StackSyncIsDurable: the same.
- KeyValueAdapter.Adapter.GetBlockId: offsets are not negative.
- KeyValueAdapter.Adapter.GetBlock: a range that starts past the end of a short object is answered with no bytes; a storage that reports an error there is not modelled.
- KeyValueAdapter.Adapter.ReadFile: for a prefix of slashes `substr` throws `std::out_of_range`, which the handlers for `std::system_error` do not take, so no error reaches the callback; `ok` is false in the model, for reads, writes and truncates alike.
- The subscription registry is shared by all event streams; the model has one stream with a registry of its own.
- EventStream.WriteEventObject.Absorb: an event with neither a file size nor blocks, for which the code asks an empty map for its last element, is not accepted.
- ExpirationHelper.CacheExpirationHelper.RenameRecord: not when it would trip the code's assertion, which `ExpirationProofs.RenameAssertsExactly` describes; bucket numbers are never reused, where the code reuses addresses.
- EventPipeline.StepKeeps: thresholds are at least one; `EventPipeline.ThresholdsExactly` says that is exactly when it holds.
