# The message ingestion pipeline, modelled and proved

The node turns two feeds of the parent chain into one list of messages and executes it. Delayed messages form a hash
chain; sequencer batches are compressed lists of segments that interleave their own messages with the delayed ones.
This project models that pipeline as the code has it, and proves what holds of it on every input and every run.

| file | part of the system |
|---|---|
| `Basics`, `BigEndian`, `Rlp` | 64-bit arithmetic, fixed-width integers and their byte order, Recursive Length Prefix coding |
| `L1Message`, `Message` | the stored and transmitted records, their codecs and their hashes |
| `SequencerMessage` | the bytes of a batch: what the batch poster writes and the multiplexer parses |
| `DrainSpec`, `DrainMeaning`, `Multiplexer`, `DrainProperties` | what a list of batches means in one pass, and read off its bytes; the resumable cursor that computes it; what every drain guarantees |
| `Store`, `SledStore`, `Layouts` | the key-value store as tables with ordered write batches, and as bytes; the byte layouts of all that is stored or hashed |
| `TrackerSpec`, `DelayedOps`, `BatchOps`, `Tracker` | the inbox tracker: its invariant, its operations on values, and the class that performs them |
| `StreamerSpec`, `Streamer`, `Execution` | the message log, its append and truncate machinery, and in-order execution |
| `Ingest`, `Pipeline`, `EndToEnd` | ingesting batches, and what keeps the log explained by them |
| `Rewinds`, `Runs` | rolling batches and log back together; whole runs of everything that keeps the log explained |
| `FallingCounts` | what happens when delayed counts fall |
| `StrandedLogs`, `LogSurplus` | what happens when the log and the batches are out of line |
| `Recovery` | crashes between commits, and the restart after them |
| `TipCheck`, `Reader` | the reader's delayed-message check, its block windows and the batches it hands on |

## Main results

- **The cursor is a one-pass walk, and the walk says what the bytes say.** `Multiplexer.DrainBatches`: popping until
  nothing comes yields exactly the drain of `DrainSpec`, for all batches, including those that stop, fail or panic.
  `DrainMeaning` tells that drain message by message from the bytes of the segments alone, and `DrainProperties` what
  it comes to: which delayed messages, how many messages, which counters.
- **Every stored message has its owner.** `Runs.RunsKeep`, `RunsOwn` and `RunsPlace`: in every state of every run the
  log is the drain of the ingested batches cut at the counts stored for them, whatever delayed messages came, came
  again or went, and however often batches and log were rolled back together; the binary search names the batch that
  drained the message asked for; and the log holds delayed messages 0 up to the last batch's count, once each, in
  order.
- **Delayed changes roll back exactly enough.** `TrackerSpec.RollbackIsExact` with `DelayedOps.AddDelayedKeeps` and
  `ReorgDelayedKeeps`: the batches kept are those whose delayed count is not above the change, no fewer, and they
  still match the accumulators they were checked against.
- **Crashes between the commits of a tracker operation are harmless.** `Recovery.CrashRunsAreSound`: every batch left
  still matches the accumulator it was checked against; `RestartRecovers`, `AddBatchesSound`.
- **The cache is invisible.** Every method of `Tracker.InboxTracker` keeps `Coherent()`, on success and on failure,
  and `GetBatchMetadata` returns what an uncached read would.
- **The log is append-only unless told otherwise, and executed in order.** `Streamer.TransactionStreamer`,
  `Execution.ExecRunsKeep`, `ResultsAre`.
- **Bytes refine tables.** `SledStore.BatchRefines`, `DeletionRefines`, `ScanRefines`, `ReadsAgree`, on the layouts
  that `Layouts` writes out in numbers.
- **One accumulator stands for the whole history.** `TipCheck.TipDecides`, `TipCheckSound`,
  `Reader.InboxReader.CheckDelayed`.
- **The reader stays in its window, skips nothing and gets everywhere.** `Reader.RunsInBounds`, `NoBlockIsSkipped`,
  `EveryBlockIsReached`, `ReorgEndsIff`.

## What turned out not to hold, and when it does

- The increase in message count recorded for a batch is its drained length if and only if the batch claims no more
  delayed messages than are due and is not empty (`DrainProperties.IncrementIsLength`).
- Nothing checks that the delayed counts of batches do not fall. A drain passes the streamer's jump check if and only
  if every batch whose count falls by more than one has no L2 segment after a delayed segment
  (`DrainProperties.BatchJumps`, `DrainJumps`). Delayed changes roll back exactly enough after an add if and only if
  each count above the one before it is above all earlier ones (`FallingCounts.AddIsExactIff`), and never again after
  an add on top of a fall (`AddAfterFallMisleads`); the tracker accepts batches that break this
  (`FallingCountsMislead`). Results that trust the parent chain not to let counts fall say so with `NonDecreasing` or
  `WellFormed`.
- A rollback of the delayed messages to a count above the current one breaks their chain
  (`DelayedOps.ReorgKeepsChain`), a truncation past the end breaks the log (`StreamerSpec.TruncateCuts`), and a result
  stored after a truncation at or below it breaks the results (`Execution.LateResult`), unless messages appended at
  its index in between fill the hole and happen to digest to it (`LateResultAfterAppend`); each is an if-and-only-if.
- A delayed message is read back byte for byte if and only if the padding of its poster address was zero
  (`TipCheck.ReadsBackBytes`).
- Adding delayed messages that are already there is a no-op if and only if they are the last ones and no batch has
  read past their start (`DelayedOps.ReAddIsNoOpIff`); otherwise the messages behind them and the batches that read
  them go.
- Delayed messages added or rolled back leave batches and log explained if and only if the change is not below what
  the last batch has read (`EndToEnd.ArrivalKeepsIff`, `RollbackKeepsIff`).
- A change below that, a rollback of batches, a refused add after its append, a crash between the two and an append
  that comes from no ingest (`crates/rpc/src/lib.rs:115`, line 135) all leave a log that is longer than the stored
  batches explain (`StrandedLogs`). Every ingest of a window up to the next batch is then skipped and reported as a
  success, without any change, if a batch is stored. If none is, the window is drained once more, from the current
  delayed count, onto the end of the log. It stays so through all further arrivals, rollbacks, appends and skipped
  ingests (`StaysStranded`).
- The way out is to truncate the log. However it was stranded and whatever has followed, it is explained again if and
  only if it is cut at the message count of the batches left (`StrandedLogs.WayOut`), which after a rollback of
  batches is what `ReorgBatchesToDb` returns (`Rewinds.BatchRewindIff`). With no batch left there is no way out,
  because the streamer refuses to truncate to index 0 (`Streamer.TransactionStreamer.AddMessagesAndReorg`).
- Truncating the log alone to anything below the end of the batches makes the next window skip
  (`StrandedLogs.TruncationPlan`), as does any other change of its length alone once a batch is stored. An overlapping
  window is taken up if it begins where the log now ends, or if the log ends inside its first batch
  (`ChangedLogPlan`). That batch is then drained from the delayed count before it, which leaves the log out of line by
  as many messages as before (`LogSurplus.SurplusStays`). If no delayed message was read before it, it is drained from
  the current delayed count instead, and the log is in line afterwards if and only if it was ahead by exactly the
  messages that batch thereby falls short (`ColdStartSurplus`).
- The batch poster notes the delayed count before it looks up the bounds and compresses. If either fails, nothing is
  built until the count moves again (`SequencerMessages.BatchPoster.BuildBatchBytes`).
- An error while asking the parent chain for its delayed count is read as the count zero and rolls back all delayed
  messages (first postcondition of `Reader.InboxReader.CheckDelayed`).
- A reorg that never resolves ends the reader's loop if and only if the minimum window is positive
  (`Reader.ReorgEndsIff`, `ZeroMinimumStays`).
- While something is missing but windows come back empty, the reader looks at the blocks of the largest window and at
  no other, however often it tries. With a minimum of zero a reorg or a gap leaves a window of no blocks, which never
  grows while it comes back empty: then only the next block is looked at (`Reader.EmptyWindowsReach`).

Some tests in the repository describe an earlier state of the code (`crates/inbox/tests/tracker_parity.rs:93`, line
100); the model follows the code.

## Assumptions

- Keccak is an arbitrary function from bytes to 32 bytes. Only the tip check needs more: that it does not collide on
  the byte strings hashed for the two chains compared.
- Brotli (RFC 7932) is an arbitrary partial `decompress`; the framing round trip assumes that it undoes `compress`.
- How the RLP library writes a `Vec<u8>` is a parameter with two values, a string or a list of single bytes;
  everything is proved for both.
- A write batch is committed as a whole, which is what the trait in `crates/inbox/src/db.rs` intends. The sled backend
  applies it one operation at a time; `SledStore` models it so and claims no atomicity for it, and
  `Recovery.PartOfABatchBreaks` shows that the crash results depend on it.
- A batch is well-formed (`Pipeline.WellFormed`) when its segments have kinds 0 to 4 or are empty, compressed payloads
  decompress, its time and block bounds are intervals if it has L2 segments, its header announces the delayed count
  that the parent chain gives it, that count does not fall, it has no more delayed segments than delayed messages due,
  and it yields at least one message. The end-to-end results are about well-formed batches, the multiplexer results
  about all.

## Model

The main results come first; the rest follows the order of the pipeline.

| member | source | states |
|---|---|---|
| `Multiplexer.DrainBatches` | crates/inbox/src/tracker.rs:402-409 | popping until nothing comes terminates and yields the one-pass drain, for every list of batches, and that is what the bytes of the batches say |
| `DrainMeaning.BatchMeans` | crates/inbox/src/multiplexer.rs:180-292 | message by message, on the raw bytes: a segment that begins with 0 or 1 gives an L2 message of kind 3 with its payload, plain or decompressed, and the sums of the integers in the segments before it that begin with 3 and 4 as timestamp and block number, kept within the bounds; one that begins with 2 gives the next delayed message, or an empty message of kind 255 at the upper bounds if none is due; then follow the delayed messages still due; a walk that stops does so before a segment of unknown kind |
| `DrainMeaning.DrainMeans` | crates/inbox/src/multiplexer.rs:116-178 | a whole drain is what its batches say, one after the other, each from the delayed count announced before it and with its own block hash; the first that does not end normally is the last |
| `DrainProperties.DrainPlacesDue` | crates/inbox/src/multiplexer.rs:254-289 | the messages a drain emits without a batch hash are, batch by batch, the delayed messages from the count before it to its own, in order; none for a batch whose count falls |
| `DrainProperties.DrainLength` | crates/inbox/src/multiplexer.rs:135-292 | a drained list of batches gives the sum over them of max(1, L2 + max(delayed segments, delayed messages due)) messages |
| `DrainProperties.DrainJumps` | crates/streamer/src/streamer.rs:288-302 | a whole drain passes the streamer's check if and only if each of its batches does: nothing fails between two batches |
| `Runs.RunsKeep` | crates/inbox/src/tracker.rs:335-424 | every state of every run of ingests, arrivals, rollbacks above what the batches have read, and rewinds of batches together with the log satisfies the pipeline invariant |
| `Runs.RunsOwn` | crates/inbox/src/tracker.rs:598-625 | in every state of every run, for every stored message, what the search answers is the batch that produced it |
| `Runs.RunsPlace` | crates/inbox/src/multiplexer.rs:254-289 | in every state of every run, the delayed messages in the log are number 0 up to the last batch's count, in order, once each |
| `Rewinds.BatchRewindIff` | crates/inbox/src/tracker.rs:673-700 | after a rollback of batches, truncating the log explains it again if and only if it is cut at the message count that the rollback returns |
| `EndToEnd.WellFormedIngest` | crates/inbox/src/tracker.rs:335-424 | an ingest of well-formed batches succeeds if and only if the chain checks pass; otherwise the store is unchanged if a delayed message is missing and keeps the appended messages if none is |
| `EndToEnd.ArrivalKeepsIff` | crates/inbox/src/tracker.rs:499-574 | accepted delayed messages, new or repeated, leave batches and log explained if and only if they start at or above what the last batch has read |
| `EndToEnd.RollbackKeepsIff` | crates/inbox/src/tracker.rs:155-165 | a rollback of delayed messages leaves batches and log explained if and only if it stops at or above what the last batch has read |
| `TrackerSpec.RollbackIsExact` | crates/inbox/src/tracker.rs:427-497 | the first index row above p names the batches to keep: all kept have delayed count at most p, the next one has more |
| `FallingCounts.AddIsExactIff` | crates/inbox/src/tracker.rs:281-314 | after an add to a store in order, delayed changes roll back exactly enough at every position if and only if each new delayed count above the one before it is above all earlier ones |
| `DelayedOps.AddDelayedKeeps` | crates/inbox/src/tracker.rs:499-574 | adding at p keeps exactly the batches with delayed count at most p, their checked accumulators and the messages below p |
| `DelayedOps.ReorgDelayedKeeps` | crates/inbox/src/tracker.rs:155-165 | a delayed rollback removes exactly the batches that read past it and the block rows from there on, keeps the rest and their checked accumulators, and the messages below |
| `DelayedOps.ReAddIsNoOpIff` | crates/inbox/src/tracker.rs:499-574 | adding messages that are already there changes nothing if and only if they are the last ones and no batch has read past their start |
| `BatchOps.AddBatchesKeeps` | crates/inbox/src/tracker.rs:167-329 | an add replaces exactly the tail of batches, keeps the invariant and leaves nothing to clear |
| `Recovery.CrashRunsAreSound` | crates/inbox/src/tracker.rs:316-321 | however often operations are interrupted between commits, the invariant holds and every batch left still matches the accumulator it was checked against |
| `Recovery.RestartRecovers` | crates/inbox/src/tracker.rs:130-154 | after a crash the count comes out as the number of batches with metadata; leftover index rows all lie above the last batch's delayed count |
| `Tracker.InboxTracker.GetBatchMetadata` | crates/inbox/src/tracker.rs:94-116 | a read through the cache returns what an uncached read would, whatever was evicted |
| `Tracker.InboxTracker.AddSequencerBatches` | crates/inbox/src/tracker.rs:167-329 | all or nothing but for the metadata removal committed first; the cache stays coherent |
| `Tracker.InboxTracker.AddDelayedMessages` | crates/inbox/src/tracker.rs:499-574 | all or nothing: fails exactly when a message does not continue the chain, its bytes do not parse, or an index row above the first is unreadable; else commits the add; the cache stays coherent |
| `Tracker.InboxTracker.FindInboxBatchContainingMessage` | crates/inbox/src/tracker.rs:598-625 | terminates and, with strictly increasing counts, returns the batch whose message range holds the position, or none |
| `Ingest.AddSequencerBatchesAndStream` | crates/inbox/src/tracker.rs:335-424 | on every whole log whose counts can be searched, or that ends where the window begins, the plan is followed: refused, skipped without change, or drained from the planned position with the outcomes listed |
| `EndToEnd.IngestedLog` | crates/inbox/src/tracker.rs:402-424 | on every whole log and from any delayed position an ingest adds the drain's messages exactly if there are any, the drain ended without error or panic, and each reports at most one delayed message more than the one before it; else nothing changes; then either all batches are stored or nothing else changes |
| `StrandedLogs.StaysStranded` | crates/inbox/src/tracker.rs:353-400 | through every run of appends, delayed messages coming and going, rollbacks of batches and ingests over stored batches, a stranded log stays stranded |
| `StrandedLogs.WayOut` | crates/inbox/src/tracker.rs:697-700 | however an explained log was stranded and whatever followed, truncating it explains it again, by the batches left, if and only if it is cut at their message count |
| `StrandedLogs.ChangedLogPlan` | crates/inbox/src/tracker.rs:353-400 | however the log alone was truncated and appended to, windows are taken up that begin where it now ends, or whose first batch it now ends in, or the first one over no batch, from the delayed count before them or else the number stored; all others are skipped |
| `LogSurplus.SurplusStays` | crates/inbox/src/tracker.rs:370-400 | drained from the delayed count before its window, an ingest leaves that number as it was: the log is in line afterwards if and only if it was before |
| `Streamer.TransactionStreamer.AddMessagesAndEndBatch` | crates/streamer/src/streamer.rs:228-313 | on a whole log an add appends all messages verbatim, feed or confirmed alike, exactly if it starts at the end and no message raises the delayed count by more than one over the one before; otherwise it fails and changes nothing |
| `Execution.ExecRunsKeep` | crates/streamer/src/streamer.rs:314-342 | in every interleaving results exist for exactly a prefix, each digested on the block of the one before |
| `Execution.ResultsAre` | crates/node/src/engine_adapter.rs:92-135 | in every state of every interleaving, result i is what the engine made of message i on genesis or on the block hash in result i - 1, at the message's own timestamp if that was ahead of the clock and at the next tick otherwise |
| `TipCheck.TipDecides` | crates/primitives/src/accumulator.rs:3-8 | two chains of one length have equal tips if and only if all their messages agree |
| `Reader.InboxReader.CheckDelayed` | crates/inbox-reader/src/reader.rs:188-222 | reports a reorg if and only if some delayed message differs from the parent chain's, which one accumulator decides; an unanswered count rolls everything back, and an unanswered accumulator counts as zero |
| `Reader.RunsInBounds` | crates/inbox-reader/src/reader.rs:139-180 | for all heights and outcomes, windows lie within the first block and the height, and sizes within their limits |
| `Reader.NoBlockIsSkipped` | crates/inbox-reader/src/reader.rs:260-275 | every block before the position reached has been looked at |
| `Reader.EveryBlockIsReached` | crates/inbox-reader/src/reader.rs:532-543 | every block is looked at and passed in the end: by as many rounds without reorg or gap that find nothing missing or take something in as there are blocks up to it, whatever their heights as long as they reach it |
| `Reader.EmptyWindowsReach` | crates/inbox-reader/src/reader.rs:525-543 | while windows come back empty, exactly the blocks of the largest window are looked at in the end; only the next block if the window has no blocks |
| `SledStore.BatchRefines` | crates/db-sled/src/lib.rs:34-47 | replaying a write batch on bytes represents replaying it on tables |
| `SledStore.DeletionRefines` | crates/inbox/src/util.rs:4-20 | deleting by prefix on bytes removes exactly a table's rows at or above an index, and nothing else |
| `SledStore.ScanRefines` | crates/db-sled/src/lib.rs:58-89 | a finished byte scan has visited the table's rows in ascending order |
| `Message.MetadataRoundTrip` | crates/primitives/src/message.rs:11-42 | stored messages survive encoding and decoding before any suffix |
| `SequencerMessages.FramingRoundTrip` | crates/batch-poster/src/poster.rs:102-125 | parsing what the poster built returns its bounds, delayed count and segments up to the cap |
| `BigEndian.LexIsNumeric` | crates/primitives/src/dbkeys.rs:23-25 | for byte strings of equal width, dictionary order is numeric order, both ways |
| `Rlp.StringRoundTrip` | crates/primitives/src/l1.rs:119-140 | an RLP string followed by anything decodes to itself and leaves exactly what followed |
| `Rlp.UintRoundTrip` | crates/primitives/src/l1.rs:102-164 | an RLP integer of any width up to 32 bytes, followed by anything, decodes to itself and leaves what followed |
| `Rlp.VecRoundTrip` | crates/primitives/src/l1.rs:166-207 | a byte vector, in either of the two forms a library may give it, followed by anything, decodes to itself and leaves what followed |
| `Rlp.StringIsCanonical` | crates/primitives/src/l1.rs:141-164 | and conversely: whatever decodes as an RLP string is the encoding of that string followed by what is left, so no other form is accepted |
| `Rlp.UintIsCanonical` | crates/primitives/src/l1.rs:141-164 | the same for integers |
| `Rlp.VecIsCanonical` | crates/primitives/src/l1.rs:189-207 | the same for byte vectors in either form |
| `Layouts.StringLayout` | crates/primitives/src/l1.rs:102-140 | an RLP string is the byte itself if it is a lone small one, and otherwise 128 plus its length or 183 plus the length of its length before it |
| `Layouts.ListLayout` | crates/primitives/src/l1.rs:102-140 | an RLP list is its items behind 192 plus their length, or 247 plus the length of their length |
| `Layouts.IntegerLayout` | crates/primitives/src/l1.rs:102-140 | an RLP integer is the string of its big-endian bytes without leading zeros |
| `L1Message.L1HeaderRoundTrip` | crates/primitives/src/l1.rs:102-164 | every L1 header, with or without a request id, decodes from its encoding plus any suffix, leaving the suffix |
| `Layouts.L1HeaderLayout` | crates/primitives/src/l1.rs:121-139 | kind, poster, block number, timestamp, request id or the byte 192, and base fee, in this order and as one list |
| `L1Message.EncodeL1Header` | crates/primitives/src/l1.rs:102-140 | the hand-written length equals the number of bytes written |
| `L1Message.L1MessageRoundTrip` | crates/primitives/src/l1.rs:166-207 | every L1 message, with or without a batch gas cost, decodes from its encoding plus any suffix, leaving the suffix |
| `L1Message.EncodeL1Message` | crates/primitives/src/l1.rs:166-188 | the message's hand-written length equals the number of bytes written |
| `L1Message.LegacyRoundTrip` | crates/primitives/src/l1.rs:250-296 | serializing then parsing restores every message that has a request id, but for its gas cost |
| `L1Message.LegacyBytesRoundTrip` | crates/primitives/src/l1.rs:250-296 | parsing then serializing restores the bytes exactly when the twelve padding bytes are zero |
| `Layouts.DelayedLayout` | crates/primitives/src/l1.rs:250-296 | which bytes of the fixed layout are which field, for whatever is parsed and whatever is serialized |
| `Layouts.LinkLayout` | crates/primitives/src/accumulator.rs:3-8 | an accumulator is the hash of the one before it and the hash of the message's body, whose bytes are told field by field |
| `Layouts.ChainStarts` | crates/inbox/src/tracker.rs:499-530 | the chain begins with thirty-two zero bytes |
| `Layouts.BatchChainStarts` | crates/inbox/src/tracker.rs:167-245 | batches that are accepted from number zero on begin at an inbox accumulator of thirty-two zero bytes |
| `Message.MetadataInjective` | crates/streamer/src/streamer.rs:185-186 | two records have equal encodings exactly when they are equal, so the duplicate check on bytes is one on messages |
| `Message.BlockHashRoundTrip` | crates/primitives/src/message.rs:55-83 | the optional block hash survives encoding and decoding before any suffix |
| `Message.ResultRoundTrip` | crates/primitives/src/message.rs:88-116 | execution results survive encoding and decoding before any suffix |
| `SequencerMessages.DecodeSegments` | crates/inbox/src/multiplexer.rs:57-77 | the loop returns the longest decodable run of segments, cut at the cap of 102401 |
| `SequencerMessages.ParseSequencerMessage` | crates/inbox/src/multiplexer.rs:33-89 | fails exactly on fewer than 40 bytes or a payload that begins with 1 and does not decompress; else gives the five big-endian numbers and the longest decodable run of segments, at most 102401, of the payload, decompressed from byte 41 on if byte 40 is 1 |
| `SequencerMessages.BatchPoster.BuildBatchBytes` | crates/batch-poster/src/poster.rs:79-126 | builds nothing exactly when the delayed count has not moved since the last call; else fails exactly when the bounds or the compression do, or gives the five numbers big-endian, a 1 and the compressed segments in order; the count is noted in any case |
| `Multiplexer.SeekResumes` | crates/inbox/src/multiplexer.rs:180-214 | resuming the cached cursor gives what a scan from the start of the batch gives |
| `Multiplexer.InboxMultiplexer.constructor` | crates/inbox/src/multiplexer.rs:103-114 | a new multiplexer stands for the whole one-pass drain of its batches |
| `Multiplexer.InboxMultiplexer.IsCachedSegmentLast` | crates/inbox/src/multiplexer.rs:135-152 | true exactly when every delayed message is placed and no later segment emits |
| `Multiplexer.InboxMultiplexer.EmitCurrent` | crates/inbox/src/multiplexer.rs:216-291 | the result and the new counter are the head of the remaining walk |
| `Multiplexer.InboxMultiplexer.Pop` | crates/inbox/src/multiplexer.rs:154-178 | one pop removes exactly the head of what remains of the one-pass drain, or reports how it ends |
| `DrainProperties.WalkDone` | crates/inbox/src/multiplexer.rs:180-292 | a batch of known kinds drains fully if and only if its L2 segments are readable and its delayed messages exist |
| `DrainProperties.BatchLength` | crates/inbox/src/multiplexer.rs:135-292 | a drained batch gives max(1, L2 + max(delayed segments, delayed messages due)) messages |
| `DrainMeaning.SpeakersAre` | crates/inbox/src/multiplexer.rs:185-205 | the segments that stand for a message are exactly those that begin with 0, 1 or 2, in order |
| `DrainProperties.IncrementIsLength` | crates/inbox/src/tracker.rs:284-291 | the increase the tracker records is the drained length if and only if the batch claims no more delayed messages than are due and is not empty |
| `DrainProperties.DrainClimbs` | crates/inbox/src/multiplexer.rs:116-128 | with counts that do not fall, a whole drain passes the check and ends at the last batch's count |
| `DrainProperties.DrainPlaces` | crates/inbox/src/multiplexer.rs:254-289 | if the counts do not fall, those are all delayed messages from the starting count to the final one, in order, once each |
| `DrainProperties.BatchJumps` | crates/streamer/src/streamer.rs:288-302 | a drained batch passes the streamer's check if and only if its count falls by at most one or no L2 segment follows a delayed segment |
| `DrainProperties.FallingCountJumps` | crates/streamer/src/streamer.rs:288-302 | the shortest failing batch, a delayed segment before an L2 segment: it passes if and only if the count falls by at most one |
| `DrainProperties.WalkClocks` | crates/inbox/src/multiplexer.rs:192-245 | timestamps and block numbers of L2 messages lie within the batch's bounds and never go back |
| `Store.Database.NewIterator` | crates/inbox/src/db.rs:15-22 | lists the stored rows of a table from a start index, in ascending order |
| `Store.Database.Write` | crates/inbox/src/db.rs:1-5 | commits a batch as a whole, as the trait intends |
| `Store.DeleteStartingAt` | crates/inbox/src/util.rs:4-20 | stages the removal of exactly the table's rows at or above the start, on top of whatever is staged |
| `SledStore.KeysDiffer` | crates/primitives/src/dbkeys.rs:1-33 | no two keys of the store share their bytes; table prefixes never meet each other or the count keys |
| `SledStore.KeyOrder` | crates/primitives/src/dbkeys.rs:28-33 | within a table, byte order of keys is numeric order of indexes |
| `SledStore.ValueRoundTrip` | crates/inbox/src/tracker.rs:62-116 | every kind of stored value is read back as written |
| `Layouts.KeyLayout` | crates/primitives/src/dbkeys.rs:1-33 | a row's key is the letter of its table, as a number, and its index in eight big-endian bytes; the three counts are under their names |
| `Layouts.ValueLayout` | crates/inbox/src/tracker.rs:62-116 | the bytes of every stored value, number by number: which fields, in which order, as RLP strings, integers and lists or in fixed width |
| `SledStore.SledBatch.Write` | crates/db-sled/src/lib.rs:34-47 | operations are applied one at a time in order, with every content in between visible |
| `SledStore.Range` | crates/db-sled/src/lib.rs:58-64 | lists in byte order exactly the keys from a bound on |
| `SledStore.SledIter.Next` | crates/db-sled/src/lib.rs:68-89 | yields the next key, or stops at the first one without the prefix |
| `SledStore.ScanIsComplete` | crates/db-sled/src/lib.rs:58-89 | a scan that stops at the first key without the prefix misses nothing |
| `SledStore.DeleteStartingAt` | crates/inbox/src/util.rs:4-20 | stages the removal of exactly the keys with the prefix that are not below the start key |
| `SledStore.ReadsAgree` | crates/db-sled/src/lib.rs:105-113 | looking up and decoding a key's bytes gives what the tables hold |
| `SledStore.DeleteRows` | crates/inbox/src/util.rs:4-20 | deletion by prefix and the write together represent the tables without those rows |
| `TrackerSpec.DropMetasKeeps` | crates/inbox/src/tracker.rs:575-596 | dropping metadata from any batch on keeps the invariant for the batches left |
| `DelayedOps.ReorgKeepsChain` | crates/inbox/src/tracker.rs:155-165 | a rollback keeps the delayed chain unbroken if and only if its count is not above the current one |
| `DelayedOps.AddKeepsChain` | crates/inbox/src/tracker.rs:499-574 | adding keeps the delayed messages an unbroken hash chain from zero |
| `BatchOps.ReorgBatchesKeeps` | crates/inbox/src/tracker.rs:673-700 | a rollback of batches keeps exactly the first batches and leaves no index row above them |
| `BatchOps.AddIsReorgThenPut` | crates/inbox/src/tracker.rs:219-321 | the interleaved deletes and puts of an add amount to a rollback to its first batch followed by the new ones |
| `BatchOps.RepairedIsCount` | crates/inbox/src/tracker.rs:130-154 | counting down from any stored count that is too high finds the number of batches with metadata |
| `FallingCounts.ExactIffHighs` | crates/inbox/src/tracker.rs:466-494 | an index with one row per count rolls back exactly at every position if and only if every rise of the delayed counts is a new high |
| `FallingCounts.AddToInvIsExactIff` | crates/inbox/src/tracker.rs:281-314 | in particular after an add at any batch of a store that satisfies the tracker's invariant |
| `FallingCounts.StaysReady` | crates/inbox/src/tracker.rs:219-224 | after such an add the store is in order again if and only if the last count is the highest |
| `FallingCounts.AddAfterFallMisleads` | crates/inbox/src/tracker.rs:219-224 | once the last count lies below an earlier one, any further add loses the earlier one's row and a delayed change keeps a batch that read past it |
| `FallingCounts.AnyCountsAreAccepted` | crates/inbox/src/tracker.rs:226-272 | counts in any order, as far as the delayed messages reach, are those of batches that pass every check |
| `FallingCounts.FallingCountsMislead` | crates/inbox/src/tracker.rs:306-310 | on every store with at least x delayed messages, batches with counts x, y, z where y < z <= x are accepted and a change at z - 1 keeps the first |
| `Tracker.InboxTracker.Initialize` | crates/inbox/src/tracker.rs:44-60 | gives zero to each count that is missing and changes nothing else |
| `Tracker.InboxTracker.GetBatchCount` | crates/inbox/src/tracker.rs:130-154 | returns the largest count whose last batch has metadata and writes it back only if it changed |
| `Tracker.InboxTracker.DeleteBatchMetadataStartingAt` | crates/inbox/src/tracker.rs:575-596 | removes exactly the metadata from an index on, in one commit, and keeps the cache coherent |
| `Tracker.InboxTracker.SetDelayedCountReorg` | crates/inbox/src/tracker.rs:427-497 | stages deletes and counts, and commits only the metadata removal |
| `Tracker.InboxTracker.ReorgDelayedTo` | crates/inbox/src/tracker.rs:155-165 | either changes nothing or commits, in this order, the metadata removal and the rollback |
| `Tracker.InboxTracker.CheckBatches` | crates/inbox/src/tracker.rs:226-272 | accepts exactly consecutive batches with chained inbox accumulators and matching delayed ones |
| `Tracker.InboxTracker.ReorgBatchesToDb` | crates/inbox/src/tracker.rs:673-700 | fails exactly on a future batch count, else commits the rollback and returns the message count left |
| `StreamerSpec.AppendExtends` | crates/streamer/src/streamer.rs:80-102 | appending at the end extends the log by exactly the given messages and touches nothing else |
| `StreamerSpec.TruncateCuts` | crates/streamer/src/streamer.rs:104-158 | a truncation keeps the log whole if and only if it is not past its end, and then cuts it exactly there |
| `Streamer.TransactionStreamer.WriteMessages` | crates/streamer/src/streamer.rs:80-102 | writes messages, block hashes and the count in one commit |
| `Streamer.TransactionStreamer.AddMessagesAndReorg` | crates/streamer/src/streamer.rs:104-158 | refuses only index 0; truncates log and results together and then appends, in two commits |
| `Streamer.TransactionStreamer.ReorgAt` | crates/streamer/src/streamer.rs:410-412 | the truncation alone: refused at index 0, else committed |
| `StreamerSpec.DuplicatesAre` | crates/streamer/src/streamer.rs:170-227 | the search finds the longest stored prefix, up to a gas cost that one side lacks, and a reorg if and only if something else is stored where the next message would go |
| `Streamer.TransactionStreamer.CountDuplicateMessages` | crates/streamer/src/streamer.rs:170-227 | the loop returns what `DuplicatesAre` describes |
| `Streamer.TransactionStreamer.CheckJumps` | crates/streamer/src/streamer.rs:288-302 | accepts exactly the lists in which no message raises the counter by more than one |
| `Ingest.StreamAndAdd` | crates/inbox/src/tracker.rs:402-424 | from any whole log and any delayed position: drain, append, add, and what is stored after each way that can end |
| `Pipeline.WellFormedDrains` | crates/inbox/src/multiplexer.rs:154-292 | well-formed batches drain fully or stop at a missing delayed message, and those that drain yield at least one message |
| `Pipeline.DrainsIffAvailable` | crates/inbox/src/multiplexer.rs:154-292 | well-formed batches drain fully if and only if every delayed message up to the last batch's count exists |
| `Pipeline.RecordedIsDrained` | crates/inbox/src/tracker.rs:282-298 | the recorded increase in message count of a well-formed batch is the number of messages it drains to |
| `Pipeline.DrainSlices` | crates/inbox/src/tracker.rs:282-314 | the drain of many batches, cut at the recorded counts, is each batch's own drain |
| `EndToEnd.StartHolds` | crates/inbox/src/tracker.rs:44-60 | an initialized empty store satisfies the pipeline invariant |
| `EndToEnd.IngestKeeps` | crates/inbox/src/tracker.rs:335-424 | a successful ingest leaves the stored message count at the last batch's, the log explained by the batches, and their metadata as the parent chain gave them |
| `EndToEnd.InvIsCaughtUp` | crates/inbox/src/tracker.rs:282-314 | in every such state the message counts strictly increase and the log ends at the last of them |
| `EndToEnd.OwnerDrainedIt` | crates/inbox/src/tracker.rs:598-625 | the batch named for a stored message is the one whose drain put that very message there |
| `EndToEnd.FindOwner` | crates/inbox/src/tracker.rs:598-625 | on every such state the search answers, and changes nothing |
| `Rewinds.DelayedRewindIff` | crates/inbox/src/tracker.rs:427-497 | the same after a rollback of delayed messages that drops batches |
| `Rewinds.ArrivalRewindIff` | crates/inbox/src/tracker.rs:499-574 | the same after an addition of delayed messages that drops batches |
| `LogSurplus.IngestSurplus` | crates/inbox/src/tracker.rs:402-424 | a successful ingest changes the number of messages the log has too many by what its first batch drains to less what is recorded for it, from any whole log and any delayed position |
| `LogSurplus.ColdStartSurplus` | crates/inbox/src/tracker.rs:353-369 | drained from the current delayed count instead, it is lower by what the first batch falls short: the log is in line afterwards if and only if it was ahead by just that |
| `StrandedLogs.RefusedBatchesStrand` | crates/inbox/src/tracker.rs:419-421 | an append whose batches were refused, or that a crash cut off, strands the log, whether or not a batch was stored before |
| `StrandedLogs.BatchRollbackStrands` | crates/inbox/src/tracker.rs:673-700 | a rollback to fewer batches strands the log |
| `StrandedLogs.DelayedRollbackStrands` | crates/inbox/src/tracker.rs:155-165 | a rollback of delayed messages below what the last batch has read strands the log |
| `StrandedLogs.ReAddStrands` | crates/inbox/src/tracker.rs:499-574 | an addition of delayed messages below what the last batch has read strands the log |
| `StrandedLogs.StrandedIngest` | crates/inbox/src/tracker.rs:353-424 | on a stranded log an ingest changes nothing and reports success if a batch is stored, and otherwise appends its drain once more |
| `StrandedLogs.TruncationPlan` | crates/inbox/src/tracker.rs:370-400 | after a truncation of the log alone, the window at the end of the batches is skipped |
| `StrandedLogs.OverlapIsSkipped` | crates/inbox/src/tracker.rs:370-400 | with batches and log in line, a window that begins below the batches stored changes nothing and reports success |
| `Recovery.Perform` | crates/inbox/src/tracker.rs:130-329 | the tracker's methods commit exactly the listed stores, in order |
| `Recovery.PointsAreCommits` | crates/inbox/src/tracker.rs:130-329 | the points that carry the checked accumulators are exactly the stores committed |
| `Recovery.CommitsAreSound` | crates/inbox/src/tracker.rs:490-494 | every commit of every operation, the eager one included, keeps the invariant with the accumulators the batches were checked against when added |
| `Recovery.CrashBetweenKeepsPrefix` | crates/inbox/src/tracker.rs:490-494 | a crash between the two commits leaves a prefix of the batches and the delayed messages untouched |
| `Recovery.AddBatchesSound` | crates/inbox/src/tracker.rs:219-224 | the next successful add repairs the count and clears the leftover index rows |
| `Recovery.PartOfABatchBreaks` | crates/db-sled/src/lib.rs:34-47 | after the first put alone of an append, a batch that was refused before is accepted and stored with a delayed count above the number of delayed messages |
| `Execution.RethExecEngine.HeadMessageIndex` | crates/node/src/engine_adapter.rs:66-90 | the newest index below the message count that has a result |
| `Execution.RethExecEngine.DigestMessage` | crates/node/src/engine_adapter.rs:92-118 | digests on the block hash of the previous result (genesis for message 0) at the message's own timestamp or one past the clock; the clock never goes back |
| `Execution.ExecuteNextMsg` | crates/streamer/src/streamer.rs:314-342 | executes exactly the first message without a result, or nothing, and tells whether more is left |
| `Execution.StepKeeps` | crates/streamer/src/streamer.rs:314-342 | appends, truncations and the halves of an execution, in any order, keep the results an in-order chain |
| `Execution.ExecuteIsBeginThenFinish` | crates/streamer/src/streamer.rs:314-342 | an undisturbed execution is its two halves in turn |
| `Execution.LateResult` | crates/streamer/src/streamer.rs:330-341 | storing a result after a truncation keeps the prefix if and only if the truncation was above it |
| `Execution.LateResultAfterAppend` | crates/streamer/src/streamer.rs:330-341 | the same with an append in between: the results are then in order again if and only if the truncation was above the result's index, or at it with the new message there digesting to the very same result |
| `TipCheck.BodyBytesInjective` | crates/primitives/src/l1.rs:214-235 | the hashed bytes determine every header field and the payload hash |
| `TipCheck.TipCheckSound` | crates/inbox-reader/src/reader.rs:205-219 | comparing the accumulators at one position is comparing all messages up to it |
| `TipCheck.StoredChainAt` | crates/inbox/src/tracker.rs:62-86 | the chain that is compared consists of the stored messages, each under its number |
| `TipCheck.ReadsBackBytes` | crates/inbox/src/tracker.rs:669-672 | reading a delayed message back returns the stored bytes if and only if their padding is zero |
| `TipCheck.AddedReadsBack` | crates/inbox-reader/src/reader.rs:289-292 | what the reader serializes and adds is what the tracker then reads |
| `Reader.WaitIsLongEnough` | crates/inbox-reader/src/reader.rs:142-180 | the wait is over exactly when the height, less the delay, leaves the minimum of blocks from the next block on; the window then starts there |
| `Reader.RoundMoves` | crates/inbox-reader/src/reader.rs:166-180 | one round in numbers: window, next position and next size, or the error, for each outcome |
| `Reader.ReorgEndsIff` | crates/inbox-reader/src/reader.rs:606-613 | from where a back-off leaves it, a reorg that never resolves ends the loop with an error if and only if the minimum is positive |
| `Reader.PersistentReorgEnds` | crates/inbox-reader/src/reader.rs:606-613 | from any position it does so once the rounds before the last, times the minimum, cover the blocks back to the first |
| `Reader.ZeroMinimumStays` | crates/inbox-reader/src/reader.rs:537-540 | with a minimum of zero the reader stays where it is through any number of reorging rounds without gaps |
| `Reader.EmptyWindowsStall` | crates/inbox-reader/src/reader.rs:525-543 | whatever the limits, no window looks further than the largest size while windows come back empty |
| `Reader.InboxReader.Start` | crates/inbox-reader/src/reader.rs:593-603 | starts at the block of the last delayed message: 0 for a legacy entry, else the number in its block row, else the number in bytes 33 to 41 of the stored message; never before the first message block; and succeeds whenever the delayed chain is whole |
| `Reader.InboxReader.AwaitHeight` | crates/inbox-reader/src/reader.rs:142-165 | takes the first height that is high enough |
| `Reader.InboxReader.Iterate` | crates/inbox-reader/src/reader.rs:166-543 | one round queries the window and leaves the position that `RoundMoves` states in numbers, or fails as it says |
| `Reader.InboxReader.ExpectedBatch` | crates/inbox-reader/src/reader.rs:447-466 | the probe finds nothing to adjust: the batch expected next is the number of batches with metadata |
| `Reader.InboxReader.RecentParentChainBlockToMsg` | crates/inbox-reader/src/reader.rs:554-566 | zero if all batches were posted after the block, else the message count of the last one that was not |
| `Reader.Contiguous` | crates/inbox-reader/src/reader.rs:468-482 | the longest run of batches numbered from the expected one, each the first with its number |

## Left out

- Parent-chain clients, log decoding, header polling and the transport of batch data: network services. What they
  answer is a parameter wherever it matters.
- Payload building and the engine API calls behind a digest: an uninterpreted function of index, message, parent block
  and timestamp.
- The reader's "safe" and "finalized" modes, the timers and channels it waits on, the guessing of offsets in
  transaction input, and unsupported blob batches.
- The reader's comparison of batch accumulators: those are opaque values given by the parent chain, not computed here.
- Snap sync: both callers pass none.
- Block metadata and its two tables, which only the feed fills, and the option that turns tracking on.
- The stable sort by batch number is a library call; `Contiguous` starts from its result.
- Genesis and init-message parsing, configuration and service wiring, the segment source of the poster: flat code.
- I/O errors of the store: reads and writes of the model do not fail by themselves, only on values of the wrong kind.
- The least-recently-used order of the metadata cache: an eviction may drop any entry but the newest, at the same
  size.
- Mutexes and async scheduling: each method is one step; `Execution` splits an execution in two and interleaves those.
- Message, batch and delayed counters are natural numbers: their increments beyond 64 bits are not modelled, while
  fields parsed from bytes, clocks and block numbers are 64-bit with the code's saturation or wrap-around. `SledStore`
  requires stored numbers and indexes to fit 64 bits.
- The value the source uses for "no result yet" (the largest 64-bit number) is an absent option.
- Encoders are functions to byte sequences and decoders functions to a value and the rest, instead of methods that
  move a buffer or a cursor; nothing in the code depends on the buffer.
- BuildBatchBytes: the segments, the bounds and whether their lookup or the compression fails are given by the caller.
- AddSequencerBatchesAndStream: says nothing of logs with gaps, nor of message counts that do not strictly increase
  when the log does not end where the window begins: the search may then answer anything.
- AddMessagesAndEndBatch: on a log with gaps it only promises to fail unchanged or to touch nothing outside the log.
- CountDuplicateMessages: the write-back of gas costs is not modelled, because the source stages it in a batch that is
  never written.
- AwaitHeight: takes a finite list of heights, where the source keeps polling.
- CheckDelayed: the hash is assumed collision-free only on the strings hashed for the two chains, so the equivalence
  is conditional on that.
- RunsKeep: runs do not contain the changes that leave the log unexplained, each of which has its own theorem: batches
  or delayed messages rolled back without the log or down to no batch, appends whose batches are refused or that come
  from no ingest (`StrandedLogs`), and truncations of the log alone (`StrandedLogs.ChangedLogPlan`, `LogSurplus`).
- StaysStranded: an ingest over no batch at all is not a step of it, because its drain may bring the log back in line;
  `LogSurplus.ColdStartSurplus` says exactly when.
- EmptyWindowsReach: configurations whose largest window is within four blocks of the 64-bit limit are left out, where
  a fifth wraps to zero.
