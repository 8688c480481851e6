# UnisonDB: a verified model

UnisonDB is a log-first database. Every write is appended to a segmented write-ahead log, put into memtables, flushed
from there into a B-tree store, and streamed to replicas that replay the same log. This project models that machinery
in Dafny and proves what a user of it relies on: what is found after a crash, what a reader sees under any interleaving
with writers and flushes, and what a replica holds; and, where the code keeps less than that, exactly when.

`dafny verify dfyconfig.toml` checks everything.

## How it is put together

Code that changes things in place is modelled by classes and loops proved against specification functions; protocols
and concurrency by state machines whose runs are arbitrary sequences of steps.

- `Basics`, `Words`: bytes, sequences, fixed-width words.
- `Framing`, `Header`, `Segment`, `WalLayout`, `WalBytes`, `WalLog`: the log on disk. Frames and headers as bytes,
  segments as byte arrays written in place, the recovery scan, rotation, batches, reads by position, reopening. A
  record's index in the log and its (segment, offset) position are shown to determine each other, so the rest of the
  model uses indices.
- `Tail`: one writer and one tailing reader of a segment, one load or store at a time.
- `Cells`, `LogRecords`, `MemPuts`, `RecordMeaning`: what a log means. A store is a map of cells; every operation touches
  cells; the contents of a log are the fold of its committed operations; and what a record does is said once more cell
  by cell, from its entries alone.
- `Transactions`, `Primary`: transaction chains in the log, and the primary's write paths.
- `MemTable`, `TxnQueue`, `Bucket`, `Keys`, `Ordering`: memtables, their flush through the ordered queue, and the Bolt
  driver's flat byte-key map, shown to be a map of cells.
- `Engine`, `Recovery`, `Counts`: the engine as a state machine in which puts, flushes, recovery and the process can
  fail at any step, the recovery code, record counts. `Kept` is what is left of the log without the puts that failed.
- `FlushQueue`, `Checkpoints`: the queue of sealed tables, and where checkpoints get their positions.
- `Reads`, `LobReads`: key, row and large-object reads over tables, log and store.
- `Snapshots`: what a read sees when the engine moves on between its steps.
- `Scenarios`: concrete runs in which something is lost, blocked or mixed up.
- `Replica`, `Replication`, `Replicator`, `Notify`: applying records, streaming with breaks and resumes, the
  replicator's readers, and the wakeup protocol.
- `Pipeline`: all of that in one machine, from the primary's segments to the replica, refining `Replication`.
- `Interpreters`: a primary's log taken by a replica and by recovery.

## Where the code does less than one might expect

Each of these is a proved statement with the exact condition or a concrete run; the code is modelled as it is.

- The recovery scan computes a frame's size in 32 bits. A length word of 2^32-16 or more, where the wrapped size still
  fits, makes it panic (`Framing.ProbePanics`).
- A record whose checksum happens to be zero is dropped, with everything after it, when its unsealed segment is
  reopened (`Framing.FrameFound`, `Wal.FileRestored`).
- After a crash between sealing a segment and creating the next, the current segment is sealed. Single writes then fail
  until one does not fit, and batches always fail, although the batch path is documented to rotate by itself
  (`Wal.WALog.Write`, `Wal.WALog.WriteBatch`).
- A failed append uses up a sequence number. Every replica stops at the next record (`Counts.NumbersFollowPlaces`,
  `Replication.GapBlocksReplica`, `Replication.FailedAppendStopsReplica`).
- A flush counts a key-value transaction as one less and an object as one more than its records, and recovery does not
  count transactions that were never committed. After a restart the sequence numbers then repeat or skip
  (`Scenarios.TransactionShiftsNumbers`, `Counts.NextLsnAfterFullRecovery`), which a replica refuses
  (`Replica.PrecheckPasses`).
- A segment's header checksum is stored after the fields it covers. A process that dies in between leaves a file that
  does not open, and one such file keeps the whole log from opening (`SegmentHeaders.CrashPoint`,
  `Wal.RefusedAfterCrash`). The same holds for a file whose first header was not finished
  (`SegmentHeaders.CreationCrash`).
- An entry too large for an empty memtable is in the log but lost once the checkpoint of a table put after it is saved
  (`Scenarios.OversizeEntryLost`, `Engine.RecoveredCell`). If the active table is empty when it comes, that table is
  sealed, and the flusher never gets past it: nothing more is flushed until the next start
  (`Scenarios.OversizeEntryBlocksFlush`, `FlushQueue.EmptyTableQueued`, `FlushQueue.BlockedStays`).
- A batch or commit that fills a whole table before it is finished leaves that table without an offset, and saving its
  checkpoint ends the process (`Scenarios.SplitBatchEndsProcess`, `Checkpoints.SavingEndsProcess`).
- A key-value transaction committed without a put is accepted, and after the next crash the engine never opens again
  (`Scenarios.EmptyInsertBlocksStart`, `Engine.OpensIffRecoverable`).
- The same holds for a key longer than Bolt's limit of 32768 bytes, which nothing else limits. Its flush ends the
  process (`Scenarios.OverlongKeyBlocksStart`, `Engine.OpensIffRecoverable`, `MemTables.MemTable.Flush`).
- A column with an empty name can be read until its table is flushed and not after
  (`Scenarios.UnnamedColumnDisappears`, `Snapshots.RowReadIsFold`).
- A row name that starts with the row marker byte is not length-prefixed, and its prefix covers other rows
  (`Keys.MarkedRowNotIsolated`).
- A row read during which a newer table is sealed and flushed can return a mixture that was never the row's state
  (`Scenarios.NewerFlushMixesMoments`, `Snapshots.CellRead`).

## Model

| member | source | states |
|---|---|---|
| Framing.AlignUp | pkg/walfs/segment.go:445-447 | the least multiple of eight not below n |
| Framing.OverheadIsEntrySize | pkg/walfs/walog.go:435-437 | the size estimate of the log equals the frame size the segment uses, for every payload length |
| Framing.FrameFields | pkg/walfs/segment.go:477-492 | the bytes a writer puts down carry exactly the fields a reader and the scan look for |
| Framing.FramesDisjoint | pkg/walfs/segment.go:465-494 | frames start at multiples of eight and each ends at or before the start of the next |
| Framing.FieldsUnique | pkg/walfs/segment.go:639-701 | at most one payload can be read at an offset |
| Framing.LaidSame | pkg/walfs/segment.go:452-516 | frames stay readable whatever happens to bytes outside their span |
| Framing.ProbeFinds | pkg/walfs/segment.go:401-437 | one round of the scan accepts every valid frame, at its length |
| Framing.ProbeFound | pkg/walfs/segment.go:401-437 | whatever one round accepts is a valid frame |
| Framing.ScanChecks | pkg/walfs/segment.go:401-437 | what the scan accepts at an offset, byte by byte: the saved word is the checksum of the length word and the bytes it counts, it is not zero, and the trailer bytes follow |
| Framing.FieldsCheck | pkg/walfs/segment.go:477-492 | a frame as it is written satisfies the same relation between its bytes |
| Framing.DamageStopsScan | pkg/walfs/segment.go:418-434 | a frame whose payload was changed, so that its checksum is another, is not accepted |
| Framing.ProbePanics | pkg/walfs/segment.go:407-416 | the scan panics (slice out of range) at an offset if and only if the 32-bit sum of length, header and trailer wraps there and the wrapped size still fits |
| Framing.LongestUnique | pkg/walfs/segment.go:398-440 | the bytes determine the longest run of valid frames |
| Framing.FrameFound | pkg/walfs/segment.go:418-434 | the scan accepts a written frame if and only if its checksum is not zero |
| Framing.DamageKeepsPrefix | pkg/walfs/segment.go:398-440 | if some leading frames survive damage and nothing valid stands behind them, the longest run is exactly those frames |
| Framing.CleanReopen | pkg/walfs/segment.go:398-440 | over a zeroed tail the longest run is the frames before the first zero checksum |
| Segments.ScanForLastOffset | pkg/walfs/segment.go:398-440 | the scan loop returns the end of the longest run of valid frames from offset 64, and fails if and only if the length word there overflows |
| Segments.WriteFrame | pkg/walfs/segment.go:477-492 | the copies of header, payload, trailer and padding replace exactly one frame of bytes |
| Segments.Segment.UpdateHeader | pkg/walfs/segment.go:497-504 | the stores of a header update one by one, the checksum last: the outcome is the finished update, whose checksum matches |
| Segments.Segment.Create | pkg/walfs/segment.go:251-311 | a new segment is all zero behind its header, active and empty, and its header opens |
| Segments.Segment.SealSegment | pkg/walfs/segment.go:323-347 | keeps the records; the header gets the write offset and the sealed flag with a matching checksum, which is what opening a sealed file relies on |
| Segments.Segment.Write | pkg/walfs/segment.go:452-516 | succeeds if and only if the segment is active and the frame fits; then exactly one frame of bytes changes, at the old write offset, the header is brought up to date, and the records grow by one; otherwise nothing changes |
| Segments.Segment.WriteBatch | pkg/walfs/segment.go:524-633 | writes exactly the records that fit, at the offsets single writes would use and with the same bytes, with the error for the first that does not fit, and refuses everything for one no segment can hold |
| Segments.Segment.PlanBatch | pkg/walfs/segment.go:549-575 | the planning loop finds the exact number of records that fit, their positions, and whether the next is too large for any segment |
| Segments.FramedConcat | pkg/walfs/segment.go:524-633 | the bytes a batch leaves are those that writing its records one at a time leaves |
| Segments.FitsUnique | pkg/walfs/segment.go:549-575 | that number is unique |
| Segments.ReadFinds | pkg/walfs/segment.go:639-701 | a frame below the write offset reads back, with or without the checksum check, despite the 32-bit comparison |
| Segments.ReadInside | pkg/walfs/segment.go:639-701 | nothing that reaches past the write offset is ever returned |
| Segments.Segment.Read | pkg/walfs/segment.go:639-701 | returns the bytes behind the header, as many as the length word says; with the check, only if the saved word is the checksum of length word and payload; a record's offset gives its payload and the next offset; at or past the write offset it fails |
| Segments.ReadChecks | pkg/walfs/segment.go:660-694 | the same of any bytes, written by the log or not |
| Segments.DamageFailsRead | pkg/walfs/segment.go:660-694 | a checked read at a frame whose payload was changed, so that its checksum is another, fails with the checksum error |
| Segments.OpenSegmentFile | pkg/walfs/segment.go:251-311 | refused if and only if the header checksum does not match or the scan of an active file panics; a sealed file keeps the records it was sealed with, an active one ends where the scan stops |
| SegmentHeaders.FinishedOk | pkg/walfs/segment.go:129-138 | a finished header update always opens |
| SegmentHeaders.OpensIff | pkg/walfs/segment.go:129-138 | a header opens if and only if the word at byte 56 is the checksum of the 56 bytes before it |
| SegmentHeaders.InitBytes | pkg/walfs/segment.go:385-396 | the first header byte by byte: magic number, version, both times, offset 64, no entries, the active flag, zeroes |
| SegmentHeaders.InitFinished | pkg/walfs/segment.go:385-396 | the first header opens, as active and empty |
| SegmentHeaders.WriteFinished | pkg/walfs/segment.go:497-504 | after a write the header opens, with its flags as before, the count advanced by the records written, the new time, and the low half of the new offset over the old high half |
| SegmentHeaders.SealFinished | pkg/walfs/segment.go:323-347 | after sealing the header opens, sealed and no longer active, with the given offset and time and the count as before |
| SegmentHeaders.CrashPoint | pkg/walfs/segment.go:497-504 | a header left between two stores of an update opens if and only if its first 56 bytes have the checksum they had before |
| SegmentHeaders.FieldsChange | pkg/walfs/segment.go:497-504 | stores of different fields change the header if and only if one of them stores something new |
| SegmentHeaders.WriteChangesFields | pkg/walfs/segment.go:611-617 | the fields differ from those the checksum was taken of exactly from the count store of a write or batch on, or already after the offset store if the low half of the offset is new; such a file opens only by a checksum collision |
| SegmentHeaders.SealChangesFields | pkg/walfs/segment.go:334-344 | the same for sealing, after every number of stores: the time and the offset count if they are new, the flags always |
| SegmentHeaders.CreationCrash | pkg/walfs/segment.go:385-396 | a file left with no header or a part of one opens if and only if its first 56 bytes have checksum zero |
| WalLayout.PositionsIncrease | pkg/walfs/walog.go:324-361 | later records have strictly later (segment, offset) positions, so index and position determine each other |
| WalLayout.PositionHolds | pkg/walfs/walog.go:451-474 | the record at a position is the record with that index |
| WalLayout.PlaceKeeps | pkg/walfs/walog.go:324-361 | a placed record comes last, at the end of the last segment |
| WalLayout.PlaceKeepsPosition | pkg/walfs/walog.go:324-361 | placing a record moves no other |
| WalLayout.PlaceAllKeepsPosition | pkg/walfs/walog.go:365-433 | any later sequence of appends moves no record |
| WalLayout.BatchRound | pkg/walfs/walog.go:386-428 | one round of the batch loop keeps the final layout and positions, and writes something unless the segment already held records |
| WalLayout.BatchRotates | pkg/walfs/walog.go:421-425 | rotating between rounds does not change the layout the batch ends in |
| WalLayout.LayoutStable | pkg/walfs/walog.go:324-433 | a record's position does not depend on what is appended after it |
| WalLayout.LengthsDecide | pkg/walfs/walog.go:324-433 | the layout depends only on the record lengths |
| WalLayout.SamePositions | pkg/walfs/walog.go:324-433 | logs of the same lengths have the same positions |
| Wal.WALog.constructor | pkg/walfs/walog.go:242-252 | an empty directory becomes one empty active segment |
| Wal.WALog.RotateSegment | pkg/walfs/walog.go:502-532 | seals the current segment and adds an empty, zeroed one; all records stay |
| Wal.WALog.Write | pkg/walfs/walog.go:324-360 | too large if and only if it fits no segment; refused as sealed if and only if the current segment is sealed and has room; otherwise layout and bytes are those with one more record, returned at its position |
| Wal.WALog.WriteBatch | pkg/walfs/walog.go:365-433 | ends in exactly the layout, the bytes (padding included) and the positions of single writes; one too-large record or a sealed current segment refuses the whole batch; the loop terminates on (records left, current segment non-empty) |
| Wal.WALog.Read | pkg/walfs/walog.go:451-474 | every position ever returned reads back its record; exact conditions for each error |
| Wal.RecoverSegments | pkg/walfs/walog.go:211-270 | opens every file, seals all but the last and yields the found records per segment; fails if and only if some header checksum does not match or some scan panics |
| Wal.FileRestored | pkg/walfs/segment.go:286-308 | reopening a file that was created and written yields all its records if sealed, else those before the first zero checksum, and its scan never panics |
| Wal.DamagedFile | pkg/walfs/segment.go:398-440 | reopening a damaged active file yields exactly the records before the damage, if nothing valid stands where it begins |
| Wal.DamagedPayload | pkg/walfs/segment.go:418-434 | in particular if a payload of an active file is damaged: reopening yields exactly the records before it |
| Wal.RefusedAfterCrash | pkg/walfs/segment.go:286-295 | a process death after any k field stores of a header update leaves a file, and so a log, that does not open if and only if its first 56 bytes have another checksum than before |
| WalBytes.PlaceAllBytesConcat | pkg/walfs/walog.go:324-433 | bytes written in two goes are those written in one |
| WalBytes.BatchProgressBytes | pkg/walfs/walog.go:386-428 | writing what fits and leaving the rest for later ends in the same bytes |
| WalBytes.RotateFirstBytes | pkg/walfs/walog.go:421-425 | rotating between rounds does not change the bytes the batch ends in |
| WalBytes.PristineAllKept | pkg/walfs/walog.go:324-433 | every segment of a log written from empty is zeroes with its frames laid over them |
| WalBytes.ZeroTail | pkg/walfs/segment.go:452-516 | such a segment is zero behind its last frame, so a scan stops there |
| Tail.NextRecord | pkg/walfs/segment.go:930-964 | while a record is being read, its bytes are all there and below the write offset |
| Tail.RunKeepsInvariant | pkg/walfs/segment.go:323-347 | every single load and store, in any interleaving, keeps the invariant |
| Tail.ReaderSeesPrefix | pkg/walfs/segment.go:930-964 | in every interleaving the reader has a prefix of whole records; end of segment is reported only when it is sealed and everything was delivered; no read fails |
| Tail.NextReturns | pkg/walfs/segment.go:930-964 | what every call returns, in every interleaving: the next record if it was stored when the call loaded the offset; else the end of the segment if it was sealed when the call loaded the flag, else no new data; and in both cases everything stored at the load has been delivered |
| Tail.ReadsLikeRead | pkg/walfs/segment.go:639-701 | with no writer in between, the single steps of a read make the checks of the segment read in its order, on any bytes, and end as it does |
| Cells.ReplayRestores | dbkernel/internal/recovery/wal_recovery.go:56-93 | replaying the operations from k on restores the fold of all, for every store that agrees up to k |
| Cells.FlushEquivalent | dbkernel/internal/memtable/memtable.go:181-256 | any flush that keeps each row's operations in order and the newest of every other key has the effect of all operations in arrival order |
| Cells.FlushSubset | dbkernel/internal/memtable/memtable.go:181-256 | a flush writes only what was put |
| LogRecords.EffectStable | dbkernel/internal/wal/wal.go:348-375 | appending changes neither what an earlier record means nor whether it is valid |
| LogRecords.UncommittedIsInvisible | dbkernel/txn.go:73-160 | a Begin or Prepare record adds nothing to the contents |
| MemPuts.ResolveStable | dbkernel/internal/memtable/memtable.go:258-304 | a memtable entry resolves to the same store operation however the log grows |
| MemPuts.RecordPutsResolve | dbkernel/engine.go:423-544 | the memtable entries of a record resolve to exactly the record's operations |
| RecordMeaning.EntriesMean | dbkernel/internal/recovery/wal_recovery.go:117-178 | what the entries of a record do to the store, said cell by cell from the entries alone: of every key, row and column the last entry that names it decides, and no other cell changes |
| RecordMeaning.RecordMeans | dbkernel/internal/recovery/wal_recovery.go:117-178 | so every record means just that: its own entries if it is plain, those of its whole transaction if it is a commit, one object if that is of chunks, nothing if it is a Begin or Prepare |
| Transactions.GetTransactionRecords | dbkernel/internal/wal/wal.go:348-375 | following the links back and reversing returns the chain ending at the start position; missing positions are errors; it terminates |
| Transactions.TracksThroughOthers | dbkernel/txn.go:73-160 | other writers' records leave an open transaction's chain intact |
| Transactions.TracksPrepare | dbkernel/txn.go:108-178 | a Prepare extends the chain by exactly its own record |
| Transactions.CommitEffect | dbkernel/txn.go:239-295 | a commit's chain is exactly the records carrying its id, Begin then Prepares in order, and its effect is exactly what was appended |
| Transactions.Gather | dbkernel/internal/recovery/wal_recovery.go:201-231 | collects the entries of the prepared records in order |
| Primary.Engine.PersistEntries | dbkernel/engine.go:423-544 | log first, then memtable: if the append fails nothing changes; otherwise the log has one more record, its contents change cell by cell as the entries say, and the memtables get the entries up to the first that does not fit, which is the error |
| Primary.Engine.PersistKeyValue | dbkernel/engine.go:423-484 | in the log, exactly the given keys are set, each to the last value given for it, or removed; the memtables get one write per key in order, up to the first that does not fit |
| Primary.Engine.PersistRowColumnAction | dbkernel/engine.go:487-544 | in the log, exactly the named cells change: set to the last value given, removed, or removed with the whole row; the memtables get one write per row in order, up to the first that does not fit |
| Primary.Engine.NewTxn | dbkernel/txn.go:55-105 | exact conditions for starting a transaction, for every operation and kind; contents unchanged |
| Primary.Txn.Prepare | dbkernel/txn.go:135-178 | appends one Prepare to the chain, with the checksum of its entry, and rolls it into the checksum of the transaction; contents unchanged |
| Primary.Txn.AppendKVTxn | dbkernel/txn.go:108-175 | exact error conditions; contents unchanged until commit |
| Primary.Txn.AppendColumnTxn | dbkernel/txn.go:181-236 | exact error conditions; contents unchanged until commit |
| Primary.Txn.Commit | dbkernel/txn.go:239-295 | makes everything the transaction appended part of the log at once, cell by cell as its entries say, and nothing else; the checksum saved is the one rolled over exactly its Prepare records; then puts it into the memtables as far as it fits; exact error conditions |
| Primary.CommitKeepsValid | dbkernel/txn.go:239-324 | the memtables still hold exactly the log's writes that fit after a commit |
| Primary.MemtablesHold | dbkernel/engine.go:423-610 | in every sequence of calls the memtables stand for the operations of the log less those that did not fit, and for all of them if every put fits |
| Engine.RunKeepsInvariant | dbkernel/engine.go:594-899 | every step keeps the invariant: appending, puts that succeed, rotate a table out or fail and leave it rotated out, flushes that commit a batch or fail, checkpointing, crashing, and recovery that runs through or aborts |
| Engine.CrashRecovery | dbkernel/engine.go:594-899 | in every run, whatever fails and wherever it crashes, replaying the log after the saved checkpoint onto the surviving store gives the fold of the log less the puts that failed in records before that checkpoint; with none of those, exactly the contents of the log |
| Engine.RecoveredCell | dbkernel/engine.go:594-899 | cell by cell: recovered as the last put that was not dropped left it, which is as the log has it unless the very last put of the cell failed in a record before the checkpoint |
| Engine.FittingLosesNothing | dbkernel/engine.go:594-610 | in a run without a failed put nothing is ever dropped |
| Engine.OpensIffRecoverable | dbkernel/internal/recovery/wal_recovery.go:56-93 | after a crash at any step of any run, further starts can bring the engine up if and only if after the saved checkpoint there is neither a key-value insert without entries nor an operation whose key is too long for the store |
| Engine.NeverOpens | dbkernel/internal/recovery/wal_recovery.go:56-93 | with such a record every run of starts stays in recovery, and log and checkpoint never change |
| Scenarios.OversizeEntryLost | dbkernel/engine.go:594-610 | a run in which an entry fits no memtable, the checkpoint of a table put after it is saved, and recovery does not bring it back |
| Scenarios.OversizeEntryBlocksFlush | dbkernel/engine.go:715-748 | the same entry as the first write after a start: from then on nothing is flushed and no checkpoint is saved until the next start, which recovers everything |
| FlushQueue.EmptyTableQueued | dbkernel/engine.go:594-607 | in every run, an empty table is in the flush queue if and only if since the start a put has failed while the active table was empty |
| FlushQueue.NothingPasses | dbkernel/engine.go:715-748 | in every run without a restart an empty table and all tables behind it stay in the queue |
| FlushQueue.BlockedStays | dbkernel/engine.go:715-748 | with an empty table at the head, until the next start, nothing more reaches the store, and only checkpoints of tables flushed before can still be saved |
| FlushQueue.StoreKeysFit | pkg/kvdrivers/bolt.go:62-97 | in every run no key longer than the store allows gets into it, by a flush or by recovery |
| Checkpoints.SavingEndsProcess | dbkernel/engine.go:739-744 | in every run, saving a checkpoint ends the process if and only if no plain record or commit was finished in the table it stands for; otherwise its position is the largest number of such a record |
| Scenarios.SplitBatchEndsProcess | dbkernel/engine.go:470-482 | a run, with every entry fitting a table, of a batch that fills a table before its offset is set, after which saving that table's checkpoint ends the process |
| Scenarios.OverlongKeyBlocksStart | pkg/kvdrivers/bolt.go:86-91 | a run in which a key too long for the store is logged and put, the flush ends the process, and the engine never opens again |
| Scenarios.EmptyInsertBlocksStart | dbkernel/txn.go:239-324 | a run of an accepted transaction committed without a put, after which the engine never opens again |
| Scenarios.TransactionCheckpoint | dbkernel/txn.go:239-324 | a run in which a committed transaction is flushed: the checkpoint saved is at its commit, and counts two for a key, four for an object of one chunk, of the three records |
| Scenarios.TransactionShiftsNumbers | dbkernel/engine.go:327-409 | the same run restarted: the next record gets number 4 again after a key, 6 after an object, where 5 would follow |
| Counts.CheckpointCountsRecords | dbkernel/engine.go:715-748 | for plain records a checkpoint's count is the number of log records up to its position |
| Counts.NextLsnContinuesLog | dbkernel/engine.go:327-409 | the next sequence number is one more than the number of records if and only if no append has failed since start; after a restart always |
| Counts.NumbersFollowPlaces | dbkernel/engine.go:447-466 | in every run over plain records, through crashes and restarts, every record's number is its place in the log if and only if no record was appended after a failed append of the same process |
| Counts.RecoveryCounts | dbkernel/internal/recovery/wal_recovery.go:95-292 | recovery from nothing counts every record but those of transactions never committed |
| Counts.NextLsnAfterFullRecovery | dbkernel/engine.go:327-409 | so the number given out after such a start continues the log if and only if no transaction was left uncommitted |
| Counts.StartQueuesCheckpoint | dbkernel/engine.go:327-409 | a start queues a checkpoint if and only if it replayed a plain record or a commit; once it is saved the next start replays nothing and continues with the same number |
| Recovery.StoreBatch | dbkernel/internal/recovery/wal_recovery.go:117-178 | all entries, cell by cell as they say, or none: refused if an insert batch is empty or the store refuses an entry |
| Recovery.WalRecovery.HandleRecord | dbkernel/internal/recovery/wal_recovery.go:95-115 | a record changes the store by exactly its effect, or fails, exactly when it is an empty insert or has a refused operation, and changes nothing |
| Recovery.WalRecovery.HandleCommit | dbkernel/internal/recovery/wal_recovery.go:185-292 | a commit applies its whole transaction, whatever the kind, or fails and applies nothing |
| Recovery.WalRecovery.Recover | dbkernel/internal/recovery/wal_recovery.go:56-93 | succeeds if and only if no record after the checkpoint is an empty insert or has a refused operation; then the store is the replay, with its count and last position, otherwise the replay up to the first such record; a checkpoint behind the end fails only if it lies outside every segment |
| Recovery.RestartAfterCrash | dbkernel/internal/recovery/wal_recovery.go:56-93 | the recovery code after a crash at any step of any run: succeeds if and only if neither an empty insert nor a refused operation lies after the checkpoint, and then the bucket holds the contents of the log less the puts dropped before the checkpoint |
| Interpreters.RecoveryFolds | dbkernel/internal/recovery/wal_recovery.go:56-292 | recovery from nothing folds the log |
| Interpreters.InterpretersAgree | dbkernel/replica.go:232-432 | a primary's log applied by the replica handler and replayed by the recovery code: the replica takes it if and only if its checks and sizes admit every record, recovery if and only if it can get past each; each that takes it holds the contents of the log, and the primary's memtables stand for the same, less the puts that did not fit |
| MemTables.TimestampsIncrease | dbkernel/internal/memtable/utils.go:15-25 | a row timestamp exceeds the previous one, whatever the clock says, if and only if the counter is not at its end |
| MemTables.InsertNewest | dbkernel/internal/memtable/memtable.go:91-113 | a version with a newer timestamp is added behind all others, oldest first |
| MemTables.RepeatedTimestampLosesVersion | dbkernel/internal/memtable/memtable.go:91-113 | with an equal timestamp exactly the newest version so far would be overwritten: why timestamps must increase |
| MemTables.MemTable.Put | dbkernel/internal/memtable/memtable.go:91-113 | accepted if and only if it fits the arena; then it is the newest arrival |
| MemTables.MemTable.Get | dbkernel/internal/memtable/memtable.go:139-148 | the newest value put under a key |
| MemTables.MemTable.GetRowYValue | dbkernel/internal/memtable/memtable.go:151-178 | all versions of a row, oldest first |
| MemTables.RowProjection | dbkernel/internal/memtable/memtable.go:181-256 | a row's stored versions resolve to its operations in arrival order |
| MemTables.SlotProjection | dbkernel/internal/memtable/memtable.go:181-256 | the stored value of any other key resolves to its newest operation |
| MemTables.MemTable.Flush | dbkernel/internal/memtable/memtable.go:181-256 | fails if and only if the store refuses an operation it writes, replaced ones not counting; otherwise the store ends as if every put had been applied one by one in arrival order, for every queue batch size, and the count returned is exact |
| TxnQueue.BoltTxnQueue.Enqueue | pkg/kvdrivers/bolt_txn_queue.go:48-319 | operations are kept in order and run once the batch size is reached; after an error nothing more is taken |
| TxnQueue.BoltTxnQueue.FlushBatch | pkg/kvdrivers/bolt_txn_queue.go:321-380 | empties the queue into the bucket in order, or, if and only if one operation is refused, changes nothing and sets the error |
| TxnQueue.BoltTxnQueue.Commit | pkg/kvdrivers/bolt_txn_queue.go:387-393 | fails if and only if some operation issued is refused; otherwise the bucket holds everything issued, applied in order |
| TxnQueue.Run | pkg/kvdrivers/bolt_txn_queue.go:48-319 | one queued operation changes the bucket by exactly that operation, or is refused, exactly when one of its keys is too long |
| TxnQueue.Transact | pkg/kvdrivers/bolt_txn_queue.go:321-380 | a transaction has the effect of all its operations in order, or of none if one is refused |
| Words.WordRoundTrip | pkg/kvdrivers/util.go:95-141 | big-endian length words decode to the number modulo 2^32 |
| Keys.ParseFaithful | pkg/kvdrivers/util.go:63-141 | every key parses to the slot whose key it is |
| Keys.ParseColumn | pkg/kvdrivers/util.go:109-128 | a column key parses back to its row and column |
| Keys.ParseChunk | pkg/kvdrivers/util.go:131-141 | a chunk key parses back to its object and index |
| Keys.RowPrefixIsolates | pkg/kvdrivers/util.go:95-104 | a key has a row's prefix if and only if it is a cell of that row |
| Keys.RowKeyTyped | pkg/kvdrivers/util.go:95-104 | exactly which row names get a well-typed key |
| Keys.UserRowsIsolated | pkg/kvdrivers/util.go:95-104 | rows with unmarked names never share a prefix |
| Keys.MarkedRowNotIsolated | pkg/kvdrivers/util.go:95-104 | a row name that starts with the marker byte does share its prefix with another row |
| Keys.BlobKeyTyped | internal/keycodec/keycodec.go:108-118 | exactly which object names get a well-typed key |
| Ordering.PrefixInterval | pkg/kvdrivers/bolt.go:440-470 | keys with a prefix are contiguous in byte order |
| Ordering.PrefixScan | pkg/kvdrivers/bolt.go:440-470 | the cursor loop finds exactly the keys with a prefix, in order |
| BoltBucket.SlotsDistinct | pkg/kvdrivers/util.go:63-141 | different slots have different keys |
| BoltBucket.RepresentsAfter | pkg/kvdrivers/bolt.go:62-97 | changing one flat key changes one cell |
| BoltBucket.BytesDecide | pkg/kvdrivers/bolt.go:62-151 | a flat byte map is the image of at most one store: keys, chunk counts, checksums and chunks can all be read back |
| BoltBucket.Bucket.PutKV | pkg/kvdrivers/bolt.go:62-73 | the flat map with one more key is the store with one more cell; refused if and only if the key is too long |
| BoltBucket.Bucket.DeleteKV | pkg/kvdrivers/bolt.go:261-277 | removes exactly that cell |
| BoltBucket.Bucket.GetKV | pkg/kvdrivers/bolt.go:348-371 | returns the cell, or not found |
| BoltBucket.Bucket.SetRow | pkg/kvdrivers/bolt.go:154-181 | sets exactly the given columns of the row; refused if and only if the key of one of them is too long |
| BoltBucket.Bucket.DeleteColumns | pkg/kvdrivers/bolt.go:184-212 | removes exactly the given columns of the row |
| BoltBucket.Bucket.DeleteRow | pkg/kvdrivers/bolt.go:216-258 | the prefix scan removes exactly the cells of the row |
| BoltBucket.Bucket.ScanRowCells | pkg/kvdrivers/bolt.go:413-438 | returns the row's columns that pass the filter, and not found exactly when there are none |
| BoltBucket.Bucket.SetLobChunks | pkg/kvdrivers/bolt.go:99-151 | replaces the object: old chunks gone, new ones and metadata in place, nothing else touched; refused if and only if a chunk or metadata key is too long |
| BoltBucket.Bucket.GetLobChunks | pkg/kvdrivers/bolt.go:374-408 | returns the chunks last stored, or not found |
| BoltBucket.NoOrphanChunks | pkg/kvdrivers/bolt.go:99-151 | chunk keys of an object are exactly 1 to its count, and never collide with metadata keys |
| Reads.NewestDecides | dbkernel/engine_public.go:424-464 | the newest entry for a key decides its value |
| Reads.FindNewest | dbkernel/engine_public.go:441-461 | active table first, then sealed tables newest to oldest, finds the newest entry |
| Reads.GetKV | dbkernel/engine_public.go:424-464 | returns the value in the store with all tables applied, or not found |
| Reads.BuildColumnMap | dbkernel/internal/memtable/utils.go:29-51 | merges row versions in order |
| Reads.MergeLookup | dbkernel/internal/memtable/utils.go:29-51 | after merging, a column holds what the last version that touched it assigned |
| Reads.GetRowColumns | dbkernel/engine_public.go:580-651 | returns the row with all tables applied to what a scan of the store shows, filtered; exactly when it reports not found, and only if that row is empty |
| Snapshots.ReadsAreConsistent | dbkernel/engine_public.go:580-651 | in every run, a read that copies the table pointers at one moment, reads the active table at a second and the store at a third sees exactly what had been applied at the second, however much is flushed, if nothing applied later is |
| Snapshots.CellRead | dbkernel/engine_public.go:580-651 | without that condition, cell by cell: the read still sees the second moment, unless a later operation on the cell has been flushed and no copied table covers it |
| Snapshots.RowReadIsFold | dbkernel/engine_public.go:580-651 | in every run a row read returns the fold of the row's operations, filtered, unless its unnamed column is wanted, in the store and in no copied table; then exactly that column is missing |
| Snapshots.LayersShowEverything | dbkernel/engine_public.go:424-464 | in every reachable state the layers together show everything applied, and the whole log between writes if no put failed |
| Snapshots.ReachableStoreTyped | dbkernel/engine_public.go:424-464 | the store only ever holds values of their cells' kinds |
| Scenarios.NewerFlushMixesMoments | dbkernel/engine_public.go:580-651 | a run in which a newer table is flushed during a row read, which then returns a row that no prefix of the log ever had |
| Scenarios.UnnamedColumnDisappears | dbkernel/engine_public.go:580-651 | a run in which a column with an empty name can be read from the memtable and is not found after the flush |
| LobReads.ReconstructChunkedValue | dbkernel/engine_public.go:653-673 | following a commit's links through the log and joining the values yields the object's chunks in order |
| LobReads.CommittedChunks | dbkernel/txn.go:239-295 | those chunks are exactly the values the transaction appended |
| LobReads.FindLob | dbkernel/engine_public.go:768-777 | active table first, then sealed newest to oldest: the entry found stands for the newest operation on the object |
| LobReads.GetLob | dbkernel/engine_public.go:747-797 | returns the joined chunks of the object with all tables applied to the store, read through the log or from the store, or not found |
| LobReads.ReadBeforeAndAfterFlush | dbkernel/engine_public.go:747-797 | an object read through the log before its table is flushed, and from the store's chunk keys after, is the same, however the log has grown; unless the flush fails, exactly when the store refuses one of its operations |
| Replica.LogPositionStable | dbkernel/replica.go:146-223 | appending moves no record of a log |
| Replica.PrecheckPasses | dbkernel/replica.go:158-178 | a batch passes the checks before the append if and only if every offset is set and every number follows |
| MemPuts.FittingAll | dbkernel/replica.go:251-432 | all memtable writes go through if and only if each fits |
| Replica.AppendBatch | dbkernel/internal/wal/wal.go:181-216 | writing the batch to the segmented log returns the positions the layout of the whole log gives, or refuses all if one record is too large |
| Replica.AppendRecord | dbkernel/internal/wal/wal.go:157-176 | a primary's single write to its segmented log returns the same position a replica's batch append gives that record |
| Replica.ReplicaWALHandler.HandleRecord | dbkernel/replica.go:232-248 | writes exactly what the record stands for, up to the first entry that does not fit |
| Replica.ReplicaWALHandler.ApplyRecords | dbkernel/replica.go:146-223 | the new log, counter, memtables and error for every batch, in every error case; the segmented log is laid out as the records require |
| Replica.ReplicaWALHandler.ApplyRecord | dbkernel/replica.go:67-141 | as a batch of one, except that an accepted number is used up even if the append fails |
| Replica.ReceivedSynced | dbkernel/replica.go:146-223 | a batch applied without error leaves the memtables standing for exactly the log |
| Replication.ResumePoint | internal/services/streamer/grpc_streamer_client.go:89-95 | a resumed stream starts exactly behind the last record the replica has |
| Replication.BatchOutcome | dbkernel/replica.go:146-223 | a batch from the primary is refused if and only if one of its sequence numbers is not the record's place in the log; positions and sizes never mismatch |
| Replication.ApplyOutcome | internal/services/streamer/grpc_streamer_client.go:135-200 | applying the next batch fails if and only if a number of it is not the place in the log or an entry does not fit; otherwise the replica has its records too, the queue is shorter and the offset is that of its last record; what each failure leaves behind |
| Replication.RunKeepsInvariant | internal/services/streamer/grpc_streamer_client.go:68-200 | every append, send, receive, apply, break and resume keeps the invariant |
| Replication.ReplicaFollows | internal/services/streamer/grpc_streamer_client.go:68-200 | in every run the replica's log is a prefix of the primary's at identical positions, and its memtables hold that prefix's contents |
| Replication.QuietMeansComplete | internal/services/streamer/grpc_streamer_client.go:135-200 | with nothing under way the replica has everything |
| Replication.CanComplete | internal/services/streamer/grpc_streamer_client.go:68-200 | from every reachable state in which the replica has not stopped, with gapless numbers and entries that fit, stream and client alone lead to the replica having everything |
| Replication.CanReconnect | internal/services/streamer/grpc_streamer_client.go:84-130 | after any break the client can resume |
| Replication.GapBlocksReplica | dbkernel/engine.go:447-466 | no replica ever accepts a record whose number ran ahead of its place, or one after it |
| Replication.NoFailureNoRefusal | dbkernel/replica.go:158-178 | while no append has failed on the primary no number is refused |
| Replication.FailedAppendStopsReplica | dbkernel/engine.go:447-466 | one failed append on the primary, and the next record ends the stream with an error |
| Replicator.Located | pkg/walfs/walog.go:886-920 | record k of a segment is the record with that index, at its offset |
| Replicator.AtCursor | pkg/walfs/walog.go:886-920 | what a segment reader in front of a record finds there |
| Replicator.OpensAtRecord | pkg/walfs/walog.go:948-989 | a reader opened at a record's position stands in front of that record |
| Replicator.RunKeepsInvariant | pkg/replicator/replicator.go:66-196 | every step of writer and replicator keeps the invariant |
| Replicator.SendsExactly | pkg/replicator/replicator.go:121-196 | what has been sent, with the open batch, is exactly the records from the start position on, in order, with positions, across snapshots that run out and are reopened |
| Replicator.BatchSizes | pkg/replicator/replicator.go:121-170 | in every run every batch sent is non-empty and no longer than the batch size |
| Replicator.CaughtUp | pkg/replicator/replicator.go:146-159 | when nothing new is reported, every record of the log has been sent |
| Replicator.ReadsAll | pkg/replicator/replicator.go:66-196 | from every state of the invariant reader steps alone lead to every published record being sent and the batch being empty |
| Pipeline.ForwardsSlice | internal/services/streamer/grpc_streamer.go:171-270 | what the server forwards of what the replicator read from the segments is, decoded, the next stretch of the primary's log with its positions |
| Pipeline.RunRefines | pkg/replicator/replicator.go:66-196 | every run of segment writer, rotation, replicator, server and client is a run of the streaming protocol |
| Pipeline.ReplicaFollowsSegments | internal/services/streamer/grpc_streamer_client.go:68-200 | so in every such run the replica's log is a prefix of the primary's at identical positions, its memtables hold that prefix's contents, and no reader fails |
| Pipeline.IdleMeansComplete | pkg/replicator/replicator.go:146-159 | when the reader is at the end of the last segment and nothing is under way, the replica has every record of the segments |
| Pipeline.CanCompleteFromSegments | internal/services/streamer/grpc_streamer_client.go:68-200 | from every reachable state in which the replica has not stopped, in the middle of a rotation, a batch or a break, with gapless numbers and entries that fit, replicator, server and client alone lead to the replica having every record of the segments |
| Notify.NoLostWakeup | dbkernel/engine.go:546-587 | in every interleaving, with or without coalescing, a waiter blocked with something to see holds a closed channel or somebody is on the way to close it |
| Notify.WakesInTwoSteps | dbkernel/engine_public.go:323-345 | at most two steps of those on the way close it, and the waiter returns |
| Notify.ChecksReturnIff | dbkernel/engine_public.go:323-353 | a check before blocking returns if and only if an offset has been stored and the caller has seen none or an earlier one; the offset compared is the one stored last |
| Notify.UnlockFirstLosesWakeup | dbkernel/engine.go:578-586 | releasing the lock before lowering the flag would lose a wakeup |

## Left out

- Engine.RunKeepsInvariant: whether an entry fits a table is left open and arena sizes are not part of the state, and
  the engine's lock is not modelled, so the machine has runs that no engine has; what holds of all its runs holds of
  the engine's. The runs of Scenarios are ones that some entry sizes give.
- Primary.Txn.Commit: stated for the operation and kind pairs that the memtable, the replica and recovery know: insert
  and delete of keys, all row operations, insert of objects.
- BoltBucket.Bucket.PutKV: the one error of Bolt that is modelled is a key that is too long. Values never reach Bolt's
  limit of 2^31-2 bytes, because a FlatBuffers record cannot be that large; input and output errors are left out.
- Primary.Engine.NewTxn: transaction ids are fresh, as the random ids of the source are taken to be.
- Snapshots.ReadsAreConsistent: with something newer flushed, CellRead says which cells are still right; a wrong cell
  may also happen to hold the same value.
- LobReads.GetLob: an object name that starts with the chunk marker byte must itself be a well-typed key, as
  Keys.BlobKeyTyped says; the reads of other marked names are not characterised.
- Replica.AppendRecord: for a log started empty whose current segment is not sealed.
- Counts.CheckpointCountsRecords, Counts.NumbersFollowPlaces: plain records and puts that fit, since flush and recovery
  count a transaction differently and a failed put is not counted at all; Scenarios.TransactionShiftsNumbers shows where
  that leads.
- Replication.CanComplete: states that completion is possible from everywhere, not that a scheduler brings it about.
- Wal.RecoverSegments: the segment files are numbered from 1 without holes, and a sealed file that opens holds the
  frames it was sealed with; damage inside a sealed file is not scanned for by the source either.
- Wal.RefusedAfterCrash: stores of one header field are atomic; the checksum function is a parameter, so collisions are
  conditions of the theorem.
- Recovery.WalRecovery.Recover: takes decoded records with typed keys; encoding and decoding records is the identity.
  Whether a checkpoint behind the end of the log lies outside every segment is a parameter.
- Replica.ReplicaWALHandler.ApplyRecords: records that pass the sequence check are assumed to continue a well-formed
  log, as the primary's do.
- Replication.ReplicaFollows: both nodes start empty with the same segment size, and the replica does not restart.
- Tail.ReaderSeesPrefix: loads and stores are sequentially consistent, as Go's atomics and the write lock make them.
- Segment cleanup, deletion, reference counts and closing; no segment is deleted in the model.
- mmap, msync, fsync, directory sync, file locks, backups, snapshots, restore: input and output.
- Position and checkpoint encoding: taken as the identity.
- The Bloom filter, skip list internals (which hold key lengths in 16 bits), checksum functions, FlatBuffers and
  protobuf code: taken as their contracts.
- The LMDB driver, the gRPC and HTTP servers, configuration, metrics, the notifier service, the fuzzer and the CLI.
- Cancellation and shutdown of the replicator, the waiters and the engine.
- Retry counts and backoff of the streaming client.
