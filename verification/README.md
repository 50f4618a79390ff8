# A verified model of the database core

This project models, in Dafny, the core of a page-oriented database written in Go: ARIES-style crash recovery,
the write-ahead log file, the lock word and strict two-phase locking, the buffer pool, the log-record codec and
the table scan. `dafny verify dfyconfig.toml` checks everything.

Code that changes objects in place is modelled by classes whose methods are proved against specification functions;
code that only computes is modelled by functions. What a protocol promises over whole runs is proved about a step
system, and the classes are proved to take its steps.

## Crash recovery

`Machine` describes the recoverable store as a step system. Durable are the data pages, the first `durable` log
records and the checkpoint LSN in the log header; everything else is lost in a crash. One action is at most one log
append together with the memory it changes, so a crash may fall between any two appends, transactions interleave
freely, and any page may be written or evicted at any time after the log has been forced up to its pageLSN.
`Invariant` says what every reachable state satisfies; `InvariantKept` and `InvariantRecovery` show that every action
keeps it. The results are in `RecoveryTheorems`, `RollbackLemmas`, `DurabilityTheorems` and `CheckpointNecessity`.
`SecondRecovery` has the `Recover` that runs once more in a process that is up, also if crashes cut it off.

`RecoveryObjects`, `RecoveryManager` and `Restart` are the imperative code: log manager, transaction table, dirty page
table, page cache, `RecoveryMgr` and the three phases of `Recover`, with their loops, their recursion and their order
of log appends, forces and table updates. Each method is proved to take the store along a run of the machine
(`Reaches`, which `Runs.ReachesIffRun` shows to mean exactly that), so the theorems about runs hold across each call.
`Effects` says what each operation leaves in the log, in the fields readers see and in the tables, without the step
functions of the machine.

Loggable values are of five kinds (int16, int32, string, bool, date). The Go code repeats each record and setter once
per kind; here they are one, with the kind in the field and the value.

## The log file

`LogFormat`, `LogWriter`, `LogParse` and `LogReader` work on bytes: blocks with a boundary in front, records packed
into them, long records cut into FIRST, CONT and LAST fragments, and an iterator that reassembles them, passes over what
a crash has torn off, and can read outside a page. `LogRoundTrip` joins writer and reader. In these modules an LSN is
the byte position `blockSize * block + offset`; in the recovery modules it is the number of the record, which is in the
same order (`LogRoundTrip.EntryLsnsIncrease`).

## Locks

`LockWord` is the word of one lock shard as interleaved atomic accesses (loads, compare-and-swap, atomic add and the
plain store in `Unlock`) of any number of clients, with upgrades and timeouts. `Serializability` has histories, what it
means for one to be equivalent to a serial one, and strict two-phase locking as a step system; `Locking` has the
per-transaction lock bookkeeping and the reads and writes that follow it. `TransactionManager` puts the end of a
transaction together: log first, then locks, then pins.

## Buffers, codec, table scan

`BufferPool` gives the pool as a value and its invariant; `BufferManager` is the pool in place, over arrays, with its
doubly linked replacement list; `BufferLists` has the pins of each transaction. `RecordCodec` and `RecordEncoder` are the
log records as bytes. `TableScans` has the slotted pages, the scan over them and the field layout.

## What does not hold

Where the code does less than its description promises, the model follows the code, shows an input, and proves when
the promise does hold.

- The repository's README.md (lines 10-13 and 22-23) describes a runtime that recovers at start-up and then takes
  checkpoints periodically. `Recover` replaces the shared dirty page table by the one analysis built
  (internal/trx/recovery/recovery.go:171-172), which does not list a page that only undo made dirty. A checkpoint
  taken then can make the next recovery lose the undo: `CheckpointCounterexample.CheckpointAfterRecoverLosesUndo` is a
  run in which a field ends with a value nobody committed. In general, take a checkpoint in any reachable state with no
  rollback going on, crash, and recover up to the end of redo: every block then shows the whole log if and only if the
  shared table covered every dirty buffer at the checkpoint
  (`CheckpointNecessity.CheckpointServesRedoIffCovered`). The machine allows exactly those checkpoints, before and
  after a `Recover`, and in a process that never ran `Recover` every checkpoint is one
  (`RecoveryTheorems.CoversBeforeRecover`).
- `HasNext` (internal/log/log.go:396-408) compares positions and reads nothing, so it can promise a record that is not
  there. At the start of a record it is right exactly if a record can still be read, or everything has been read and the
  last block is not empty (`LogRoundTrip.HasNextRightIff`). It is wrong in two cases.
  Before an empty last block, where `Next` finds the bytes that `appendNewBlock` left from the block before, so an old
  record is read again under a new LSN (`LogRoundTrip.EmptyBlockRepeatsRecord`).
  And before a rest of the log that holds only torn records and records swallowed by them. A record is torn if a crash
  falls between the flush of a full block in `ensureNewBlock` and the block that follows
  (`LogWriter.LogMgr.AppendCutOff` is `Append` up to that moment). `Next` then reads behind the last record of a full
  block, outside the page, which stops the program. `LogRoundTrip.TornLogCannotBeRead` is such a log, one
  record of thirteen bytes in blocks of 24. For every flushed log, iterating returns exactly the readable records and
  stops if and only if reading ends cleanly and the last block holds a record (`LogRoundTrip.ReadBack`).
- A log with torn records can be opened and appended to (`LogRoundTrip.Reopen`). The record behind a torn one is read
  exactly when it fits in one block; if it is fragmented, its FIRST fragment is taken for part of the broken chain and the
  record is skipped (`LogParse.RecordBehindTornChain`, and `LogParse.ReadFrom` for the whole log).
- `appendNewBlock` (internal/log/log.go:305-318) appends a zero block and writes its boundary afterwards. After a crash in
  between the log opens on boundary 0, and the length of the next record is overwritten by the new boundary. At its LSN the
  record is read with four bytes too many, and an iterator that comes from the block before finds no record where it looks
  first (`LogRoundTrip.ZeroBoundarySpoilsRecord`).
- `Unlock` of an upgraded lock clears the upgrade bit as its own (internal/trx/concurrency/locktable.go:395-411), but its
  own bit went when the upgrade was granted. Whatever bit it clears is another client's reservation
  (`LockWord.UnlockClearsForeignReservation`), and that does happen (`LockWord.ReservationCanBeLost`). It happens exactly
  after locks obtained by an upgrade (`LockWord.ClearsAfterUpgradeOnly`). The client that lost its bit still takes the bit
  for its own, so if it times out later it can clear a third client's
  (`LockWord.TimedOutClientTakesReservation`); a reservation is lost to another client in these two places and nowhere else
  (`LockWord.ReservationLostIff`). The grants stay right all the same (`LockWord.LockWordSafe`).

## Assumptions

- A page is a set of fields that do not overlap, plus a pageLSN. Undoing a string restores the field's value, not the
  bytes behind it.
- No log record falls between CHECKPOINT-BEGIN and CHECKPOINT-END, and no rollback is going on at a checkpoint.
- Updates are logged, transaction numbers are not negative, and LSNs do not reach 2^31.
- Writing a block is atomic, and I/O does not fail.
- One transaction at a time has outstanding updates on a block: a set needs the block's X lock, which the machine takes
  with the set and drops with END, never later than the Go code does.
- The recovery results iterate over the log records themselves, so they assume what `HasNext` needs: at a crash the last
  log block holds a record, and no record is torn.
- Appending a block to the log file and writing its boundary is one step, except in `LogRoundTrip.ZeroBoundarySpoilsRecord`.
- For a record that was cut into fragments `Append` returns the LSN of its first fragment
  (internal/log/log.go:209-218), so forcing the log up to that LSN speaks of the physical records up to it. The recovery
  modules take a record to be on disk once its LSN is forced, which is so for records that fit in one block.
- Whether the deadline of a lock request comes before the lock is free is a parameter of the call.
- The block hash is injective on the blocks in use.

## Model

| member | source | states |
|---|---|---|
| `RecoveryTheorems.CrashRecovery` | internal/trx/recovery/recovery.go:149-175 | For every run of a fresh store, a crash at any point, and any recovery, itself interrupted by any number of crashes: when the store is up again every field reads as the replay of exactly the updates whose COMMIT was on disk at the first crash, and no transaction is active |
| `RecoveryTheorems.LoserUpdatesCompensatedOnce` | internal/trx/recovery/recovery.go:258-307 | Along every run, with rollbacks and recoveries cut short by crashes any number of times, each update of a transaction that ended without committing has exactly one compensation record when its END is written |
| `RecoveryTheorems.AnalysisAfterCrash` | internal/trx/recovery/recovery.go:309-355 | After any crash the scan from the checkpoint named in the header finds the transaction table of a scan of the whole log, and a dirty page table whose recLSNs lie at or before every page change missing on disk |
| `RecoveryTheorems.RedoneIsReplayed` | internal/trx/recovery/recovery.go:357-401 | Redo repeats history: at the end of redo every block reads as the replay of the whole durable log, whatever the table, recLSN and pageLSN tests skipped |
| `RecoveryTheorems.WriteAheadRule` | internal/buffer/buffer.go:61-90 | In every reachable state each page on disk is the replay of the log up to its pageLSN, which is durable, and a transaction that ended by committing has its COMMIT on disk |
| `RecoveryTheorems.DirtyTracking` | internal/buffer/buffer.go:39-51 | Without a Recover, a block is in the dirty page table exactly when its disk page differs from what is read; its recLSN is that of the buffer and of a record writing the block, and the disk page is the replay of the records before it |
| `RecoveryTheorems.CoversBeforeRecover` | internal/trx/recovery/recovery.go:127-147 | In a process that never ran Recover the shared dirty page table covers every dirty buffer, so every checkpoint is sound |
| `RecoveryTheorems.CheckpointSoundIffCovered` | internal/trx/recovery/recovery.go:127-147 | In every reachable state the shared table lists every page change missing on disk, early enough, if and only if it covers every dirty buffer |
| `CheckpointNecessity.CheckpointServesRedoIffCovered` | internal/trx/recovery/recovery.go:127-147 | After a checkpoint in any reachable state without a rollback in progress, a crash, and any run of analysis and redo to its end, further crashes included: every block shows the whole log if and only if the table covered every dirty buffer |
| `CheckpointNecessity.ReachedEarly` | internal/buffer/dirtypagetable.go:38-45 | In every reachable state a dirty buffer that is listed is listed no later than its first change, during recovery too |
| `CheckpointCounterexample.CheckpointAfterRecoverLosesUndo` | internal/trx/recovery/recovery.go:171-174 | A reachable state after Recover whose table misses a dirty buffer: checkpoint, crash and a completed recovery leave a field at a value nobody committed |
| `Analysis.CheckpointAnalysisRefinesFullAnalysis` | internal/trx/recovery/recovery.go:309-355 | For every well-formed log with sound checkpoints, analysis from a checkpoint gives the same transaction table as analysis of the whole log, and a dirty page table that misses no change |
| `Analysis.AnalyzedBlock` | internal/trx/recovery/recovery.go:309-355 | For every log and every start, analysis lists exactly the blocks that a scanned record changes or a scanned checkpoint lists, each under the recLSN of the first such record |
| `InvariantRecovery.RedoRepeatsHistory` | internal/trx/recovery/recovery.go:357-401 | The same for every state satisfying the invariant |
| `InvariantRecovery.KeepsInv` | internal/trx/recovery/recovery.go:74-175 | Every action of normal operation, of rollback, of the page cleaner, of a crash and of recovery keeps the invariant |
| `CommittedLemmas.WfSettled` | internal/trx/recovery/recovery.go:193-207 | In every well-formed log, taking back the outstanding updates of a field yields exactly its committed value |
| `UndoLemmas.OneCompensationPerLoserUpdate` | internal/trx/recovery/recovery.go:279-304 | In every well-formed log, a transaction that ends without COMMIT has exactly one compensation record for each update, because undoNextLSN skips what is already undone |
| `RollbackLemmas.RollbackRestores` | internal/trx/recovery/recovery.go:99-125 | A completed rollback leaves every field the transaction wrote at its value before the first write, and every other field unchanged |
| `DurabilityTheorems.CommitIsDurable` | internal/trx/recovery/recovery.go:74-97 | Whatever the committed transaction wrote has, in the log on disk when Commit returns, the value it reads as for its committed value |
| `DurabilityTheorems.SecondRecoverAppendsNothing` | internal/trx/recovery/recovery.go:149-175 | Crash right after a recovery and recover again: no record is appended and no value changes |
| `SecondRecovery.SecondRecoverChangesNothing` | internal/trx/recovery/recovery.go:149-175 | Recover again in the running process, with no active transaction and the log on disk: for every way in which pages are written out, evicted and loaded meanwhile, and with any number of crashes cutting it off before a recovery is completed, no record is appended and every page ends as it was, its LSN included |
| `Restart.RecoverTwice` | internal/trx/recovery/recovery.go:149-175 | Recover after a crash and Recover called again: the second call leaves log and pages as the first one left them |
| `DurabilityTheorems.RedoOfCurrentPageChangesNothing` | internal/trx/recovery/recovery.go:376-397 | Redoing all records of a block from any position on, over a page that shows the whole log, ends with that page |
| `Runs.ReachesIffRun` | internal/trx/recovery/recovery.go:74-175 | The relation used in the contracts of the recovery classes holds exactly when some run of the machine leads from the one state to the other |
| `RecoveryManager.RecoveryMgr.constructor` | internal/trx/recovery/recovery.go:51-58 | START is logged, the transaction enters the table as running with its LSN, and nothing else changes; a step of the machine |
| `RecoveryManager.RecoveryMgr.SetVal` | internal/trx/recovery/recovery.go:193-207 | A logged set: the field then reads as the new value, which is the new value logged; the old value logged is what it read before; no other field of any block reads differently. The record is chained by prevLSN and is the transaction's last, page and buffer carry its LSN, and only the first change of a clean buffer enters the dirty page table. Without a table entry nothing changes |
| `RecoveryManager.RecoveryMgr.Commit` | internal/trx/recovery/recovery.go:74-97 | COMMIT and END go behind the log with COMMIT on disk, the entry and the transaction's X locks go, and no page, table entry or lock of anyone else changes; a run of the machine; without a table entry nothing changes |
| `RecoveryManager.RecoveryMgr.DoRollback` | internal/trx/recovery/recovery.go:258-307 | Undo terminates at START; what it appends are compensation records of the transaction chained by prevLSN, the last of them forced; it is a run of the machine, so a crash may cut it anywhere |
| `RecoveryManager.RecoveryMgr.UndoUpdate` | internal/trx/recovery/logrecord/setint32record.go:62-89 | The compensation record is written and forced before the old value is put back in its field under the record's LSN, with undoNextLSN the update's prevLSN; the rest of the page and the other buffers stay |
| `RecoveryManager.RecoveryMgr.UndoRecord` | internal/trx/recovery/recovery.go:279-304 | An update is compensated, a compensation record sends undo to its undoNextLSN, anything else to its prevLSN |
| `RecoveryManager.RecoveryMgr.Rollback` | internal/trx/recovery/recovery.go:99-125 | Appends ABORT, compensations and END, each pointing to the one before; restores every field to its value before the transaction's first write, and no other |
| `RecoveryManager.RecoveryMgr.Checkpoint` | internal/trx/recovery/recovery.go:127-147 | Both tables are recorded as they are behind BEGIN, all of the log is on disk, the header names BEGIN, and nothing else changes; a run of the machine if no rollback is going on and the table covers every dirty buffer |
| `Restart.RestartMgr.MergeAtt` | internal/trx/recovery/recovery.go:331-335 | Entries of a checkpointed transaction table are taken over unless the table has the transaction already |
| `Restart.RestartMgr.MergeDpt` | internal/trx/recovery/recovery.go:336-340 | Entries of a checkpointed dirty page table are taken over unless the table has the block already |
| `Restart.RestartMgr.DoAnalyzePhase` | internal/trx/recovery/recovery.go:309-355 | Rebuilds exactly the tables of the analysis function, from the checkpoint to the end of the log |
| `Restart.RestartMgr.RedoOne` | internal/trx/recovery/recovery.go:376-397 | A record is redone if and only if it changes a page, the table lists its block no later and the page on disk is older: its value then shows in its field under its LSN, and the rest of the page and the other buffers stay; else nothing changes. A step of the machine |
| `Effects.RedoStartsAtOldest` | internal/trx/recovery/recovery.go:357-375 | Redo starts at the smallest recLSN of the table, or at the end of the log if the table is empty |
| `Restart.RestartMgr.RedoPages` | internal/trx/recovery/recovery.go:357-401 | Redo goes from the smallest recLSN to the end of the log, as a run of the machine |
| `Restart.RestartMgr.DoRedoPhase` | internal/trx/recovery/recovery.go:357-428 | After the pages every transaction found committed gets exactly one END, forced, and leaves the table |
| `Restart.RestartMgr.DoUndoPhase` | internal/trx/recovery/recovery.go:430-476 | Every transaction left in the table is undone and gets exactly one END, all of it forced; the table ends empty |
| `Restart.RestartMgr.RunPhases` | internal/trx/recovery/recovery.go:155-168 | The three phases in their order, after a crash and in a running process |
| `Restart.RestartMgr.ReflectTables` | internal/trx/recovery/recovery.go:171-172 | The shared tables become exactly the rebuilt ones, whatever buffers undo made dirty, and nothing else changes; the machine's last recovery step |
| `Restart.RestartMgr.Recover` | internal/trx/recovery/recovery.go:149-175 | After a crash: every field reads as its committed value, the log grew by exactly one END per unfinished transaction and lost nothing, nobody committed, all is on disk, and with nothing to do nothing is appended. In a running process with no active transaction and the log on disk: log and all pages stay as they were. Either way the transaction table ends empty and the dirty page table is the one analysis built |
| `RecoveryObjects.ActiveTrxTable.SetTrx` | internal/trx/recovery/activetrxtable.go:74-86 | Sets status and lastLSN of one transaction and leaves the others alone |
| `RecoveryObjects.ActiveTrxTable.SetLastLSN` | internal/trx/recovery/activetrxtable.go:61-72 | Moves lastLSN, keeps the status and every other entry; an unknown transaction becomes a running one |
| `RecoveryObjects.ActiveTrxTable.GetTable` | internal/trx/recovery/activetrxtable.go:53-59 | Lists every transaction of the table exactly once, in some order |
| `RecoveryObjects.DirtyPageTable.MarkDirty` | internal/buffer/dirtypagetable.go:38-45 | A block not listed is listed with this LSN; the first recLSN of a listed one stays, and so does every other entry |
| `RecoveryObjects.DirtyPageTable.GetMinRecLSN` | internal/buffer/dirtypagetable.go:72-85 | The smallest recLSN of the table, or none if and only if it is empty |
| `RecoveryObjects.LogManager.Append` | internal/log/log.go:148-156 | The record goes behind all others; the records on disk stay a prefix of those appended |
| `RecoveryObjects.LogManager.Flush` | internal/log/log.go:130-137 | Afterwards every record up to the LSN is on disk, and what was on disk still is |
| `RecoveryObjects.PageCache.Pin` | internal/buffer/buffer.go:267-291 | The block is resident afterwards; a victim, if one is needed, is written with the log forced up to its pageLSN first, and leaves the dirty page table |
| `RecoveryObjects.PageCache.Flush` | internal/buffer/buffer.go:76-90 | A dirty page is written only after the log up to its pageLSN; it is clean and out of the table afterwards |
| `TransactionManager.TransactionMgr.Commit` | internal/trx/tx/transaction.go:67-77 | Locks and pins are given up exactly if committing succeeded, and then everything the transaction wrote is durable; locks and pins of other transactions stay, and whoever recovery takes for the writer of a block still holds X on it |
| `TransactionManager.TransactionMgr.Rollback` | internal/trx/tx/transaction.go:79-89 | The same after every field the transaction wrote is restored |
| `LogFormat.LsnIncreasing` | internal/log/log.go:346-367 | LSNs of physical records strictly increase in the order of appending |
| `LogFormat.PrefixIsLog` | internal/log/log.go:320-327 | Whatever prefix of the physical records a crash leaves is again a log of records, of which only the last can be torn |
| `LogWriter.LogMgr.constructor` | internal/log/log.go:74-128 | A new file gets its header and first block; an existing one is continued behind its last physical record, torn or not, nothing on disk changing |
| `LogWriter.LogMgr.Append` | internal/log/log.go:148-156 | The record is stored as one physical record exactly if a block can hold it, else as a chain of fragments that add up to it; the LSN returned is that of its first physical record; what was on disk still is, and the last record is not there yet |
| `LogWriter.LogMgr.AppendCutOff` | internal/log/log.go:196-245 | Append up to the flush of the block its first fragment fills: what is then on disk ends in a torn record in a full block |
| `LogWriter.LogMgr.EnsureAndWrite` | internal/log/log.go:346-367 | One physical record goes directly behind the last one, or first into a new block if it does not fit |
| `LogWriter.LogMgr.WriteFragmentedRecord` | internal/log/log.go:196-219 | The fragments are FIRST, CONT, LAST with strictly increasing cuts that cover the payload |
| `LogWriter.LogMgr.WriteFragmentChunk` | internal/log/log.go:222-245 | A non-empty chunk that fits in the current block, in a new block if not even one byte fits; the first chunk is never the whole record, and every fragment but the last fills its block |
| `LogWriter.LogMgr.AppendNewBlock` | internal/log/log.go:305-318 | The new block is on disk without records and keeps the bytes of the block before behind its boundary |
| `LogWriter.LogMgr.Flush` | internal/log/log.go:130-137 | Every physical record with an LSN up to the given one is on disk, and what is on disk is a prefix of what was appended; nothing is written for an LSN already covered |
| `LogWriter.LogMgr.WriteLastCheckpointLSN` | internal/log/log.go:624-634 | Only the header block changes, to magic, version, block size and the LSN |
| `LogWriter.LogMgr.ReadLastCheckpointLSN` | internal/log/log.go:613-622 | Returns the LSN the header was written with |
| `LogWriter.HeaderLayout` | internal/log/log.go:592-611 | Magic, version, block size and checkpoint LSN at offsets 0, 4, 6 and 10 |
| `LogParse.ReadEntry` | internal/log/log.go:410-429 | Reading where a whole record starts yields its payload, however many fragments it was cut into, and goes on behind it |
| `LogParse.RecordBehindTornChain` | internal/log/log.go:449-485 | Behind a chain cut off by a crash, the next record is read if and only if it is not fragmented; otherwise reading goes on behind it |
| `LogParse.ReadFrom` | internal/log/log.go:410-485 | For every log with any torn records: which record reading finds from any record on, and that it finds none exactly if only torn and swallowed ones are left |
| `LogReader.LogIterator.HasNext` | internal/log/log.go:396-408 | Says yes exactly if a physical record follows or the last block is empty |
| `LogReader.LogIterator.Next` | internal/log/log.go:410-429 | Yields the next complete logical record with the LSN of its first physical record, broken chains and orphaned fragments passed over; when there is none and the log ends in a full block, it reads outside the page |
| `LogReader.LogIterator.Reconstruct` | internal/log/log.go:449-485 | Succeeds exactly when the fragments behind FIRST add up to the promised length; where the chain broke off reading goes on there; where the log ends in a full block first, it reads outside the page |
| `LogReader.LogIterator.EnsureCurrentBlock` | internal/log/log.go:496-502 | At the end of a block that is not the last the position moves to the next block's first record |
| `LogReader.LogIterator.ReadPhysical` | internal/log/log.go:431-438 | The record at the position, or a read outside the page when length prefix or contents do not fit |
| `LogRoundTrip.ReadBack` | internal/log/log.go:139-146 | Iterating over a flushed log from the LSN of any record: the readable records from there on, payloads and LSNs, in order, then a clean stop, if and only if reading ends cleanly and the last block holds a record; the same records and then a failure if it does not and the log ends in a full block; in any case these records come first |
| `LogRoundTrip.WholeLogReadsAll` | internal/log/log.go:139-146 | Without torn records reading always ends cleanly, and the readable records are all records from the first one on |
| `LogRoundTrip.TornTailNeverClean` | internal/log/log.go:396-408 | With a torn record at the end of the log reading never ends cleanly |
| `LogRoundTrip.HasNextRightIff` | internal/log/log.go:396-408 | At the start of a record HasNext agrees with what Next will find if and only if a record can still be read, or all have been read and the last block is not empty |
| `LogRoundTrip.TornLogCannotBeRead` | internal/log/log.go:396-429 | One record of thirteen bytes in blocks of 24, cut off: HasNext says yes and reading fails |
| `LogRoundTrip.Reopen` | internal/log/log.go:74-128 | After a crash at any moment the log opens again, and knows its records up to the one cut off |
| `LogRoundTrip.ReadRecordAt` | internal/log/log.go:158-171 | Reads back exactly the record appended at the LSN, as soon as its physical records are on disk, whatever else is torn |
| `LogRoundTrip.EntryLsnsIncrease` | internal/log/log.go:148-219 | LSNs of logical records strictly increase |
| `LogRoundTrip.EmptyBlockRepeatsRecord` | internal/log/log.go:305-318 | A block written before it got a record still shows the first record of the block before at the position an iterator reads |
| `LogRoundTrip.ZeroBoundarySpoilsRecord` | internal/log/log.go:305-318 | The first record in a block whose boundary was never written, for every record that fits in one block: read at its LSN it has four bytes too many, read from the block before it is no record |
| `LockWord.LockWordSafe` | internal/trx/concurrency/locktable.go:205-430 | Over every interleaving of fewer than 2^30 clients with upgrades and timeouts: the reader count is the number of S grants, the writer bit is set exactly when there is an X grant, there is at most one, and S and X never coexist |
| `LockWord.StepKeepsInv` | internal/trx/concurrency/locktable.go:205-430 | Each single access to the word keeps word and grants in agreement |
| `LockWord.ReadGoesOnIff` | internal/trx/concurrency/locktable.go:205-236 | Whenever the invariant holds, as in every reachable state, a client asking for S goes on to take it if and only if nobody holds X and no upgrade is reserved; else nothing changes |
| `LockWord.WriteGoesOnIff` | internal/trx/concurrency/locktable.go:255-329 | A client asking for X without holding S goes on to take it if and only if nobody holds anything |
| `LockWord.UpgradeGoesOnIff` | internal/trx/concurrency/locktable.go:255-329 | A client that upgrades goes on to reserve if and only if no upgrade is reserved, and then to take X if and only if it is the only reader |
| `LockWord.SwapTakesIff` | internal/trx/concurrency/locktable.go:205-329 | Each compare-and-swap for S, for the reservation or for X succeeds if and only if the word is unchanged; else the client starts over and nothing else changes |
| `LockWord.ReadGranted` | internal/trx/concurrency/locktable.go:205-236 | Undisturbed, S is granted in two accesses when nobody holds X and no upgrade is reserved; the word counts one reader more |
| `LockWord.WriteGranted` | internal/trx/concurrency/locktable.go:255-329 | Undisturbed, X is granted in two accesses when nobody holds anything |
| `LockWord.UpgradeGranted` | internal/trx/concurrency/locktable.go:255-329 | Undisturbed, the only reader upgrades in five accesses, the swap right after its reservation failing on the bit it has set itself |
| `LockWord.FreeShardGrantsX` | internal/trx/concurrency/locktable.go:255-329 | An interleaving in which a client gets X on an unused shard without an upgrade |
| `LockWord.ReleaseLetsGo` | internal/trx/concurrency/locktable.go:378-413 | Unlock takes back exactly the one grant, whatever the others do meanwhile |
| `LockWord.ClearingEndsIff` | internal/trx/concurrency/locktable.go:331-413 | Clearing an upgrade bit ends if and only if there is none or the swap finds the word unchanged; the swap removes the bit and nothing else |
| `LockWord.TimeOutKeepsGrant` | internal/trx/concurrency/locktable.go:331-376 | Giving up changes no grant and leaves a bit to be cleared if and only if the client had reserved |
| `LockWord.UnlockClearsForeignReservation` | internal/trx/concurrency/locktable.go:378-413 | Whenever Unlock clears an upgrade bit, another client that is upgrading set it |
| `LockWord.ReservationLostIff` | internal/trx/concurrency/locktable.go:331-430 | A step of another client removes a reserving client's bit if and only if that client clears what it takes for its own bit, in Unlock or after a timeout |
| `LockWord.ClearsAfterUpgradeOnly` | internal/trx/concurrency/locktable.go:378-413 | Unlock goes on to clear an upgrade bit if and only if the lock was obtained by an upgrade |
| `LockWord.ReservationCanBeLost` | internal/trx/concurrency/locktable.go:378-413 | An interleaving in which a client loses its reservation to another client's Unlock |
| `LockWord.TimedOutClientTakesReservation` | internal/trx/concurrency/locktable.go:331-376 | An interleaving in which a client that timed out is about to clear another client's reservation |
| `Serializability.Strict2PLIsSerializable` | internal/trx/access/transaction.go:117-226 | Every interleaved history of reads and writes under strict two-phase locking is equivalent to running the transactions one at a time, in the order in which they begin to release: same order of conflicting operations, same values read, same database, no two transactions interleaved |
| `Serializability.ReadsSeeLastWrite` | internal/trx/access/transaction.go:117-226 | Under strict two-phase locking every read sees the value last written before it, in the interleaved history and in the serial one, and the database holds the values last written |
| `Serializability.SerialMeans` | internal/trx/access/transaction.go:117-226 | Reordering a legal history into rank order keeps every value read and the final database if conflicting operations respect the ranks |
| `Serializability.StepKeepsInv` | internal/trx/concurrency/concurrency.go:46-112 | Locking, reading, writing and releasing keep the invariant the serial order is read off from |
| `Locking.ConcurrencyMgr.SLock` | internal/trx/concurrency/concurrency.go:46-62 | Succeeds if and only if the transaction has a lock on the block already, or no other transaction's X is in the way before the deadline; then exactly S is added if it had none, else nothing changes |
| `Locking.ConcurrencyMgr.XLock` | internal/trx/concurrency/concurrency.go:64-85 | Succeeds if and only if the transaction has X already, or no other transaction's lock is in the way before the deadline; then it has X, an S turning into it, else nothing changes |
| `Locking.ConcurrencyMgr.Release` | internal/trx/concurrency/concurrency.go:96-112 | All locks of the transaction are gone, those of the others as before, and what serializability needs still holds |
| `Locking.ReleasedLocks` | internal/trx/concurrency/concurrency.go:96-112 | What a release leaves: exactly the transaction's own locks are gone, the database and the history are as they were |
| `Locking.Transaction.GetVal` | internal/trx/access/transaction.go:128-137 | Reads the current value and records the read if and only if the transaction has a lock on the block or gets S before the deadline; without the lock nothing is read |
| `Locking.Transaction.SetVal` | internal/trx/access/transaction.go:200-226 | Writes the one field and records the write if and only if the transaction has X or gets it before the deadline, and then holds X; without the lock nothing is written |
| `BufferManager.LRUList.constructor` | internal/buffer/buffer.go:121-137 | The links form one list of all buffers in both directions |
| `BufferManager.LRUList.ChooseVictimBuffer` | internal/buffer/buffer.go:139-151 | The first unpinned item of the list is the victim and moves to the tail; without one the list stays |
| `BufferManager.LRUList.MoveToTail` | internal/buffer/buffer.go:153-175 | One item goes to the tail, the rest keeps its order, and the links still form one list of all buffers |
| `BufferManager.BufferMgr.constructor` | internal/buffer/buffer.go:194-204 | All buffers free, every block reads as on disk, the dirty page table empty |
| `BufferManager.BufferMgr.TryToPin` | internal/buffer/buffer.go:267-301 | No content changes. A resident block gets one pin more; else the first unpinned buffer of the list, which goes to the tail, is written out and reads the block, its old block alone leaving the dirty page table. It fails if and only if every buffer is pinned and none has the block |
| `BufferManager.BufferMgr.FindOrReplace` | internal/buffer/buffer.go:267-301 | Does exactly what the pool's pin function says: the resident buffer, else the first unpinned one written out and reassigned |
| `BufferManager.BufferMgr.Unpin` | internal/buffer/buffer.go:224-235 | One pin less, available counted up exactly at the last; no content and no other buffer changes |
| `BufferManager.BufferMgr.SetVal` | internal/buffer/buffer.go:39-51 | The field of that block reads as the new value, no other field of any block changes. Buffer and page take the LSN, recLSN only if there was none, and only then the block enters the dirty page table; an unlogged change notes the transaction alone |
| `BufferManager.BufferMgr.FlushPage` | internal/buffer/buffer.go:328-346 | Writes the page if and only if some buffer holds it, dirty and unpinned; that buffer is then clean, its block alone leaves the dirty page table, and no other buffer or disk page changes |
| `BufferManager.BufferMgr.FlushAll` | internal/buffer/buffer.go:210-222 | Writes exactly the buffers the transaction modified last; their blocks alone leave the dirty page table and change on disk; no content changes |
| `BufferManager.BufferMgr.FlushDirtyPages` | internal/buffer/buffer.go:308-373 | Writes min(limit, candidates) unpinned dirty pages, none left out with an older change than one written; their blocks alone leave the dirty page table and change on disk; no content changes |
| `BufferManager.BufferMgr.SortByRecLSN` | internal/buffer/buffer.go:348-373 | A rearrangement of the candidates by recLSN, oldest first |
| `BufferPool.TryPinOk` | internal/buffer/buffer.go:267-301 | Cache transparency of pinning and eviction on every valid pool, the buffer taken being the resident one or the first unpinned one in the order; the dirty page table stays in step with the buffers |
| `BufferPool.FlushedOk` | internal/buffer/buffer.go:76-90 | Flushing changes no content, pin or assignment, keeps the write-ahead rule and leaves the buffer clean |
| `BufferPool.FlushedTable` | internal/buffer/buffer.go:76-90 | If the dirty page table lists exactly the blocks of buffers with a recLSN, under that recLSN, it does so after a flush |
| `BufferPool.ChangedOk` | internal/buffer/buffer.go:39-51 | A change shows in its own field of its own block and nowhere else |
| `BufferPool.ChangedTable` | internal/buffer/buffer.go:39-51 | The same after a modification, logged or not |
| `BufferPool.NoVictimAllPinned` | internal/buffer/buffer.go:139-151 | No victim exists only if every buffer is pinned, and then none is counted available |
| `BufferPool.FlushedListOk` | internal/buffer/buffer.go:348-373 | After flushing a list exactly its buffers are clean, exactly their blocks have left the dirty page table and changed on disk, and the rest is untouched, contents included; the table stays in step with the buffers |
| `BufferLists.BufferList.GetBuffer` | internal/trx/bufferlist/bufferlist.go:26-28 | Finds a buffer exactly for the pinned keys, and it holds the key's block, pinned |
| `BufferLists.BufferList.PinBlock` | internal/trx/bufferlist/bufferlist.go:30-38 | Succeeds if and only if some buffer has the block or is unpinned: one pin more in list and pool, else nothing changed; other lists keep theirs |
| `BufferLists.BufferList.UnpinBlock` | internal/trx/bufferlist/bufferlist.go:40-59 | The key's first pin goes, the buffer is forgotten with the last; an unknown key changes nothing; other lists keep theirs |
| `BufferLists.BufferList.UnpinAll` | internal/trx/bufferlist/bufferlist.go:61-68 | Returns exactly this list's pins: its part of the ledger ends empty, every other list's stays |
| `BufferLists.RemovedMatches` | internal/trx/bufferlist/bufferlist.go:40-68 | Each buffer's pins equal its outstanding entries over all lists, before and after a pin is returned |
| `RecordCodec.CodecRoundTrip` | internal/trx/recovery/logrecord/logrecord.go:13-50 | Decoding inverts encoding for every kind of record, CHECKPOINT-END with any finite tables in any iteration order |
| `RecordCodec.EncodingInjective` | internal/trx/recovery/logrecord/logrecord.go:13-50 | Two different records never have the same bytes |
| `RecordCodec.RecordLayout` | internal/trx/recovery/logrecord/setint32record.go:91-125 | Op code, prevLSN, transaction, file name, block number, offset, old value, new value and undoNextLSN lie one behind the other at the offsets of the source's layout, with its op codes |
| `RecordCodec.ReadCheckpointEnd` | internal/trx/recovery/logrecord/checkpointendrecord.go:25-64 | The tables of a CHECKPOINT-END are read back entry by entry |
| `RecordEncoder.Encoder.PutInt32` | internal/trx/recovery/logrecord/encoder.go:27-33 | Appends four bytes and moves on, or fails without effect if they do not fit |
| `RecordEncoder.Encoder.PutStr` | internal/trx/recovery/logrecord/encoder.go:59-65 | Appends length and bytes, or fails without effect if they do not fit |
| `RecordEncoder.Encoder.PutBlock` | internal/trx/recovery/logrecord/encoder.go:67-75 | Appends file name and number of a block |
| `RecordEncoder.WriteTx` | internal/trx/recovery/logrecord/startrecord.go:45-61 | Twelve bytes that are exactly the record's encoding |
| `RecordEncoder.WriteSet` | internal/trx/recovery/logrecord/setstrrecord.go:93-122 | The size computed beforehand is exactly what the encoding takes, and the bytes are the update's encoding |
| `RecordEncoder.WriteCompensation` | internal/trx/recovery/logrecord/compensationsetstrrecord.go:82-114 | The same for a compensation record with its undoNextLSN |
| `RecordEncoder.WriteCheckpointEnd` | internal/trx/recovery/logrecord/checkpointendrecord.go:98-165 | The bytes are the encoding of both tables in some order, filling exactly the size computed in a separate pass over the map, and decode to the record |
| `RecordEncoder.DptSizeAnyOrder` | internal/trx/recovery/logrecord/checkpointendrecord.go:98-165 | The computed size does not depend on the order in which the map is iterated |
| `Pages.Page.SetInt32` | internal/file/file.go:107-117 | Overwrites exactly four bytes behind the header, or fails without effect out of bounds |
| `Pages.Page.SetBytes` | internal/file/file.go:125-135 | Overwrites length and bytes, or fails without effect out of bounds |
| `Pages.Page.GetBytes` | internal/file/file.go:119-123 | The bytes behind the length prefix |
| `Pages.Page.SetDate` | internal/file/file.go:191-206 | Overwrites exactly eight bytes with the unix seconds, or fails without effect out of bounds |
| `ByteCodec.I32RoundTrip` | internal/file/file.go:101-117 | A 32-bit value reads back from its four bytes, negative ones included |
| `ByteCodec.IntegersLowestFirst` | internal/file/file.go:101-117 | Integers of two, four and eight bytes are kept lowest byte first, negative ones as two's complement |
| `TableScans.ScanAll` | internal/tablescan/tablescan.go:138-167 | From BeforeFirst to the first false, Next visits exactly the used slots, each once, in (block, slot) order |
| `TableScans.TableScan.Next` | internal/tablescan/tablescan.go:142-167 | Moves to the next used slot behind the cursor; false if and only if there is none, the cursor then before the last block's first slot |
| `TableScans.TableScan.Insert` | internal/tablescan/tablescan.go:106-132 | If a slot fits in a block it terminates and marks only the first empty slot behind the cursor, else the first slot of one new block |
| `TableScans.TableScan.Delete` | internal/tablescan/tablescan.go:134-136 | Empties exactly the current slot |
| `TableScans.EmptyAfterIsFirst` | internal/recordpage/recordpage.go:104-142 | No empty slot lies between the cursor and the one found, and none is found only if there is none |
| `TableScans.UsedFromBlockFacts` | internal/tablescan/tablescan.go:142-167 | The specification of the scan: every used slot, once, in order, and nothing else |
| `TableScans.ValidSlots` | internal/recordpage/recordpage.go:144-151 | The slots that fit are exactly those below the slot count, and there is one exactly if the slot size is at most the block size less the page header |
| `TableScans.TableFile.SearchAfter` | internal/recordpage/recordpage.go:128-142 | The first slot behind the given one with the flag, or -1 exactly if there is none |
| `TableScans.TableFile.AppendFormatted` | internal/recordpage/recordpage.go:83-98 | One more block, all of its slots empty |
| `TableScans.Schema.AddField` | internal/record/record.go:61-64 | The last thing said about a name holds, and nothing else changes |
| `TableScans.LengthIsTight` | internal/record/record.go:136-152 | For every field type, no value takes more bytes than the field has, and some value takes all of them; a string takes four more than its length |
| `TableScans.NewLayOut` | internal/record/record.go:104-118 | The bytes of any two values in different fields never meet, nor the flag or the next slot; fields lie in the order of the schema without gaps, also if names were added twice, and the slot is exactly as long as the flag and all fields |
| `TableScans.FieldWrite` | internal/record/record.go:104-118 | Writing any value of the right type into a field leaves every other field's value, the flag and all bytes outside the slot as they were, and it is what is then in the field |

## Left out

- Checkpoints with other records between BEGIN and END, or during a rollback: the merge of the tables relies on their absence.
- Unlogged writes (`okToLog` false, as in `Format`) in the recovery model; `BufferManager.BufferMgr.SetVal` has them.
- Restart.RestartMgr.Recover: in a running process it is modelled for the state right after a recovery, with no active transaction and the whole log on disk; with active transactions the Go code would undo them under their owners' hands. The second call, cut off by crashes or not, is not a run of the machine, so the theorems about runs do not speak of what the store does after it.
- No lemma maps the page cache of the recovery modules onto the buffer pool of `BufferManager`: the cache leaves open which buffer a pin reuses.
- Log records in the recovery modules are values in a sequence; that the log file stores and returns them is the round trip of `RecordCodec` and `LogRoundTrip`, and no lemma runs `Recover` over bytes.
- Locking.Store.Acquire: a lock is granted or refused in one step; how the lock word decides is in `LockWord`, per shard, while two-phase locking is by block, which admits more histories than the shards do.
- LockWord: waiter queues, wake-ups and spinning are left out, and with them any claim of fairness or progress; a timeout clears the reservation and returns.
- BufferManager.BufferMgr.TryToPin: waiting for a buffer is not modelled; without one the call fails at once.
- Buffers are numbers of array elements instead of pointers, and the links of the replacement list are item numbers.
- TransactionManager.TransactionMgr.Commit: recovery's view of the store, the lock store and the buffer pool are separate objects; their X locks are required to agree, the page contents are not compared.
- TransactionManager.TransactionMgr.Rollback: the same.
- Locking.Transaction.GetVal: reads the field from a map of all fields; that a pinned buffer shows the same is the subject of `BufferManager`.
- Locking.Transaction.SetVal: writes that map; logging and SetModified are in `RecoveryManager.RecoveryMgr.SetVal`.
- RecoveryObjects.LogManager.Append: works on records as values; bytes, blocks and fragments are in `LogWriter`.
- RecoveryObjects.PageCache.Pin: pin counts, hash index and the choice of victim are in `BufferManager`.
- TableScans.TableFile.AppendFormatted: models the flags of the slots, not the zero values `Format` writes into the fields.
- LogReader.LogIterator.Reconstruct: a chain that runs out in a block with room left reads the bytes there, and nothing is promised but that the iterator moves on.
- LogReader.LogIterator.Next: behind an empty last block, or behind the last record of a block with room left, what is read depends on the bytes there, and nothing is promised but that the iterator moves on.
- The `LockReadCommitted` policy, which releases after each read.
- File handles, directories and I/O errors of `FileMgr`; reads out of bounds of a page, which stop the Go program.
- Start-up, tickers and shutdown of `SimpleDB`; contexts, printing and error texts.
- Time values beyond unix seconds; schema accessors and record ids.
