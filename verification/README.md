# DatyreDB storage core and SQL front end: a Dafny model

DatyreDB keeps its data in fixed-size checksummed pages, caches them in a buffer pool with a
clock-sweep evictor, logs to a segmented write-ahead log, and moves dirty pages to disk with
fuzzy checkpoints. Beside this storage layer there is a small SQL front end (scanner, parser,
printer) and an engine that rebuilds its tables from a text log of commands. This project models
these parts and proves what they promise over all inputs and whole runs.

The form is the same throughout. An object of the program is a class, and each of its methods is
proved to take the object's state exactly where a specification function takes it. The promises
are then proved of the specification functions, by invariants over every run of a state machine,
and so hold of the objects. I/O outcomes are inputs, so that the theorems quantify over them: a
write to the data file may succeed, be refused, or leave any bytes behind, and a read of it may
fail; a write to either log may be cut after any byte, a segment file may fail to open or to be
removed, and so may the engine's log to be opened. Flushes are taken to work on what their stream
has taken. A theorem that needs some of this to succeed says so in its row.

## The parts

| part | files |
|---|---|
| page checksum, pages, data file | `CrcTable`, `ShiftRegister`, `Checksum`, `Bytes`, `Pages`, `ChecksumResidue`, `DiskStore` |
| buffer pool: specification, clock sweep, invariant | `PoolSpec`, `PoolSweep`, `PoolInvariant`, `PoolPreservation`, `PoolPages` |
| buffer pool: whole runs | `PoolRuns`, `PinSafety`, `SecondChance`, `CleanPages` |
| buffer pool: object over page objects | `FrameSlots`, `BufferPool` |
| write-ahead log | `WalCodec`, `WalSpec`, `WalRuns`, `WalTheorems`, `WalFailures`, `WalLosses`, `WriteAheadLog` |
| checkpoint | `CheckpointSpec`, `CheckpointCounts`, `FuzzyCheckpoint`, `EmptyCheckpoint`, `CheckpointManager`, `CheckpointRefinement` |
| SQL: scanner, parser, printer, round trip | `SqlLexer`, `SqlTiling`, `SqlParser`, `SqlPrinter`, `SqlReadBack`, `SqlRoundTrip` |
| SQL: keywords, characters, values, grammar, said by literals | `SqlKeywords`, `SqlCharacters`, `SqlValues`, `SqlGrammar` |
| command-log engine | `Engine`, `EngineCommands`, `EngineReplay`, `EngineLosses`, `EngineJoins`, `EngineText` |
| shared | `Wrappers`, `Sequences`, `Text`, `LetterCase` |

## The client contract

A client writes only to a page it holds pinned, and passes `is_dirty = true` when it releases a
pin through which it wrote (`PoolRuns.Allowed`). Pin holders are counted: those that wrote and
those that did not. Beside the pool, a run keeps a book per page: every content the page was left
with, in order, and which of them was last declared by `unpin_page(.., true)`. A successful delete
forgets the page. *Content* is everything in a page but its id and its checksum.

Clients write page bytes without the pool's latch, while `flush_page` may seal and write out the
same pinned page. Here a client's write is one step, atomic against both, which the program
leaves to its clients.

## Where the code does not do what one would expect

Each of these is stated exactly: the promise holds if and only if the condition given holds.

* A checkpoint that finds no dirty page logs CHECKPOINT_END without a sync. What was declared is
  then durable only if nothing declared is still waiting in the file stream
  (`CheckpointSpec.QuiescentGuarantee`; a reachable state that loses a change is in
  `EmptyCheckpoint.EmptySnapshotLoses`).
* The batch loop of a checkpoint stops if and only if the batch size is positive, nothing is dirty,
  or the manager is found stopped at some iteration and the trigger is not Shutdown
  (`CheckpointSpec.BatchLoopEnds`).
* Truncation ignores its LSN and removes every segment older than the one before the current id.
  So a record that was kept survives it only if at most one rotation was attempted since, failed
  ones included, or its file cannot be removed (`WalLosses.Retention`, for the checkpoint's own
  records `FuzzyCheckpoint.RecordsRetained`; `WalLosses.RefusalsTruncate` shows two failed rotations
  that cost the only record, `WalTheorems.TruncationLoses` three appends that lose the first).
* An append is given an LSN and its record is in no file, exactly if its own write was cut short, or
  it needed no rotation and came after an append that was refused or cut, with no rotation
  attempted between (`WalLosses.SilentLoss`; `RefusedThenLost` and `CutThenLost` show both).
* A record that is in the log, up to the flushed LSN, is safe, unless a write to its segment was cut
  (`WalLosses.DurableKept`; `ForcedNotSafe` shows a force that makes nothing safe).
* A log record round-trips only if its data is shorter than 2^32 bytes (`WalCodec.RoundTrip`).
* The pool's invariant survives `new_page` only while no frame can be had or the page id counter has
  not reached the invalid id (`PoolPreservation.NewPageKeeps`, `IdsRunOut`).
* Four entries of the checksum table are not those of the polynomial it is labelled with
  (`CrcTable.TableVersusPolynomial`). Error detection does not depend on them.
* A page that was created, released clean and evicted can be fetched again only if its zero image
  verifies, which it does for at most one page id (`CleanPages.CleanPageLost`, `ZeroVerifiesOnce`;
  when any page can be fetched is `CleanPages.FetchExact`).
* A query survives replay after every terminated log only if its text, split into lines, is still
  that one command (`EngineLosses.SafeExact`). A line end may lose a command, do no harm, or make
  replay do more than was done (`LineEndLosesTable`, `TrailingLineEndIsSafe`, `LineEndAddsRow`).
  Behind an unterminated last line it survives only if the commands of the joined text do what the
  command of that line, if it is one, and then the query do (`EngineJoins.UnterminatedExact`). A
  command whose line is cut survives only if what came of it replays to what it did
  (`EngineReplay.ExecuteExact`).
* Inserted string values are printed without quotes, so that an insertion comes back from print and
  parse only if all its values are names or digit strings (`SqlRoundTrip.RoundTrip`).

## Model

| member | source | states |
|---|---|---|
| `CrcTable.TopDeterminesIndex` | src/storage/page.cpp:8-73 | the top byte of a table entry determines its index: a left inverse, so all 256 top bytes are distinct |
| `CrcTable.TableVersusPolynomial` | src/storage/page.cpp:7-73 | an entry equals the remainder of the polynomial in the label if and only if its index is none of 111, 237, 238, 239; those four entries are given |
| `Checksum.StepIsCrcStep` | src/storage/page.cpp:125 | the step on four separate bytes is the program's 32-bit expression, for every table |
| `Checksum.CrcReveals` | src/storage/page.cpp:125 | for every table with distinct top bytes, a step's result reveals the entry used and the leading bytes of the state before |
| `ShiftRegister.SuffixInjective` | src/storage/page.cpp:120-126 | different register states stay different over any common rest of the page |
| `ShiftRegister.WordInjective` | src/storage/page.cpp:120-126 | from one state, different four-byte words lead to different states |
| `ShiftRegister.BurstDetected` | src/storage/page.cpp:113-129 | sequences that differ only within four consecutive bytes and have one register value are equal |
| `Pages.BurstChangesChecksum` | src/storage/page.cpp:113-129 | two pages that differ only within at most four consecutive checksummed bytes have different checksums |
| `Pages.SealedIsOk` | src/storage/page.cpp:131-137 | after update_checksum, verify_checksum holds |
| `Pages.BurstFailsVerification` | src/storage/page.cpp:131-133 | such damage to a page that verifies makes it fail verification |
| `Pages.FieldDamageFailsVerification` | src/storage/page.cpp:131-133 | with the covered bytes intact, a page verifies if and only if its checksum field is intact |
| `Pages.Page.constructor` | src/storage/page.cpp:75-81 | a new page is zero, invalid, clean and unpinned |
| `Pages.Page.SetPageId` | src/storage/page.cpp:92-95 | sets the id in the object and in the header bytes, and nothing else |
| `Pages.IdInHeader` | src/storage/page.cpp:92-95 | the first four bytes are the id's digits to the base 256, least significant first; every other byte is what it was |
| `Pages.Page.Pin` | src/storage/page.hpp:29 | one pin more, nothing else changes |
| `Pages.Page.Unpin` | src/storage/page.hpp:30 | one pin less but never below zero, nothing else changes |
| `Pages.Page.MarkDirty` | src/storage/page.hpp:25 | dirty, nothing else changes |
| `Pages.Page.MarkClean` | src/storage/page.hpp:26 | clean, nothing else changes |
| `Pages.Page.FoldBytes` | src/storage/page.cpp:114-126 | the byte loop, which skips the checksum field in place, folds exactly the covered bytes |
| `Pages.Page.ComputeChecksum` | src/storage/page.cpp:113-129 | returns the checksum that the detection theorems speak of; which value it is, in the program's 32-bit terms, is `ChecksumResidue.ChecksumIsCrc` |
| `ChecksumResidue.ChecksumIsCrc` | src/storage/page.cpp:113-129 | that checksum is the 32-bit register started at 0xFFFFFFFF and fed the bytes before 16 and from 20 on, exclusive or'ed with 0xFFFFFFFF |
| `ChecksumResidue.Residue` | src/storage/page.cpp:113-133 | a page verifies if and only if that register, fed the covered bytes and then bytes 16 to 19 inverted, ends in zero |
| `Pages.Page.VerifyChecksum` | src/storage/page.cpp:131-133 | true if and only if the stored checksum is the computed one |
| `Pages.Page.UpdateChecksum` | src/storage/page.cpp:135-137 | the bytes become the sealed image, nothing else changes |
| `Pages.Page.Reset` | src/storage/page.cpp:139-144 | back to the state of a new page |
| `DiskStore.ReadBack` | src/storage/disk_manager.cpp:88-143 | a page written and read back verifies and has the same content |
| `DiskStore.ReadDetectsBurst` | src/storage/disk_manager.cpp:105-117 | a stored page that differs from a good one only within four consecutive checksummed bytes, anywhere, is delivered if and only if its content is intact, and then exactly the good page is |
| `DiskStore.DiskManager.Read` | src/storage/disk_manager.cpp:88-120 | on a page object: bounds check, read failure that may leave any bytes, id stamped before the checksum check, for all outcomes |
| `DiskStore.DiskManager.Write` | src/storage/disk_manager.cpp:122-143 | on a page object: it is sealed even if the write then fails; the stream takes the sealed image or whatever a torn write left |
| `DiskStore.DiskManager.Allocate` | src/storage/disk_manager.cpp:145-160 | the next id, with 32-bit wrap-around, the file extended by one zero byte, and the stream flushed |
| `DiskStore.AllocateExact` | src/storage/disk_manager.cpp:145-160 | byte by byte: the last byte of the new page is zero, its others are as before or zero, all other pages stay, everything is safe; if the growth fails only the counter moves |
| `DiskStore.DiskManager.Flush` | src/storage/disk_manager.cpp:167-172 | everything in the stream becomes durable |
| `PoolSweep.SweepInduction` | src/storage/buffer_pool.cpp:236-265 | what non-taking probes preserve holds when the sweep takes a frame or gives up |
| `PoolSweep.SweepExact` | src/storage/buffer_pool.cpp:234-269 | for all write outcomes: the victim is at the first probe that takes its frame; exactly the unpinned frames scanned before lose their reference bit; the hand, the table and all other frames are as stated |
| `PoolSweep.SweepWithoutFailures` | src/storage/buffer_pool.cpp:234-269 | with writes succeeding, the victim is the first unpinned unreferenced frame in circular order from the hand, else the first unpinned one; none if and only if there is none |
| `PoolRuns.NoVictimIffAllPinned` | src/storage/buffer_pool.cpp:222-269 | with writes succeeding, no frame can be had if and only if every frame is pinned |
| `SecondChance.UsedIsSpared` | src/storage/buffer_pool.cpp:251-255 | while some frame is unpinned and unreferenced, a full pool does not evict a page whose reference bit is set |
| `SecondChance.FetchedPageSpared` | src/storage/buffer_pool.cpp:34-127 | a page that was just fetched and released is not the next victim under that condition, and stays in its frame |
| `SecondChance.CreatedPageSpared` | src/storage/buffer_pool.cpp:73-127 | the same for a page that was just created and released |
| `PoolPreservation.DirtyAccounting` | src/storage/buffer_pool.cpp:185-198 | both counters equal the number of dirty resident pages and of dirty frames, and are below the point of wrap-around |
| `PoolPreservation.VictimChosen` | src/storage/buffer_pool.cpp:222-290 | every search for a victim is failed probes that harm nothing, followed by nothing, the first free frame, or the eviction of an unpinned mapped frame |
| `PoolPreservation.FindVictimKeeps` | src/storage/buffer_pool.cpp:222-290 | the frame found is outside table and free list, and everything else is accounted for |
| `PoolPreservation.FetchKeeps` | src/storage/buffer_pool.cpp:34-71 | the invariant (injective table, ids match keys, free list without duplicates and disjoint, all frames covered, counters exact) is kept, failing paths included |
| `PoolPreservation.NewPageKeeps` | src/storage/buffer_pool.cpp:73-99 | the invariant is kept if and only if no frame can be had or the id counter is not at the invalid id |
| `PoolPreservation.IdsRunOut` | src/storage/disk_manager.cpp:145-146 | a new pool over a data file that leaves only the invalid id breaks at its first new page |
| `PoolPreservation.UnpinKeeps` | src/storage/buffer_pool.cpp:101-127 | the invariant is kept; the counter does not wrap |
| `PoolPreservation.FlushKeeps` | src/storage/buffer_pool.cpp:129-153 | the invariant is kept for every write outcome |
| `PoolPreservation.DeleteKeeps` | src/storage/buffer_pool.cpp:155-183 | the invariant is kept |
| `PoolPages.VictimYields` | src/storage/buffer_pool.cpp:222-290 | for every page: it stays as it is, or is put out unpinned and written first if dirty; torn writes can only spoil the stream image of a page that stays resident and dirty |
| `PoolPages.MissedPage` | src/storage/buffer_pool.cpp:46-70 | a fetch that misses: the page comes clean and pinned once from the stream or not at all, any other page only suffers the search for a victim |
| `PoolPages.NewedPage` | src/storage/buffer_pool.cpp:73-99 | the effect of new_page on any page |
| `PoolPages.UnpinnedPage` | src/storage/buffer_pool.cpp:101-127 | succeeds if and only if the page is resident and pinned; effect on any page |
| `PoolPages.FlushedPage` | src/storage/buffer_pool.cpp:129-153 | a flush that reports success leaves the page absent, clean, or just written with its content; effect on any page |
| `PoolPages.DeletedPage` | src/storage/buffer_pool.cpp:155-183 | succeeds if and only if the page is absent or unpinned; effect on any page |
| `PoolRuns.StepKeepsGood` | src/storage/buffer_pool.cpp:34-183 | every operation, whatever fails in it, keeps: clean unpinned pages agree with the stream, declared content is in the pool or in a verifying stream image |
| `PoolRuns.CacheRefinesPageMap` | src/storage/buffer_pool.cpp:34-127 | after any run from any data file, a successful fetch returns the page asked for with exactly the content last left in it |
| `PoolRuns.CountersOverRuns` | src/storage/buffer_pool.cpp:120-124 | after any run both counters are the number of dirty pages and dirty frames, and cannot wrap |
| `PoolRuns.DeclaredPageFetchable` | src/storage/buffer_pool.cpp:34-71 | a page whose change was declared is fetched if and only if it is resident, or a frame can be had and the read works |
| `CleanPages.FetchExact` | src/storage/buffer_pool.cpp:34-71 | for every page: it is fetched if and only if it is resident, or a frame can be had, the id is allocated and in the file, the read works and the image verifies |
| `CleanPages.ZeroVerifiesOnce` | src/storage/disk_manager.cpp:105-117 | a zero image verifies for at most one page id |
| `CleanPages.CleanPageLost` | src/storage/buffer_pool.cpp:73-99 | a run, for every page id and data file: created, released clean and evicted, a page is fetched again if and only if a zero image verifies for its id |
| `PinSafety.PinsBalance` | src/storage/buffer_pool.cpp:34-127 | over any run, a page's pin count changes by its successful fetches and creations minus its successful unpins |
| `PinSafety.PinnedPageStays` | src/storage/buffer_pool.cpp:163-168 | while a page is pinned no sequence of operations moves or removes it, and only a client write to it changes its content |
| `BufferPools.BufferPool.constructor` | src/storage/buffer_pool.cpp:6-22 | fresh page objects that share nothing, all frames free, and the invariant |
| `BufferPools.BufferPool.FetchPage` | src/storage/buffer_pool.cpp:34-71 | the object does what the specification says, and keeps the invariant |
| `BufferPools.BufferPool.NewPage` | src/storage/buffer_pool.cpp:73-99 | the same, the invariant exactly while page ids last |
| `BufferPools.BufferPool.UnpinPage` | src/storage/buffer_pool.cpp:101-127 | the same |
| `BufferPools.BufferPool.FlushPage` | src/storage/buffer_pool.cpp:129-153 | the same |
| `BufferPools.BufferPool.DeletePage` | src/storage/buffer_pool.cpp:155-183 | the same |
| `BufferPools.BufferPool.GetDirtyPages` | src/storage/buffer_pool.cpp:185-198 | exactly the dirty resident pages, each once; its length is both counters |
| `BufferPools.BufferPool.FlushPages` | src/storage/buffer_pool.cpp:200-211 | flushes the pages in order, and reports success if and only if each flush did |
| `BufferPools.BufferPool.ClockSweep` | src/storage/buffer_pool.cpp:234-269 | the two nested loops with modular index are the specified sweep |
| `BufferPools.BufferPool.EvictFrame` | src/storage/buffer_pool.cpp:271-290 | a dirty page is written first; if that fails the frame is left as it was but sealed |
| `BufferPools.BufferPool.Destroy` | src/storage/buffer_pool.cpp:24-32 | flushes exactly the dirty pages and syncs, if there are any |
| `WalCodec.RoundTrip` | src/storage/wal.cpp:13-65 | decoding the encoding gives the record back if and only if its data is shorter than 2^32 bytes |
| `WalCodec.StreamRoundTrip` | src/storage/wal.cpp:13-65 | repeated decoding of concatenated encodings gives the sequence back if and only if every record's data is that short |
| `WalCodec.StreamsInjective` | src/storage/wal.cpp:25-43 | on such sequences the encoding is injective |
| `WalCodec.Layout` | src/storage/wal.cpp:25-43 | where each field lies: kind at 0, lsn at 1, txn at 9, page at 17, offset at 21, length at 23, prev at 25, data length at 33, each the digits to the base 256 with the least significant first, and the data from 37 on |
| `WalCodec.EncodeOntoIsConcat` | src/storage/wal.cpp:13-23 | serialized_size is the length of what serialize writes |
| `WalCodec.Serialize` | src/storage/wal.cpp:25-43 | the buffer filled through the moving pointer is the encoding |
| `WalRuns.StepGood` | src/storage/wal.cpp:171-260 | append, force and truncation keep the log invariant, rotations succeeding |
| `WalRuns.HistoryAfterAppend` | src/storage/wal.cpp:174-195 | an append adds exactly the stamped record at the end of the history, across a rotation too |
| `WalTheorems.LiveLog` | src/storage/wal.cpp:171-279 | after any run without failures: the files in id order hold and decode to a contiguous suffix of everything appended, LSNs are consecutive, a segment exceeds the segment size only with a single record, the size counter is the sum of the files, and a rotation opens no existing file |
| `WalTheorems.DurablePrefix` | src/storage/wal.cpp:198-202 | after any run without failures that forces only returned LSNs, every record up to flushed_lsn is truncated or among the safe bytes |
| `WalTheorems.TruncationRetention` | src/storage/wal.cpp:204-260 | rotations, writes and removals succeeding: truncation keeps a record and all after it if and only if at most one rotation happened since it was appended; the bytes freed are those of the removed files |
| `WalTheorems.TruncationLoses` | src/storage/wal.cpp:229-260 | a run from an empty directory, of three appends and a truncation, that loses the first record |
| `WalFailures.ActionOk` | src/storage/wal.cpp:171-279 | whatever rotations, writes and removals fail, every step keeps: a file starts with the encodings of its records, a segment holds exactly the records kept for it, a file is there exactly if every truncation spared it, the size counter is exact up to bytes lost and bytes of files not removed |
| `WalLosses.SilentLoss` | src/storage/wal.cpp:180-195 | after any such run, an append returned an LSN while its record is in no file ever created, if and only if its own write was cut short, or it needed no rotation and came after a refused or cut append with no rotation attempted between |
| `WalLosses.Retention` | src/storage/wal.cpp:229-279 | after any such run, a record is in a file that is still there if and only if it was kept and at every truncation since at most one rotation had been attempted since it, or its file could not be removed |
| `WalLosses.DurableKept` | src/storage/wal.cpp:198-202 | after any such run that forces only LSNs given out, a record in a file that is there, up to flushed_lsn, is among the safe bytes unless a write to its segment was cut |
| `WalLosses.RefusedThenLost` | src/storage/wal.cpp:262-275 | two appends in an empty directory: the first is refused, the second gets LSN 2 and is in no file |
| `WalLosses.CutThenLost` | src/storage/wal.cpp:188-195 | two appends in an empty directory: the write of the first fails, both get LSNs and are in no file |
| `WalLosses.RefusalsTruncate` | src/storage/wal.cpp:229-275 | a kept record, two refused appends and a truncation: no file is left |
| `WalLosses.ForcedNotSafe` | src/storage/wal.cpp:198-202 | a kept record, an append whose write fails, a force of the first LSN: flushed_lsn is 1 and nothing is safe |
| `WalSpec.AppendExact` | src/storage/wal.cpp:171-196 | files, safe bytes, segment, position, size, stream and LSN after an append, outright, in each of the cases: no rotation, rotation, failed rotation, and a write cut anywhere |
| `WalLosses.LiveIsReadable` | src/storage/wal.cpp:25-65 | whatever failed before, a record in a file that is still there is what deserialize gives at some offset of that file |
| `WriteAheadLogs.WriteAheadLog.Append` | src/storage/wal.cpp:171-196 | the object does what the specification says, for every outcome of the rotation and of the write |
| `WriteAheadLogs.WriteAheadLog.Force` | src/storage/wal.cpp:198-202 | the same |
| `WriteAheadLogs.WriteAheadLog.WriteCheckpointBegin` | src/storage/wal.cpp:204-213 | appends a record of kind 7 for no transaction and page 0xFFFFFFFF, without data, pointing at nothing |
| `WriteAheadLogs.WriteAheadLog.WriteCheckpointEnd` | src/storage/wal.cpp:215-227 | appends the like record of kind 8 whose prev_lsn is the LSN given, and forces the LSN returned |
| `WriteAheadLogs.WriteAheadLog.TruncateBefore` | src/storage/wal.cpp:229-260 | removes exactly the segments older than the previous one that can be removed, and subtracts the bytes of all of them, in whatever order the directory is visited |
| `WriteAheadLogs.WriteAheadLog.RotateSegment` | src/storage/wal.cpp:262-279 | flushes and closes the segment and opens the next, or leaves the stream closed |
| `CheckpointSpec.BatchLoopEnds` | src/storage/checkpoint.cpp:197-201 | the loop, run iteration by iteration with its break, stops if and only if the batch size is positive, there is nothing to write, or an interruption is seen and the trigger is not Shutdown |
| `CheckpointSpec.ProgressIsPrefix` | src/storage/checkpoint.cpp:197-212 | after any number of iterations, whatever failed, the loop has flushed a prefix of the snapshot, and pages_written is its length if no write failed |
| `CheckpointCounts.FlushRangeExact` | src/storage/buffer_pool.cpp:200-211 | for every pattern of write failures, a flush of dirty pages leaves dirty exactly the pages it was not given and those whose write failed, and reports success if and only if no write failed |
| `CheckpointCounts.PagesWrittenExact` | src/storage/checkpoint.cpp:194-226 | for every pattern of write failures, an uninterrupted loop leaves dirty exactly the pages whose write failed, and pages_written is the size of the batches in which none failed |
| `CheckpointSpec.BatchLoopIsOneFlush` | src/storage/checkpoint.cpp:194-226 | without failures and interruption the loop is one flush of the whole snapshot, whatever the batch size, and counts every page |
| `CheckpointSpec.SnapshotFlushed` | src/storage/checkpoint.cpp:178-226 | that flush leaves nothing dirty, counters zero, every dirty page written with its content and all other pages untouched |
| `CheckpointSpec.QuiescentGuarantee` | src/storage/checkpoint.cpp:178-236 | with idle clients, everything declared is durable at CHECKPOINT_END if and only if something was written or nothing declared was waiting in the stream |
| `EmptyCheckpoint.EmptySnapshotLoses` | src/storage/checkpoint.cpp:181-189 | a reachable state in which the early exit ends a checkpoint while a declared change is not durable |
| `CheckpointManagers.CheckpointManager.DoCheckpoint` | src/storage/checkpoint.cpp:154-262 | pool, log, flags and metrics after a checkpoint, for every trigger, interruption and I/O outcome with which its loop ends; BEGIN is logged before the snapshot is taken and END after it is written and synced, with the checkpoint announced and, at the hard limit, transactions blocked in every phase |
| `CheckpointManagers.CheckpointManager.FlushInBatches` | src/storage/checkpoint.cpp:194-226 | the batch loop with its breaks and skips ends after the specified number of iterations, with the specified pool and pages_written, batches of size zero included |
| `CheckpointManagers.QuiescentCheckpoint` | src/storage/checkpoint.cpp:178-231 | a checkpoint without failures or interruption leaves nothing dirty and counters zero, writes as many pages as were dirty, and every one of them is equal in pool, stream and file |
| `FuzzyCheckpoint.ClientAdvances` | src/storage/buffer_pool.cpp:34-183 | a client step takes any page whose image it does not tear forward only: what the stream or the file holds of its history never gets older |
| `FuzzyCheckpoint.EventKeepsGood` | src/storage/checkpoint.cpp:173-241 | every step of the checkpoint and every client step between keeps the machine's invariant |
| `FuzzyCheckpoint.FuzzyCheckpointSafety` | src/storage/checkpoint.cpp:173-236 | for every interleaving and all I/O outcomes, once END was appended, every page declared before BEGIN, not deleted, and not left behind by a failed or skipped flush or a tear of its own, is in the stream with that content or a later one, in an image that a read accepts, and after a sync so it is in the file; the two records are as in the row of `CheckpointRecords` |
| `FuzzyCheckpoint.CheckpointRecords` | src/storage/wal.cpp:204-227 | after every run with an ended checkpoint, the log has a record of kind 7 and later one of kind 8 whose prev_lsn is what the append of the first returned, both for transaction 0 and page 0xFFFFFFFF without data; each is in a file that is still there if and only if it was kept, and then decoding that file gives it |
| `FuzzyCheckpoint.RecordsRetained` | src/storage/checkpoint.cpp:236-241 | after the checkpoint's own truncation its BEGIN record is in the log if and only if it was kept and at most one rotation was attempted since, or its file could not be removed; and so for its END record |
| `CheckpointRefinement.BatchLoopIsPrefix` | src/storage/checkpoint.cpp:197-210 | whatever fails or interrupts, the loop flushes a prefix of the snapshot |
| `CheckpointRefinement.CheckpointIsARun` | src/storage/checkpoint.cpp:154-262 | every checkpoint of the manager object, for every trigger, interruption and I/O outcome with which its loop ends, is a run of that machine with the same pool and log |
| `SqlLexer.Lexer.constructor` | src/sql/lexer.cpp:8-10 | scanning starts with the whole input |
| `SqlLexer.Lexer.ReadString` | src/sql/lexer.cpp:76-86 | the text up to the matching quote, a NUL or the end; every substr is in range |
| `SqlLexer.Lexer.NextToken` | src/sql/lexer.cpp:40-74 | one call returns the token at the front of the remaining text and leaves the rest; which token that is, is said by `SqlCharacters.FirstCharacter` and `SqlKeywords.KeywordExact` |
| `SqlCharacters.FirstCharacter` | src/sql/lexer.cpp:30-74 | the four white space characters are passed over; else the first character decides the kind of the token, in both directions: NUL, either quote, digit, letter or underscore, each of the six symbols, and everything else an illegal token of one character |
| `SqlCharacters.NameExact` | src/sql/lexer.cpp:88-125 | a text is an identifier exactly if it consists of letters of the two alphabets, digits and underscores, starts with no digit, and is in no letter case one of the eight keywords; a number exactly if it is digits |
| `SqlKeywords.CaseIgnored` | src/sql/lexer.cpp:104-118 | words that agree up to letter case have the same kind |
| `SqlKeywords.KeywordExact` | src/sql/lexer.cpp:104-118 | a word has the kind of a keyword if and only if it is, up to letter case, that one of the eight literals |
| `SqlKeywords.KeywordCase` | src/sql/lexer.cpp:40-118 | a text parses the same when the letter case of its keyword tokens is changed, whatever the text |
| `SqlKeywords.AnyCaseReadsBack` | src/sql/lexer.cpp:104-118 | a printed statement comes back whatever the letter case of its keywords |
| `SqlTiling.Tiling` | src/sql/lexer.cpp:12-102 | token texts with their quotes, and the white space between them, concatenate back to the input up to the end or the first NUL outside a token |
| `SqlTiling.ReachesEof` | src/sql/lexer.cpp:40-74 | on NUL-free text, after at most as many calls as there are characters every call is an end of file |
| `SqlTiling.EofForGood` | src/sql/lexer.cpp:30-53 | every further call is an end of file if and only if only white space and NULs remain |
| `SqlParser.Parser.ParseList` | src/sql/parser.cpp:59-68 | the loop terminates; the list is exactly the accepted tokens before the first closing token, with or without commas |
| `SqlParser.Parser.ParseCreateTable` | src/sql/parser.cpp:27-47 | the statement, or none, in terms of the token sequence |
| `SqlParser.Parser.ParseInsertInto` | src/sql/parser.cpp:49-72 | the same |
| `SqlGrammar.SelectedExact` | src/sql/parser.cpp:59-68 | a list is the literals of all tokens of its kinds, each once and in their order, and nothing else is |
| `SqlGrammar.ParseExact` | src/sql/parser.cpp:18-91 | for all tokens and statements: the parser gives the statement if and only if the tokens derive it, with literal kinds in literal places, the first closing token, and the selected list; so it gives none exactly if there is no such statement |
| `SqlValues.WrittenValuesRead` | src/sql/parser.cpp:49-72 | an insertion whose values are written in any mix between either quote, if they contain neither it nor NUL, or bare, if they are names or numbers, parses to the insertion of just these values |
| `SqlParser.Parser.ParseSelectFrom` | src/sql/parser.cpp:74-91 | the same |
| `SqlParser.Parser.ExpectPeek` | src/sql/parser.cpp:93-100 | advances if and only if the next token has the kind asked for |
| `SqlParser.ParseText` | src/sql/parser.cpp:7-25 | scanner and lookahead parser together compute the specified statement of the text |
| `SqlPrinter.ToString` | src/sql/ast.cpp:7-39 | the printing loops produce the specified text |
| `SqlRoundTrip.RoundTrip` | src/sql/ast.cpp:7-39 | for every statement: parsing what was printed gives it back, up to the empty select list, if and only if all names are identifiers that are no keywords, values such identifiers or digits, and select items such identifiers or asterisks |
| `SqlRoundTrip.OnlyPlainReturn` | src/sql/ast.cpp:17-25 | a printed value list is read back as itself if and only if every value is a name or a number |
| `SqlRoundTrip.TooLate` | src/sql/lexer.cpp:40-102 | read from behind the start of its first value, or from a value that is no name or number, a printed list never gives itself |
| `SqlRoundTrip.Reparse` | src/sql/parser.cpp:18-91 | printing and parsing again whatever was parsed changes nothing, if and only if it inserts no value that is neither a name nor a number |
| `SqlRoundTrip.StringValueLost` | src/sql/ast.cpp:20-22 | an instance: a string value with a space comes back as two values |
| `EngineCommands.ReplayIsRun` | src/core/engine.hpp:93-112 | replaying a log is running the commands among its lines |
| `EngineReplay.ExecuteExact` | src/core/engine.hpp:115-171 | from any state whose log replays to its tables, a query keeps that if and only if it fails, or what of its line came to the log, joined to the pending line, replays to what it did |
| `EngineReplay.NothingLogged` | src/core/engine.hpp:115-120 | a command of which nothing came to the log keeps that if and only if it fails or does nothing |
| `EngineReplay.SafeExecute` | src/core/engine.hpp:141-171 | with tables of any type, a query whose lines are still that one command, written whole, keeps the log faithful |
| `EngineReplay.PlainIsSafe` | src/core/engine.hpp:115-120 | a query without line ends is such a query |
| `EngineReplay.ReplayCorrect` | src/core/engine.hpp:93-171 | after any safe queries, written whole, and restarts that get hold of the log, the log replays to the tables, and a further restart changes nothing |
| `EngineReplay.OnlySuccessesTraced` | src/core/engine.hpp:115-171 | a run adds to the log exactly the lines of the commands that succeed, and its tables are the replay of those: failed commands leave no trace |
| `EngineReplay.RunsFromNothing` | src/core/engine.hpp:93-171 | the same from an empty log |
| `EngineLosses.SafeExact` | src/core/engine.hpp:93-120 | a query is executed without loss after every terminated log if and only if it is safe: among its lines one is the whole command, before it only commands of the other kind on the same table, after it only creations of that table |
| `EngineJoins.UnterminatedExact` | src/core/engine.hpp:93-120 | behind an unterminated last line a query, of any number of lines, survives after every log if and only if the commands of the joined text do on every table what that line's command, if it is one, and then the query do, as `JoinSafe` spells out |
| `EngineJoins.PlainJoin` | src/core/engine.hpp:93-120 | behind a line that is no command, a query without line ends survives if and only if the joined line is the same command |
| `EngineLosses.LineEndLosesTable` | src/core/engine.hpp:115-120 | an instance: a command of two lines, neither of them a command, is lost |
| `EngineLosses.LineEndAddsRow` | src/core/engine.hpp:115-120 | an instance: replay inserts a row that nobody inserted |
| `EngineLosses.TrailingLineEndIsSafe` | src/core/engine.hpp:115-120 | an instance: a line end behind a command does no harm |
| `EngineLosses.UnterminatedLogLosesRow` | src/core/engine.hpp:115-120 | an instance: an insertion into the table that a pending line creates is lost |
| `Engine.SplitLoop` | src/core/engine.hpp:25-37 | the splitting loop computes the specified pieces, which `EngineText.SplitGlued` and `EngineText.SplitExact` describe |
| `EngineText.SplitGlued` | src/core/engine.hpp:25-37 | for every list of pieces with any padding by the four trimmed characters, splitting the padded pieces joined by the separator gives the pieces that are not empty |
| `EngineText.SplitExact` | src/core/engine.hpp:25-37 | every text, for every separator, is such a list, and splitting gives its pieces |
| `EngineText.PiecesClean` | src/core/engine.hpp:25-37 | no piece is empty, contains the separator, or starts or ends with one of the four characters |
| `EngineText.WordOfLine` | src/core/engine.hpp:39-45 | word number n of words with any of the six white space characters between them, or nothing |
| `EngineText.LaidOut` | src/core/engine.hpp:39-45 | every text is such a line of words |
| `EngineText.CommandExact` | src/core/engine.hpp:49-81 | a text is a command if and only if its first word is, in any letter case, one of the two, and both parentheses occur |
| `EngineText.CommandRead` | src/core/engine.hpp:49-81 | words, padded items between parentheses and anything behind them: the command named by the first word, the third word as table name, or none, and just the pieces as columns or values |
| `EngineText.CommandReadToEnd` | src/core/engine.hpp:49-81 | the same with a closing parenthesis among the words: the items then go on to the end of the text |
| `EngineText.Executed` | src/core/engine.hpp:141-171 | what such a text does, with or without a semicolon at its end: the table created or the row inserted and its line added to the log, whole or as far as it was written, or nothing changed at all |
| `Engine.DatabaseEngine.Create` | src/core/engine.hpp:49-64 | adds the table, or leaves the tables as they were |
| `Engine.DatabaseEngine.Insert` | src/core/engine.hpp:66-81 | inserts the row, or leaves the tables as they were |
| `Engine.DatabaseEngine.Recover` | src/core/engine.hpp:93-112 | the recovery loop is the specified replay of the log |
| `Engine.DatabaseEngine.constructor` | src/core/engine.hpp:123-132 | a start rebuilds the tables from the log file, which may then fail to open |
| `Engine.DatabaseEngine.Persist` | src/core/engine.hpp:115-120 | a line, or the part of it that a cut write leaves, is added to a log that takes it, and nothing otherwise; a cut write ends what the log takes |
| `Engine.DatabaseEngine.ExecuteCommand` | src/core/engine.hpp:141-171 | tables and log after a command are the specified ones, for every outcome of the write |

## Left out

- DiskStore.DiskManager.Allocate: a growth that succeeds after one that failed would also fill the hole with zeros; the model leaves the hole. In the program a failed growth leaves the stream in its error state, which nothing clears, so no later growth succeeds.
- FuzzyCheckpoint.FuzzyCheckpointSafety: one checkpoint is in progress at a time; the shutdown checkpoint, which does not take the checkpoint mutex, could overlap a manual one. A client's write to a page is one step.
- CheckpointManagers.CheckpointManager.DoCheckpoint: clients do not run beside it; interleaving is the subject of the step machine.
- WalCodec.Serialize: deserialize is given as a function on the bytes; the code trusts its buffer, where the model returns no record if the buffer is too short.
- BufferPools.BufferPool.FetchPage: a page pointer is the index of its frame; several holders of one page are counted, not modelled as owners of pointers.
- Counters other than the two dirty counters, page ids and LSNs are unbounded: pin counts, sizes of the log, loop indices. The log's size counter is 64 bits and unsigned in the program, and would wrap where the model's goes below zero.
- WalLosses.DurableKept: of a segment whose stream failed nothing is promised beyond its safe mark, although closing the file may still write out some of it.
- `flush` of a file stream is taken to make durable what the stream has taken; the operating system's own cache is not modelled. File length is not modelled beyond which pages exist, and a partial page at the end of a data file is not modelled.
- Log-before-data: the code does not force the log before it writes a page, so nothing is stated about it.
- Restart of the write-ahead log over existing segments, LSNs across restarts, and recovery from the binary log: the code has no such recovery, and its LSNs start again at 1.
- When a checkpoint is due (`should_checkpoint`), the background thread, blocking of transactions by `check_pressure`, condition variables, throttling, timing and logging.
- Line and column numbers of tokens, the texts of results and errors, the output of SELECT in the engine.
- `Table` in the engine is any type with a constructor and an insertion that either succeeds or throws and changes nothing; exactness is shown with a table that records every row.
- Network layer, sessions, the in-memory storage engine, query executor, configuration and tools.
