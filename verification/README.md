# A verified model of uFS

uFS is a user-level file system served by several worker threads. This project models the parts of
its server and client library that keep several data structures, or several workers, in agreement,
and proves what holds in every run of them. All paths below are relative to the root of the uFS
repository.

| file | models |
|---|---|
| `NatLists.dfy`, `Options.dfy`, `Bytes.dfy` | lists of slots, block numbers, inodes, and the sets they enumerate; optional values; little-endian numbers and rows of them |
| `BlockBuffer.dfy` | the block buffer: LRU list, block map, free list, inode index, dirty index, dirty counter |
| `BufferTransfer.dfy` | release of an unlinked inode's blocks; hand-over of an inode's slots to another buffer |
| `BufferFlush.dfy` | picking blocks to flush, the flush request in flight, its completion |
| `BufferRuns.dfy` | runs of all buffer operations; the life of a flush |
| `BlockBufferImpl.dfy` | `BlockBuffer` and `BufferFlushReq` as objects with loops, proved against the functions |
| `JournalRing.dfy` | the journal superblock `JSuper`: ring allocation, padding, staleness counter, superblock writes |
| `JournalManager.dfy` | the queue of journal entries, and the loop at the end of a superblock write |
| `JournalCodec.dfy` | the bytes of an inode's log entry, and of all the entries of a journal entry |
| `Ownership.dfy` | transfer of inode ownership between workers through the primary |
| `Descriptors.dfy` | open, close and process exit: descriptor tables and inode reference counts |
| `InodeLog.dfy` | compaction of extent changes in an inode's log entry, and its effect on the bitmaps |
| `SyncBatches.dfy` | packing log entries into journal entries |
| `SyncRequests.dfy` | the queue of sync requests and the completion of their batches |
| `BitmapRouting.dfy`, `Bitmaps.dfy` | routing of bitmap changes to the owning workers; the address arithmetic |
| `LeaseCache.dfy` | the client's page cache of a leased file |
| `PermissionMaps.dfy` | the path cache and its delayed garbage collection |
| `Routing.dfy`, `TauKeys.dfy` | the load manager's routing tables; packing of thread identifiers |

## Conventions

Objects whose methods update fields are classes; each method is proved to follow a function of the
object's value (`State()`), and the properties are proved about those functions. Loops over hash
containers take the traversal order as a parameter, so every statement holds for every order. Clock
readings, device answers, the contents of new memory and the number of batches of a sync request are
parameters. Calls that a lock or the single thread of a worker makes atomic are single steps of a
transition system. Loops that run over local copies of several fields are methods on values
(`TakeSlot`, `UncacheAll`, `PushAll`, `FreeAll`, `ReadPages`, `AppendPages`).

## What turned out not to hold

Where the code does not do what its callers, comments or assertions expect, the model follows the
code; a concrete input or run shows the failure and a further lemma says exactly when the code does
meet the expectation.

- A slot freed by the release of an unlinked inode keeps its index. If the same index is then used
  for it again, it is not entered in the inode index (`BufferRuns.StaleIndexRun`,
  `BlockBuffers.GetBlockConsistentIff`).
- A dirty index entry that has become empty stays, and a later install for the same inode does not
  overwrite it, so dirty slots are counted but not found (`BufferRuns.LeftoverEntryRun`,
  `BufferRuns.LeftoverEntryHidesDirty`, `BufferTransfer.InstallConsistentIff`).
- A journal entry can run over the end of the ring if blocks are released in arbitrary amounts
  (`JournalRing.AnyReleaseCanWrap`, `JournalRing.ReleaseFitsIff`); with the amounts that
  checkpointing releases it cannot (`JournalRing.CheckpointedRunsFit`).
- The comment in `cfs/include/journalparams.h` calls `MAX_UNACCOUNTED_JOURNAL_BYTES` the most that
  the superblock can differ from the journal, and the offline checkpointer reads no further; the
  difference can exceed it by less than one entry and one padding
  (`JournalRing.WindowExceeded`, `JournalRing.JournalRuns`). A grant stays within it if and only if
  the difference, the entry and its padding are together within it (`JournalRing.GrantWithinIff`); a
  caller who knows only the superblock can be sure if and only if the counter leaves that room
  (`JournalRing.CounterWithinIff`); a run stays within it if and only if each of its grants does
  (`JournalRing.WindowRunsIff`, `JournalRing.CounterRuns`).
- When a superblock write ends, the worker tries the waiting journal entries in a loop that stops only
  when none is left or there is no memory for one (`cfs/src/FsProc_Journal.cc:315-322`). The loop never
  ends if and only if it comes to an entry that is told to wait for the next superblock write
  (`JournalManager.LoopEndsIff`). Without checkpoints that does not happen, and an entry that waits has a
  write in flight, in every run (`JournalManager.CalmRuns`). A checkpoint of at least 10240 blocks that
  succeeds while a superblock write is in flight makes it happen (`JournalManager.CheckpointHangs`), in
  a run from an empty journal (`JournalManager.HangReached`); exact conditions on the state at the end of
  the write are in `JournalManager.HangsAtLimitIff` and `JournalManager.SuperDoneFlowsIff`.
- The comment on `SetLastCheckpoint` (`cfs/include/FsProc_JSuper.h:249-254`) says that a checkpoint forces a
  superblock write even if one is in flight. Another write is due when that one ends if and only if
  something was counted since its snapshot (`JournalRing.MarkForcesIff`).
- An importer tells the primary of an import only after its callback has run
  (`cfs/src/FsProc_FileMngOps.cc:160-166`). A callback that exports the inode again sends the request
  of the next transfer before the news of this one, and the primary may hear the news of the next
  importer first. The owner map then names a worker that the inode has left, with nothing in flight
  that would correct it before the next transfer (`Ownership.MisledRun`). After such a relay the answer
  ends up right if and only if the primary hears the relaying worker before the next importer
  (`Ownership.NewsOrderIff`); in every run it is right all along if and only if the primary never hears
  of an import at a worker that the inode is not at (`Ownership.RightRunsIff`), that is, if and only if
  whenever it hears of one, its last forwarding of the inode went to that worker and has been imported
  (`Ownership.HeardRunsIff`). This is about the interface: no callback in the repository exports the inode
  to another worker (`cfs/src/FsProc_FileMngOps.cc:263-267` and `:563-571`), and without a relay of the
  inode the owner map is right in every run (`Ownership.OwnerEveryRun`). Where an inode is, and who
  resolves its descriptors, is right in all runs (`Ownership.EveryRun`).
- A split that meets a locked slot throws after it has dropped the inode's dirty entry and taken the
  slots before the locked one off the list; the structures still agree if and only if there was none of
  either (`BufferTransfer.ThrownConsistentIff`).
- A compacted log loses a bitmap change if an addition that leaves the bitmap alone follows a
  deletion (`InodeLog.ClearingLost`, `InodeLog.ChangesReplayIff`); histories as the allocator and the
  deallocator make them are safe (`InodeLog.DisciplineIsFaithful`).
- A batch that finds no space in the journal comes back as failed inside the call that submits it
  (`cfs/src/FsProc_Journal.cc:452-469` and `:345-350`). If all batches of a sync request do, the request is
  put into the ready queue and is completed at once as well. Its object is still in the queue: when the
  queue is drained it completes a second time, although it has been released, and the next waiting
  request begins beside the one that runs (`SyncRequests.TwoAtOnce`). Every request completes once, in
  order and one at a time, however the run goes on, if and only if no request of the run has all its
  batches refused while they are submitted (`SyncRequests.SafeStepIff`, `SyncRequests.SafeRunsIff`); what
  holds then is in `SyncRequests.SyncRuns`.
- A sync request over an empty set reports an error if its pooled request object was last used for a
  batch that failed, because the counters are not reset (`SyncRequests.EmptySetError`,
  `SyncRequests.SyncRuns`).
- An append to a lease of a file whose last page is partly filled and not cached marks bytes as
  cached that were never read (`LeaseCache.FreshPageOkIff`).
- Keeping a page that was read from the server stores the thread number times 10000 in 16 bits. For
  thread 7 the number shows a fill beyond the page, nothing is copied, and the page counts as filled with
  whatever the memory held (`LeaseCache.SeventhThread`). The cache is right for any memory contents if
  and only if the number of a new page shows no fill or every page of the range has memory already
  (`LeaseCache.FillFreshIff`, `LeaseCache.FilledRightIff`); it shows no fill exactly for the threads whose
  number modulo 4096 is at most 6 (`LeaseCache.CleanTagIff`). Client threads are only asserted to have a
  number other than 0 and below 1000 (`cfs/src/FsLib.cc:126`).
- The byte count of a cache miss adds the page distance where it should subtract it: it ends where the
  read ends if and only if the first page missed (`LeaseCache.MissCountIff`). The server writes that many
  bytes into the reader's buffer: two pages behind the end of the read for each page hit
  (`LeaseCache.LDBLease.Pread`).
- An entry put back into the path cache below its own directory leaves two maps that refer to each other
  and that nothing leads to (`PermissionMaps.MovedBelow`); every map can be reached all along a run if and
  only if no insertion does that (`PermissionMaps.ReachedRunsIff`). This is about the interface: the
  `setPermission` that puts an entry back has no caller, and rename enters a new one
  (`cfs/src/FsProc_FsImpl.cc:1887-1893`).
- The future routing table enters a round that is not the latest without changing the current
  route, but moves the thread to the new worker's set; the removal of duplicates announced by a
  comment is made on a copy. From an empty table, a thread moved twice in one round is at worker 1 by its
  history and at worker 2 by the sets (`Routing.Disagreement`); the exact conditions are in
  `Routing.LmWorkerFutureRoutingTable.UpdateTauDstWid` and `InitTauToMaster`.
- A negative thread identifier destroys the process identifier packed with it
  (`TauKeys.PackingIff`).
- The comment on `RegisterGC` gives the threshold in nanoseconds; the code compares clock ticks, and
  so does the model.

## Model

| member | source | states |
|---|---|---|
| `BlockBuffers.GetBlockStructure` | cfs/src/BlockBuffer.cc:149-295 | every slot stays on exactly one of the LRU and free lists, block numbers on the list stay distinct, the block map stays the index of the list, no slot is gained or lost |
| `BlockBuffers.GetBlockPlaced` | cfs/src/BlockBuffer.cc:149-295 | the inode index lists only cached slots that carry the index, whatever indexes callers pass |
| `BlockBuffers.ClaimConsistentIff` | cfs/src/BlockBuffer.cc:245-290 | taking a slot keeps all six structures in agreement if and only if a dirty slot is taken under its own index and a free slot does not still carry the index |
| `BlockBuffers.GetBlockConsistentIff` | cfs/src/BlockBuffer.cc:149-295 | getBlock keeps all six structures in agreement if and only if the call is proper |
| `BlockBuffers.Eviction` | cfs/src/BlockBuffer.cc:190-262 | on a miss with no free slot the victim is the last slot on the list that is neither locked nor dirty; the call throws exactly when a non-empty list has none |
| `BlockBuffers.GrabbedBlock` | cfs/src/BlockBuffer.cc:149-295 | a block returned with the lock grabbed is at the front, locked, found by its number, carries the index, keeps its data and dirty mark, and counts as in memory only if it was cached under the number; all other slots and their order, the dirty index and the flush flags are untouched |
| `BlockBuffers.GetBlockAnswer` | cfs/src/BlockBuffer.cc:149-295 | the lock is refused exactly for a cached locked block, which is returned all the same and stays locked; nothing is returned exactly if the block is not cached and there is neither a free nor a replaceable slot, and it throws exactly then unless the list is empty; when the lock is not grabbed the buffer is as before |
| `BlockBuffers.FreeAnswer` | cfs/src/BlockBuffer.cc:182-189 | a miss takes the first free slot if there is one; otherwise the free list stays |
| `BlockBuffers.ScanAnswer` | cfs/src/BlockBuffer.cc:192-243 | the dirty flag is raised exactly if the scan of a miss passed a locked dirty slot |
| `BlockBuffers.LockCycle` | cfs/src/BlockBuffer.cc:149-369 | a block that was got is refused to everyone until it is released, under any index, and is got again in the same slot afterwards |
| `BlockBuffers.ReleaseAnswer` | cfs/src/BlockBuffer.cc:352-369 | release succeeds exactly for a cached locked block, which can be got afterwards; nothing else changes |
| `BlockBuffers.ReleaseKeeps` | cfs/src/BlockBuffer.cc:331-369 | releasing a block keeps the agreement |
| `BlockBuffers.SetDirtyPlaced` | cfs/src/BlockBuffer.cc:371-387 | marking keeps the lists, the map and the inode index |
| `BlockBuffers.SetDirtyMarks` | cfs/src/BlockBuffer.cc:371-387 | the slot is marked as asked and keeps its other fields; only the dirty set of the index given and the counter follow, and nothing changes if the mark is as it was |
| `BlockBuffers.SetDirtyExactIff` | cfs/src/BlockBuffer.cc:371-387 | the dirty index and counter stay exact if and only if nothing changes or the slot's own index is given |
| `BlockBuffers.SetDirtyConsistentIff` | cfs/src/BlockBuffer.cc:371-387 | setItemDirty keeps all structures in agreement if and only if nothing changes or the slot's own index is given |
| `BufferTransfer.UnlinkPlaced` | cfs/src/BlockBuffer.cc:389-427 | the unlinked inode's slots, and no others, leave the list for the free list; map and index follow |
| `BufferTransfer.UnlinkCleans` | cfs/src/BlockBuffer.cc:401-413 | exactly the slots listed under the inode are clean afterwards, with their other fields as they were |
| `BufferTransfer.UnlinkFrees` | cfs/src/BlockBuffer.cc:401-413 | they are at the back of the free list in the order visited, and gone from the list, where the others keep their order |
| `BufferTransfer.UnlinkForgets` | cfs/src/BlockBuffer.cc:389-427 | only the inode's own entries of the two indexes go |
| `BufferTransfer.UnlinkAssertionIff` | cfs/src/BlockBuffer.cc:389-427 | the assertion at the end holds if and only if every slot of the inode's dirty set is listed under the inode |
| `BufferTransfer.UnlinkConsistent` | cfs/src/BlockBuffer.cc:389-427 | from a consistent buffer the assertion holds, the agreement is kept and no cached slot carries the inode's index |
| `BufferTransfer.SplitTakesInode` | cfs/src/BlockBuffer.cc:580-623 | a split moves exactly the inode's cached slots, unchanged, and leaves none of them and no trace of the inode in the source |
| `BufferTransfer.SplitAnswer` | cfs/src/BlockBuffer.cc:580-617 | a split finds nothing exactly if the inode is not listed, and then no cached slot is its; it throws exactly if a cached slot of the inode is locked |
| `BufferTransfer.ThrownConsistentIff` | cfs/src/BlockBuffer.cc:590-617 | what a throw on a locked slot leaves agrees in all six structures if and only if no slot was visited before the locked one and the inode had no dirty slot |
| `BufferTransfer.InstallMappedIff` | cfs/src/BlockBuffer.cc:625-650 | the block map stays the index of the list if and only if no installed block number was cached |
| `BufferTransfer.InstallDirtyIff` | cfs/src/BlockBuffer.cc:635-648 | the dirty index and counter stay exact if and only if nothing installed is dirty or the inode has no entry |
| `BufferTransfer.InstallConsistentIff` | cfs/src/BlockBuffer.cc:625-650 | installing keeps all structures in agreement if and only if both conditions hold |
| `BufferTransfer.InstallFinds` | cfs/src/BlockBuffer.cc:625-650 | every installed slot is found by its block number with its fields unchanged, every other slot is untouched, slot and dirty counts add up |
| `BufferTransfer.InstallFront` | cfs/src/BlockBuffer.cc:635-643 | installed slots stand at the front, the last visited first, with the list behind them as it was |
| `BufferTransfer.HandOverConsistent` | cfs/src/BlockBuffer.cc:580-650 | both buffers of a hand-over stay consistent |
| `BufferTransfer.HandOver` | cfs/src/BlockBuffer.cc:580-650 | split and install move exactly the inode's slots with block numbers, flags and data unchanged and conserve the slot and dirty totals of the pair |
| `BufferFlush.PickedBlocks` | cfs/src/BlockBuffer.cc:471-520 | a flush picks distinct numbers of cached dirty blocks, and for an inode all of them |
| `BufferFlush.PickAnswer` | cfs/src/BlockBuffer.cc:471-520 | a flush is refused exactly at the limit of flushes in flight; a background flush takes as many dirty blocks as it may, at least one if there is one, and is marked as sent exactly if it takes any; an inode's flush takes all; blocks come in the order visited |
| `BufferFlush.WashedKeeps` | cfs/src/BlockBuffer.cc:531-565 | doFlushDone keeps the agreement whatever it is given |
| `BufferFlush.WashedOkIff` | cfs/src/BlockBuffer.cc:531-565 | doFlushDone returns 0 if and only if the blocks are distinct, cached and dirty, and then lowers the dirty count by exactly their number |
| `BufferFlush.WashedEffect` | cfs/src/BlockBuffer.cc:531-565 | a completion that succeeds has cleaned exactly the blocks given and moved their slots to the back of the list in the order given; everything else is as it was |
| `BufferFlush.WashedStops` | cfs/src/BlockBuffer.cc:531-565 | one that fails has done that for the blocks before the first that is not cached or not dirty, and says which of the two |
| `BufferFlush.DoneAnswer` | cfs/src/BlockBuffer.cc:531-538 | it refuses exactly when no flush was sent |
| `BufferFlush.FlushedFirst` | cfs/src/BlockBuffer.cc:149-565 | the block flushed last is replaced first: with no free slot the next miss takes its slot |
| `BufferFlush.SubmitKeeps` | cfs/src/FsProc.cc:1387-1411 | submitting keeps to-submit, submitted and finished a partition with at most 33 blocks outstanding, each submitted once |
| `BufferFlush.SubmitIs` | cfs/src/FsProc.cc:1387-1411 | a submission sends out exactly the next blocks in order, as many as there are, as the device accepts and as fit under the limit of 33 outstanding |
| `BufferFlush.FinishKeeps` | cfs/src/FsProc.cc:1422-1434 | a completion moves one block to finished and keeps the partition and the bound |
| `BufferFlush.FinishIs` | cfs/src/FsProc.cc:1422-1434 | a completion takes its block out and the next one, if there is one, goes out in its place |
| `BufferFlush.FlushRequestRuns` | cfs/src/FsProc.cc:1352-1440 | in every order of refusals and completions the partition and the bound hold, and a request that is done has submitted every block exactly once |
| `BufferFlush.DoneIff` | cfs/src/FsProc.cc:1352-1440 | in every run a request is done exactly when as many blocks have completed as it had left |
| `BufferFlush.ReachesDone` | cfs/src/FsProc.cc:1352-1440 | from every state of a request some run of tries and completions makes it done |
| `BufferRuns.InitConsistent` | cfs/src/BlockBuffer.cc:124-147 | a new buffer is consistent |
| `BufferRuns.PlacedRuns` | cfs/src/BlockBuffer.cc:149-650 | in every run of all operations, up to a split that throws, each slot is on exactly one list, the map is the index of the list, and slots come and go only by transfers |
| `BufferRuns.ConsistentRuns` | cfs/src/BlockBuffer.cc:149-650 | in every proper run the dirty counter is the number of dirty slots and the sum of the dirty sets, so the negative-count throw is not reached |
| `BufferRuns.RunHolds` | cfs/src/BlockBuffer.cc:149-650 | blocks picked by a flush stay cached and dirty in every run that does not flush, split or unlink them |
| `BufferRuns.FlushLife` | cfs/src/FsProc.cc:1352-1493 | a flush from picking to doFlushDone, with any submissions, completions and sparing operations between, succeeds and lowers the dirty count by the number of its blocks |
| `BufferRuns.StaleIndexRun` | cfs/src/BlockBuffer.cc:279-289 | a run after which the assertion of the unlinked release fails |
| `BufferRuns.LeftoverEntryRun` | cfs/src/BlockBuffer.cc:416-426 | a run that leaves an empty dirty index entry for an inode without slots |
| `BufferRuns.LeftoverEntryHidesDirty` | cfs/src/BlockBuffer.cc:644-648 | after such a run an install of dirty slots is counted but a flush of the inode finds nothing |
| `BlockBufferImpl.BlockBuffer.constructor` | cfs/src/BlockBuffer.cc:124-147 | a new buffer is consistent, with all slots free |
| `BlockBufferImpl.BlockBuffer.FindVictim` | cfs/src/BlockBuffer.cc:192-243 | the scan from the back finds the victim of the specification |
| `BlockBufferImpl.BlockBuffer.GetBlock` | cfs/src/BlockBuffer.cc:149-295 | follows getBlock in state, slot, lock flag, dirty flag and throw, which are fixed by `GetBlockAnswer`, `FreeAnswer`, `ScanAnswer`, `Eviction` and `GrabbedBlock` |
| `BlockBufferImpl.BlockBuffer.ReleaseBlock` | cfs/src/BlockBuffer.cc:352-369 | follows releaseBlock, which is fixed by `ReleaseAnswer` |
| `BlockBufferImpl.BlockBuffer.SetItemDirty` | cfs/src/BlockBuffer.cc:371-387 | follows the specification, and never throws on a consistent buffer |
| `BlockBufferImpl.BlockBuffer.FreeAll` | cfs/src/BlockBuffer.cc:401-413 | the loop frees exactly the listed slots and counts the dirty ones |
| `BlockBufferImpl.BlockBuffer.ReleaseUnlinkedInodeDirtyBlocks` | cfs/src/BlockBuffer.cc:389-427 | follows the specification, and reports the assertion |
| `BlockBufferImpl.UncacheAll` | cfs/src/BlockBuffer.cc:596-617 | the loop takes exactly the slots before the first locked one off the list and out of the map |
| `BlockBufferImpl.BlockBuffer.SplitBufferItemsByIndex` | cfs/src/BlockBuffer.cc:580-623 | follows the specification of the split: result and state when it succeeds, finds nothing, or throws half way |
| `BlockBufferImpl.PushAll` | cfs/src/BlockBuffer.cc:635-643 | the loop puts the slots in front in reverse order, maps their blocks and collects the dirty ones |
| `BlockBufferImpl.BlockBuffer.InstallBufferItemsOfIndex` | cfs/src/BlockBuffer.cc:625-650 | follows the specification of the install |
| `BlockBufferImpl.BlockBuffer.DoFlushByIndex` | cfs/src/BlockBuffer.cc:471-520 | follows the specification of the pick |
| `BlockBufferImpl.BlockBuffer.DoFlushDone` | cfs/src/BlockBuffer.cc:531-565 | follows the specification of the completion |
| `BlockBufferImpl.BufferFlushReq.SubmitFlushReqs` | cfs/src/FsProc.cc:1387-1411 | returns how many blocks it sent out, which is the least of those left, those the device accepts and those that fit under the limit; they are the next in order (`SubmitIs`); the invariant is kept |
| `BlockBufferImpl.BufferFlushReq.BlockReqFinished` | cfs/src/FsProc.cc:1422-1434 | follows the completion fixed by `FinishIs` and keeps the invariant |
| `JournalRing.NoLoopAroundsIff` | cfs/include/FsProc_JSuper.h:261-266 | NoLoopArounds is true exactly for entries of at least two blocks that do not wrap |
| `JournalRing.PaddingFillsTheEnd` | cfs/include/FsProc_JSuper.h:281-295 | padding fits, is at most one entry, and brings the head to slot 0 |
| `JournalRing.AcquireShape` | cfs/include/FsProc_JSuper.h:199-215 | an acquire keeps head, tail and count within the ring |
| `JournalRing.AcquireAnswer` | cfs/include/FsProc_JSuper.h:199-215 | there is no space exactly if the log would be longer than the ring; a retry is asked for exactly when the counter has reached the hard limit; in both cases nothing changes; otherwise the entry starts at the next position of the log and what is used is counted |
| `JournalRing.WriteAsked` | cfs/include/FsProc_JSuper.h:199-215 | a superblock write is asked for exactly if the entry is granted, none is in flight and the counter is past the soft limit; after a grant that asks for none, one is in flight or the superblock lags by at most the soft limit |
| `JournalRing.ReleaseCounts` | cfs/include/FsProc_JSuper.h:217-223 | a release takes the first positions out of the log, counts them and touches nothing else |
| `JournalRing.MarkForcesIff` | cfs/include/FsProc_JSuper.h:245-255 | a checkpoint mark makes another superblock write due after the one in flight if and only if something was counted since its snapshot, and without one in flight if and only if anything is unaccounted for |
| `JournalRing.JournalRuns` | cfs/include/FsProc_JSuper.h:199-255 | in every interleaving of acquires, releases, checkpoint marks and superblock writes the ring is an unbounded log, the counter covers the lag of the superblock, the lag stays below the limit plus one entry plus one padding, and the assertions of OnWriteComplete hold |
| `JournalRing.LivePositionsDistinct` | cfs/include/FsProc_JSuper.h:257-259 | two live log positions are different blocks of the journal region |
| `JournalRing.GrantIsNextPositions` | cfs/include/FsProc_JSuper.h:199-215 | a grant is exactly the next log positions, block by block |
| `JournalRing.RecoveryWindow` | cfs/include/FsProc_JSuper.h:225-243 | every live position lies between the tail on disk and the counter's distance past the head on disk |
| `JournalRing.WindowExceeded` | cfs/include/journalparams.h:20-24 | the lag can exceed the number of blocks the offline checkpointer reads |
| `JournalRing.GrantWithinIff` | cfs/include/FsProc_JSuper.h:199-215 | after a grant the lag is within the window if and only if the lag before, the entry and its padding are together within it |
| `JournalRing.CounterWithinIff` | cfs/include/FsProc_JSuper.h:199-215 | a superblock grants n blocks within the window whatever is on disk if and only if its counter, n and the padding are together within it |
| `JournalRing.WindowRunsIff` | cfs/include/FsProc_JSuper.h:199-255 | a run stays within the window if and only if each of its grants fits when it is made |
| `JournalRing.CounterRuns` | cfs/include/FsProc_JSuper.h:199-255 | a run whose grants fit by the counter stays within the window, and conversely when it has no releases and no checkpoint marks |
| `JournalRing.NextGrantFitsIff` | cfs/include/FsProc_JSuper.h:268-304 | the state condition under which no grant can wrap, exactly |
| `JournalRing.AcquireKeepsRoomy` | cfs/include/FsProc_JSuper.h:199-215 | each grant re-establishes "more than one entry to the end, or in use past the head", and passes NoLoopArounds |
| `JournalRing.AcquireRunsFit` | cfs/include/FsProc_JSuper.h:199-304 | a run of acquires from head 0 with no release between grants only extents that do not wrap |
| `JournalRing.CheckpointedRunsFit` | cfs/src/FsProc_Journal.cc:596-641 | with releases of the count captured by a checkpoint that succeeds, and none by one that fails, no entry wraps in any run |
| `JournalRing.AnyReleaseCanWrap` | cfs/include/FsProc_JSuper.h:217-223 | a run in which releases of other sizes let an entry wrap |
| `JournalRing.ReleaseFitsIff` | cfs/include/FsProc_JSuper.h:217-223 | a release keeps the next grant in one piece if and only if the head is far from the end or the rest reaches past the head |
| `JournalRing.WrappedEntryFailsAssertion` | cfs/src/FsProc_Journal.cc:448-461 | the assertion made on a granted entry fails when it wraps |
| `JournalRing.JSuper.AcquireNextNSlots` | cfs/include/FsProc_JSuper.h:199-215 | follows the acquire, slot and state, whose answers are fixed by `AcquireAnswer` and `WriteAsked` and whose positions by `GrantIsNextPositions` |
| `JournalRing.JSuper.EnsureNextContiguousRegion` | cfs/include/FsProc_JSuper.h:281-295 | follows the specification of the padding |
| `JournalRing.JSuper.ReleaseFirstNSlots` | cfs/include/FsProc_JSuper.h:217-223 | follows the specification of the release |
| `JournalRing.JSuper.TrySetWriteInProgress` | cfs/include/FsProc_JSuper.h:225-234 | takes a snapshot of use, head, tail and last checkpoint exactly when no write is in flight, as the start of a superblock write in the runs does |
| `JournalRing.JSuper.OnWriteComplete` | cfs/include/FsProc_JSuper.h:236-243 | takes back what the snapshot accounts for, as the end of a superblock write in the runs does |
| `JournalRing.JSuper.SetLastCheckpoint` | cfs/include/FsProc_JSuper.h:245-255 | sets the timestamp and raises the counter; `MarkForcesIff` says when that forces a write |
| `JournalManager.AttemptServes` | cfs/src/FsProc_Journal.cc:429-470 | an attempt serves the waiting entries in order: it drops those that find no room and grants at most the first that does, and stops without a grant only with nothing to serve or told to wait |
| `JournalManager.AttemptFlows` | cfs/src/FsProc_Journal.cc:429-470 | an attempt that grants leaves a superblock write in flight or the counter within the soft limit, and the counter grows by at most one entry and one padding; one that does not leaves the superblock as it was |
| `JournalManager.LoopEndsIff` | cfs/src/FsProc_Journal.cc:315-322 | the loop at the end of a superblock write never ends if and only if it comes to an entry that is told to retry |
| `JournalManager.HangsAtLimitIff` | cfs/src/FsProc_Journal.cc:315-322 | with the counter at the hard limit, if and only if there is memory and some waiting entry does not fail |
| `JournalManager.SuperDoneFlowsIff` | cfs/src/FsProc_Journal.cc:298-338 | the end of a superblock write leaves another in flight or the counter within the soft limit if and only if nothing was waiting, or the loop ends and has granted an entry or found the counter within it |
| `JournalManager.ServedRuns` | cfs/src/FsProc_Journal.cc:238-470 | in every run, checkpoints included, an entry is left in the queue only for lack of memory or told to wait for a superblock write |
| `JournalManager.CalmRuns` | cfs/src/FsProc_Journal.cc:238-470 | in every run without a checkpoint the worker comes back from every event, and an entry that waits has a superblock write in flight |
| `JournalManager.CheckpointHangs` | cfs/src/FsProc_Journal.cc:603-620 | a checkpoint of 10240 blocks or more that succeeds during a superblock write, then an entry, then the end of the write: the worker does not come back |
| `JournalManager.HangReached` | cfs/src/FsProc_Journal.cc:238-470 | such a run from an empty journal of any capacity over 60000 blocks |
| `JournalCodec.EntryRound` | cfs/src/FsProc_JournalBasic.cc:20-179 | a serialised entry takes exactly the bytes of calcSize, begins with that number, and is read back as it was whatever follows it and in whatever order its maps were traversed |
| `JournalCodec.BodyRound` | cfs/src/FsProc_JournalBasic.cc:427-525 | all entries of a journal entry are read back in order by a reader that advances by the size of each entry it has read |
| `JournalCodec.SizesAreBodySize` | cfs/include/FsProc__JournalEnabled.h:448-506 | their bytes with the header are the body size that limits a batch |
| `Ownership.ExportImportRoundTrip` | cfs/src/FsProc_FileMng.cc:337-452 | importing what was exported restores the worker: inode, descriptors and marks |
| `Ownership.ImportTidy` | cfs/src/FsProc_FileMng.cc:412-452 | an import adds exactly the inode with its descriptors and marks and leaves every other inode as it was |
| `Ownership.StepKeeps` | cfs/src/FsProc_FileMngOps.cc:11-217 | every step of export, forwarding, import, relay by an import callback, notification, open, close and marking keeps the invariant |
| `Ownership.StartInv` | cfs/include/FsProc_Fs.h:1248-1255 | the invariant holds at the start, with every inode at the primary |
| `Ownership.OnePlace` | cfs/src/FsProc_FileMng.cc:337-452 | each inode is in exactly one worker's table or one message, and what is there is the whole inode |
| `Ownership.Resolves` | cfs/src/FsProc_FileMng.cc:362-371 | a descriptor resolves at a worker if and only if the worker holds its inode |
| `Ownership.EveryRun` | cfs/include/FsProc_Fs.h:1234-1255 | in every run over any workers and inodes, relays included: one place, whole, held under the holder's name, resolved only there |
| `Ownership.TransferLands` | cfs/src/FsProc_FileMngOps.cc:11-217 | an exported inode reaches the worker asked for: after the steps of its messages that worker holds it with the marks and descriptors it left with, the owner map names the worker, and the old owner has been told |
| `Ownership.RightIff` | cfs/src/FsProc_FileMngOps.cc:170-185 | a right answer of the owner map stays right in a step if and only if the step does not hear stale news; fresh news make any answer right |
| `Ownership.RightRunsIff` | cfs/src/FsProc_FileMngOps.cc:11-217 | in every run the owner map is right all along if and only if the primary never hears of an import at a worker that the inode is not at |
| `Ownership.HeardRunsIff` | cfs/src/FsProc_FileMngOps.cc:11-217 | the same by the messages handled: if and only if, whenever the primary hears of an import, its last forwarding of the inode went to that worker and has been imported there |
| `Ownership.OwnerEveryRun` | cfs/include/FsProc_Fs.h:1234-1255 | in every run that does not relay the inode the owner map is right all along: in transfer exactly while the inode travels from the primary or its news travel to it, otherwise its place |
| `Ownership.NewsOrderIff` | cfs/src/FsProc_FileMngOps.cc:160-185 | after a relay the answer ends up right if and only if the primary hears the relaying worker before the next importer |
| `Ownership.MisledRun` | cfs/src/FsProc_FileMngOps.cc:160-185 | a run from the start, with a callback that exports again, that ends with worker 2 holding the inode, no message about it left, and the owner map naming worker 1 |
| `Ownership.AssertionsHold` | cfs/include/FsProc_FsImpl.h:152-165 | the assertions along the transfer hold in every reachable state |
| `Descriptors.AddFdCounted` | cfs/include/FsProc_FsImpl.h:733-738 | adding a descriptor keeps the count equal to the total size of the inode's descriptor maps |
| `Descriptors.DelFdCounted` | cfs/include/FsProc_FsImpl.h:740-752 | removing one does too, present or not |
| `Descriptors.OpenAgrees` | cfs/src/FsProc_FileMng.cc:284-289 | after an open the descriptor resolves to the inode and table and inodes agree |
| `Descriptors.CloseAgrees` | cfs/src/FsProc_FileMng.cc:291-306 | after a close the descriptor does not resolve and table and inodes agree |
| `Descriptors.OpenAnswer` | cfs/src/FsProc_FileMng.cc:284-289 | a free number resolves to the inode given afterwards and a taken one as before; every other number resolves as before, every other inode is as it was, and the count grows exactly by a new reference |
| `Descriptors.CloseAnswer` | cfs/src/FsProc_FileMng.cc:291-306 | its own number and no other is forgotten; the inode is handed to deallocation exactly if it waits for it and this was its last reference |
| `Descriptors.OpenClose` | cfs/src/FsProc_FileMng.cc:284-306 | a new number opened and closed leaves every resolution, reference and count as it was |
| `Descriptors.HandedByEach` | cfs/src/FsProc_FileMng.cc:1640-1652 | closing one by one hands over, once each, exactly the waiting inodes left without descriptors |
| `Descriptors.CloseAllIsCloseEach` | cfs/src/FsProc_FileMng.cc:308-333 | process exit has the same effect as closing its descriptors one by one in any order, on inodes, counts, resolution and inodes handed to deallocation |
| `Descriptors.DescriptorRuns` | cfs/src/FsProc_FileMng.cc:284-333 | in every run of opens, closes and exits counts and links agree |
| `Descriptors.FileMng.AddFdMappingOnOpen` | cfs/src/FsProc_FileMng.cc:284-289 | follows open, which is fixed by `OpenAnswer` |
| `Descriptors.FileMng.ProcessClose` | cfs/src/FsProc_FileMng.cc:1640-1656 | follows the specification of close; fails exactly when the descriptor does not resolve |
| `Descriptors.FileMng.CloseAllFileDescriptors` | cfs/src/FsProc_FileMng.cc:308-333 | its two loops follow the specification of exit |
| `InodeLog.CompactionSummarises` | cfs/include/FsProc__JournalEnabled.h:417-437 | for any history of at most 2^32 calls the maps hold, per block and kind, position, offset and length of the last call and the OR of the bitmap flags |
| `InodeLog.SequenceOrders` | cfs/include/FsProc__JournalEnabled.h:146-166 | comparing sequence numbers tells whether the last call on a block was an addition or a deletion |
| `InodeLog.ReplayIsLastChange` | cfs/src/FsProc_JournalBasic.cc:314-347 | replaying the history sets a block's bit by the last bitmap-changing call |
| `InodeLog.ChangesReplayIff` | cfs/src/FsProc_JournalBasic.cc:314-347 | applying the compacted maps changes a block's bit as the full history does if and only if the last bitmap-changing call is of the kind of the last call, or no deletion changed the bitmap |
| `InodeLog.ClearingLost` | cfs/src/FsProc_JournalBasic.cc:314-347 | a history whose clearing is lost |
| `InodeLog.DisciplineIsFaithful` | cfs/src/FsProc_FsImpl.cc:1024-1153 | a history whose deletions all clear the bit and whose additions that leave the bitmap alone never follow a deletion, as the allocator makes them, satisfies that condition for every block |
| `InodeLog.InodeLogEntry.UpdateExtent` | cfs/include/FsProc__JournalEnabled.h:417-437 | follows the specification of one call |
| `InodeLog.InodeLogEntry.ApplyChanges` | cfs/src/FsProc_JournalBasic.cc:314-347 | its two loops compute the bitmap changes of the specification |
| `InodeLog.InodeLogEntry.OnSuccessfulJournalWrite` | cfs/src/FsProc_Journal.cc:24-52 | the set and clear lists are exactly the changes, without repetition, and the log starts anew |
| `SyncBatches.PackedUnique` | cfs/src/FsProc_FileMng.cc:3085-3104 | order kept, limit kept and "closed only when the next does not fit" fix the batches |
| `SyncBatches.PackedIsFewest` | cfs/src/FsProc_FileMng.cc:3085-3104 | no other cut of the same order into batches within the limit has fewer |
| `SyncBatches.OneBatchEach` | cfs/src/FsProc_FileMng.cc:3085-3104 | each inode is in exactly one batch |
| `SyncBatches.SyncBatchedContext.TryAdd` | cfs/include/FsReq_SyncBatchCtx.h:30-50 | the running size is the serialised body size; an entry is added exactly if it fits |
| `SyncBatches.PackEntries` | cfs/src/FsProc_FileMng.cc:3085-3104 | fails exactly if one entry alone exceeds the limit, and otherwise packs as stated |
| `SyncBatches.SubmitAll` | cfs/src/FsProc_FileMng.cc:3110-3114 | the submission loop: each refused batch calls back inside it, and the last of all makes the request complete and ready |
| `SyncBatches.SubmitSyncBatches` | cfs/src/FsProc_FileMng.cc:3076-3114 | an empty set completes at once with the counters untouched; otherwise the counters start at the number of batches and account for those refused while they are submitted; the request is complete afterwards, and has been made ready once, if and only if all were |
| `SyncBatches.SyncReq.OnBatchedJournalWriteComplete` | cfs/src/FsProc_FileMng.cc:3040-3071 | the request becomes ready exactly when all batches are accounted for |
| `SyncRequests.StepKeeps` | cfs/src/FsProc_FileMng.cc:3040-3155 | every step that begins no request with all batches refused on submission keeps the invariant |
| `SyncRequests.StartInv` | cfs/include/FsProc_FsReq.h:1076-1078 | the invariant holds at the start, with all counters zero |
| `SyncRequests.SyncRuns` | cfs/src/FsProc_FileMng.cc:3040-3155 | in every run in which no request has all its batches refused on submission, requests complete once, one at a time and in order of arrival; the running one is in the ready queue exactly once, with its last batch, in any order of completions; reports are its own failures, or for an empty set those of the object's last use; both assertions hold; none is left waiting |
| `SyncRequests.ServedInTurn` | cfs/src/FsProc_FileMng.cc:3040-3155 | requests that are done finish in the order in which their last batches came back |
| `SyncRequests.SafeStepIff` | cfs/src/FsProc_FileMng.cc:3110-3153 | after a step every continuation completes each request once, in order and one at a time if and only if the step begins no request with all batches refused on submission |
| `SyncRequests.SafeRunsIff` | cfs/src/FsProc_FileMng.cc:3110-3153 | so it is all along a run if and only if no request of the run has all its batches refused on submission |
| `SyncRequests.Drains` | cfs/src/FsProc_FileMng.cc:3137-3153 | from any state that such a request leaves, a run drains the queues and makes more completions than requests arrived |
| `SyncRequests.TwoAtOnce` | cfs/src/FsProc_FileMng.cc:3110-3153 | a run from the start in which the first request completes twice and two others run at the same time |
| `SyncRequests.EmptySetError` | cfs/src/FsProc.cc:888-941 | a run in which a request over an empty set reports an error |
| `BitmapRouting.RoutingConserves` | cfs/src/FsProc_FileMng.cc:2261-2275 | a block occurs in its owner's part as often as in the list, and in no other part |
| `BitmapRouting.MineConcat` | cfs/src/FsProc_FileMng.cc:2261-2275 | the blocks of a worker keep their order |
| `BitmapRouting.Route` | cfs/src/FsProc_FileMng.cc:2249-2275 | each owner gets its part of both lists in order, and a part exists exactly for the owners named |
| `BitmapRouting.PutAllBit` | cfs/src/FsProc_FileMng.cc:2366-2402 | after a list of sets or clears a bit has changed exactly if its block is in the list |
| `BitmapRouting.WorkerBitmaps.UpdateBlockBitmaps` | cfs/src/FsProc_FileMng.cc:2353-2403 | sets then clears the stable bits, clears the in-memory bits, and reports the bitmap blocks cleared |
| `BitmapRouting.HomesIff` | cfs/src/FsProc_FileMng.cc:2381-2402 | the bitmap blocks reported are exactly those that hold the bits of the blocks cleared |
| `BitmapRouting.RoutedRunsAreFlat` | cfs/src/FsProc_FileMng.cc:2249-2302 | in every interleaving of workers applying their parts, with an order of entries for each worker, each bit is that of one flat bitmap after the entries its owner has processed |
| `BitmapRouting.JointIsFlat` | cfs/src/FsProc_FileMng.cc:2249-2302 | when the owner is through, the bit is that of the flat bitmap after the whole journal if the entries naming the block reached the owner in the journal's order |
| `Bitmaps.PlainArithmetic` | cfs/include/FsProc_FsInternal.h:382-398 | within the device no 32-bit or 64-bit conversion wraps |
| `Bitmaps.OwnerExistsIff` | cfs/include/FsProc_FsInternal.h:359-363 | the owner is an existing worker exactly for the blocks of the equal shares |
| `Bitmaps.StartForWorker` | cfs/include/FsProc_FsInternal.h:326-332 | the loop gives the first bitmap block of a worker, and the worker owns exactly the blocks up to the next start |
| `Bitmaps.DeviceIsShared` | cfs/include/FsProc_FsInternal.h:297-304 | on an 800 GB device with ten workers every device block has an owner, and the last bitmap block has none |
| `Bitmaps.SchemeSeparates` | cfs/include/FsProc_FsInternal.h:382-398 | different blocks have different bits |
| `Bitmaps.SharesMirrorFlat` | cfs/src/FsProc_FileMng.cc:2249-2403 | with the real address arithmetic the joint stable bitmaps are all sets and clears applied to one flat bitmap, by each owner's order, and by the journal's where the orders agree on the block |
| `LeaseCache.OwnerRecoveredIff` | cfs/include/FsLibLease.h:220-238 | the packed owner is recovered exactly for threads 0 to 6 |
| `LeaseCache.AppendPageOk` | cfs/include/FsLibLease.h:215-239 | the piece of an append that falls into a page leaves the page agreeing with the file |
| `LeaseCache.FreshPageOkIff` | cfs/include/FsLibLease.h:220-238 | an append into a page that is not cached is right for any memory contents if and only if it starts the page |
| `LeaseCache.FilledPageOk` | cfs/include/FsLibLease.h:259-277 | filling a page that is there, by any thread, or a new page whose number shows no fill, keeps what is there and agrees with the file |
| `LeaseCache.FillFreshIff` | cfs/include/FsLibLease.h:259-277 | filling a page that is not cached is right for any memory contents if and only if the number of a new page shows no fill |
| `LeaseCache.CleanTagIff` | cfs/include/FsLibLease.h:259-262 | the number of a new page shows no fill if and only if the thread number modulo 4096 is at most 6 |
| `LeaseCache.SeventhThread` | cfs/include/FsLibLease.h:259-277 | for thread 7 nothing is copied and the page counts as filled with what the memory held |
| `LeaseCache.FilledRight` | cfs/include/FsLibLease.h:244-290 | with a clean thread number, or memory for every page, the whole range is kept rightly, nothing cached is lost and the range can be read |
| `LeaseCache.FilledRightIff` | cfs/include/FsLibLease.h:244-290 | the cache is right afterwards for any memory contents if and only if the thread number is clean or every page of the range has memory |
| `LeaseCache.MissCountIff` | cfs/include/FsLibLease.h:183-186 | the bytes a miss asks for end where the read ends if and only if no page was hit, and otherwise two pages further for each page hit |
| `LeaseCache.ReadPages` | cfs/include/FsLibLease.h:157-204 | the loop copies the file's bytes page by page and stops exactly at the first page that cannot serve its part |
| `LeaseCache.LDBLease.Read` | cfs/include/FsLibLease.h:146-205 | succeeds exactly if every page has what is needed, returns exactly the file's bytes across page boundaries, and otherwise names the first page missing and the count the code computes in 64 bits |
| `LeaseCache.AppendPages` | cfs/include/FsLibLease.h:215-239 | the loop leaves every page agreeing with the longer file, the appended pages full and all others untouched |
| `LeaseCache.LDBLease.Append` | cfs/include/FsLibLease.h:207-242 | the cache stands for the file with the bytes appended, the pages of the appended range are full and no other is touched, and a complete cache stays complete |
| `LeaseCache.LDBLease.WriteAt` | cfs/include/FsLibLease.h:244-290 | for every thread the pages are those of the specification; under the exact condition the range can be read from the cache afterwards and nothing cached is lost |
| `LeaseCache.LDBLease.Pread` | cfs/src/FsLib.cc:3812-3856 | for every thread a read through the lease returns exactly the file's bytes, hit or miss, if the answer is right; with a clean thread number the same read then hits afterwards and nothing cached is lost; which bytes are asked for and how far behind the read they reach |
| `LeaseCache.AppendsThenRead` | cfs/include/FsLibLease.h:146-242 | any appends to an empty file by any threads, then any read within the file: a hit with exactly the bytes of the concatenated appends |
| `PermissionMaps.DrainFrees` | cfs/include/FsProc_Permission.h:104-118 | collection ends, frees exactly the maps under the worklist, each once, and nothing that is referred to otherwise |
| `PermissionMaps.DrainCovers` | cfs/include/FsProc_Permission.h:104-118 | after a collection every map that is left is still referred to exactly once |
| `PermissionMaps.DrainReaches` | cfs/include/FsProc_Permission.h:104-118 | a map that is left can still be reached from what refers to maps from outside |
| `PermissionMaps.FreeAll` | cfs/include/FsProc_Permission.h:105-115 | the loop never meets a freed map and leaves the store of the specification |
| `PermissionMaps.SetNewKeeps` | cfs/src/FsProc_Permission.cc:23-33 | a new entry keeps every map referred to exactly once, also when the name is taken |
| `PermissionMaps.InsertKeeps` | cfs/include/FsProc_Permission.h:69-75 | so does inserting an entry that was deleted before |
| `PermissionMaps.DeleteKeeps` | cfs/include/FsProc_Permission.h:81-90 | so does deleting an entry, found or not |
| `PermissionMaps.DeleteForgets` | cfs/include/FsProc_Permission.h:81-90 | after a deletion the name is not found, whatever its entry was; every other name of the map finds what it found, and every other map is as it was |
| `PermissionMaps.InsertFinds` | cfs/include/FsProc_Permission.h:69-75 | after an insertion a name that was free finds the entry given; a name that was taken keeps its entry and nothing changes |
| `PermissionMaps.SetNewFinds` | cfs/src/FsProc_Permission.cc:23-33 | the same for a new entry, whose map is new and empty |
| `PermissionMaps.DeleteInsert` | cfs/include/FsProc_Permission.h:69-90 | an entry deleted and put back is found as before, as is every other |
| `PermissionMaps.NamedRuns` | cfs/include/FsProc_Permission.h:69-118 | in every run the names in each map are distinct |
| `PermissionMaps.RegisterKeepsIff` | cfs/include/FsProc_Permission.h:92-101 | registering keeps every map referred to exactly once if and only if the map is held by the caller or null |
| `PermissionMaps.RegisterCollectsIff` | cfs/include/FsProc_Permission.h:92-118 | a registration collects exactly when more than the threshold has passed since the last collection; then every map of the old list is gone, nothing referred to is, and the new list becomes the old one; otherwise no map is touched |
| `PermissionMaps.FreedSecond` | cfs/include/FsProc_Permission.h:92-118 | a map registered by a call that collects survives that collection and is freed by the next |
| `PermissionMaps.FreedLate` | cfs/include/FsProc_Permission.h:92-118 | no map is freed within the threshold of its registration, and none in use |
| `PermissionMaps.StartInv` | cfs/include/FsProc_Permission.h:120-120 | both hold at the start, with an empty root map and distinct names |
| `PermissionMaps.GcRuns` | cfs/include/FsProc_Permission.h:69-118 | both hold in every run of insertions, deletions and registrations with a monotone clock |
| `PermissionMaps.InsertReachesIff` | cfs/include/FsProc_Permission.h:69-75 | an entry put back keeps every map reachable if and only if the directory it goes to does not hang from the entry's own map |
| `PermissionMaps.StepReachesIff` | cfs/include/FsProc_Permission.h:69-118 | an operation keeps every map reachable if and only if it puts no directory below itself |
| `PermissionMaps.ReachedRunsIff` | cfs/include/FsProc_Permission.h:69-118 | every map can be reached all along a run if and only if no operation of it puts a directory below itself |
| `PermissionMaps.StartReached` | cfs/include/FsProc_Permission.h:120-120 | every map can be reached at the start |
| `PermissionMaps.MovedBelow` | cfs/include/FsProc_Permission.h:69-90 | from any state with a directory inside a directory, moving the outer into the inner leaves a map that cannot be reached |
| `PermissionMaps.FsPermission.SetPermission` | cfs/src/FsProc_Permission.cc:23-33 | follows the specification, and returns the map of the entry found under the name, which is the new entry if it was inserted |
| `PermissionMaps.FsPermission.DeleteEntry` | cfs/include/FsProc_Permission.h:81-90 | follows the deletion; the name is not found afterwards, be it a file's or a directory's; a deleted directory's map is held by the caller |
| `PermissionMaps.FsPermission.RegisterGC` | cfs/include/FsProc_Permission.h:95-101 | follows the specification, collecting when due |
| `Routing.LmMemLessRoutingTable.UpdateItems` | cfs/src/FsProc_KP_DS.cc:6-32 | the routes are those of the plans merged in order, which are fixed by `MergedRoute` and `MergedOthers`; routes and worker sets stay exact inverses, and no empty set remains |
| `Routing.MergedRoute` | cfs/src/FsProc_KP_DS.cc:8-17 | a thread's route is that of the last plan that names it, or its old route if none does |
| `Routing.MergedOthers` | cfs/src/FsProc_KP_DS.cc:8-17 | a key that no plan is packed into keeps its route, and none appears |
| `Routing.PlanAndList` | cfs/src/FsProc_KP_DS.cc:6-45 | after the plans a worker's list holds exactly the threads whose last plan gives it a share, or that no plan names and whose old route does |
| `Routing.LmMemLessRoutingTable.GetWidHandling` | cfs/src/FsProc_KP_DS.cc:34-45 | adds exactly the threads whose route names the worker |
| `Routing.MergedKeys` | cfs/src/FsProc_KP_DS.cc:8-17 | plans for threads with a non-negative tid enter only keys that unpack to their thread |
| `Routing.EmptyMirrors` | cfs/include/FsProc_KnowParaLoadMng.h:100-105 | an empty table is consistent |
| `Routing.MoveMirrors` | cfs/include/FsProc_KnowParaLoadMng.h:150-161 | moving one thread from the worker of its route to another keeps the directions inverse |
| `Routing.LmWorkerCreationRoutingTable.UpdateDstWid` | cfs/include/FsProc_KnowParaLoadMng.h:150-161 | the thread's route changes, no other does, and the directions stay inverse |
| `Routing.LmWorkerCreationRoutingTable.EraseWid` | cfs/include/FsProc_KnowParaLoadMng.h:114-129 | exactly the routes to the worker disappear, and its assertion holds |
| `Routing.LmWorkerCreationRoutingTable.GetActiveTausInDstWithinNumRound` | cfs/include/FsProc_KnowParaLoadMng.h:163-185 | none of the three throws is reached; the list is the worker's threads active in the last rounds |
| `Routing.RoundsPlainIff` | cfs/include/FsProc_KnowParaLoadMng.h:163-185 | the number of rounds it compares is the difference of the rounds if and only if they are less than 2^31 apart |
| `Routing.LmWorkerFutureRoutingTable.UpdateTauDstWid` | cfs/include/FsProc_KnowParaLoadMng.h:76-97 | refused exactly if the thread is not at `from`; otherwise consistent if and only if the round is the latest or the worker stays; the thread's history and latest round, and that no other thread's changes |
| `Routing.LmWorkerFutureRoutingTable.InitTauToMaster` | cfs/include/FsProc_KnowParaLoadMng.h:71-74 | consistent if and only if the thread is new or at the master; the thread's history starts anew one round before, no other thread's changes |
| `Routing.LmWorkerFutureRoutingTable.constructor` | cfs/include/FsProc_KnowParaLoadMng.h:26-34 | an empty table is consistent |
| `Routing.LogOrdered` | cfs/include/FsProc_KnowParaLoadMng.h:94-94 | a round entered in a history keeps it ordered, and changes the latest worker exactly if it is later than all before |
| `Routing.LogEnters` | cfs/include/FsProc_KnowParaLoadMng.h:94-94 | a round that is not in a history is entered with its worker |
| `Routing.LogKeeps` | cfs/include/FsProc_KnowParaLoadMng.h:94-94 | a round that is there keeps its worker |
| `Routing.MoveTwice` | cfs/include/FsProc_KnowParaLoadMng.h:76-97 | two moves of a thread to different workers in one round leave the history at the first and the sets at the second |
| `Routing.Disagreement` | cfs/include/FsProc_KnowParaLoadMng.h:71-97 | such a run from an empty table |
| `TauKeys.PackingIff` | cfs/include/util.h:92-101 | a thread is unpacked as packed if and only if the tid is not negative or the pid is -1 |
| `TauKeys.PackingRoundTrips` | cfs/include/util.h:92-101 | the packing is a codec for all threads with a non-negative tid |

## Left out

- Block devices, shared-memory rings, sockets, start-up, logging and statistics: input and output.
- The other client wrappers in `cfs/src/FsLib.cc`: message packing and retries.
- The request state machines of `FileMng` for read, write, create, stat, rename and mkdir: they rest
  on `FsImpl` operations that are not part of this model.
- The buddy allocator, `cfs/include/lru.h`, message packing: easier members beside the ones modelled.
- Load-balancing heuristics, deprecated paths, `AddWid`, `GetDstWid` and the read-only walk
  `checkPermission`: no further state, or no crisp statement.
- `reclaimBufferItemSlots` takes its result list by value and is not modelled.
- Checkpoint I/O and offline recovery; of `applyChangesTo` only the effect on the bitmaps is modelled, not
  the inode fields and the extent array.
- The header and commit blocks of a journal entry, and their padding to whole blocks.
- The map of bitmap blocks to checkpoint in `updateBlockBitmaps`, which is a copy; inode bitmaps; the
  lock on a bitmap that was changed by another worker's journal.
- Pointers: slots, pages and path maps are numbers or values, so aliasing of buffers is not captured.
- BufferRuns.PlacedRuns: a split that throws ends the run, as nothing in the original catches it.
- BufferRuns.ConsistentRuns: the same; BufferTransfer.ThrownConsistentIff says what the throw leaves.
- JournalRing.JournalRuns: block counters are unbounded; overflow of 64-bit counters is not modelled.
- JournalManager.CalmRuns: one worker's journal; callbacks of finished or failed entries that submit
  further entries before they return are left out.
- JournalCodec.EntryRound: the sequence counter of the extents is not written by the original and so not
  read back.
- Ownership.StepKeeps: descriptors are opened under new numbers; each worker's messages to the primary
  keep their order and are otherwise interleaved in any way; the slots that travel with an inode are the
  subject of BufferTransfer.HandOver.
- Ownership.TransferLands: the queues the transfer passes through are empty; in other runs the messages
  before it are handled first, and what holds of them is in Ownership.EveryRun.
- SyncBatches.PackEntries: every inode of the set is in memory, as the original assumes.
- LeaseCache.LDBLease.Read: an access to no bytes at offset 0 is left out, where the last page number
  wraps in 64 bits; so it is for `Append` and `WriteAt`.
- LeaseCache.LDBLease.Pread: retries are left out; counts are below 2^63 less one page.
- SyncRequests.SyncRuns: an object taken from the pool again is taken for a request of this kind; the
  ready queue holds requests of other kinds as well, which are left out.
- PermissionMaps.GcRuns: calls are one at a time; the destructor is not modelled.
