# Verified model of the ubs-mem bookkeeping

ubs-mem lends and shares memory across nodes. This project models, in Dafny, the parts of it
whose job is to never lose track of anything, and proves what they promise over every run:

- the persistent **record store**: fixed arrays of region, lease, import and reference slots and a
  pool of 64-word lines chained by packed head words, mirrored by caches, and rebuilt from the
  arrays alone after a restart (`Words`, `IdPool`, `IdPoolAllocator`, `SlotTable`, `Catalog`,
  `RefIndex`, `RegionBitmap`, `Holdings`, `StoreSpec`, `StoreTheorems`, `StoreResults`,
  `StoreLosses`, `StoreCapacity`, `StoreOutcomes`, `RecordStore`);
- the **lease manager** over the store: leases in use, two size-ordered buffers of leases kept for
  reuse, two-phase record states, recovery driven by the engine's answers (`Engine`, `LeaseSpec`,
  `LeaseTheorems`, `LeaseRecovery`, `LeaseOutcomes`, `LeaseManager`);
- the **shared-memory manager** over the store, with map, unmap and delete requests as atomic steps
  that interleave across names, and its two recovery passes (`ShareSpec`, `ShareTheorems`,
  `ShareRuns`, `ShareRequests`, `ShareOutcomes`, `ShareServed`, `ShareManager`);
- the **daemon**: both managers over one store, each call as its list of store operations, those of
  the two managers interleaving freely, with deaths between any two of them and recovery, itself
  interruptible (`ManagersOnStore`, `StoreCalls`, `PendingCalls`, `Daemon`,
  `DaemonProgress`);
- the **logger's double buffer** under any interleaving of producers, consumer and shutdown
  (`LoggerBuffer`, `LoggerProgress`);
- the **IPC client lifecycle** under concurrent callers (`IpcLifecycle`, `IpcOutcomes`);
- the **wire format** of network messages (`MsgCodec`, `MsgCodecTheorems`, `MsgKeyOrder`,
  `MsgWire`, `MsgPacker`);
- **region recovery** by greedy matching, end to end through the store (`RegionRepository`,
  `RegionRecovery`);
- the **election**: agreement of votes, and the join quorum of a master (`Election`,
  `VoteSplits`, `JoinQuorum`).

Code that computes is modelled by functions, and code that updates in place by classes whose methods
are proved equal to those functions (`IdPoolAllocator`, `SlotTable`, `RecordStore`, `LeaseManager`,
`ShareManager`, `MsgPacker`, and the loops of `RegionBitmap`, `RegionRecovery` and `Election`).
Protocols are state machines over their atomic steps. Engine calls, remote calls, room in the fixed
arrays, the order in which hash tables are walked, and the reading of numbers from text are
parameters, so every result holds for all of their answers.

The results that carry the rest:

- `StoreTheorems.RunRefines`: after any run of operations and restarts the store is four plain maps,
  and rebuilding it from its arrays changes nothing that can be observed.
- `StoreOutcomes.StepSays`, `LeaseOutcomes.ReuseSays`, `LeaseOutcomes.PreDeleteSays`,
  `ShareOutcomes.RecoveredSays`, `ShareServed.MapServed`, `ShareServed.UnmapServed`: every call, request
  and recovery, field by field: when it succeeds, what it leaves, and that it touches nothing else.
- `StoreResults.RunOwned`: free lines and the chains of live records always partition the pool.
- `LeaseRecovery.RunPartition`, `LeaseRecovery.RecoveryGood`: leases are in one map at a time and
  agree with their records, through every run and recovery.
- `ShareRuns.RunUsers`: in every interleaving, the users of a memory are exactly the processes that
  hold a store reference on it, one each; `ShareRequests.MapThenUnmap` and
  `ShareRequests.JoinThenLeave`: an unmap undoes its map.
- `Daemon.FromFresh`, `Daemon.RecoverIff`: from zeroed memory, with the store operations of lease calls,
  requests and region calls in any order and a death at any of them, store and managers stay
  consistent and in step, and the daemon comes up again exactly when the engine answers about the
  memory in use that was being removed.
- `LoggerBuffer.SafeIffSlots`, `LoggerBuffer.ExactlyOnce`, `LoggerBuffer.Drained`,
  `LoggerProgress.DeliveredBy`: exactly-once, in order, every five steps of the consumer deliver
  something that waits, drained before exit.
- `IpcOutcomes.CallInRun`: in every run a lifecycle call ends as its own remote call, start and stop
  decide, whoever comes meanwhile.
- `MsgCodecTheorems.RoundTripIff`, `MsgCodecTheorems.NoPrefix`: the codec loses nothing and accepts
  nothing cut short.
- `VoteSplits.AgreesIff`, `VoteSplits.ClosedAgreesIff`: exactly when a node's won elections agree with
  those of every node that supports what it proposes.

Some promises do not hold without a condition. Each of these has the exact condition as an
equivalence, and an input or a run that shows it failing:

| promise | exact condition | failing case |
|---|---|---|
| names survive a restart | `Catalog.AddSurvivesRestartIffClean`, `StoreLosses.AddAnyName` | `StoreLosses.NameLost` |
| every pool line stays owned | `StoreResults.StepOwned` | `StoreLosses.SecondResultLeaks` |
| node lists come back with their flags | `RegionBitmap.RoundTrip`, `RegionRecovery.ComesBack` | `RegionBitmap.BothFlagsLost` |
| a lease in use is recovered as in use | `LeaseRecovery.KeptWhere`, `LeaseRecovery.CallGoodIff` | `LeaseRecovery.OwnerlessMoves` |
| an unmap detaches nobody else | `ShareRuns.DetachLast` | `ShareRequests.StrangerDetaches` |
| shared memory can be recovered | `ShareRuns.RecoveryExact`, `Daemon.RecoverIff` | `ShareRequests.RecoveryFails` |
| the log buffer is safe | `LoggerBuffer.SafeIffSlots` | `LoggerBuffer.NoSlotsFault` |
| two majorities agree | `VoteSplits.AgreesIff`, `VoteSplits.ClosedAgreesIff` | `VoteSplits.ThreeSplit`, `VoteSplits.ClosedSplit`, `Election.FlaggedMasterDisagrees` |
| a master has its quorum of joins | `JoinQuorum.QuorumIff` | `JoinQuorum.AloneWhenSplit` |

`dafny verify dfyconfig.toml` checks the whole project.

## Model

| member | source | states |
|---|---|---|
| IdPool.PackFields | src/store/record_id_pool_allocator.cpp:18-27 | every flag and the next index can be read back from a packed head word |
| IdPool.Initialize | src/store/record_id_pool_allocator.cpp:36-54 | from any line contents, the free list is duplicate-free and is exactly the set of lines whose used bit is 0 |
| IdPool.FindChainExact | src/store/record_id_pool_allocator.cpp:138-172 | for arbitrary contents, cycles and wild indices included, the bounded walk succeeds exactly on the well-linked chain that starts at the head |
| IdPool.ChainFrame | src/store/record_id_pool_allocator.cpp:113-176 | whatever happens to other lines, a chain is still found and holds the same ids |
| IdPool.AllocateFillRoundTrip | src/store/record_id_pool_allocator.cpp:62-176 | for every non-empty list that fits, reading the returned head yields exactly that list, untaken lines are untouched, and the free list loses exactly the taken lines |
| IdPool.AllocateKeepsIdle | src/store/record_id_pool_allocator.cpp:62-111 | allocation, successful or not, keeps the free list equal to the unused lines |
| IdPool.ReleaseKeepsIdle | src/store/record_id_pool_allocator.cpp:178-236 | so does release, from any contents and any head |
| IdPool.AllocateReleaseRoundTrip | src/store/record_id_pool_allocator.cpp:62-236 | releasing a fresh chain gives back exactly its lines and touches no other |
| IdPool.AllocateOwnership | src/store/record_id_pool_allocator.cpp:62-111 | a new chain is disjoint from every live one, changes none of them, and keeps the pool covered exactly if it was |
| IdPool.ReleaseOwnership | src/store/record_id_pool_allocator.cpp:178-236 | releasing a live chain succeeds, frees exactly its lines, and changes no other live chain |
| IdPoolAllocator.Allocator.constructor | src/store/record_id_pool_allocator.cpp:36-54 | the scan of the mapped lines yields IdPool.Initialize |
| IdPoolAllocator.Allocator.Allocate | src/store/record_id_pool_allocator.cpp:62-111 | the in-place loops write exactly IdPool.Allocate of the old pool, and fail exactly when it does |
| IdPoolAllocator.Allocator.FillAllocated | src/store/record_id_pool_allocator.cpp:113-176 | the loop with its visited array terminates in range on any contents and reads IdPool.FillAllocated; nothing on failure |
| IdPoolAllocator.Allocator.Release | src/store/record_id_pool_allocator.cpp:178-236 | the two passes leave IdPool.Release of the old pool; a failure changes nothing |
| SlotTable.SlotsExact | src/store/base_record_allocator.h:35-50 | the restore scan lists exactly the idle (or the used) slots, in increasing order |
| SlotTable.TakeKeepsExact | src/store/base_record_allocator.h:52-65 | taking the last free slot for a live record keeps the free list equal to the idle slots |
| SlotTable.GiveKeepsExact | src/store/base_record_allocator.h:67-77 | clearing a record and returning its slot keeps it too |
| SlotTable.Allocator.Restore | src/store/base_record_allocator.h:35-50 | the loop returns the used slots and leaves the restored table |
| SlotTable.Allocator.Allocate | src/store/base_record_allocator.h:52-65 | pops the last free slot, or reports that there is none |
| SlotTable.Allocator.Release | src/store/base_record_allocator.h:67-77 | clears the record and pushes its slot |
| Catalog.AddedSound | src/store/record_store.cpp:337-382 | adding succeeds exactly for a short, new name with a free slot, and adds that one record to the contents |
| Catalog.RemovedSound | src/store/record_store.cpp:308-335 | removing takes away that one record and hands over its chain |
| Catalog.WithIdsSound | src/store/record_store.cpp:384-414 | attaching ids changes that one record and its chain head |
| Catalog.RestoreExact | src/store/record_store.cpp:844-883 | rebuilding from slots and pool alone gives the very same cache, ids included, and the same free slots |
| Catalog.AddSurvivesRestartIffClean | src/store/record_store.cpp:337-382 | after a successful add, a restart rebuilds the cache if and only if the name is non-empty and free of NUL |
| Catalog.UncleanAdded | src/store/record_store.cpp:337-382 | a name that is empty or holds a NUL is added whenever it is short and a slot is free, and the slots then no longer agree with the cache |
| Catalog.UncleanLost | src/store/record_store.cpp:337-382 | and is in the cache after the add, but not in the cache a restart rebuilds |
| Catalog.NamesNulFree | src/store/record_store.cpp:337-382 | no stored name ever contains a NUL, whatever name was passed |
| RefIndex.AddedRefOk | src/store/record_store.cpp:633-668 | the new reference is last in both indexes of its pair and nothing else changes; the indexes stay mirrored and every slot stays free or held once in each |
| RefIndex.DroppedRefOk | src/store/record_store.cpp:670-717 | both indexes give up the same slot, the last of the pair, and exactly that slot is freed; or there was none and nothing changes |
| RefIndex.DroppedPidOk | src/store/record_store.cpp:719-753 | in whatever order the imports are walked, exactly the references of the process disappear |
| RefIndex.RestoredRefsOk | src/store/record_store.cpp:885-895 | from any slot contents, restart builds two mirrored, exact indexes |
| RefIndex.SameSlotsSameRefs | src/store/record_store.cpp:885-895 | the slots decide both indexes up to order inside one (import, process) pair |
| RegionBitmap.EncodedBits | src/store/record_store.cpp:191-241 | a bit is set exactly when its node is listed with the flag |
| RegionBitmap.MembersExact | src/store/record_store.cpp:280-306 | the listing has exactly the set bits, in strictly increasing order |
| RegionBitmap.RoundTrip | src/store/record_store.cpp:191-306 | storing and listing keeps the nodes, and keeps the (node, affinity) pairs if and only if no node was given both flags |
| RegionBitmap.BothFlagsLost | src/store/record_store.cpp:191-306 | node 1 listed with and without affinity does not come back as stored |
| RegionBitmap.EncodeNodes | src/store/record_store.cpp:191-241 | the loop builds both encodings |
| RegionBitmap.LowestBit | src/store/record_store.cpp:292-294 | finds the lowest set bit of a non-zero word |
| RegionBitmap.ListNodes | src/store/record_store.cpp:280-306 | the scan terminates and lists the set bits in order with their flags |
| Holdings.ResultKeeps | src/store/record_store.cpp:384-414 | storing a result keeps both record kinds and the pool consistent, with every chain owned once, and says when a chain is lost |
| Holdings.RemoveKeeps | src/store/record_store.cpp:308-335 | deleting a record frees its chain and keeps all others |
| StoreTheorems.StepRefines | src/store/record_store.cpp:182-753 | every operation keeps the invariant, succeeds exactly when the view allows it and there is room, and acts on the view as on plain maps |
| StoreTheorems.RestartExact | src/store/record_store.cpp:836-895 | rebuilding everything from the arrays gives the same caches, the same references per pair, and the invariant again |
| StoreTheorems.RestartView | src/store/record_store.cpp:836-895 | so the four maps a caller can see are the same before and after |
| StoreTheorems.RunRefines | src/store/record_store.cpp:182-895 | for every run of operations and restarts the store is the same run on four plain maps, and one more restart changes nothing |
| StoreResults.ZeroMemoryInv | src/store/record_store.cpp:90-156 | a store opened on all-zero memory is good, empty, and owns every line |
| StoreResults.StepOwned | src/store/record_store.cpp:384-414 | a step keeps every line free or owned by one live record if and only if it is not a second result for a record that has ids |
| StoreResults.RunOwned | src/store/record_store.cpp:308-589 | in every state of a run with one result per record, a line is free exactly when no live record owns it, and chains are disjoint |
| StoreResults.ReferencedStays | src/store/record_store.cpp:475-507 | while an import is referenced no operation, restart included, removes it or moves it to another slot |
| StoreResults.ListingsTranspose | src/store/record_store.cpp:755-793 | the name-first and pid-first listings are transposes, with equal positive counts |
| StoreResults.SlotsAddUp | src/store/base_record_allocator.h:35-77 | free slots and cached names add up to the array, so "no free slot" means full |
| StoreCapacity.AddsUp | src/store/record_store_def.h:25-47 | in every good store, free and used regions add up to 256, leases to 16384, imports to 18432, references to 1179648, and free and owned id lines to 32768 |
| StoreOutcomes.AllowedIff | src/store/record_store.cpp:182-753 | the conditions of each operation, every length, limit and key check written out in numbers, are those under which the plain maps and the arrays allow it |
| StoreOutcomes.StepSays | src/store/record_store.cpp:182-895 | every operation on every good store succeeds exactly under those conditions, leaves the named record with each field as given (state, NUMA id, unit size, lender, flags, ids, reference count, node bits), leaves every other record and count alone, and changes nothing visible when it is refused |
| StoreLosses.AddAnyName | src/store/record_store.cpp:182-554 | an add under any name succeeds exactly when the view allows it and there is room, and acts on the view as on plain maps; the store stays good if and only if the name is clean or was refused |
| StoreLosses.NameLost | src/store/record_store.cpp:337-382 | in a store opened on zeroed memory, a lease under any short name that is empty or holds a NUL is added, and is gone after a restart |
| StoreLosses.SecondResultLeaks | src/store/record_store.cpp:384-414 | from zeroed memory, a lease that is given its ids twice leaves a line that is neither free nor owned |
| StoreLosses.ValidIffNamed | src/store/record_store.cpp:182-554 | for lists of the managers' operations, the only demand on callers is that new names are non-empty and free of NUL |
| RecordStore.NamedRecords.Restore | src/store/record_store.cpp:844-883 | the loop over used slots rebuilds the cache, ids read from the pool |
| RecordStore.NamedRecords.Add | src/store/record_store.cpp:337-382 | updates slot, free list and cache as Catalog.Added |
| RecordStore.NamedRecords.Remove | src/store/record_store.cpp:308-335 | updates slot, free list and cache as Catalog.Removed |
| RecordStore.NamedRecords.List | src/store/record_store.cpp:434-450 | the loop lists exactly the live records with their bodies and ids |
| RecordStore.RefRecords.Restore | src/store/record_store.cpp:885-895 | the loop rebuilds both reference indexes from the used slots |
| RecordStore.RefRecords.Drop | src/store/record_store.cpp:29-48 | erases the last slot of the pair from both indexes and releases it |
| RecordStore.RefRecords.DropPid | src/store/record_store.cpp:719-753 | the loop erases the process from every import and releases its slots |
| RecordStore.RecordStore.constructor | src/store/record_store.cpp:90-156 | attaches to the arrays and rebuilds every cache from them alone |
| RecordStore.RecordStore.Restore | src/store/record_store.cpp:836-842 | rebuilds all four kinds of record in place |
| RecordStore.RecordStore.AddRegionRecord | src/store/record_store.cpp:182-254 | is the abstract step, with its refusals, and keeps the store valid |
| RecordStore.RecordStore.DelRegionRecord | src/store/record_store.cpp:256-278 | is the abstract step and keeps the store valid |
| RecordStore.RecordStore.AddMemLeaseInput | src/store/record_store.cpp:337-382 | is the abstract step; the store stays valid for every clean name |
| RecordStore.RecordStore.AddMemLeaseResult | src/store/record_store.cpp:384-414 | is the abstract step, changing nothing when the pool is full, and keeps the store valid |
| RecordStore.RecordStore.UpdateMemLeaseRecordState | src/store/record_store.cpp:416-432 | is the abstract step and keeps the store valid |
| RecordStore.RecordStore.UpdateMemLeaseRecord | src/store/record_store.cpp:452-473 | is the abstract step and keeps the store valid |
| RecordStore.RecordStore.DelMemLeaseRecord | src/store/record_store.cpp:308-335 | is the abstract step, chain included, and keeps the store valid |
| RecordStore.RecordStore.AddShmImportInput | src/store/record_store.cpp:509-554 | is the abstract step; the store stays valid for every clean name |
| RecordStore.RecordStore.AddShmImportResult | src/store/record_store.cpp:556-589 | is the abstract step and keeps the store valid |
| RecordStore.RecordStore.UpdateShmImportRecordState | src/store/record_store.cpp:591-606 | is the abstract step and keeps the store valid |
| RecordStore.RecordStore.DelShmImportRecord | src/store/record_store.cpp:475-507 | is the abstract step, refused while referenced, and keeps the store valid |
| RecordStore.RecordStore.AddShmRefRecord | src/store/record_store.cpp:633-668 | is the abstract step and keeps the store valid |
| RecordStore.RecordStore.DelShmRefRecord | src/store/record_store.cpp:670-717 | is the abstract step and keeps the store valid |
| RecordStore.RecordStore.DelShmRefRecordsByPid | src/store/record_store.cpp:719-753 | is the abstract step for the order the index was walked in, and keeps the store valid |
| RecordStore.RecordStore.ListShmRefRecordNameF | src/store/record_store.cpp:755-773 | walking the index and naming imports by their slots gives exactly the name-first counts of the view |
| RecordStore.RecordStore.ListShmRefRecordPidF | src/store/record_store.cpp:775-793 | walking the other index gives exactly the process-first counts |
| RecordStore.OpenAfterClose | src/store/record_store.cpp:836-895 | opening the arrays a good store left behind gives a good store with the same view |
| Words.NameLessIff | src/mxm_lease/mls_manager.h:31-46 | names are ordered at the first place where they differ, a prefix before the longer name |
| LeaseSpec.BeforeOrder | src/mxm_lease/mls_manager.h:31-46 | the buffer key (size, then name) is a strict total order on keys |
| LeaseSpec.InsertedSorted | src/mxm_lease/mls_manager.cpp:258-292 | inserting a lease of a new name keeps the buffer ordered and adds exactly that entry |
| LeaseSpec.Partition | src/mxm_lease/mls_manager.h:31-46 | in every good state a name is in at most one map, at most once, and in the store |
| LeaseTheorems.PreAddGood | src/mxm_lease/mls_manager.cpp:456-487 | succeeds exactly for a short name not in the store with room; everything is kept if and only if it failed or the owner has a process id |
| LeaseTheorems.FinishAddGood | src/mxm_lease/mls_manager.cpp:489-515 | succeeds exactly for a lease in use and a non-empty result with room, and keeps everything |
| LeaseTheorems.PreDeleteGood | src/mxm_lease/mls_manager.cpp:258-323 | a lease given back is buffered exactly while its buffer has room, else only its record is marked; everything is kept |
| LeaseTheorems.DeleteGood | src/mxm_lease/mls_manager.cpp:325-341 | takes the lease out of map and store together, and keeps everything |
| LeaseTheorems.SetStateGood | src/mxm_lease/mls_manager.cpp:517-533 | sets the state in map and store together, and keeps everything |
| LeaseTheorems.ReuseBestFit | src/mxm_lease/mls_manager.cpp:105-147 | something is taken exactly when some buffered lease is big enough in an allowed slot, and it has the least (size, name) key of those; everything is kept if and only if nothing was taken or the requester has a process id |
| LeaseTheorems.ReuseNeverShort | src/mxm_lease/mls_manager.cpp:204-256 | every reply is a prefix of the lease's own ids, as many as the client will map, never padded |
| LeaseTheorems.UnitCountIsClients | src/app_lib/rack_mem_fd_map.cpp:66-86 | the manager's unit count equals the client's map count whenever the manager accepts the size |
| LeaseOutcomes.PreAddSays | src/mxm_lease/mls_manager.cpp:456-487 | a lease is asked for exactly under a new short name with room; entry and record then hold owner, size, kind and level, and nothing about memory |
| LeaseOutcomes.FinishAddSays | src/mxm_lease/mls_manager.cpp:489-515 | when memory arrives, ids, NUMA id, unit size and lender are in entry and record, both finished; an empty id list is refused |
| LeaseOutcomes.SetStateSays | src/mxm_lease/mls_manager.cpp:517-533 | a state change reaches entry and record and nothing else |
| LeaseOutcomes.DeleteSays | src/mxm_lease/mls_manager.cpp:325-341 | a delete takes entry and record of that one lease away |
| LeaseOutcomes.PreDeleteSays | src/mxm_lease/mls_manager.cpp:258-323 | a lease given back waits in the buffer of its kind under size = unit size times all its ids modulo 2^64, without a process, if the buffer has room; else only its record is marked |
| LeaseOutcomes.GivenBackServes | src/mxm_lease/mls_manager.cpp:204-323 | a lease that was given back can serve a request of its kind for all of its units, from its lender |
| LeaseOutcomes.UnitCountIff | src/mxm_lease/mls_manager.cpp:241-252 | the unit count is refused exactly without a unit size or when size and unit size overflow 64 bits |
| LeaseOutcomes.ReuseSays | src/mxm_lease/mls_manager.cpp:204-256 | a request takes the least fitting lease and no other, entry and record follow, and the reply, given exactly when the unit count can be computed, has as few units as hold the size with their own ids |
| LeaseRecovery.DeleteAllGood | src/mxm_lease/mls_manager.cpp:343-398 | emptying the buffers leaves exactly the leases the engine refuses to free, stored as finished; the records of the freed ones are gone and no other record changes |
| LeaseRecovery.FlushedExact | src/mxm_lease/mls_manager.cpp:343-398 | per buffer: the rest is exactly the refused leases, the others' records are gone, no other record changes |
| LeaseRecovery.RecoveredExact | src/mxm_lease/mls_manager.cpp:46-103 | in whatever order records are listed, recovery fills the three maps and the records exactly as each record's state and answer say |
| LeaseRecovery.RecoveryGood | src/mxm_lease/mls_manager.cpp:46-202 | a record is erased exactly when deleted or reported gone; a record stays half-deleted exactly when it was and the engine did not answer about it, and no map entry is; every stored lease is back in a map if and only if the engine answered for every half-done one |
| LeaseRecovery.FinishedComesBack | src/mxm_lease/mls_manager.cpp:46-103 | a finished lease comes back into the same map, finished, with the same owner, size, ids, unit size, lender, NUMA id and level (8 bits of it) |
| LeaseOutcomes.RecoveredSays | src/mxm_lease/mls_manager.cpp:46-103 | for each record state and each answer of the engine: whether the lease is skipped, erased or kept, in which map and in which state |
| LeaseRecovery.KeptWhere | src/mxm_lease/mls_manager.cpp:139-147 | a kept lease is filed as in use if and only if it has an owner process, and by its kind otherwise |
| LeaseRecovery.OwnerlessMoves | src/mxm_lease/mls_manager.cpp:89-98 | a finished lease borrowed for process 0 is in use before a restart and in a buffer after it |
| LeaseRecovery.CallGoodIff | src/mxm_lease/mls_manager.cpp:46-533 | every call and every recovery keeps the manager good, if and only if it does not take a lease for process 0 |
| LeaseRecovery.CallGood | src/mxm_lease/mls_manager.cpp:46-533 | so does every call with a process id, and it keeps every stored lease in a map unless a restart was not answered |
| LeaseRecovery.RunPartition | src/mxm_lease/mls_manager.cpp:46-533 | after any run of calls and restarts, names are in at most one map, agree with their records, and are all stored; and all stored names are in a map if every restart was answered |
| LeaseRecovery.BorrowReturn | src/mxm_lease/mls_manager.cpp:294-515 | a lease borrowed, finished, marked and deleted leaves the manager and the records exactly as before; buffered instead, it only moved to its buffer |
| LeaseManager.MLSManager.PreAddUsedMem | src/mxm_lease/mls_manager.cpp:456-487 | updates map and records as LeaseSpec.PreAddUsed |
| LeaseManager.MLSManager.FinishAddUsedMem | src/mxm_lease/mls_manager.cpp:489-515 | updates map and records as LeaseSpec.FinishAdd |
| LeaseManager.MLSManager.ReuseBufferedMem | src/mxm_lease/mls_manager.cpp:204-256 | moves the found lease between maps as LeaseSpec.Reuse, and returns its reply |
| LeaseManager.MLSManager.TakeBuffered | src/mxm_lease/mls_manager.cpp:139-256 | record, buffer and used map change as LeaseSpec.Take, and the reply is cut to the units asked for |
| LeaseManager.FindReusable | src/mxm_lease/mls_manager.cpp:105-137 | the lower bound plus the slot search finds the first fitting entry |
| LeaseManager.InsertBuffered | src/mxm_lease/mls_manager.cpp:258-292 | the loop inserts at the ordered place |
| LeaseManager.MLSManager.PreDeleteUsedMem | src/mxm_lease/mls_manager.cpp:258-323 | updates maps and records as LeaseSpec.PreDelete |
| LeaseManager.MLSManager.DeleteUsedMem | src/mxm_lease/mls_manager.cpp:325-341 | updates map and records as LeaseSpec.Delete |
| LeaseManager.MLSManager.UpdateMemRecordState | src/mxm_lease/mls_manager.cpp:517-533 | updates map and records as LeaseSpec.SetState |
| LeaseManager.MLSManager.FlushBuffer | src/mxm_lease/mls_manager.cpp:343-398 | the loop marks, frees and erases as LeaseSpec.Flushed |
| LeaseManager.MLSManager.DeleteAllBufferedMem | src/mxm_lease/mls_manager.cpp:364-398 | empties both buffers as LeaseSpec.DeleteAll |
| LeaseManager.MLSManager.RecoverFromRecord | src/mxm_lease/mls_manager.cpp:46-103 | the loop over the listed records leaves LeaseSpec.RecoveredFrom, on top of whatever the maps held, for the order it walked them in |
| LeaseManager.MLSManager.RecoverRecord | src/mxm_lease/mls_manager.cpp:50-99 | the branches on record state and stage, with their store updates, do to one record what LeaseSpec.RecoverOne says |
| LeaseManager.MLSManager.FileInfo | src/mxm_lease/mls_manager.cpp:89-98 | files a lease by owner and kind as LeaseSpec.Filed |
| ManagersOnStore.LeaseRepoIsStore | src/store/record_store.cpp:308-473 | a lease manager's repository call is the store's operation on the lease records, room included, and touches nothing else |
| ManagersOnStore.ShareRepoIsStore | src/store/record_store.cpp:475-717 | a shared-memory manager's call is the store's operation on imports and references, and touches nothing else |
| StoreCalls.LeaseOpsExact | src/mxm_lease/mls_manager.cpp:204-533 | the store operations of every lease call, the marks of emptying the buffers included, leave exactly the lease records the manager says and no other change |
| StoreCalls.RecoverOpsExact | src/mxm_lease/mls_manager.cpp:46-202 | so do the operations of a lease recovery, in any order of the records |
| StoreCalls.ShareOpsExact | src/mxm_shm/shm_manager.cpp:128-272 | the store operations of every step of a request, forced removals in any order of the users included, leave exactly the imports and references the manager says |
| StoreCalls.ShareRecoverOpsExact | src/mxm_shm/shm_manager.cpp:31-126 | so do the operations of both recovery passes, in any order of records and entries |
| PendingCalls.PendingStep | src/mxm_shm/shm_manager.cpp:128-272 | after any one of its store operations the rest of a call still leads to its target, and may be cut short anywhere |
| PendingCalls.SafeKeeps | src/mxm_shm/shm_manager.cpp:46-126 | taking records and references away, or moving a state on, keeps the records recoverable |
| Daemon.StepOk | src/mxm_shm/shm_manager.cpp:31-272 | a region call, the beginning, each single store operation and the return of a lease call or of a request step, each single operation of a recovery, its end, and a death at any moment keep the store good, the managers consistent, and what is left of every call leading to what the manager will hold |
| Daemon.LeaseOpStep | src/mxm_lease/mls_manager.cpp:204-533 | one store operation of a lease call keeps both managers on course, whatever step of a request is half done |
| Daemon.ShareOpStep | src/mxm_shm/shm_manager.cpp:128-272 | one store operation of a request step does too, whatever lease call is half done |
| Daemon.DieStep | src/mxm_shm/shm_manager.cpp:62-81 | whenever the daemon dies, with both managers in the middle of calls or in the middle of a recovery, the records left are ones both managers can recover from |
| Daemon.RunOk | src/mxm_shm/shm_manager.cpp:31-272 | so does every run of them |
| Daemon.FromFresh | src/store/record_store.cpp:90-156 | after any run from zeroed memory the store is good and reopening it changes no record; a lease manager not inside a call has a record for every lease in use or buffered, and a shared-memory manager not inside a step has as users of every attached memory exactly the processes with references in the store, whatever the other manager is doing |
| Daemon.RecoverIff | src/mxm_shm/shm_manager.cpp:46-126 | wherever the daemon died, its recovery is never stuck and comes to its end if and only if the engine answers about every shared memory it found in use and being removed |
| DaemonProgress.CallGoesThrough | src/mxm_lease/mls_manager.cpp:204-533 | whenever the lease manager is free, whatever a request is in the middle of, a call whose first operation finds the store as it was told goes through to what the manager makes of it, and leaves the other manager alone |
| DaemonProgress.StepGoesThrough | src/mxm_shm/ipc_handler.cpp:298-762 | so does a step of any request, whatever a lease call is in the middle of |
| DaemonProgress.RegionGoesThrough | src/store/record_store.cpp:182-278 | regions are added and removed at any time, beside both managers |
| DaemonProgress.ComesUp | src/mxm_shm/shm_manager.cpp:46-126 | a dead daemon comes up with exactly what the two recoveries make of its store, if the engine answers about the memory in use that was being removed |
| ShareTheorems.AddUserOk | src/mxm_shm/shm_manager.cpp:128-145 | users stay equal to holders, one reference each, if and only if the call failed, or the process was no user and the memory is not still being added; every other name is left alone |
| ShareTheorems.RemoveUserOk | src/mxm_shm/shm_manager.cpp:147-168 | succeeds exactly for a holder, and takes away exactly that one |
| ShareTheorems.PrepareOk | src/mxm_shm/shm_manager.cpp:170-195 | a prepared import is there in both places and has no user |
| ShareTheorems.FullRecordOk | src/mxm_shm/shm_manager.cpp:197-211 | the first half of finishing an import stores exactly the result, whatever state the entry is in, or changes nothing |
| ShareTheorems.FullUserOk | src/mxm_shm/shm_manager.cpp:212-222 | the second half adds exactly one holder, or none and the unheld record goes; the entry stays consistent if and only if the process held nothing on a finished import, or, on failure, others hold it or it was still being added |
| ShareTheorems.SetStateOk | src/mxm_shm/shm_manager.cpp:224-239 | the state changes in both places together, users stay; the entry stays consistent if and only if it is not set back to "being added" while held |
| ShareTheorems.RemoveOk | src/mxm_shm/shm_manager.cpp:241-272 | removal succeeds exactly when the name is in both places and unused, or deleted and forced; then nothing of it is left |
| ShareTheorems.DroppedOk | src/mxm_shm/shm_manager.cpp:249-259 | on a consistent entry, dropping any of its users in any order is never refused and leaves exactly the others |
| ShareTheorems.RemoveInOk | src/mxm_shm/shm_manager.cpp:241-272 | on a consistent entry, removal does not depend on the order in which the users are walked |
| ShareOutcomes.AddUserSays | src/mxm_shm/shm_manager.cpp:128-145 | a user is added exactly under a usable name and process id with room, with one reference more and nothing else changed |
| ShareOutcomes.RemoveUserSays | src/mxm_shm/shm_manager.cpp:147-168 | a user and its reference go, exactly if it was one |
| ShareOutcomes.PrepareSays | src/mxm_shm/shm_manager.cpp:170-195 | size, state and process are recorded in both places for a new short name, and nothing else |
| ShareOutcomes.FullRecordSays | src/mxm_shm/shm_manager.cpp:197-211 | the record takes ids, unit size, flags and owner ids of the result, exactly if there are ids and room |
| ShareOutcomes.FullUserSays | src/mxm_shm/shm_manager.cpp:212-222 | the first user finishes the entry with that result; refused, the record goes and the entry stays |
| ShareOutcomes.SetStateSays | src/mxm_shm/shm_manager.cpp:224-239 | only the state changes, in both places, or nothing does |
| ShareOutcomes.RemoveSays | src/mxm_shm/shm_manager.cpp:241-272 | everything about a name goes, exactly if nobody uses it or it is forced on deleted memory |
| ShareRuns.ActOk | src/mxm_shm/ipc_handler.cpp:473-762 | every atomic step of a map, unmap or delete request keeps its own name consistent and leaves every other name alone |
| ShareRuns.NextOk | src/mxm_shm/ipc_handler.cpp:298-762 | every interleaving step, a restart at any moment included, keeps the whole system consistent |
| ShareRuns.RunUsers | src/mxm_shm/ipc_handler.cpp:298-762 | in every run of interleaved requests and successful restarts, each name's users are exactly the processes holding a store reference, one each |
| ShareRuns.DetachLast | src/mxm_shm/ipc_handler.cpp:657-762 | when an unmap detaches, at most one process holds the name, and it is nobody but the caller if and only if the caller was a recorded user or there was none |
| ShareRuns.ReachesDetach | src/mxm_shm/ipc_handler.cpp:686-762 | from any state with one user, an unmap by anybody reaches the detach with that user still holding the name |
| ShareRuns.NobodyHolds | src/mxm_shm/ipc_handler.cpp:298-371 | the engine delete, and the detach of a rolled-back map, happen only while nobody holds the name |
| ShareRuns.JoinReply | src/mxm_shm/ipc_handler.cpp:547-579 | a process joining a finished memory is told exactly the size, ids and flags the store keeps, and was not a user yet |
| ShareRuns.RecoveryExact | src/mxm_shm/shm_manager.cpp:46-126 | recovery fails if and only if a name in use was being removed and the engine does not answer about it; otherwise every name ends exactly as its record, answer and references say |
| ShareOutcomes.RecoveredSays | src/mxm_shm/shm_manager.cpp:46-126 | for each state and each answer: half-added memory goes exactly when the engine has nothing or is deleting it, half-deleted memory becomes deleted exactly when the engine says gone or waiting for its export, else finished, and what comes back has every field of its record and exactly its holders as users |
| ShareRequests.RankFalls | src/mxm_shm/ipc_handler.cpp:298-762 | whatever is answered, every request returns after a bounded number of steps |
| ShareRequests.ServedIsRun | src/mxm_shm/ipc_handler.cpp:581-762 | a request carried through alone is one of the runs of the system and frees the mutex |
| ShareRequests.MapFirst | src/mxm_shm/ipc_handler.cpp:493-655 | mapping a memory nobody has makes exactly one entry, one finished record and one reference appear, with the engine's result |
| ShareRequests.StrangerDetaches | src/mxm_shm/ipc_handler.cpp:686-762 | there is a run from the empty system in which a process that never mapped a memory has it detached under its only user |
| ShareRequests.RecoveryFails | src/mxm_shm/shm_manager.cpp:46-126 | there is a run from the empty system after which a restart with a silent engine fails |
| ShareRequests.MapThenUnmap | src/mxm_shm/ipc_handler.cpp:493-762 | unmapping by the only user gives back the state from before the map, to the last field |
| ShareRequests.JoinThenLeave | src/mxm_shm/ipc_handler.cpp:547-762 | a process that joins a memory in use and unmaps it leaves the other users, the record and the counts exactly as they were |
| ShareServed.MapServed | src/mxm_shm/ipc_handler.cpp:473-655 | a whole map, whatever is answered to its steps: joined, refused, rolled back to nothing, left finished when the roll-back's detach is refused, or left without a record, each exactly when; no other name is touched |
| ShareServed.UnmapServed | src/mxm_shm/ipc_handler.cpp:657-762 | a whole unmap: one user less while others remain, everything gone when the last user's detach succeeds, finished again when it is refused, marked when a stranger's detach succeeds; no other name is touched |
| ShareServed.UnmapDetachesIff | src/mxm_shm/ipc_handler.cpp:657-762 | it has the engine detach the memory exactly when at most one user is left, the memory is not deleted, and it has a record |
| ShareServed.DeleteServed | src/mxm_shm/ipc_handler.cpp:298-371 | a delete changes nothing here and reaches the engine exactly when it is permitted and nobody uses the memory |
| ShareServed.RequestServed | src/mxm_shm/ipc_handler.cpp:298-762 | a map, unmap or delete on a free name can always begin and run to its end, and is then what is written out for it, beside whatever other requests are doing |
| ShareRequests.UsedComesBack | src/mxm_shm/shm_manager.cpp:46-126 | a finished memory with users comes back from a restart exactly as it was, whatever the engine answers |
| ShareRequests.NothingIdle | src/mxm_shm/shm_manager.cpp:65-81 | after a restart nothing is attached without a user, except what was still being added |
| ShareManager.SHMManager.AddMemoryUserInfo | src/mxm_shm/shm_manager.cpp:128-145 | updates map and store as ShareSpec.AddUser |
| ShareManager.SHMManager.RemoveMemoryUserInfo | src/mxm_shm/shm_manager.cpp:147-168 | updates map and store as ShareSpec.RemoveUser |
| ShareManager.SHMManager.PrepareAddShareMemoryInfo | src/mxm_shm/shm_manager.cpp:170-195 | updates map and store as ShareSpec.Prepare |
| ShareManager.SHMManager.AddFullShareMemoryInfo | src/mxm_shm/shm_manager.cpp:197-222 | updates map and store as ShareSpec.AddFull, the deleted record on failure included |
| ShareManager.SHMManager.UpdateShareMemoryRecordState | src/mxm_shm/shm_manager.cpp:224-239 | updates map and store as ShareSpec.SetState |
| ShareManager.SHMManager.DropUsers | src/mxm_shm/shm_manager.cpp:249-259 | the loop drops the references of distinct users one by one, all of them or up to the first the store refuses |
| ShareManager.SHMManager.RemoveMemoryInfo | src/mxm_shm/shm_manager.cpp:241-272 | updates map and store as ShareSpec.RemoveIn for the order it walked the users in, and as ShareSpec.Remove on every consistent state |
| ShareManager.SHMManager.GetMemoryUsersCountByName | src/mxm_shm/shm_manager.cpp:298-308 | returns the number of recorded users of a name, 0 for one that is not attached |
| ShareManager.SHMManager.GetMemoryUsersByPid | src/mxm_shm/shm_manager.cpp:286-297 | returns exactly the memories the process uses |
| ShareManager.SHMManager.GetAllUsers | src/mxm_shm/shm_manager.cpp:310-320 | returns exactly the processes that use some memory |
| ShareManager.SHMManager.RecoverFromRecord | src/mxm_shm/shm_manager.cpp:85-126 | succeeds exactly when no stored name has an entry yet, and then adds the entries and leaves the records of ShareSpec.FromRecords, in whatever order records are walked |
| ShareManager.SHMManager.RecoverFromRefRecord | src/mxm_shm/shm_manager.cpp:46-83 | fails exactly when a referenced name has no entry, else fills in the users and drops the unused names |
| ShareManager.SHMManager.Recovery | src/mxm_shm/shm_manager.cpp:31-44 | succeeds exactly when both passes do, on top of whatever is attached; from an empty map it is ShareSpec.Recovered |
| LoggerBuffer.StepGood | src/logger/ubsmem_logger_ringbuffer.cpp:33-90 | every atomic step of a producer, the consumer or the shutdown keeps each handed-out index stored or claimed by one producer |
| LoggerBuffer.QuietFull | src/logger/ubsmem_logger_ringbuffer.cpp:82-90 | when the exclusive lock is taken, every index handed out has its entry stored and no refused index is outstanding |
| LoggerBuffer.ExactlyOnce | src/logger/ubsmem_logger_ringbuffer.cpp:33-90 | in every run with at least one slot, nothing unwritten or out of range is read, and what was delivered is what was accepted, once each and in order |
| LoggerBuffer.DroppedWhenFull | src/logger/ubsmem_logger_ringbuffer.cpp:33-52 | an entry is refused exactly when the write buffer is full |
| LoggerBuffer.Drained | src/logger/ubsmem_logger_manager.cpp:101-179 | when Exit has returned, every accepted entry was delivered and no further step accepts one |
| LoggerBuffer.DrainProgress | src/logger/ubsmem_logger_manager.cpp:143-179 | told to stop, with no producer inside, the consumer is never stuck and every step brings it closer to its end |
| LoggerBuffer.DrainBounded | src/logger/ubsmem_logger_manager.cpp:143-179 | under every schedule after the signal, the consumer takes a bounded number of steps, nothing more is accepted, and it waits only for producers inside when it swaps |
| LoggerProgress.ConsumeLeads | src/logger/ubsmem_logger_ringbuffer.cpp:66-90 | while anything waits, told to stop or not, each consumer step delivers the next accepted entry or is one step closer to it, at most five away |
| LoggerProgress.DeliveredBy | src/logger/ubsmem_logger_manager.cpp:143-179 | in every interleaving, k consumer steps deliver at least k/5 of the entries waiting, until all that waited is delivered |
| LoggerProgress.QuietDelivers | src/logger/ubsmem_logger_manager.cpp:143-179 | with no producer inside, the consumer alone delivers everything accepted within five steps each |
| LoggerProgress.PutAdds | src/logger/ubsmem_logger_ringbuffer.cpp:33-66 | an undisturbed put adds its own entry at the end, exactly if the logger is not stopped and a slot is free |
| LoggerProgress.NothingInvented | src/logger/ubsmem_logger_ringbuffer.cpp:33-66 | nothing is accepted that no producer came with |
| LoggerBuffer.ExitReturns | src/logger/ubsmem_logger_manager.cpp:101-113 | from every state in which Exit waits, producers inside or not, there is a run in which it returns with everything delivered |
| LoggerProgress.ShutsDown | src/logger/ubsmem_logger_manager.cpp:101-179 | from every state, producers inside or not, shutdown can be completed with everything accepted delivered |
| LoggerBuffer.NoSlotsFault | src/logger/ubsmem_logger_ringbuffer.cpp:53-80 | with no slots there is a run in which the consumer reads out of range |
| LoggerBuffer.SafeIffSlots | src/logger/ubsmem_logger_ringbuffer.cpp:33-90 | every run is safe if and only if the buffer has a slot |
| IpcLifecycle.EnterGood | src/app_lib/ipc_proxy.cpp:83-104 | entering an operation or a transition keeps operations and transitions apart |
| IpcLifecycle.ReplyGood | src/app_lib/ipc_proxy.cpp:106-229 | every outcome of every start, stop, handler or remote call keeps the state truthful about the client |
| IpcLifecycle.OneAtATime | src/app_lib/ipc_proxy.cpp:31-254 | in every interleaving at most one initialize, suspend, resume or destroy is in progress, RUNNING and the two states that keep the client imply it is started, SUSPENDED implies it is stopped |
| IpcLifecycle.NoOverlap | src/app_lib/ipc_proxy.h:55-64 | no control operation runs while any caller starts or stops the client |
| IpcLifecycle.ReportsTruth | src/app_lib/ipc_proxy.cpp:56-254 | in every run a lifecycle call reports exactly when it ends, at once or after its last step, and it reports success exactly when the state is the one it is named after |
| IpcLifecycle.CallsReturn | src/app_lib/ipc_proxy.cpp:56-254 | whatever its calls bring back, a caller is done after a bounded number of them |
| IpcLifecycle.SuspendOutcome | src/app_lib/ipc_proxy.cpp:83-127 | suspending a running client ends in exactly one of four ways, decided by the remote call and the stop |
| IpcLifecycle.SuspendResume | src/app_lib/ipc_proxy.cpp:83-223 | suspend and resume, granted everything, give the running client back |
| IpcOutcomes.SuspendEnds | src/app_lib/ipc_proxy.cpp:83-127 | from every state, how a suspend ends: unchanged, suspending failed, suspended and stopped, or failed stopping, with the client up or down |
| IpcOutcomes.ResumeEnds | src/app_lib/ipc_proxy.cpp:129-223 | from every state, how a resume ends: a rejected one stops the client again unless the suspend itself was uncertain, a transport error leaves it resuming-failed and up, a failed start or handler leaves it suspended |
| IpcOutcomes.DestroyEnds | src/app_lib/ipc_proxy.cpp:231-254 | a destroy stops the client from every settled state, and fails stopping or ends uninitialised as the stop does |
| IpcOutcomes.InitializeEnds | src/app_lib/ipc_proxy.cpp:56-81 | an initialisation ends running exactly when start and handler succeed |
| IpcOutcomes.OthersTurnedAway | src/app_lib/ipc_proxy.cpp:31-254 | while one caller changes the state, whatever another tries changes nothing |
| IpcOutcomes.AsIfAlone | src/app_lib/ipc_proxy.cpp:56-254 | so a call that returns leaves, in every interleaving, what it would have left alone |
| IpcOutcomes.CallInRun | src/app_lib/ipc_proxy.cpp:56-254 | from a fresh start and after anything, each lifecycle call ends as written out for it |
| IpcOutcomes.BusyAtOnce | src/app_lib/ipc_proxy.cpp:31-254 | while a change is under way every other lifecycle call and operation is answered at once, busy, and changes nothing |
| IpcOutcomes.OperationsShare | src/app_lib/ipc_proxy.h:55-64 | while running, an operation is let in beside any number of others |
| IpcOutcomes.OperationSays | src/app_lib/ipc_proxy.cpp:31-54 | an operation is let in exactly while running or never set up, and else told suspended, busy or failed |
| MsgCodecTheorems.RoundTrip | src/mxm_message/mxm_msg_packer.h:35-269 | unpacking a packed value gives it back, stays valid, and consumes exactly its bytes |
| MsgCodecTheorems.RoundTripIff | src/mxm_message/mxm_msg_packer.h:164-269 | a value of a type makes the round trip if and only if it keeps the size limits |
| MsgCodecTheorems.NoPrefix | src/mxm_message/mxm_msg_packer.h:150-269 | no strict prefix of an encoding unpacks as valid |
| MsgCodecTheorems.UnpackExtends | src/mxm_message/mxm_msg_packer.h:150-269 | for any input, more bytes after what was read do not change what was read |
| MsgCodecTheorems.Sticky | src/mxm_message/mxm_msg_packer.h:150-157 | once invalid, no unpacking of any type makes the stream valid again |
| MsgCodecTheorems.UnpackedOk | src/mxm_message/mxm_msg_packer.h:150-269 | whatever the input, a value that unpacks as valid has its type, has its map keys in order, and keeps the limits |
| MsgCodecTheorems.Injective | src/mxm_message/mxm_msg_packer.h:35-109 | one packing stands for one value only |
| MsgCodecTheorems.EmplacedSorted | src/mxm_message/mxm_msg_packer.h:246-269 | filling a map with entries in key order keeps them as they are |
| MsgKeyOrder.LessIsOrder | src/mxm_message/mxm_msg_packer.h:246-269 | an order that compares plain fields by bytes and everything else element by element is a strict total order on all values, as the codec asks |
| MsgKeyOrder.BytesLessIff | src/mxm_message/mxm_msg_packer.h:246-269 | bytes are compared at the first place where they differ, a prefix before the longer string |
| MsgWire.StringWire | src/mxm_message/mxm_msg_packer.h:35-109 | a string is its length in four bytes, least significant first, and its text |
| MsgWire.VectorWire | src/mxm_message/mxm_msg_packer.h:35-109 | a vector is its length in eight bytes and its elements in order |
| MsgWire.MapWire | src/mxm_message/mxm_msg_packer.h:35-109 | a map is its size in eight bytes and its entries in order, key before value |
| MsgWire.ReturnsIff | src/mxm_message/mxm_msg_packer.h:164-269 | a value makes the round trip exactly if no string, vector or map in it is larger than 1048576 |
| MsgWire.Unread | src/mxm_message/mxm_msg_packer.h:150-269 | whatever arrives, a value that is not read in full is left blank |
| MsgWire.FirstKept | src/mxm_message/mxm_msg_packer.h:246-269 | of entries with the same key, a map keeps exactly the first that arrived |
| MsgPacker.NetMsgPacker.Serialize | src/mxm_message/mxm_msg_packer.h:35-109 | appends exactly the packing of the value, loops included |
| MsgPacker.NetMsgUnpacker.Deserialize | src/mxm_message/mxm_msg_packer.h:150-269 | consumes the stream and returns the value as MsgCodec.Unpack, the valid flag included |
| MsgPacker.NetMsgUnpacker.DeserializeItems | src/mxm_message/mxm_msg_packer.h:227-236 | the element loop, cleared as soon as one element is invalid |
| MsgPacker.NetMsgUnpacker.DeserializeEntries | src/mxm_message/mxm_msg_packer.h:257-268 | the entry loop, placing entries one by one, cleared as soon as one is invalid |
| RegionRepository.ToNodeIdsIff | src/mxm_shm/region_repository.cpp:22-38 | a description is read exactly when it has 0 to 16 hosts, each with a number |
| RegionRepository.MatchedSame | src/mxm_shm/region_repository.cpp:40-94 | a match hands back exactly the stored (node, flag) pairs, repetitions included |
| RegionRepository.MatchedExact | src/mxm_shm/region_repository.cpp:40-94 | with readable hosts, greedy matching succeeds if and only if the region has every stored node often enough |
| RegionRepository.RecoveredFirst | src/mxm_shm/region_repository.cpp:96-110 | recovery succeeds exactly when some region matches, and what it gives is a match |
| RegionRecovery.ComesBack | src/mxm_shm/region_repository.cpp:22-170 | stored, listed and matched against any regions one of which has all its nodes, a region always comes back, and with the same nodes and flags if and only if no node was listed with both flags |
| RegionRecovery.EndToEnd | src/mxm_shm/region_repository.cpp:117-170 | the same through the store: created, then any operations and restarts that do not remove it, then a restart and recovery |
| RegionRecovery.UpdateRegionInfo | src/mxm_shm/region_repository.cpp:117-135 | the loop reads every node number, or refuses |
| RegionRecovery.CheckRegionMatched | src/mxm_shm/region_repository.cpp:40-94 | the nested loops over flag and affinity arrays compute the greedy match |
| RegionRecovery.TransRecordToRegionCache | src/mxm_shm/region_repository.cpp:96-110 | the loop returns the first match |
| RegionRecovery.Recovery | src/mxm_shm/region_repository.cpp:147-170 | recovers every listed region, or fails exactly when one matches none |
| Election.CollectNodeInfo | src/zen_discovery/election_module.cpp:190-221 | walking the nodes in name order, the loop collects exactly the active eligible nodes, itself, those flagged as master, and the last voting-only node |
| Election.SelectTemporaryMaster | src/zen_discovery/election_module.cpp:224-233 | the least flagged master, or else the least candidate |
| Election.GetSmallestNodeId | src/zen_discovery/zen_discovery.cpp:242-254 | the least active node known, itself included |
| Election.ConductVoting | src/zen_discovery/election_module.cpp:236-289 | the loop gathers the own vote and exactly the grants of the candidates and the voting-only node |
| Election.RunElection | src/zen_discovery/election_module.cpp:97-140 | an election is won exactly with enough candidates and enough votes, and names the proposal |
| Election.WinsIff | src/zen_discovery/election_module.cpp:97-321 | in a cluster of views, an election can be won exactly when those asked that support the proposal, with the initiator, are enough |
| Election.PlainHonest | src/zen_discovery/zen_discovery.cpp:171-189 | with no voting-only node and no flagged master, an initiator would support its own proposal |
| Election.HonestIff | src/zen_discovery/election_module.cpp:190-233 | an initiator would support its own proposal if and only if its least active node is among those it chooses from |
| Election.Agreement | src/zen_discovery/election_module.cpp:236-321 | any two elections won with a strict majority, by initiators that would support their own proposals, in a cluster of any size, chose the same node |
| VoteSplits.AgreesIff | src/zen_discovery/election_module.cpp:97-321 | whatever the cluster, the elections a node wins agree with those of every node that supports its own proposal, if and only if it supports what it proposes, or it has no second candidate or nobody else it asks could vote for the proposal |
| VoteSplits.ThreeSplit | src/zen_discovery/election_module.cpp:97-321 | if it supports another node than it proposes, has a second candidate and asks somebody who could vote for the proposal, its elections do not always agree with those of honest nodes |
| VoteSplits.ClosedAgreesIff | src/zen_discovery/election_module.cpp:97-321 | in clusters that have every node a view knows, they agree if and only if it supports what it proposes, or a known node is before the one it supports, or its candidates or the possible voters for its proposal are no more than half of the known nodes |
| VoteSplits.Everybody | src/zen_discovery/election_module.cpp:236-321 | two elections with different outcomes, one of an honest node, together take every node of the cluster and share the other initiator's vote |
| VoteSplits.SplitNeeds | src/zen_discovery/election_module.cpp:236-321 | in such a cluster they need that condition of the view |
| VoteSplits.SplitWins | src/zen_discovery/election_module.cpp:97-321 | a cluster of two equal halves and one node, the first half voting for its proposal and the other for the node it supports, has both elections won with the same majority |
| VoteSplits.ClosedSplit | src/zen_discovery/election_module.cpp:97-321 | and every view that meets it splits some such cluster |
| Election.FlaggedMasterDisagrees | src/zen_discovery/election_module.cpp:224-233 | an instance: with a node flagged as master two majorities of one cluster choose differently |
| JoinQuorum.StepGood | src/zen_discovery/zen_discovery.cpp:303-506 | every handler keeps each temporary master's list, own or handed over, at least as long as the quorum |
| JoinQuorum.Quorum | src/zen_discovery/zen_discovery.cpp:443-506 | in every run of any cluster, elections begun by candidates among its own nodes only, a master was elected with at least the quorum of distinct nodes of its invitation, itself included |
| JoinQuorum.AloneWhenSplit | src/zen_discovery/zen_discovery.cpp:303-315 | if the list is written after the state, a cluster of just enough nodes has a run in which a candidate is elected and becomes master alone |
| JoinQuorum.QuorumIff | src/zen_discovery/zen_discovery.cpp:303-315 | the quorum is guaranteed in every run if and only if the list is written together with the state, or the quorum asks for the node alone |
| JoinQuorum.StepSays | src/zen_discovery/zen_discovery.cpp:303-506 | each handler, field by field, and that it changes its own node only; a late check elects exactly with the quorum of joins and else makes the node a candidate again |
| JoinQuorum.HandsOver | src/zen_discovery/zen_discovery.cpp:303-315 | a vote won for another node reaches it and makes it temporary master with that list, unless it has the role or is master already |
| JoinQuorum.InvitationEnds | src/zen_discovery/zen_discovery.cpp:443-506 | a whole invitation, whoever joins in whatever order: elected exactly when the whole list joined or, at the end, the quorum did, and with exactly those who joined |

## Left out

- Not-initialised guards, which refuse calls before the store is opened, and what opening and closing do besides: mapping the file, touching its pages, unmapping it, and logging.
- The suspend-client array of the store: a flat list of pids.
- Daemon.StepOk: a store operation is one step; a death falls between two of them, not between the writes of one.
- Daemon.RecoverIff: the two recoveries run one after the other, as services are started, and not beside requests.
- Catalog.AddedSound: asks for a non-empty name without a NUL; AddSurvivesRestartIffClean and UncleanAdded state what happens to any other.
- StoreTheorems.StepRefines: asks for such names too; StoreLosses.AddAnyName states the step for every name, and that the invariant is lost exactly for the others.
- StoreTheorems.RunRefines: asks for such names throughout, because after another one is added a restart changes the view (StoreLosses.NameLost).
- RegionRecovery.EndToEnd: asks for such names too.
- Word-level bit tricks: a 64-bit word of a node bitmap is modelled as its 64 bits.
- Region records carry no ids, so their id count is fixed at 0 in the model.
- LeaseRecovery.CallGood: takes callers to have a process id other than 0, which is how the manager tells leases in use from buffered ones; CallGoodIff states that this is exactly what is needed.
- LeaseRecovery.RunPartition: takes them to have one throughout; after a lease for process 0, OwnerlessMoves states what a restart does.
- LeaseTheorems.PreDeleteGood: does not relate the state kept in the map to the stored one while a delete is pending, because only the record is marked.
- LeaseTheorems.FinishAddGood: does not compare the stored NUMA id with the one in the map before the result arrives, where the source starts them with different values.
- Performance levels above 255 are cut to 8 bits in the record, as the source does, and recovery brings the cut value back.
- ShareRuns.RunUsers: does not say that attached names and stored imports are the same set, because a refused first reference deletes the record and leaves the map entry.
- Permission checks, the busy list and the background removal of leaked memory, which call the managers from other threads without the mutex of the name.
- The engine, the distributed lock, the network, RPC registration, TLS, tracing, file rotation and formatting.
- LoggerBuffer.StepGood: the 32-bit index counter does not wrap, which it could only with about four billion producers inside the shared lock.
- LoggerBuffer.ExactlyOnce: leaves out the console notice about a full buffer.
- IpcLifecycle.OneAtATime: says nothing about the client in the uninitialised state, because initialisation ignores a failed stop.
- IpcLifecycle.ReplyGood: takes a failed start to leave the client as it was, and a failed stop to leave it in any condition.
- MsgCodecTheorems.RoundTrip: plain fields are their bytes; the order of map keys is any strict total order, of which MsgKeyOrder.Less is one.
- MsgPacker.NetMsgUnpacker.Deserialize: a record that cannot be read is given its default value, where the source keeps the caller's.
- RegionRecovery.CheckRegionMatched: does not model a failing copy of a host name, because source and target fields have the same fixed size.
- Election.Agreement: views do not change between two votes; terms, timeouts and the step-down of masters are not modelled, nor is a single master over time claimed.
- JoinQuorum.Quorum: handlers are atomic steps; QuorumIff states what that assumption is worth.
