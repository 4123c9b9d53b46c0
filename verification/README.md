# Verified models of Neon's stateful cores

This project models, in Dafny, six pieces of stateful logic of Neon and proves what they are relied on for.

- **Page cache** (`page_cache_*.dfy`). The cache is modelled twice. `PageCacheProtocol` is a system of interleaved steps: any number of tasks, one program counter each, and the mapping lock released before a slot lock is taken. `PageCacheInvariant` shows an invariant kept by every step; `PageCacheTheorems` draws the conclusions for every run, `PageCacheLocked` says exactly when all slots can be locked, and `PageCacheProgress` shows that the lock order avoids deadlock. `PageCacheObject` is the sequential class: version lists, the two hash maps, the size gauges and the clock.
- **HNSW index** (`hnsw_*.dfy`). Best-first search with two queues and a visited bitmap, the neighbour heuristic, insertion with bounded link lists kept in flat records, and which elements of a built index can be found. Distances are real numbers of an arbitrary function of two points.
- **Disk-usage eviction** (`eviction_*.dfy`). Ordering and partitioning the layers of all tenants, selecting the victims, and the loop that runs the eviction jobs. Ages and percentages are exact.
- **Base backup and import** (`backup_paths.dfy`, `relation_*.dfy`, `slru_segments.dfy`). Segmenting relations into files and importing the files in any order, fork selection, paths and file names, and the SLRU counterpart. Block numbers on import have 32 bits and wrap around.
- **Safekeeper fast path** (`safekeepers.dfy`). Collecting status responses in any order and the agreement check.
- **Round trips** (`postgres_conf.dfy`, `deletion_list.dfy`). Printing and reading `postgresql.conf`; batched deletion lists and the table of visible LSNs.

`basics.dfy`, `pages.dfy` and `strings.dfy` hold shared helpers.

## Where the code does less than expected

Each of these is stated as a lemma that says exactly when the expected property holds.

- A task in `find_victim` can find every slot locked: a read guard drops its permit before its lock, so for a moment its slot is departing, locked without a permit. An unlocked slot is sure to exist exactly if fewer slots are departing than permits are held by tasks without a slot (`UnlockedSlotExactly`); for every cache size `EverythingLockedExactly` says which numbers occur with all slots locked.
- The clock finds a victim within `(MAX_USAGE_COUNT + 1) * n` ticks exactly when the hand, a 64-bit counter taken modulo `n`, does not jump by wrapping within those ticks (`SixFullTurns`; `SearchIsBounded` and `JumpDelaysSearch`). Within `7 * n` ticks it always does, so the `10 * n` limit is not reached.
- `add_rel` adds block numbers in 32 bits. With wrapping additions its loop ends exactly for relations of at most 2^32 - 131072 blocks (`LoopEndsExactly`).
- The importer computes block numbers in 32 bits and accepts any segment number. The blocks of a file land at their own numbers exactly if the file ends within 2^32 blocks (`LandsWhereItShould`); segment numbers that differ by 32768 land on the same blocks (`SegmentsAlias`).
- The path of a relation file keeps of the tablespace only whether it is the global one, so a file name comes back as its own tag exactly if it is shared or in the default tablespace (`PathRoundTripExactly`). `add_dbdir` therefore refuses relations in user-defined tablespaces: a backup fails exactly if the database has one, or a relation too large to send (`BackupAndRestore`).
- An SLRU segment without blocks is not exported, so every segment is restored exactly when none is empty (`EmptySegmentsAreLost`).
- Printing and reading `postgresql.conf` gives back the options exactly when all names are made of word characters and dots and the last value of each name has no white space except line feeds (`PrintReadExactly`).
- Insertion can lose elements of an HNSW index: a full link list is thinned out, and what only it linked to can no longer be found. No element is lost while no list involved is full (`InsertReaches`), so with `M >= 1` all of up to `maxM + 1` elements stay reachable, and a wide search returns every label (`Build`, `BuildAndSearch`). What can be lost is not bounded: of the origin and any number of unit vectors, with any `M >= 1` and an `efConstruction` of at least `M` or at most 1, no more than `M + maxM` can be found (`BuildStar`), which for `M == 1` meets the bound of `Build`.
- `searchBaseLayer` with `ef == 0` returns one element, as with `ef == 1`; the contracts use `Cap`.

## Model

| member | source | states |
|---|---|---|
| PageCacheInvariant.StepKeepsInv | pageserver/src/page_cache.rs:49-71 | every step of every task keeps locks, mapping, contents, permits and gauges consistent |
| PageCacheInvariant.CoreStep | pageserver/src/page_cache.rs:582-711 | every step keeps lock ownership, the one-to-one agreement of mapping and slot keys, and the contents of slots |
| PageCacheInvariant.PermitStep | pageserver/src/page_cache.rs:225-237 | every step keeps: live permits are those held, and only read guards of one slot share one |
| PageCacheInvariant.GaugeStep | pageserver/src/page_cache.rs:775-850 | every step keeps each gauge equal to the page size times the number of mappings of its kind |
| PageCacheInvariant.TypeStep | pageserver/src/page_cache.rs:644-654 | every step keeps: files are read by block, the rest is about materialized pages, and a look-up never claims a slot |
| PageCacheInvariant.InitInv | pageserver/src/page_cache.rs:940-977 | a new cache satisfies the invariant |
| PageCacheInvariant.RunKeepsInv | pageserver/src/page_cache.rs:372-935 | every state of every interleaving satisfies the invariant |
| PageCacheTheorems.ReadGuardExposesTruth | pageserver/src/page_cache.rs:582-606 | a read guard exposes exactly the bytes of its key, and that key answers the request |
| PageCacheTheorems.NoPanics | pageserver/src/page_cache.rs:332-364 | no assertion or panic on the path of any step can fire: content equality, key present, old key mapped, no permit under a write lock, key type of a look-up |
| PageCacheTheorems.StepRefinesDirectRead | pageserver/src/page_cache.rs:441-529 | seen by its tasks, the cache behaves like a direct reader: a request is answered by the best match among the cached keys, or by its own key, and what is seen is the true page |
| PageCacheTheorems.SeenIsTruth | pageserver/src/page_cache.rs:271-290 | whatever a task sees through a guard is the true page of a key that answers its request |
| PageCacheTheorems.SeenWasBest | pageserver/src/page_cache.rs:582-606 | in every run, a key a task sees was the best match of the mapping when it was found, or is the key asked for |
| PageCacheInvariant.OnlyOwnPcMoves | pageserver/src/page_cache.rs:372-935 | a step leaves all other tasks where they are |
| PageCacheTheorems.MappingsMatchSlots | pageserver/src/page_cache.rs:775-850 | no two keys share a slot; without a writer, mapping and slot key say the same |
| PageCacheTheorems.GaugesWithinBounds | pageserver/src/page_cache.rs:948-951 | the gauges count the mappings of their kind and sum to at most the cache size |
| PageCacheTheorems.WriterSeesNoPermit | pageserver/src/page_cache.rs:512-518 | under a write lock no live permit is registered in the slot |
| PageCacheTheorems.PermitsBackSlots | pageserver/src/page_cache.rs:225-237 | different locked slots are backed by different permits, none of them of a task without a slot |
| PageCacheTheorems.PermitBudget | pageserver/src/page_cache.rs:552-571 | locked slots and permit holders without a slot share the permits; only departing guards escape the count |
| PageCacheTheorems.DepartingSlotsHaveReleasing | pageserver/src/page_cache.rs:271-274 | only a guard between its two drops locks a slot without a permit |
| PageCacheTheorems.AllLockedNeedsDeparting | pageserver/src/page_cache.rs:271-274 | all slots are locked only if departing guards hold a slot for every permit holder without one |
| PageCacheTheorems.ClockHasUnlockedSlot | pageserver/src/page_cache.rs:859-862 | without a guard between its drops, a task in `find_victim` has an unlocked slot |
| PageCacheLocked.EverythingLockedExactly | pageserver/src/page_cache.rs:271-274 | for every cache size n: all slots can be locked under a task in the clock, with given numbers of departing slots and of permits held without a slot, exactly if 1 <= idle <= departing <= n |
| PageCacheLocked.DepartingExactly | pageserver/src/page_cache.rs:271-274 | all slots can be locked under a task in the clock with k of them departing exactly if 1 <= k <= n |
| PageCacheLocked.UnlockedSlotExactly | pageserver/src/page_cache.rs:859-862 | a task in `find_victim` is sure to have an unlocked slot exactly if fewer slots are departing than permits are held without a slot |
| PageCacheLocked.ReachStage | pageserver/src/page_cache.rs:637-711 | runs of any length that fill slots, let guards depart and send tasks into the clock |
| PageCacheProgress.HolderCanMove | pageserver/src/page_cache.rs:59-63 | a task on a slot is never blocked |
| PageCacheProgress.StepsRelease | pageserver/src/page_cache.rs:59-63 | each of its steps, except filling the slot, brings it closer to giving the slot up, and it takes no other slot |
| PageCacheProgress.WaiterOrHolderMoves | pageserver/src/page_cache.rs:59-63 | in every reachable state a task that waits for a slot can lock it, or someone on that slot can move on |
| PageCacheProgress.FreeSlot | pageserver/src/page_cache.rs:59-63 | those on a slot can all give it up without any other task moving |
| PageCacheProgress.WaiterCanLock | pageserver/src/page_cache.rs:59-63 | no deadlock: whoever waits for a slot can lock it once those on the slot have moved on |
| PageCacheProgress.ClockCanSeize | pageserver/src/page_cache.rs:859-862 | a task in `find_victim` can get any slot in the same way |
| PageCacheMapping.BinarySearch | pageserver/src/page_cache.rs:733-737 | finds the version with the given LSN, or its place in the sorted list |
| PageCacheMapping.RemoveVersion | pageserver/src/page_cache.rs:782-796 | removing a version keeps lists non-empty and sorted and removes exactly that key |
| PageCacheMapping.InsertVersion | pageserver/src/page_cache.rs:818-835 | inserting at the search position keeps lists sorted and adds exactly that key |
| PageCacheMapping.RemoveBlock | pageserver/src/page_cache.rs:798-803 | removing a file block removes exactly its key |
| PageCacheMapping.InsertBlock | pageserver/src/page_cache.rs:838-848 | inserting a file block adds exactly its key |
| PageCacheObject.PageCache.constructor | pageserver/src/page_cache.rs:940-977 | a new cache is valid and maps nothing |
| PageCacheObject.PageCache.SearchMapping | pageserver/src/page_cache.rs:727-747 | the cached version with the greatest LSN not above the request, or none exactly when there is none |
| PageCacheObject.PageCache.SearchMappingExact | pageserver/src/page_cache.rs:753-770 | the slot of exactly this key |
| PageCacheObject.PageCache.RemoveMapping | pageserver/src/page_cache.rs:775-805 | removes exactly this key, keeps lists and gauges valid, and panics exactly when the page or block has no entry |
| PageCacheObject.PageCache.TryInsertMapping | pageserver/src/page_cache.rs:812-850 | inserts the key unless it is mapped, in which case nothing changes and its slot is returned |
| PageCacheObject.PageCache.TryLockForRead | pageserver/src/page_cache.rs:582-606 | returns the best match only if the slot still carries it; otherwise the key is restored |
| PageCacheObject.PageCache.EntryMeansCached | pageserver/src/page_cache.rs:775-805 | a page or block has an entry exactly when some version of it is cached |
| PageCacheObject.PageCache.TickClock | pageserver/src/page_cache.rs:186-221 | one tick advances the wrapping hand and decrements one usage count, not below zero |
| PageCacheObject.PageCache.Scan | pageserver/src/page_cache.rs:863-935 | usage counts fall by the visits of the hand, which ends `iters` ticks further; the first unlocked slot at zero is chosen |
| PageCacheObject.PageCache.FindVictim | pageserver/src/page_cache.rs:859-935 | fails exactly when all slots are locked; otherwise evicts one unlocked slot's page; the hand moves by the number of ticks, which is within the proven bounds |
| PageCacheObject.SearchIsBounded | pageserver/src/page_cache.rs:863-935 | a search that succeeds does so within 7n ticks, and within 6n if the hand does not jump |
| PageCacheObject.JumpDelaysSearch | pageserver/src/page_cache.rs:867-867 | if the hand jumps within 6n ticks, for some slots every search takes longer |
| PageCacheObject.LimitMeansAllLocked | pageserver/src/page_cache.rs:875-912 | the iteration limit is reached only if all slots are locked |
| PageCacheClock.SixTurnsVisit | pageserver/src/page_cache.rs:867-867 | without a jump, 6n ticks visit every slot six times |
| PageCacheClock.SixTurnsMiss | pageserver/src/page_cache.rs:867-867 | otherwise some slot is visited only five times |
| PageCacheClock.SevenTurnsVisit | pageserver/src/page_cache.rs:867-867 | 7n ticks visit every slot at least six times |
| HnswQueue.Push | pgxn/hnsw/hnswalg.cpp:43-44 | the queue keeps its order and gains exactly the new entry |
| HnswIndex.HierarchicalNSW.Visit | pgxn/hnsw/hnswalg.cpp:67-83 | visiting an element keeps results bounded and everything left out no closer than the worst result |
| HnswIndex.HierarchicalNSW.Expand | pgxn/hnsw/hnswalg.cpp:57-84 | all links of an element end up visited |
| HnswIndex.HierarchicalNSW.SearchBaseLayer | pgxn/hnsw/hnswalg.cpp:33-87 | at most ef distinct elements; what was visited and left out is no closer than the worst; neighbours of results were visited |
| HnswSearch.NeighboursNotCloser | pgxn/hnsw/hnswalg.cpp:33-87 | a neighbour of a result is a result or no closer than the worst |
| HnswSearch.WideSearchIsExhaustive | pgxn/hnsw/hnswalg.cpp:33-87 | with ef at least the element count, the results are exactly the elements reachable from the entry point |
| HnswSearch.AdmitOk | pgxn/hnsw/hnswalg.cpp:72-82 | admitting an element and dropping the worst keeps the results the closest visited ones |
| HnswSearch.RejectOk | pgxn/hnsw/hnswalg.cpp:72-82 | a rejected element is no closer than the worst of a full result |
| HnswSearch.FinishOk | pgxn/hnsw/hnswalg.cpp:48-52 | stopping at a candidate farther than the worst result leaves every result expanded |
| HnswIndex.HierarchicalNSW.RuledOut | pgxn/hnsw/hnswalg.cpp:109-118 | a candidate is dropped exactly if a kept element is closer to it than the query |
| HnswIndex.HierarchicalNSW.GetNeighborsByHeuristic | pgxn/hnsw/hnswalg.cpp:90-122 | fewer than the limit are kept as they are; otherwise the kept ones include the nearest, are mutually diverse, and each dropped one has a kept witness unless the limit is reached |
| HnswNeighbors.SelectedOk | pgxn/hnsw/hnswalg.cpp:90-122 | the kept entries, back in a queue, form such a selection |
| HnswNeighbors.ChosenIds | pgxn/hnsw/hnswalg.cpp:124-147 | the links of a new element are distinct elements found by the search, at most the limit |
| HnswIndex.HierarchicalNSW.Candidates | pgxn/hnsw/hnswalg.cpp:165-172 | the candidates for a full list are its links and the new element, at their distance to its owner |
| HnswIndex.HierarchicalNSW.Reselect | pgxn/hnsw/hnswalg.cpp:163-183 | a full list is replaced by a selection of its links and the new element |
| HnswIndex.HierarchicalNSW.ConnectBack | pgxn/hnsw/hnswalg.cpp:149-183 | no consistency check fires, the list stays within maxM, distinct, in range and without its owner; other lists are untouched |
| HnswIndex.HierarchicalNSW.ConnectAll | pgxn/hnsw/hnswalg.cpp:148-184 | every chosen element links back and the rest of the graph is unchanged |
| HnswIndex.HierarchicalNSW.MutuallyConnectNewElement | pgxn/hnsw/hnswalg.cpp:124-185 | no throw is reachable; the new element links to the selection and the selection back |
| HnswIndex.HierarchicalNSW.AddPoint | pgxn/hnsw/hnswalg.cpp:187-202 | fails exactly when the index is full, then unchanged; otherwise the graph stays well formed and the element is linked to a selection of its search result |
| HnswIndex.HierarchicalNSW.SearchKnn | pgxn/hnsw/hnswalg.cpp:204-220 | the results of the search with distance and label, nearest first |
| HnswIndex.HierarchicalNSW.Search | pgxn/hnsw/hnswalg.cpp:325-344 | labels of the search result in ascending distance; with efSearch at least the element count, of all reachable elements |
| HnswBuild.KeepsOne | pgxn/hnsw/hnswalg.cpp:90-147 | with M at least 1, a new element gets a link |
| HnswBuild.HasRoom | pgxn/hnsw/hnswalg.cpp:152-161 | with at most maxM elements no link list is full |
| HnswBuild.KeepsLinks | pgxn/hnsw/hnswalg.cpp:149-183 | a list that is not full keeps its links, in order, and gains at most the new element |
| HnswBuild.InsertReaches | pgxn/hnsw/hnswalg.cpp:124-202 | an insertion that finds no full list keeps every element reachable and makes the new one reachable |
| HnswBuild.InsertBuilt | pgxn/hnsw/hnswalg.cpp:187-202 | every insertion keeps the points and labels of all elements, and up to maxM + 1 of them reachable |
| HnswBuild.Build | pgxn/hnsw/hnswalg.cpp:187-202 | any sequence of insertions gives a well-formed graph of the inputs and rejects exactly the surplus; with M at least 1 and up to maxM + 1 elements all are reachable, with M zero none but the first |
| HnswBuild.BuildAndSearch | pgxn/hnsw/hnswalg.cpp:187-220 | every result is the label of a different input; in an index of up to maxM + 1 elements a wide search returns all of them |
| HnswStar.UnitDistance | pgxn/hnsw/hnswalg.cpp:221-232 | the squared distances of the origin and unit vectors |
| HnswStar.EnoughFound | pgxn/hnsw/hnswalg.cpp:33-87 | among these, a search with room for M results finds M |
| HnswStar.HubIsKept | pgxn/hnsw/hnswalg.cpp:90-147 | once there are M elements, a new unit vector is linked to the origin only |
| HnswStar.HubStaysFull | pgxn/hnsw/hnswalg.cpp:163-183 | thinning out the full list of the origin leaves exactly maxM links |
| HnswStar.FewFound | pgxn/hnsw/hnswalg.cpp:33-87 | where all but the first M elements link to the first one only, at most M + maxM can be found |
| HnswStar.BuildStar | pgxn/hnsw/hnswalg.cpp:187-202 | of the origin and any number of unit vectors inserted, at most M + maxM can be found |
| EvictionOrdering.RelativeAgeInRange | pageserver/src/disk_usage_eviction_task.rs:134-181 | the subtraction never underflows, the age is in [0, 1], the newest layer has age 1 |
| EvictionOrdering.RelativeAgeDecreases | pageserver/src/disk_usage_eviction_task.rs:134-181 | the age strictly decreases with the index |
| EvictionOrdering.Sort | pageserver/src/disk_usage_eviction_task.rs:117-130 | a sorted permutation |
| EvictionOrdering.OrdersAreTotal | pageserver/src/disk_usage_eviction_task.rs:117-130 | both sort keys are total orders up to ties |
| EvictionPlan.PressureInBytes | pageserver/src/disk_usage_eviction_task.rs:1113-1129 | pressure means too few bytes available, or a used share of at least the percentage, which zero per cent always is |
| EvictionPlan.FreeingRelieves | pageserver/src/disk_usage_eviction_task.rs:1113-1133 | freeing bytes never brings pressure back |
| EvictionPlan.ListTenant | pageserver/src/disk_usage_eviction_task.rs:841-873 | a tenant's layers most recent first, Above exactly where the more recent ones exceed the minimum |
| EvictionPlan.CollectEvictionCandidates | pageserver/src/disk_usage_eviction_task.rs:761-932 | all layers of all tenants, attached and secondary, once, in eviction order |
| EvictionPlan.SelectVictims | pageserver/src/disk_usage_eviction_task.rs:938-965 | stops at the first relieving prefix and remembers the usage at the first Below candidate |
| EvictionPlan.ShortestRelievingPrefix | pageserver/src/disk_usage_eviction_task.rs:938-965 | the victims are the shortest relieving prefix, or all candidates; longer prefixes relieve too |
| EvictionPlan.FallsBackExactlyWhenNeeded | pageserver/src/disk_usage_eviction_task.rs:974-997 | fallback to global LRU exactly when evicting all Above layers leaves pressure and a Below layer |
| EvictionPlan.FallbackTakesAllAbove | pageserver/src/disk_usage_eviction_task.rs:929-997 | with fallback every Above layer is a victim |
| EvictionPlan.NoFallbackKeepsMinimum | pageserver/src/disk_usage_eviction_task.rs:845-873 | without fallback an attached tenant keeps all layers or more than its minimum of the most recent ones |
| EvictionPlan.VictimsAreLeastRecentlyUsed | pageserver/src/disk_usage_eviction_task.rs:117-181 | under both orders a tenant that loses a layer has lost all less recently used ones |
| EvictionRun.Join | pageserver/src/disk_usage_eviction_task.rs:477-490 | taking one result keeps the accounting of evicted and failed bytes |
| EvictionRun.EvictLayers | pageserver/src/disk_usage_eviction_task.rs:455-530 | ends for any completion order; in its trace of spawns and joins at most 1000 jobs run at any time, every victim is spawned and joined, and the accounting is that of the trace |
| EvictionRun.SpawnedInOrder | pageserver/src/disk_usage_eviction_task.rs:497-526 | in a trace the victims are spawned once each, in order |
| EvictionRun.JoinedOnce | pageserver/src/disk_usage_eviction_task.rs:466-490 | in a trace no victim is joined twice, and each only after it was spawned |
| EvictionRun.AllHaveOutcomes | pageserver/src/disk_usage_eviction_task.rs:492-494 | when the loop ends every victim has exactly one outcome |
| EvictionRun.EveryByteAccounted | pageserver/src/disk_usage_eviction_task.rs:455-530 | evicted, failed and panicked bytes add up to the victims' bytes |
| EvictionRun.PlannedIsAccounted | pageserver/src/disk_usage_eviction_task.rs:455-545 | without panics, assumed available plus failed bytes equal the planned available bytes |
| EvictionRun.Iteration | pageserver/src/disk_usage_eviction_task.rs:387-545 | a whole iteration: nothing without pressure, otherwise plan and outcome account for every byte |
| RelationNames.NameRoundTrip | libs/pageserver_api/src/reltag.rs:72-92 | every written file name, after its directory, parses back to relation, fork and segment |
| RelationNames.ForkRoundTrip | libs/postgres_ffi/src/relfile_utils.rs:30-91 | fork suffix and segment number parse back |
| BackupPaths.PathTarget | pageserver/src/import_datadir.rs:491-566 | the importer reads the database and the file name off a written path, and the tablespace as global or default |
| BackupPaths.PathRoundTripExactly | libs/pageserver_api/src/reltag.rs:72-92 | a written path comes back as the same relation and segment exactly for shared relations and the default tablespace |
| BackupPaths.SlruPathRoundTrip | pageserver/src/basebackup.rs:195-199 | every SLRU path, with its hexadecimal number, comes back as the same kind and segment |
| RelationExport.SplitConcat | pageserver/src/import_datadir.rs:174-198 | reading whole blocks from concatenated blocks gives the blocks |
| RelationExport.AddRel | pageserver/src/basebackup.rs:356-394 | exactly the segments of the relation, each with its blocks; 32-bit overflow exactly above 2^32 - 131072 blocks |
| RelationExport.WriteSegment | pageserver/src/basebackup.rs:376-388 | one segment's file holds its blocks in order |
| RelationExport.LoopEndsExactly | pageserver/src/basebackup.rs:371-391 | with wrapping additions the loop ends exactly for at most 2^32 - 131072 blocks |
| RelationExport.SelectForks | pageserver/src/basebackup.rs:282-306 | every name is sent once, from exactly the source the rules give |
| RelationExport.NamesInBackup | pageserver/src/basebackup.rs:282-306 | a full backup names every relation, a partial one the init forks and their main forks |
| RelationImport.PutBlocks | pageserver/src/import_datadir.rs:174-198 | stores the whole blocks of a file at consecutive block numbers modulo 2^32 and nothing else |
| RelationImport.StoredWithoutWrap | pageserver/src/import_datadir.rs:174-198 | without wrap-around the blocks are exactly at their consecutive numbers |
| RelationImport.LandsWhereItShould | pageserver/src/import_datadir.rs:157-157 | the blocks of a file land at their own numbers exactly if the file ends within 2^32 blocks |
| RelationImport.SegmentsAlias | pageserver/src/import_datadir.rs:157-157 | segment numbers that differ by 32768 land on the same blocks |
| RelationImport.DatadirModification.PutRelCreation | pageserver/src/pgdatadir_mapping.rs:1123-1181 | refuses relation 0 and existing relations, else records the size |
| RelationImport.DatadirModification.PutRelExtend | pageserver/src/pgdatadir_mapping.rs:1218-1241 | the size becomes the maximum of old and new |
| RelationImport.DatadirModification.ImportRel | pageserver/src/import_datadir.rs:124-207 | accepts exactly well-named files of the announced length, stores their blocks and raises the size, in 32-bit block numbers |
| RelationImport.DatadirModification.ImportSegment | pageserver/src/import_datadir.rs:146-207 | the same for a parsed name |
| RelationImport.DatadirModification.ImportFile | pageserver/src/import_datadir.rs:491-566 | a file given by its path is imported as the relation and segment the path names |
| RelationRoundTrip.ImportIsSound | pageserver/src/import_datadir.rs:124-207 | importing an exported file stores only blocks of the database at their own numbers |
| RelationRoundTrip.EverythingRestored | pageserver/src/import_datadir.rs:147-204 | once all segments are there, sizes and blocks are exactly those of the database |
| RelationRoundTrip.ImportAll | pageserver/src/import_datadir.rs:147-204 | importing files of all segments in any order, even repeatedly, restores every relation, empty ones too |
| RelationRoundTrip.ExportAll | pageserver/src/basebackup.rs:278-306 | fork selection and segmenting over a whole database: exactly the segment files of the backup, failing exactly on a relation in a user-defined tablespace or one too large |
| RelationRoundTrip.AddDbDirs | pageserver/src/basebackup.rs:274-278 | fails exactly if a relation is in a user-defined tablespace |
| RelationRoundTrip.BackupAndRestore | pageserver/src/basebackup.rs:274-394 | fails exactly on a relation in a user-defined tablespace or one too large; otherwise export followed by import in any order restores exactly the database the backup stands for, which without init forks is the database itself |
| RelationRoundTrip.BackupHolds | pageserver/src/basebackup.rs:282-306 | the backup maps each name to the blocks of its source |
| RelationRoundTrip.UnloggedComesBackEmpty | pageserver/src/basebackup.rs:287-295 | the main fork of a relation with an init fork comes back as the init fork |
| RelationRoundTrip.FullBackupIsTheDatabase | pageserver/src/basebackup.rs:297-304 | a full backup without init forks stands for the database itself |
| SlruSegments.SlruSegmentsBuilder.AddBlock | pageserver/src/basebackup.rs:160-193 | refuses wrong lengths unchanged; else the block joins the current segment or starts a new one |
| SlruSegments.SlruSegmentsBuilder.Flush | pageserver/src/basebackup.rs:195-207 | writes the collected segment as one file named after it |
| SlruSegments.SlruSegmentsBuilder.Finish | pageserver/src/basebackup.rs:209-215 | everything collected is written |
| SlruSegments.ExportSlru | pageserver/src/basebackup.rs:234-252 | one file per segment that has blocks, without the timestamps of commit log blocks |
| SlruSegments.SlruModification.PutSlruSegmentCreation | pageserver/src/pgdatadir_mapping.rs:1275-1305 | refuses an existing segment, else records its size |
| SlruSegments.SlruModification.ImportSlru | pageserver/src/import_datadir.rs:211-266 | accepts exactly new segments of at most 32 whole blocks and stores their blocks |
| SlruSegments.SlruModification.ImportSlruPath | pageserver/src/import_datadir.rs:567-582 | a file given by its path is imported as the segment the path names |
| SlruSegments.SlruRoundTrip | pageserver/src/import_datadir.rs:211-266 | export and import in any order restore every segment that has blocks, and nothing else |
| SlruSegments.EmptySegmentsAreLost | pageserver/src/basebackup.rs:209-215 | all segments come back exactly when none is empty |
| Safekeepers.SyncedMeansAgreement | compute_tools/src/sync_sk.rs:54-98 | the check gives an LSN exactly when all responses flushed and committed that LSN |
| Safekeepers.AgreementIsGreatest | compute_tools/src/compute.rs:456-498 | an LSN a quorum agrees on is the greatest one flushed by a majority |
| Safekeepers.CheckSafekeepersSynced | compute_tools/src/compute.rs:456-498 | for any arrival order and any failures, a result is the greatest majority LSN; the check never sees an empty list |
| Safekeepers.CheckTwice | compute_tools/src/compute.rs:456-498 | two successful checks agree |
| PostgresConfFile.Deescape | control_plane/src/postgresql_conf.rs:161-195 | the loop resolves quotes and escapes as specified, refusing octal escapes |
| PostgresConfFile.EscapeRoundTrip | control_plane/src/postgresql_conf.rs:128-195 | de-escaping an escaped string gives the string, for every string |
| PostgresConfFile.QuotedStep | control_plane/src/postgresql_conf.rs:149-154 | the three replacements act like one escape per character |
| PostgresConfFile.PostgresConf.Append | control_plane/src/postgresql_conf.rs:105-109 | one more line, and the option has the new value |
| PostgresConfFile.PostgresConf.Display | control_plane/src/postgresql_conf.rs:117-125 | all lines one after the other |
| PostgresConfFile.PostgresConf.ReadOne | control_plane/src/postgresql_conf.rs:36-58 | a line is kept, and overrides earlier values of its option |
| PostgresConfFile.Read | control_plane/src/postgresql_conf.rs:30-61 | the lines of the text and the last readable value of each option |
| PostgresConfFile.SettingRoundTrip | control_plane/src/postgresql_conf.rs:22-61 | a printed setting reads back exactly when its value is clean |
| PostgresConfFile.PrintReadExactly | control_plane/src/postgresql_conf.rs:30-125 | printing and reading gives the last writes exactly under the stated condition |
| PostgresConfFile.PrintAndRead | control_plane/src/postgresql_conf.rs:30-125 | the same for the objects themselves |
| DeletionQueue.DeletionList.Push | pageserver/src/deletion_queue.rs:267-305 | accepted exactly without objects, for a new tenant or with its generation; a refused push changes neither list nor objects |
| DeletionQueue.DeletionList.IntoRemotePaths | pageserver/src/deletion_queue.rs:307-321 | every stored path as often as it is stored, in any visiting order |
| DeletionQueue.DeletionList.IsEmpty | pageserver/src/deletion_queue.rs:257-259 | looking only at the tenants answers whether the number of stored keys is zero |
| DeletionQueue.DeletionList.Len | pageserver/src/deletion_queue.rs:261-263 | `size` is the number of keys in the nested lists |
| DeletionQueue.PushConsistent | pageserver/src/deletion_queue.rs:267-305 | every push keeps `size` equal to the number of stored keys and stores nothing empty |
| DeletionQueue.ConsistentEmpty | pageserver/src/deletion_queue.rs:257-259 | then no tenant is listed exactly if no key is stored |
| DeletionQueue.StoresWhatWasTaken | pageserver/src/deletion_queue.rs:267-305 | over any pushes, the stored paths are the accepted ones and `size` counts them |
| DeletionQueue.RunConsistent | pageserver/src/deletion_queue.rs:257-305 | over any pushes `size` is the number of stored keys and nothing empty is stored |
| DeletionQueue.OneGenerationPerTenant | pageserver/src/deletion_queue.rs:285-295 | all accepted pushes of a tenant have the generation of its entry |
| DeletionQueue.PushAll | pageserver/src/deletion_queue.rs:257-321 | any pushes followed by taking the paths out give exactly the accepted paths, `size` of them, and the list reports being empty exactly if there are none |
| DeletionQueue.VisibleLsnUpdates.UpdateRemoteConsistentLsn | pageserver/src/deletion_queue.rs:434-470 | a new generation drops the tenant's earlier state; the timeline shows the new LSN and the cell to receive it |
| DeletionQueue.TableShowsLastUpdates | pageserver/src/deletion_queue.rs:434-470 | the table shows exactly the last update of each timeline since the tenant's generation last changed |

## Left out

- PageCacheInvariant.StepKeepsInv: the choice of the victim is any unlocked slot, so usage counts and the clock hand do not appear in the interleaving model, and registering or sharing a reader permit is one step.
- RelationRoundTrip.BackupAndRestore: a failed export leaves no files, so what was sent before the failure is not modelled; a relation of more than 2^32 - 131072 blocks, for which the export overflows or does not end, counts as a failure.
- RelationRoundTrip.AddDbDirs: database directories without relations, relation map files and `PG_VERSION`; all directories are added before the first relation.
- BackupPaths.PathTarget: the special files `pg_control`, `pg_filenode.map` and `PG_VERSION`, and `.` components in paths.
- RelationExport.AddRel: models 32-bit additions as checked; the wrapping ones are treated in `LoopEndsExactly`.
- EvictionRun.EvictLayers: cancellation of the whole iteration, and layers that change while their job runs.
- EvictionPlan.PressureInBytes: exact arithmetic in place of 64-bit floating point, and available bytes do not overflow.
- EvictionOrdering.RelativeAgeDecreases: exact ratios in place of 32-bit floating point, in which close ages of very many layers may coincide.
- PostgresConfFile.PrintReadExactly: the class of word characters is a parameter; invalid UTF-8 and lines added with `append_line` are not modelled.
- PageCacheProgress.WaiterCanLock: the mapping lock is only ever held within a step, so waiting for it does not appear.
- HnswStar.BuildStar: the scalar distance function, without rounding; the vectorised ones skip coordinates after the last multiple of 16.
- DeletionQueue.DeletionList.IntoRemotePaths: paths are sequences of components, not strings.
- HnswIndex.HierarchicalNSW.SearchBaseLayer: the visited bitmap is a sequence of flags; SIMD distance functions, prefetching, rounding, NaN and memory alignment are not modelled.
- Timeouts, cancellation and scheduling of tokio; they appear as steps that may happen at any time.
- Tar and compression formats, `pg_control`, WAL segments and WAL import.
- The list writer, validator and deleter of the deletion queue, and recovery of lists from disk.
- Metrics other than the two size gauges of the page cache, and logging.
- Roles, databases, grants and SQL quoting of the compute node, HTTP clients and process management.
