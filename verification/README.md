# Dafny models of the coltt vector store

Dafny 4.11 models of the parts of coltt whose correctness rests on state, order or bit-level detail, with proofs of what
those parts promise. `dafny verify dfyconfig.toml` checks the whole project.

- **diskv**, the log-structured key/value store: batches appended to a segmented write-ahead log, an in-memory index,
  recovery from hints and replay, and compaction while writers go on. `DiskvLog`, `DiskvFiles`, `DiskvStore`, `DiskvMerge`
  and `DiskvRuns` define the store as a state machine and prove its invariant over all runs; `DiskvDb` and `DiskvBatch`
  are the database and batch objects, whose methods are proved to take exactly those steps; `DiskvRecord` is the byte
  format of records and hints; `DiskvLost` shows what fails when an assumption does.
- **concurrentmap**, a sorted linked list with a bucket index. `CmapSequential` is the map under one goroutine, refining a
  finite map (`CmapRuns` for whole runs). `CmapThreads` is the same code as atomic steps of any number of goroutines;
  `CmapConcurrent`, `CmapSafety` and `CmapReach` prove what every interleaving keeps and say exactly when a node leaves the
  list; `CmapSolo` and `CmapCalls` say what each call does that no other interrupts, from any reachable state; `CmapLost`
  gives two runs in which a finished `Set` is lost.
- **The HNSW index**: `Hnsw` is the mutable graph with insertion, removal and best-first search, `HnswLinks` what each of
  them does to the edges, `HnswRuns` whole runs, `HnswNet` when those keep level 0 connected, and `HnswFormat`,
  `HnswHeader`, `HnswSnapshot`, `HnswCommit` and `HnswLoad` its binary snapshot. `PriorityQueue`, `QueueSets`, `BestFirst` and
  `Graphs` carry the heaps and the search argument.
- **Sharded top-k search** (`TopK`, `BoundedQueue`, `ShardSearch`, `MultiSearch` for several vectors at once) and the
  **vertex formats** (`VertexFormat`, `VertexCodec`, `VertexStore` for plain vectors, `NamedCodec`, `NamedStore` for named
  ones; `ListCodec` for both). `Layouts` gives the bytes of small entries of every format.
- **Bit sets** kept in 64-bit words (`Words`, `BitPopcount`, `BitSelect`, `BitSequences`, `BitShift`, `Bitset`), refining a
  sequence of booleans.

## Assumptions

- diskv: no record expires (`Put` always writes expiry 0); batch ids are not 0, and no batch reuses the id of a batch whose
  end record is missing (`DiskvLost.ReusedIdIsHarmlessIff` says what that buys); the merged output fits in the segments it
  replaces; `Sync` does not fail after `WriteAll`, and a `WriteAll` that fails writes nothing; `loadMergeFiles` is one
  atomic step; a crash or reopening interrupts a merge only if no earlier merge was installed
  (`DiskvRuns.InterruptedMergeIsHarmlessIff` gives the exact condition otherwise). Positions the log hands out are fresh.
- concurrentmap: the zero key does not hash to 0, because the list head carries that hash and that key; fewer than 2^56
  items; the hash function is fixed.
- HNSW: the distance is a symmetric function into the reals; `m <= mMax` and `m <= mMax0`; candidates are not extended; one
  goroutine at a time.
- Queues and searches: scores are reals, so no NaN; the iteration order of maps is arbitrary throughout.

Places where the code and what is said about it differ: a failing `LoadVertex` of the multi-vector store leaves the shards
alone but not the vertex counter; `DeleteAt` on a bit set keeps the slice as long as it was; an index with the Manhattan
distance is committed without complaint, and its header never loads.

## Model

| member | source | states |
|---|---|---|
| DiskvRuns.RunMeansCommittedMap | diskv/merge.go:75-180 | after every run of commits, torn batches, merges interleaved with commits at every scan step, installations and reopenings, each key reads as the committed batches say, every indexed position holds a normal record of its key, and reopening changes no answer |
| DiskvRuns.LiveIndexIsReplay | diskv/db.go:497-565 | in every reachable state, loading the hints and replaying the later segments succeeds and builds exactly the live index |
| DiskvRuns.StepKeepsInv | diskv/merge.go:75-180 | every step of the store machine, whatever the interleaving of merge and commits, keeps the invariant that ties files, index, hints and history together |
| DiskvRuns.FinishedMergeHoldsLiveKeys | diskv/merge.go:137-163 | when a scan has finished, no key was copied twice, and a key no batch has touched since the rotation is in the hints exactly if it is live, at a record holding its value |
| DiskvRuns.InterruptedMergeIsHarmlessIff | diskv/merge.go:239-306 | reopening over an unfinished merge keeps the committed map exactly if every key whose live record lies in an installed segment is already copied and reads its value through the partial hint file |
| DiskvLost.InterruptedSecondMergeLosesKey | diskv/merge.go:302-303 | a run of commit, full merge, reopening and an interrupted second merge after which reopening no longer finds the committed key |
| DiskvMerge.ScanKeepsInv | diskv/merge.go:113-163 | one turn of the scan over old chunks, copying the record only if the live index still points at it, keeps the invariant |
| DiskvMerge.SurvivorIsNew | diskv/merge.go:126-152 | a record that survives the position check has not been copied before, so nothing is copied twice |
| DiskvMerge.InstallKeepsInv | diskv/merge.go:239-306 | installing a finished merge and reloading restores exactly the live map |
| DiskvMerge.UnfinishedReopenKeepsInv | diskv/merge.go:239-306 | reopening over an unfinished first merge keeps the committed map, because every hinted key is decided again by a replayed batch |
| DiskvStore.AppendKeepsInv | diskv/batch.go:281-341 | committing a batch while a merge is scanning keeps the invariant |
| DiskvLog.RecoveryIsAtomic | diskv/db.go:497-565 | replaying any prefix of the log yields exactly the index of the batches whose end record lies in the prefix; no batch is applied in part |
| DiskvLog.ReplayBlocks | diskv/db.go:514-562 | replay applies the sealed batches in log order and keeps the records of unsealed ones staged under their ids |
| DiskvLog.ReusedIdAppliesTornBatch | diskv/db.go:526-561 | whatever lies before and between, the end record of a batch that reuses the id of a torn batch also releases the records of the torn one |
| DiskvLost.ReusedIdIsHarmlessIff | diskv/db.go:526-561 | with a reused id, whatever batches lie before and between, recovery still means the sealed batches exactly if the later batch writes or deletes every key whose entry in the index built so far the torn batch would have changed |
| DiskvLog.ParseIdUndoesIdBytes | diskv/batch.go:294-298 | parsing the decimal text of a batch id gives the id back |
| DiskvDb.DB.CommitBlock | diskv/batch.go:281-341 | buffering, writing and indexing a batch takes exactly one step of the store machine and applies its operations to the key/value contents |
| DiskvDb.DB.LoadIndexFromWal | diskv/db.go:497-565 | the recovery loop computes the replay of the segments after the merged ones, and reports failure as it does |
| DiskvDb.DB.LoadIndexFromHintFile | diskv/merge.go:330-363 | the index after the hint file holds the last hint of every key |
| DiskvDb.DB.LoadMergeFiles | diskv/merge.go:239-306 | the files, hints and finished segment after the move are those of the store machine |
| DiskvDb.DB.Reload | diskv/merge.go:40-73 | reloading after a merge keeps the contents and never fails |
| DiskvDb.DB.ScanAll | diskv/merge.go:113-163 | the scan loop, with any commits between its turns, follows the store machine to the end of the old segments |
| DiskvDb.DB.DoMerge | diskv/merge.go:75-180 | a whole merge, with commits before each look-up and after the last one, is a run of the store machine from rotation to the finished marker |
| DiskvDb.DB.MergeAll | diskv/merge.go:40-73 | a merge with a reload leaves exactly the contents that the commits made during it, and before the lock for the reload is taken, mean |
| DiskvBatch.Batch.LookupPendingWrites | diskv/batch.go:379-391 | through the hash bucket a pending key is found exactly if it is pending, whatever the collisions |
| DiskvBatch.Batch.Put | diskv/batch.go:115-141 | a put is appended to the operations of the batch, or the right error changes nothing |
| DiskvBatch.Batch.Delete | diskv/batch.go:188-219 | a delete is appended to the operations of the batch, or the right error changes nothing |
| DiskvBatch.Batch.Get | diskv/batch.go:143-185 | reads see the latest pending write of the batch or else the store; the branch for a deleted record at an indexed position is unreachable |
| DiskvBatch.Batch.Exist | diskv/batch.go:222-258 | true exactly if a read inside the batch would find the key |
| DiskvBatch.Batch.Commit | diskv/batch.go:260-341 | a commit has the effect of applying the operations of the batch in order; every error leaves the store as it was |
| DiskvBatch.Batch.Rollback | diskv/batch.go:345-376 | a rollback drops all pending writes, or the right error changes nothing |
| DiskvBatch.LastOpDecides | diskv/batch.go:143-185 | applying a list of operations leaves for each key what its last operation says |
| DiskvBatch.SameLastOpsSameEffect | diskv/batch.go:394-401 | keeping one record per key has the same effect as the full list of operations |
| DiskvBatch.DbPut | diskv/db.go:245-260 | a put outside a batch binds the key, or the right error changes nothing |
| DiskvBatch.DbDelete | diskv/db.go:273-288 | a delete outside a batch removes the key, or the right error changes nothing |
| DiskvBatch.DbGet | diskv/db.go:262-271 | a read outside a batch answers from the committed map |
| DiskvRecords.EncodeLogRecord | diskv/record.go:74-95 | the header written in place, key and value, as the byte format says |
| DiskvRecords.DecodeLogRecord | diskv/record.go:98-129 | the decoding loop computes the reference decoding of any bytes, with the 32-bit wrap of its index |
| DiskvRecords.DecodeUndoesEncodeIff | diskv/record.go:98-129 | decoding an encoded record gives the record back exactly if the whole encoding is shorter than 2^32 bytes |
| DiskvRecords.HeaderFits | diskv/record.go:39-54 | for key and value lengths below 2^31 no header field exceeds its share of the 31-byte buffer |
| DiskvRecords.EncodeHintRecord | diskv/record.go:131-152 | the hint bytes written in place, within the 25-byte buffer |
| DiskvRecords.DecodeHintUndoesEncode | diskv/record.go:154-177 | decoding an encoded hint gives the key and the position back |
| Layouts.RecordLayout | diskv/record.go:74-95 | the bytes of small records of every type, one by one |
| Layouts.IdLayout | diskv/batch.go:294-298 | the key of an end record is the batch id in decimal digits |
| Layouts.HintLayout | diskv/record.go:131-152 | the bytes of a small hint, one by one |
| DiskvRecords.ParseUndoesVarint | diskv/record.go:98-129 | reading a varint anywhere in a buffer undoes writing it (Protocol Buffers encoding, "Base 128 Varints") |
| DiskvRecords.UnzigzagUndoes | diskv/record.go:98-129 | signed lengths come back from their zigzag form (Protocol Buffers encoding, "Signed Integers") |
| CmapRuns.PerformAll | pkg/concurrentmap/map.go:96-352 | every run of Set, Get, Del, GetOrSet, GetAndDel, Swap and CompareAndSwap on a new map answers as a finite map, full hash collisions included |
| CmapSequential.ConcurrentMap.Set | pkg/concurrentmap/map.go:171-200 | binds the key; the counter grows exactly if it was absent; afterwards no more than 50 percent of the slots are filled |
| CmapSequential.ConcurrentMap.Get | pkg/concurrentmap/map.go:155-166 | answers the bound value or nothing, through marked nodes and stepped-back index slots |
| CmapSequential.ConcurrentMap.Del | pkg/concurrentmap/map.go:96-115 | removes the key; the counter shrinks exactly if it was present |
| CmapSequential.ConcurrentMap.GetOrSet | pkg/concurrentmap/map.go:205-247 | answers the bound value and changes nothing, or binds the key |
| CmapSequential.ConcurrentMap.GetAndDel | pkg/concurrentmap/map.go:297-315 | answers the bound value and removes the key |
| CmapSequential.ConcurrentMap.Swap | pkg/concurrentmap/map.go:338-352 | replaces the value of a present key and answers the old one |
| CmapSequential.ConcurrentMap.CompareAndSwap | pkg/concurrentmap/map.go:320-334 | replaces the value exactly if the key is bound to the expected one |
| CmapSequential.ConcurrentMap.Next | pkg/concurrentmap/list.go:47-59 | unlinks exactly the marked nodes up to the next live one and returns it |
| CmapSequential.ConcurrentMap.Search | pkg/concurrentmap/list.go:91-112 | finds the node of the key, or the two neighbours between which it belongs |
| CmapSequential.ConcurrentMap.AddBefore | pkg/concurrentmap/list.go:62-68 | links the new node in and adds exactly its key |
| CmapSequential.ConcurrentMap.Inject | pkg/concurrentmap/list.go:71-88 | binds the key, creating a node exactly if it was absent |
| CmapSequential.ConcurrentMap.IndexElement | pkg/concurrentmap/map.go:502-512 | steps back through empty slots within bounds; if it returns nothing usable, no live node has the hash |
| CmapSequential.Metadata.AddItemToIndex | pkg/concurrentmap/map.go:515-533 | changes one slot at most, to the new node if it comes first in its bucket, and keeps the count of filled slots |
| CmapSequential.ConcurrentMap.RemoveItemFromIndex | pkg/concurrentmap/map.go:449-469 | leaves every slot at the first live node of its bucket after a node was marked |
| CmapSequential.ConcurrentMap.FillIndexItems | pkg/concurrentmap/map.go:432-446 | fills every slot with the first live node of its bucket and unlinks all marked nodes |
| CmapSequential.ConcurrentMap.Grow | pkg/concurrentmap/map.go:472-499 | terminates with an index large enough, every slot right and the same bindings |
| CmapSequential.ConcurrentMap.constructor | pkg/concurrentmap/map.go:82-92 | a new map is empty with an index of the requested size or more |
| CmapSizes.RoundUpPower2 | pkg/concurrentmap/map.go:541-551 | the smeared bits make the least power of two that is at least the argument, and 0 if a word holds none or the argument is 0 |
| CmapSizes.Log2 | pkg/concurrentmap/map.go:554-558 | the least exponent whose power of two is at least the argument |
| CmapSizes.Log2EndsIff | pkg/concurrentmap/map.go:554-558 | the loop ends exactly for arguments up to 2^63 |
| CmapIndex.FilledAtMostLive | pkg/concurrentmap/map.go:515-538 | no more slots are filled than nodes are live |
| CmapEffects.CutMeans | pkg/concurrentmap/list.go:47-59 | unlinking marked nodes changes neither the bindings nor any slot |
| CmapEffects.InsertMeans | pkg/concurrentmap/list.go:62-68 | linking a node in between its neighbours adds its key and moves a slot only if it comes first in its bucket |
| CmapEffects.MarkMeans | pkg/concurrentmap/list.go:117-119 | marking a node removes its key and nothing else |
| CmapConcurrent.StepKeepsInv | pkg/concurrentmap/list.go:47-119 | every atomic load, store, compare-and-swap and mark of every thread keeps the invariant of the shared list |
| CmapSafety.LinksIncrease | pkg/concurrentmap/list.go:47-88 | in every state of every interleaving each link runs forward in (hash, creation order) |
| CmapSafety.NoCycles | pkg/concurrentmap/list.go:47-88 | in every state of every interleaving, following links never returns to a node |
| CmapSafety.MarkedAtMostOnce | pkg/concurrentmap/list.go:117-124 | each node is marked deleted at most once, and only after it was linked in |
| CmapSafety.IdleCountIsExact | pkg/concurrentmap/map.go:184-195 | when all threads are idle the counter equals insertions minus removals, which is the number of linked nodes not marked |
| CmapSafety.GetsAnswerWhatWasSet | pkg/concurrentmap/map.go:155-166 | whatever the interleaving, every value a Get answers was passed to a Set of that key |
| CmapCalls.GetSolo | pkg/concurrentmap/map.go:155-166 | from any reachable state an uninterrupted Get ends, changes nothing, and answers the value of the first node of the key that it comes to exactly if that is live |
| CmapCalls.SetSolo | pkg/concurrentmap/map.go:171-200 | from any reachable state an uninterrupted Set ends: the node of the key that its search comes to has the new value, or there is one new node with key and value where a walk for the key comes to it, and it is counted; nothing else but links changes |
| CmapCalls.DelSolo | pkg/concurrentmap/map.go:96-115 | from any reachable state an uninterrupted Del ends: the live node of the key that its walk comes to is marked and counted off, or nothing but links changes |
| CmapCalls.SetThenGet | pkg/concurrentmap/map.go:155-200 | a Get from the same index node right after an uninterrupted Set answers the value exactly if the search of the Set did not end at a deleted node |
| CmapCalls.DelThenGet | pkg/concurrentmap/map.go:96-166 | a Get from the same index node right after an uninterrupted Del answers nothing |
| CmapSolo.NextAlone | pkg/concurrentmap/list.go:47-59 | an uninterrupted next returns the first live node behind its own and swings links past deleted ones only |
| CmapSafety.InsertedReachableIff | pkg/concurrentmap/list.go:62-68 | a node just linked in can be reached from the head exactly if its left neighbour could |
| CmapReach.StepReaches | pkg/concurrentmap/list.go:47-68 | for every node and every atomic step, whether the node can be reached afterwards, in terms of the state before |
| CmapReach.StepDropsIff | pkg/concurrentmap/list.go:47-59 | a step drops a node from the list exactly if it swings a reachable link from a deleted node to a target that no longer leads to the dropped node |
| CmapReach.LiveNodesStayIff | pkg/concurrentmap/list.go:47-59 | a step keeps all live nodes in the list exactly if it is not such a stale swing past a live node |
| CmapReach.RegainsIff | pkg/concurrentmap/list.go:47-68 | a node that is not in the list is there after a step exactly if the step writes, on a node in the list, a link that leads to it |
| CmapReach.LosesMeansGone | pkg/concurrentmap/list.go:47-68 | right after an insertion behind an unlinked node, or a stale swing past it, a node cannot be reached |
| CmapReach.LostIff | pkg/concurrentmap/list.go:47-88 | at the end of any run a linked node is missing from the list exactly if some step lost it, by inserting it behind an unlinked node or by a stale swing, and no later step linked back to it |
| CmapLost.FinishedSetIsLost | pkg/concurrentmap/list.go:62-68 | a run in which a finished Set is dropped: it linked in behind an unlinked node, all threads are idle, and Get from the node in the index slot finds nothing; every index read of the run answers what the slot holds |
| CmapLost.FoundSetIsLost | pkg/concurrentmap/list.go:52-56 | a run with such index reads to the same end, in which the node was in the list and a stale swing took it out |
| HnswRuns.PerformAll | core/vectorindex/hnsw.go:104-241 | after every run of Insert and Remove on a new index all graph and shard invariants hold, the answers are those of a finite map, and the shards hold exactly that map; after insertions alone for which the edge bounds leave room, every vertex leads to every other on level 0 |
| HnswRuns.SearchExactly | core/vectorindex/hnsw.go:243-278 | with room for all edges and all vertices a search answers exactly the k nearest of everything stored, so also a vertex just inserted |
| HnswNet.NetGrows | core/vectorindex/hnsw.go:131-158 | an insertion that overflows no edge set keeps level 0 connected |
| HnswIndex.Hnsw.Insert | core/vectorindex/hnsw.go:104-167 | reports the existing id, or stores the vertex and links it: after the greedy walks down from the entry point, on every level from the lower of the two down to 0 its neighbours are the m nearest of what a search of the old graph found from that level's entry; each of those gains it, keeping the nearest live ones if that is more than the bound; every other edge set is unchanged |
| HnswIndex.Hnsw.Remove | core/vectorindex/hnsw.go:191-241 | drops the vertex from its shard and flags it; every neighbour of it keeps on that level exactly its live neighbours with their weights, every other edge set is unchanged; its nearest neighbour on its highest linked level becomes the entry point |
| HnswIndex.Hnsw.Descend | core/vectorindex/hnsw.go:126-130 | one greedy walk on each level above the given one, each from where the one above ended, to a vertex with no nearer live neighbour there |
| HnswIndex.Hnsw.ConnectLevels | core/vectorindex/hnsw.go:132-158 | the links of all levels: each search starts at the nearest chosen one of the level above, and levels above the top are untouched |
| HnswIndex.Hnsw.UnlinkLevels | core/vectorindex/hnsw.go:219-238 | the neighbours on every level lose exactly their dead neighbours |
| HnswIndex.Hnsw.Search | core/vectorindex/hnsw.go:243-278 | the greedy walks down from the entry point to level 1, then the k nearest of what a search of level 0 from their end finds, in ascending order; the first is no farther than that end, which is no farther than the entry point; with room for everything reachable, exactly its k nearest |
| HnswIndex.Hnsw.StoreVertex | core/vectorindex/hnsw.go:289-302 | stores under the id in the id's shard exactly if it is free, and counts it |
| HnswIndex.Hnsw.RemoveVertex | core/vectorindex/hnsw.go:304-318 | takes the id out of its shard, counts it off and flags the vertex |
| HnswIndex.Hnsw.GreedyClosestNeighbor | core/vectorindex/hnsw.go:320-343 | walks from neighbour to nearest live neighbour, nearer each time, to a vertex with none nearer |
| HnswIndex.Hnsw.SearchLevel | core/vectorindex/hnsw.go:345-389 | terminates; what it visited is reachable through live neighbours, what it keeps is at most ef of it, the nearest visited is kept, and with room for all reachable vertices exactly they are returned |
| HnswIndex.Hnsw.PruneNeighbors | core/vectorindex/hnsw.go:449-474 | keeps exactly the k nearest live neighbours of the vertex on the level |
| HnswIndex.Hnsw.ConnectLevel | core/vectorindex/hnsw.go:131-158 | on one level the new vertex is linked both ways with the m nearest found; those over the bound keep the nearest live ones, and no other edge set changes |
| BestFirst.SearchEnds | core/vectorindex/hnsw.go:345-389 | a best-first search that has exhausted its candidates has the result the index promises: as many vertices as there is room for or were visited |
| BestFirst.NearestReturned | core/vectorindex/hnsw.go:345-389 | the nearest returned vertex is nearest among all visited ones and among its own live neighbours |
| Graphs.ReachIsLeast | core/vectorindex/hnsw.go:345-389 | reachability is the least set closed under live neighbours |
| QueueSets.SelectNeighbors | core/vectorindex/hnsw.go:391-397 | popping down to k keeps the k first of the queue's order |
| QueueSets.SelectNeighborsHeuristic | core/vectorindex/hnsw.go:399-447 | keeps the k nearest although Reverse re-heapifies the shared array |
| QueueSets.SelectionsAgree | core/vectorindex/hnsw.go:391-447 | both selections keep the same multiset of distances |
| HnswVertices.Vertex.AddEdge | core/vectorindex/hnsw_vertex.go:95-100 | adds one edge on one level |
| HnswVertices.Vertex.RemoveEdge | core/vectorindex/hnsw_vertex.go:102-107 | removes one edge on one level |
| HnswCommits.Commit | core/vectorindex/hnsw_commit.go:69-162 | the bytes of the header and of both passes over the object, in whatever order the maps are iterated; an error exactly if vertices are stored without an entry point |
| HnswLoads.Load | core/vectorindex/hnsw_commit.go:164-278 | header and loading loops compute the reference reading of any bytes; a vertex named again in the second pass gets the edges of both entries, and a level of -1 has no edge maps |
| HnswCommits.LoadUndoesCommit | core/vectorindex/hnsw_commit.go:69-278 | for every iteration order in either pass: what was committed loads exactly if the index is not empty and its distance has a number in the header; then the stored vertices, levels, vectors, metadata, length, live edges with weights and the header come back, and reading ends exactly at the end |
| HnswHeader.HeaderReadBackIff | core/vectorindex/hnsw_config.go:179-245 | a header reads back unchanged exactly if its numbers fit 32 bits and the distance is not Manhattan, which is written as 0 and refused |
| HnswHeader.HeaderRead | core/vectorindex/hnsw_commit.go:70-80 | every number of a header comes back cut to its low 32 bits, signed where it is stored signed |
| Layouts.HeaderLayout | core/vectorindex/hnsw_commit.go:69-80 | the 33 bytes of a header, the distance numbered 1, 2 or 0 |
| Layouts.VertexLayout | core/vectorindex/hnsw_commit.go:98-121 | the bytes of a vertex in the first pass, one by one |
| Layouts.EdgeLayout | core/vectorindex/hnsw_commit.go:123-158 | the bytes of a vertex in the second pass, its levels from the top down |
| HnswCommits.EntryRestoredIff | core/vectorindex/hnsw_commit.go:250-252 | the vertex found under the entry point's id is the entry point exactly if that was not removed |
| HnswCommits.EmptyDoesNotLoad | core/vectorindex/hnsw_commit.go:82-84 | what Commit writes for an index without vertices, nothing or the header alone, does not load |
| HnswFormat.GetVertex | core/vectorindex/metadata.go:31-105 | a vertex with its metadata reads back as written, within the widths of the format |
| PriorityQueues.PriorityQueue.Push | core/vectorindex/priority_queue.go:84-91 | adds one item and keeps the heap order |
| PriorityQueues.PriorityQueue.Pop | core/vectorindex/priority_queue.go:93-99 | removes and returns a first item of the queue's order |
| PriorityQueues.PriorityQueue.Peek | core/vectorindex/priority_queue.go:101-107 | returns a first item of the queue's order |
| PriorityQueues.PriorityQueue.Reverse | core/vectorindex/priority_queue.go:109-122 | makes a queue of the other order over the same array with the same items |
| PriorityQueues.PriorityQueue.Init | core/vectorindex/priority_queue.go:57-68 | makes a heap of any items in place |
| HeapOrder.RootIsFirst | edge/priorityqueue/priority_queue.go:47-198 | no item of a heap comes before its root |
| BoundedQueues.BoundedQueue.Add | edge/priority_queue.go:46-54 | after every addition the queue keeps the best of everything ever added, up to its size |
| BoundedQueues.BoundedQueue.ToSlice | experimental/multi_priority_queue.go:66-77 | lists what the queue keeps in order of score |
| TopK.KeepOneMore | edge/priority_queue.go:46-54 | adding one item and giving up a first one keeps the best |
| TopK.KeepPartFirst | experimental/multi_vector_vertex.go:102-136 | keeping the best of a part first and then the best of all keeps the best of all |
| TopK.KeptScoresAgree | edge/none_vectorstore.go:134-179 | any two ways of keeping the best keep the same multiset of scores |
| TopK.KeptIsTopOfRanking | experimental/multi_vector_vertex.go:102-136 | the scores of a sorted result are the first places of the full ranking |
| ShardSearch.EdgeSpace.VertexSearch | edge/none_vectorstore.go:129-180 | both branches return the best scores over all shards, in ascending order |
| ShardSearch.EdgeSpace.BranchesAgree | edge/none_vectorstore.go:134-179 | the fan-out and the sequential branch return the same scores |
| ShardSearch.EdgeSpace.FilterableVertexSearch | edge/none_vectorstore.go:182-253 | returns the best scores among the candidates that are stored |
| ShardSearch.CandidateFound | edge/none_vectorstore.go:182-253 | with every vertex in the shard its id hashes to, a candidate counts exactly if it is stored in any shard |
| MultiSearch.MultiVectorVertex.Check | experimental/multi_vector_vertex.go:85-101 | rejects exactly the first query that names no vector index or has the wrong dimension |
| MultiSearch.MultiVectorVertex.MultiVertexSearch | experimental/multi_vector_vertex.go:85-137 | returns exactly the topK highest weighted scores over all shards in descending order, however the vertices are split, the query vectors normalized for the cosine distance; nothing for a topK of 2^63 or more, which is negative in the queues |
| MultiSearch.MultiVectorVertex.ScoreNode | experimental/multi_vector_vertex.go:112-119 | the loop over the query vectors adds up the weighted score of a vertex |
| MultiSearch.MultiVectorVertex.IdleQueryIgnored | experimental/multi_vector_vertex.go:113-119 | a query vector that is not included, or has ratio 0, changes no score |
| MultiSearch.MultiVectorVertex.RatiosAdd | experimental/multi_vector_vertex.go:113-119 | the score is linear in each ratio |
| MultiSearch.MultiVectorVertex.WholeWeight | experimental/experimental_helper.go:134-139 | one query of ratio 100 scores 100 at distance 0, falling evenly to 0 at distance 2 for the cosine distance and at 100 otherwise, where it stays |
| MultiSearch.MultiVectorVertex.NearerScoresMore | experimental/experimental_helper.go:134-139 | a vertex that is nowhere farther scores no less |
| MultiSearch.MultiVectorVertex.ScoreInRange | experimental/multi_vector_vertex.go:113-119 | for distances as the distance functions give them the score lies between 0 and the sum of the ratios |
| VertexStore.Vertices.SaveVertex | edge/none_vectorstore.go:308-423 | succeeds exactly if every key and string is short enough and every type supported; the bytes are the format of some iteration order |
| Layouts.ValueLayout | edge/none_vectorstore.go:361-415 | the tag and the bytes of every type of metadata: 0 for integers, 1 for strings, 2 for both widths of floats, 3 for booleans |
| Layouts.ShardLayout | edge/none_vectorstore.go:311-319 | a shard is its length in eight bytes and its vertices, here and with named vectors |
| Layouts.TagsRead | edge/none_vectorstore.go:425-516 | what each tag reads, and that no other tag reads |
| Layouts.EntryLayout | edge/none_vectorstore.go:319-360 | the bytes of a vertex, one by one |
| VertexStore.Vertices.LoadVertex | edge/none_vectorstore.go:425-516 | replaces the stored shards exactly if all of them can be read |
| VertexCodec.LoadUndoesSave | edge/none_vectorstore.go:308-516 | for every iteration order loading gives the saved shards back, 32-bit float metadata as 64-bit |
| VertexCodec.PrefixesFail | edge/none_vectorstore.go:425-516 | no strict prefix of saved bytes can be loaded |
| NamedStore.NamedVertices.SaveVertex | experimental/multi_vector_vertex.go:183-277 | succeeds exactly if keys and strings are short enough and metadata are integers and strings |
| Layouts.NamedEntryLayout | experimental/multi_vector_vertex.go:193-265 | the bytes of a vertex with a named vector, one by one |
| NamedStore.NamedVertices.LoadVertex | experimental/multi_vector_vertex.go:279-382 | replaces the stored shards exactly if all of them can be read; the counter grows by every count read, also on failure |
| NamedCodec.NamedLoadUndoesSave | experimental/multi_vector_vertex.go:183-382 | for every iteration order loading gives the saved shards with their named vectors back |
| NamedCodec.NamedPrefixesFail | experimental/multi_vector_vertex.go:279-382 | no strict prefix of saved bytes can be loaded |
| NamedStore.FailedLoadCounts | experimental/multi_vector_vertex.go:284-288 | an input on which loading fails and yet the counter grows |
| Bitsets.BitSet.ExtendSet | pkg/bitset/bitset_copy.go:200-215 | makes room, sets the length, and changes no bit, whichever way the slice grows |
| Bitsets.BitSet.Test | pkg/bitset/bitset_copy.go:218-223 | tells whether the bit is within the length and set |
| Bitsets.BitSet.Set | pkg/bitset/bitset_copy.go:231-237 | sets one bit, filling up with clear ones behind the old length |
| Bitsets.BitSet.Clear | pkg/bitset/bitset_copy.go:240-246 | clears one bit and leaves the rest |
| Bitsets.BitSet.InsertAt | pkg/bitset/bitset_copy.go:360-395 | inserts a clear bit, carrying across all words, and keeps every bit above the length zero |
| Bitsets.BitSet.DeleteAt | pkg/bitset/bitset_copy.go:429-458 | removes one bit, carrying across all words, and keeps every bit above the length zero; at a position past the length it cuts off the last bit, and the set stays in order exactly if that bit was clear |
| Bitsets.InsertThenDelete | pkg/bitset/bitset_copy.go:360-458 | deleting what was just inserted restores length and bits |
| Bitsets.BitSet.Rank | pkg/bitset/bitset_copy.go:1211-1221 | the number of set bits up to and including the index |
| Bitsets.BitSet.Select | pkg/bitset/bitset_copy.go:1230-1240 | the position of the set bit with the given number of set bits below it, or the length |
| Bitsets.WordsNeededCovers | pkg/bitset/bitset_copy.go:147-152 | the words needed cover the bits exactly for lengths up to 2^64 - 64 |
| BitSequences.RankOfSelect | pkg/bitset/bitset_copy.go:1208-1240 | the rank of the j-th set bit is j + 1 |
| BitSequences.SelectOfRank | pkg/bitset/bitset_copy.go:1208-1240 | selecting with the rank of a set bit, less one, finds that bit |
| BitSelect.Select64 | pkg/bitset/select.go:20-62 | the position of the set bit with exactly the given number below it; 64 if there are too few, the wrapped exit included; nothing is said for 2^64 - 1, which Select never passes |
| BitPopcount.Popcount | pkg/bitset/popcnt.go:23-30 | the parallel field counts and the multiplication give the number of set bits of every 64-bit word |
| BitPopcount.Step3 | pkg/bitset/popcnt.go:26-27 | adding neighbouring four-bit counts overflows no field |
| BitPopcount.BytesOf | pkg/bitset/popcnt.go:28-29 | the top byte of the product is the sum of the bytes |

## Left out

- Record expiry, the watch queue, cron, file locks, pools, `ClearAll` and the ordered scans of diskv: dead, environmental or easy.
- diskv locks and the `mergeRunning` flag: a merge is interleaved with commits step by step, and a second merge does not start while one runs.
- A crash inside `loadMergeFiles`: a rerun removes files that were already moved, so recovery there does not hold.
- The merge directory appears together with its hint file; an interruption between creating the two is not modelled.
- `pkg/wal`: an append-only sequence of chunks per segment with distinct positions; blocks and checksums are not part of this model.
- concurrentmap nodes are entries of an arena named by their creation order, and node addresses are never reused.
- The bucket index is abstract in the concurrent model: a read of it may give any node that was ever linked in, so all results hold for every index; only `Set`, `Get`, `Del` and growth run there, and the slot count is not modelled.
- CmapSequential.ConcurrentMap.constructor: the index that exists while the first one is filled is a placeholder of one slot.
- `Clear`, bulk `Del`, `GetOrCompute`, `ForEach`, `Len`, `Fillrate` and JSON of the concurrent map. Bulk `Del` of two keys with one hash can miss the second.
- CmapCalls.SetSolo: is about a call that does not grow the index afterwards; like every step, those of a growth keep the invariant.
- Linearizability of concurrent inserts does not hold; `CmapReach.LostIff` says when a linked node is missing.
- The resizing flag of the sequential map is always free, since nothing else runs.
- HNSW under several goroutines, `RandomLevel`, byte sizes, and the channel forms of the queues.
- HNSW candidate extension: with it two heaps share one array. Without it the second loop over discarded candidates never has work to do.
- `searchLevel` returning the ef closest visited vertices, edge symmetry, and a live entry point after `Remove`: the code does not have these properties.
- Vertex levels are natural numbers, and the results of `Search` are built from the back as a sequence.
- HnswCommits.LoadUndoesCommit: metadata values count as already marshalled, weights and vectors as bit patterns, and the loaded index is a value rather than a graph of objects.
- HnswLoads.Load: bytes that end inside an id count as a failure; the partly filled index that a failing load leaves is not modelled.
- The two flags of the selection heuristic are not in the header, so they do not come back.
- The goroutines of a fan-out search run one after the other; `sort.Slice` is an insertion sort, since only the order by score is promised.
- Inverted-index filters enter `FilterableVertexSearch` as the list of candidate ids.
- VertexCodec.LoadUndoesSave: widening a 32-bit float is any function into 64-bit words.
- Slices that are decoded are as long as their capacity.
- `SetBitsetFrom`, the set operations, shifts, iteration, shrinking and serialization of bit sets.
- Bitsets.BitSet.Set: requires the bit below 2^64 - 64, where the words needed are still enough; `append` may choose any spare capacity.
- Bitsets.BitSet.DeleteAt: requires the position to lie within the slice; past it the code panics.
- CmapSizes.Log2: requires an argument up to 2^63; past it the loop does not end (`CmapSizes.Log2EndsIff`).
- `pkg/compresshelper`, `edge/resultset.go`, gRPC, storage, configuration and the collection lifecycle in `core/core.go`.
