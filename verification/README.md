# CaracalDB, verified

A Dafny model of the hard parts of CaracalDB, an embedded graph database: the
pattern compiler with its operators, path search and sampling, ontology
reasoning, the durability protocol, the buffer pool, snapshots and plan rewrites.
Each part has a simple specification that the engine speeds up or protects; the
model follows the engine's code and the lemmas connect the two.

`dafny verify dfyconfig.toml` checks everything.

## How the model is laid out

| modules | part of the engine |
|---|---|
| Walks, Seqs, Sublists, Bags, Names, Results | shared mathematics: walks in a relation, sequences, sums of multisets, sorted names |
| CsrBuilder, CsrReader, CsrSampling | adjacency files: layout, look-ups, batched fan-out, neighbour sampling |
| Operators, HopAlgebra, Pattern, PatternPlan, PatternPipeline, PatternExact, PatternRows, PatternMatches, PatternTheorems | `MATCH` compiled to scans, expansions, unions, hash joins and column drops |
| Paths, Routes, PathSearch, ShortestPath, VarPath | simple-path enumeration, `shortest_path`, the variable-length traversal |
| Relabel, SampleTrace, SampleMeaning, SampleDraws, GnnSampler | the layered GNN sampler |
| Reasoner, InferClosure, Hierarchy, HierarchyQueries, ClosureIndex | symmetric and transitive materialisation, class hierarchies, closure bitmaps |
| WalCodec, WalDamage, WalLog, WalFiles, SegmentNames, Durability, SyncModes, Recovery, CrashSafety, HeaderLoss | the write-ahead log, checkpoints, crashes, recovery |
| LruK, PoolState, PoolRuns, PoolPins, BufferPool | the buffer pool |
| Transactions | write-write conflict detection |
| Stores, TimeTravel | LSN-stamped stores and named snapshots |
| Expressions, Plans, PlanMeaning | logical plans and their rewrite rules |

What the engine takes from elsewhere appears as a parameter or an arbitrary
choice: CRC-32 and UTF-8 (`WalCodec.Env`), the random generator
(`CsrSampling.Choice`, any offsets its contract allows), Arrow kernels, sorting
and grouping (`Expressions.Kernels`, `Plans.Engine`), redo handlers
(`Recovery.Handlers`), the disk under the pool. A manifest write is one step. A
crash (`WalLog.Torn`) keeps of every segment at least its synced records and at
most the written ones, at a record boundary; `HeaderLoss` cuts files at any byte.

## Where the code and a natural expectation part ways

Each is kept as the code has it, with an input that shows it and the exact
condition under which the code does meet the expectation.

- The compiled pattern counts a match once per stored row that shares the join
  id. It is exact if and only if no match leaves, through a hop, a row that shares
  its id with another row of its class (`PatternExact.ExactIffSoleRows`,
  `PatternExact.SharedIdIsOvercounted`); ids may repeat in the last class.
- `flush` syncs the open segment only, and a roll-over closes a segment without
  an fsync: the log is durable afterwards if and only if every earlier segment
  already was (`SyncModes.FlushCoversLogIffRolledSegmentsDid`,
  `SyncModes.FlushAfterRollOverIsNotEnough`).
- A manifest may outrun the durable log, through a checkpoint in mode off or a
  recovery that adopts a marker no fsync covers; LSNs the checkpoint covers can
  then be handed out again (`SyncModes.AnchoredIffLsnsStayAhead`,
  `SyncModes.RecoveryIsSafeIff`, `SyncModes.GroupModeFallsBehind`). No flushed
  record is lost and no surviving or flushed LSN is reused all the same; in mode
  on it cannot happen (`SyncModes.OnModeRecoversSafely`).
- A new segment's header is written without an fsync. A crash can leave a
  directory that no longer opens, and cannot if and only if every file has a
  synced record (`HeaderLoss.OpensIffEveryFileSynced`,
  `HeaderLoss.ReopensIffHeaded`, `HeaderLoss.FirstAppendMayNotReopen`).
- `_columns_used` takes a tuple literal of the form `("col", name)` for a column
  (`PlanMeaning.LiteralMistakenForColumn`, `PlanMeaning.PruningExactlyWhen`,
  `PlanMeaning.FilteredPruningExactlyWhen`, `PlanMeaning.PushdownExactlyWhen`).
- Consecutive segment names sort numerically except at the powers of ten from a
  million on (`SegmentNames.NeighboursSortIff`, `SegmentNames.NamesSortIff`); at
  the first of them the newest segment is opened again for writing
  (`SegmentNames.MillionthSegmentIsOverwritten`).
- Without a write callback an eviction forgets unwritten bytes, and keeps the
  memory if and only if the page equals its disk copy
  (`PoolRuns.WithoutWriterEvictionForgets`, `PoolRuns.WithoutWriterRunForgets`).

## Model

| member | source | states |
|---|---|---|
| `CsrBuilder.StableOrderIsArgsort` | caracaldb/graph/csr_builder.py:68-76 | the counting-sort order is the one and only stable argsort of the source column |
| `CsrBuilder.BuildCsrArrays` | caracaldb/graph/csr_builder.py:44-76 | succeeds exactly on aligned columns with sources below the vertex count; offsets run monotonically from 0 to the edge count and every vertex slice is that vertex's destinations, with aligned edge ids, in input order |
| `CsrBuilder.BuildCsc` | caracaldb/graph/csc_builder.py:29-40 | the same guarantee with the columns swapped |
| `CsrBuilder.NeighborsTransposed` | caracaldb/graph/csc_builder.py:29-40 | the two layouts are transposes of each other, counting parallel edges |
| `CsrBuilder.EidsTransposed` | caracaldb/graph/csc_builder.py:29-40 | and they agree on which edge id connects which endpoints, as often as the table says |
| `CsrReader.BuiltIsReadable` | caracaldb/graph/csr_reader.py:50-58 | on a built file a single look-up lists exactly the edges that leave the vertex |
| `CsrReader.FlatIndexIsSegments` | caracaldb/graph/csr_reader.py:94-119 | the repeat-and-arange index is the concatenation of the seeds' index ranges |
| `CsrReader.FanOutIsConcatenation` | caracaldb/graph/csr_reader.py:94-119 | the batched fan-out is the concatenation of the single look-ups over the seed list, repeats included, with edge ids aligned |
| `CsrReader.RepeatAligned` | caracaldb/graph/csr_reader.py:60-119 | origins repeated by degree stay aligned with the fanned-out neighbours |
| `CsrReader.FanOutOnlyEdges` | caracaldb/graph/csr_reader.py:94-119 | every pair of the fan-out is a seed with one of its neighbours |
| `CsrReader.FanOutHasEdge` | caracaldb/graph/csr_reader.py:94-119 | and every such pair is in it |
| `CsrSampling.SampleSegments` | caracaldb/graph/csr_reader.py:159-195 | keeps, for each maximal run of equal sources, an admissible pick of its slots, in run order |
| `CsrSampling.PicksBySeed` | caracaldb/graph/csr_reader.py:159-195 | with pairwise distinct seeds the runs are exactly the seeds that have neighbours, so picks per run are picks per seed, with or without repeats |
| `CsrSampling.BatchNeighbors` | caracaldb/graph/csr_reader.py:67-156 | rejects exactly bad seeds, a negative fanout or missing edge ids; returns stored edges only, with edge ids exactly if asked; without sampling the whole concatenation; when it samples, with or without repeats, exactly an admissible pick from every run of equal sources, in order; with a positive fanout at most fanout pairs per seed, and from distinct seeds, in seed order, as many slots of each as the fanout and the degree allow, distinct without repeats, in turn for strategy first |
| `Operators.BuildIndex` | caracaldb/exec/operators/hash_join.py:84-86 | the index lists, under every key, exactly the build rows with that key, in order |
| `Operators.HashJoin` | caracaldb/exec/operators/hash_join.py:103-121 | the inner join as a double loop: for each probe row, the matching build rows in build order |
| `Operators.EachJoin` | caracaldb/exec/operators/hash_join.py:103-121 | summing over a join is summing over all matching pairs of rows |
| `Operators.DropMask` | caracaldb/exec/operators/transform.py:59-89 | the counting pass and its repair keep exactly the columns a direct description keeps: trailing repeats go first, a sole occurrence goes too |
| `HopAlgebra.DropProbeCopy` | caracaldb/exec/operators/transform.py:59-89 | after a join on a shared key, dropping that key removes the probe side's copy and nothing else |
| `HopAlgebra.EachHop` | caracaldb/api.py:7572-7591 | two joins and two drops emit, with multiplicity, what three nested loops over bound rows, edges and target rows emit |
| `PatternPipeline.Expand` | caracaldb/exec/operators/expand.py:87-126 | out, in and both: every seed with every edge that touches it in the direction; fails exactly when a seed, or an endpoint the direction sorts by, lies outside the vertex space |
| `PatternPipeline.ExpandUnion` | caracaldb/exec/operators/transform.py:116-122 | the union of the per-relation expansions, relation by relation; fails exactly when one of them does |
| `PatternPlan.EachUnion` | caracaldb/api.py:7545-7571 | an expansion from all seeds, seen from one join key, is that key's adjacent vertices, once per seed that carries the key |
| `PatternPlan.BoundMeaning` | caracaldb/api.py:7539-7594 | one bound row sent through a compiled hop gives the reference meaning of the hop, once per seed sharing its id |
| `PatternPipeline.HopPreserves` | caracaldb/api.py:7539-7594 | completing the rows after a compiled hop gives as many matches, with multiplicity, as completing the rows before it |
| `PatternPipeline.RunHop` | caracaldb/api.py:7539-7594 | one iteration of the hop loop builds exactly the two-join, two-drop form |
| `PatternPipeline.RunPattern` | caracaldb/api.py:7504-7594 | fails exactly when some edge of a hop leaves the vertex space; otherwise, for every chain of hops, yields, as a multiset of rows by column name, the nested-loop meaning in which each hop counts the seeds that share the current id, whether or not ids are unique |
| `PatternExact.SeededMultiplicity` | caracaldb/api.py:7554-7566 | a hop is counted as many times as the current id occurs in the seed scan |
| `PatternExact.ExactIffSoleRows` | caracaldb/api.py:7504-7594 | the compiled meaning holds at least every nested-loop match, and is equal to matching if and only if every complete match leaves sole rows only: rows whose id no other row of their class has |
| `PatternExact.UniqueIdsMatch` | caracaldb/api.py:7504-7594 | in particular they are equal where ids are unique in every class but the last one of the pattern |
| `PatternExact.SharedIdIsOvercounted` | caracaldb/api.py:7554-7566 | two people stored under one id, with one edge to one place: there the compiled meaning is not matching |
| `PatternTheorems.MatchPattern` | caracaldb/api.py:7504-7594 | a row is in the result if and only if some choice of one stored row per node makes it: each row's id cell linked to the next one's by an edge of the hop, the keys exactly alias.column for the id column and every wanted column the class stores, and under them the cells of those rows; with multiplicity it holds every row of nested-loop matching, and exactly those if and only if no match leaves, through a hop, a node row that shares its id with another row of its class |
| `PatternMatches.RowsAreMatches` | caracaldb/api.py:7504-7594 | nested-loop matching, and the compiled meaning with it, hold exactly the bindings that such choices of rows make |
| `PatternRows.AdjacentCount` | caracaldb/api.py:7545-7571 | an adjacent vertex counts once for each edge row that leads to it along an admitted direction |
| `PatternRows.InScanColumns` | caracaldb/api.py:7515-7526 | a scan reads exactly the id column and the wanted columns its class stores |
| `PatternRows.ChainShows` | caracaldb/api.py:7504-7594 | the binding of a chain of rows has exactly the shown columns as keys and the cells of those rows under them |
| `PatternRows.InExtend` | caracaldb/api.py:7539-7594 | the matches that extend a partial match are the bindings of the chains of rows that go on from it |
| `PatternTheorems.DistinctAliasesAreFresh` | caracaldb/api.py:7508-7526 | distinct aliases without dots never collide once qualified, so the pipeline's name conditions hold for them |
| `PatternTheorems.DistinctAliasesRun` | caracaldb/api.py:7508-7526 | so over valid stores every plan whose aliases, the first included, are distinct and dot-free can be run |
| `Paths.TypedAdjacency` | caracaldb/api.py:5346-5367 | each node's list holds, once each, exactly the steps that go forward along a row from it, unless the direction is in, or backward along a row to it, unless the direction is out, in order of edge type, edge id and far end |
| `Paths.InAdjacency` | caracaldb/api.py:5346-5367 | a step is listed at u if and only if its edge is a row and it goes forward, direction out or both, from src u to dst, or backward, direction in or both, from dst u to src |
| `Paths.SortStepsInOrder` | caracaldb/api.py:5363-5367 | the lists come by edge type, then edge id, then far end |
| `Paths.LevelExact` | caracaldb/api.py:4933-4977 | the paths of k steps the search can reach are exactly the simple paths of k steps |
| `PathSearch.SearchQueue` | caracaldb/api.py:4958-4977 | the queue loop with its depth cut-offs returns the target hits of levels 1 to max_depth, level by level |
| `PathSearch.InHitsUpTo` | caracaldb/api.py:4958-4977 | a path is returned if and only if it is simple, has 1 to max_depth edges and ends at the target |
| `PathSearch.EnumeratePaths` | caracaldb/api.py:4933-4977 | a row is returned if and only if it is a route of 1 to max_depth steps to the target, each along a row as the direction allows and starting where the one before it ended, that visits no node twice |
| `Routes.SimpleIsRoute` | caracaldb/api.py:4933-4977 | the simple paths of the search are exactly the routes that visit no node twice |
| `Routes.PathsAreWalks` | caracaldb/api.py:4933-4977 | there is a path of n steps if and only if there is a walk of n steps in the set of (src, dst) pairs, its converse, or their union |
| `ShortestPath.EnumerationExact` | caracaldb/api.py:4784-4826 | each simple path within the depth bound occurs exactly once among the sorted rows, and nothing else does |
| `ShortestPath.PathsQuery` | caracaldb/api.py:4784-4826 | rejects a depth below 1 and a negative limit; otherwise the first rows of the sorted enumeration |
| `ShortestPath.SortRowsInOrder` | caracaldb/api.py:5214-5228 | the rows come in the order of depth, then node ids, then edge ids |
| `ShortestPath.RowsInOrder` | caracaldb/api.py:5214-5228 | no row stands before one with fewer steps, or as many and smaller node ids, or the same and smaller edge ids |
| `ShortestPath.SortRowsElements` | caracaldb/api.py:4824-4825 | sorting loses and duplicates no row |
| `ShortestPath.ShortenPath` | caracaldb/api.py:4901-4930 | any path can be shortened to a simple one between the same ends |
| `ShortestPath.SimplePathsAreShort` | caracaldb/api.py:7715-7740 | a simple path over vertices below n has fewer than n steps |
| `ShortestPath.FirstRowIsShortest` | caracaldb/api.py:4901-4930 | the first row is a minimum-length path, and there is none exactly when the target is out of reach within the bound |
| `ShortestPath.DefaultBoundSuffices` | caracaldb/api.py:4901-4930 | with endpoints below the vertex count the default bound reaches whatever can be reached |
| `ShortestPath.FindShortest` | caracaldb/api.py:4901-4930 | returns a route of fewest steps between distinct nodes that visits no node twice; with the default bound None exactly when no walk in the set of (src, dst) pairs, its converse or their union, as the direction says, leads to the target; never a path from a node to itself |
| `VarPath.CandidatesAreMoves` | caracaldb/exec/operators/var_path.py:108-124 | the flat fan-out of a frontier is exactly its one-edge moves, each under the right origin |
| `VarPath.OneLevel` | caracaldb/exec/operators/var_path.py:108-140 | a level emits exactly the pairs first reached at that hop count, each once |
| `VarPath.Traverse` | caracaldb/exec/operators/var_path.py:82-147 | succeeds if and only if the hop range is proper and every vertex fewer than hop_max hops from a seed lies in the vertex space; then emits each (seed, vertex) pair once, and exactly those whose shortest hop count, over positive-length walks when hop_min is at least 1, lies between hop_min and hop_max |
| `Reasoner.PassDoubles` | caracaldb/onto/reasoner.py:126-151 | one transitive pass doubles the walk length covered |
| `Reasoner.PassesCover` | caracaldb/onto/reasoner.py:126-151 | after k passes the relation holds exactly the pairs joined by a walk of length 1 to 2^k |
| `Reasoner.QuietPassMeansClosure` | caracaldb/onto/reasoner.py:148-149 | a pass that adds nothing means the relation is exactly the transitive closure |
| `Reasoner.CapIsComplete` | caracaldb/onto/reasoner.py:113-158 | a cap of k passes is complete whenever all distances are at most 2^k |
| `Reasoner.PassesKeepSymmetry` | caracaldb/onto/reasoner.py:113-158 | transitive passes keep a symmetric relation symmetric |
| `InferClosure.InferSymmetric` | caracaldb/onto/reasoner.py:86-110 | appends the missing converses, each once, and leaves the symmetric closure; the counters add up |
| `InferClosure.OnePass` | caracaldb/onto/reasoner.py:126-151 | one pass lists exactly the missing compositions, each once, or stops exactly when they reach the budget |
| `InferClosure.InferTransitive` | caracaldb/onto/reasoner.py:113-158 | ends with the relation of all passes, each missing pair appended once, the exact closure when it stops early; fails exactly when the passes would add something and reach the triple budget |
| `InferClosure.InferAll` | caracaldb/onto/reasoner.py:166-182 | every store of the plan ends as its own rules make it, in order, whatever the rules for other stores: one with a single TRANSITIVE target as the pairs joined by a walk of 1 to 65536 edges, which is the transitive closure whenever no distance is longer, one with a single SYMMETRIC target as the union with its converse; fails if and only if some target runs out of budget on what the earlier rules for its store have made of it |
| `InferClosure.SymmetricFirstStaysSymmetric` | caracaldb/onto/reasoner.py:166-182 | once SYMMETRIC has run, the relation is symmetric after every later rule |
| `Hierarchy.EndlessMeansCycle` | caracaldb/onto/hierarchy.py:53-57 | a set in which every node has a parent inside contains a cycle |
| `Hierarchy.StepKeepsProgress` | caracaldb/onto/hierarchy.py:45-51 | the indegree counters always count the unfinished parents, and the queue holds exactly the ready nodes |
| `Hierarchy.Order` | caracaldb/onto/hierarchy.py:43-51 | the queue loop lists each node at most once, parents first, and every node all of whose parents it listed |
| `Hierarchy.FromEdges` | caracaldb/onto/hierarchy.py:20-64 | an unknown node is CDB-9504; otherwise accepted exactly when the parent relation has no cycle, and then the order is a permutation of the nodes with every parent before its child |
| `HierarchyQueries.Collect` | caracaldb/onto/hierarchy.py:101-115 | the recursive collector terminates, lists each node once, only reachable ones, and leaves no neighbour of a collected node uncollected |
| `HierarchyQueries.Ancestors` | caracaldb/onto/hierarchy.py:74-82 | exactly the strict transitive closure, each node once, the node itself first if asked for |
| `HierarchyQueries.Descendants` | caracaldb/onto/hierarchy.py:84-92 | the same downward |
| `HierarchyQueries.AncestorsConverseDescendants` | caracaldb/onto/hierarchy.py:74-92 | one node is an ancestor of another exactly when the other is its descendant |
| `HierarchyQueries.AcceptedIsStrict` | caracaldb/onto/hierarchy.py:53-57 | on an accepted hierarchy nothing is its own ancestor |
| `HierarchyQueries.IsSubtype` | caracaldb/onto/hierarchy.py:94-99 | reflexive or strict reachability through the parents |
| `ClosureIndex.Index.DescendantsBitmap` | caracaldb/onto/closure.py:87-95 | cached or not, the ids of exactly the reachable subclasses; only this entry is added |
| `ClosureIndex.Index.AncestorsBitmap` | caracaldb/onto/closure.py:97-105 | the same upward |
| `ClosureIndex.Index.IsSubclass` | caracaldb/onto/closure.py:113-116 | whatever has been cached, materialised or invalidated before, the answer of is_subtype |
| `ClosureIndex.Index.Invalidate` | caracaldb/onto/closure.py:118-127 | forgets everything, or exactly the class with its ancestors and descendants, and keeps the index sound |
| `ClosureIndex.Index.MaterializeAll` | caracaldb/onto/closure.py:129-132 | both caches cover every class and stay sound |
| `WalCodec.ReadInvertsEncode` | caracaldb/storage/wal.py:230-256 | reading inverts encoding for all in-range fields, and reports a truncated tail, never a checksum error, for every proper prefix |
| `WalCodec.IterSegment` | caracaldb/storage/wal.py:258-269 | yields what a recursive scan yields; a bad header is CDB-7053 |
| `WalDamage.ReadWhole` | caracaldb/storage/wal.py:230-256 | a whole frame reads as its fields, numbers in little-endian order, if its last four bytes are the checksum of all the others modulo 2^32, and is CDB-7052 if not |
| `WalDamage.GotIsIntact` | caracaldb/storage/wal.py:230-256 | a record is read from a whole frame with the right checksum only |
| `WalDamage.YieldedAreIntact` | caracaldb/storage/wal.py:258-269 | what a segment yields stands in its bytes as whole frames with the right checksum, one after the other |
| `WalDamage.ReadDamagedSegment` | caracaldb/storage/wal.py:258-269 | records in front of a damaged one are yielded, then CDB-7052, and nothing after it |
| `WalDamage.ChangedIsDamaged` | caracaldb/storage/wal.py:249-254 | bytes changed anywhere but in the lengths, the kind and the stored checksum are damage if they change the checksum |
| `WalDamage.EncodedBytes` | caracaldb/storage/wal.py:45-56 | the bytes of a record, range by range: LSN, previous LSN, kind and payload with their lengths, checksum of the rest |
| `WalDamage.HeaderBytes` | caracaldb/storage/header.py:11-41 | the bytes of a segment header: magic, version, page size, flags, checksum |
| `WalCodec.ReadCutSegment` | caracaldb/storage/wal.py:258-269 | for every record sequence and every byte cut at or after the header: exactly the records wholly inside the cut, and no error |
| `WalCodec.WhollyInsideUnique` | caracaldb/storage/wal.py:258-269 | that number of records is determined by the cut |
| `WalLog.CutIsTorn` | caracaldb/storage/wal.py:258-269 | seen by a reader, a cut past the synced bytes leaves at least the synced records and a prefix of the written ones |
| `WalLog.AppendedKeeps` | caracaldb/storage/wal.py:121-136 | append, with resume and roll-over, adds exactly its record at the end of a log that keeps rising |
| `WalLog.WithoutKeeps` | caracaldb/storage/wal.py:167-181 | deleting a segment loses only what it held |
| `SegmentNames.NamesSortIff` | caracaldb/storage/wal.py:209-212 | of two segments the names sort like the numbers if and only if the smaller number is at most as many leading digits of the larger as its name has |
| `SegmentNames.NeighboursSortIff` | caracaldb/storage/wal.py:209-212 | a segment and its successor sort in order if and only if the successor's number is not a power of ten from a million on |
| `SegmentNames.NamesSortNumerically` | caracaldb/storage/wal.py:209-212 | below a million segments, the sorted file names are in segment order |
| `SegmentNames.MillionthSegmentSortsEarly` | caracaldb/storage/wal.py:209-212 | the millionth name sorts before its predecessor |
| `SegmentNames.MillionthSegmentIsOverwritten` | caracaldb/storage/wal.py:205-217 | with segments 999999 and 1000000 on disk the index taken from the name that sorts last is the latter's again, which is opened for writing |
| `SegmentNames.NextIndexIsNew` | caracaldb/storage/wal.py:205-217 | below a million that index is larger than every index on disk |
| `WalFiles.OpenWal` | caracaldb/storage/wal.py:83-102 | refuses a roll size without room for a record; otherwise starts from the largest LSN on disk |
| `WalFiles.Wal.Append` | caracaldb/storage/wal.py:121-136 | one LSN up; a record of that LSN, the one before it, the kind and the payload at the end of the file that fits it, synced in mode on, and every other file as it was; nothing changed if it cannot be encoded |
| `WalFiles.Wal.EnsureSegment` | caracaldb/storage/wal.py:186-217 | the last file stays if it is open or below the roll size and the record fits by its bytes; otherwise an empty file with the next index, and one more where neither holds |
| `WalFiles.Wal.Flush` | caracaldb/storage/wal.py:138-141 | syncs every record of the open segment and changes nothing else, or does nothing in mode off or with none open |
| `WalFiles.Wal.TruncateBefore` | caracaldb/storage/wal.py:167-181 | deletes, one at a time, exactly the closed segments that hold records, the last at or below the LSN, and leaves the others in order |
| `WalFiles.Checkpoint` | caracaldb/storage/checkpoint.py:32-65 | marker, flush, manifest, truncation; every point at which it can be interrupted is a state of the protocol and satisfies its invariant |
| `Durability.StepKeeps` | caracaldb/storage/checkpoint.py:32-65 | every step of appends, flushes, checkpoint phases, recovery, whatever marker it adopts, and crashes keeps the durability invariant |
| `Durability.AppendThenFlush` | caracaldb/storage/wal.py:121-141 | a record that is appended and then flushed, outside mode off, counts as flushed, with its LSN, kind and payload |
| `Durability.FlushedRecordsSurvive` | caracaldb/storage/checkpoint.py:32-65 | in every run with sync group or on, at every point, a record flushed earlier is in the log or covered by the manifest's checkpoint |
| `Durability.NoLsnIsReused` | caracaldb/storage/wal.py:100-136 | in every such run an append never reuses an LSN of a surviving record or of any record ever flushed, deleted or not |
| `Durability.NoCoveredLsnIsHandedOut` | caracaldb/storage/checkpoint.py:34-42 | in every run whose recoveries adopt no checkpoint beyond the durable log, an append never gets an LSN the checkpoint covers |
| `Durability.CheckpointIsNeverRefused` | caracaldb/storage/checkpoint.py:34-42 | nor, in those runs, can the refusal CDB-7060 happen |
| `SyncModes.OnModeCrashLosesNothing` | caracaldb/storage/wal.py:134-135 | in mode on a crash at any point of any run loses no record |
| `SyncModes.OnModeRecoversSafely` | caracaldb/storage/wal.py:134-135 | in mode on every recovery of every run adopts only what is durable, so the log is never behind its manifest |
| `SyncModes.FlushCoversLogIffRolledSegmentsDid` | caracaldb/storage/wal.py:138-141 | after flush the whole log is durable if and only if every earlier segment already was |
| `SyncModes.RollOverLeavesUnsynced` | caracaldb/storage/wal.py:186-195 | a roll-over closes a segment without fsync, so unsynced records stay behind |
| `SyncModes.FlushAfterRollOverIsNotEnough` | caracaldb/storage/wal.py:138-141 | a run in mode group: two appends with a roll-over between them, then a flush, and the log is not durable |
| `SyncModes.AnchoredIffLsnsStayAhead` | caracaldb/storage/recovery.py:83-90 | a manifest may carry a checkpoint LSN if and only if a durable record reaches it; otherwise some crash leaves a log that would hand out covered LSNs again |
| `SyncModes.RecoveryIsSafeIff` | caracaldb/storage/recovery.py:83-90 | a recovery adopts only what is durable if and only if no crash and reopening right after it leaves the log behind the manifest |
| `SyncModes.GroupModeFallsBehind` | caracaldb/storage/recovery.py:83-90 | a run in mode group that adopts a marker no fsync covers, loses it in the next crash, and reopens behind its manifest |
| `SyncModes.OffModeCheckpointIsUnanchored` | caracaldb/storage/wal.py:138-141 | in mode off the first checkpoint already breaks that rule |
| `Recovery.BoundaryDecidesAlike` | caracaldb/storage/recovery.py:54-62 | on a rising log the moving boundary skips exactly what the original checkpoint covers |
| `Recovery.EveryRecordCounted` | caracaldb/storage/recovery.py:47-80 | replayed, skipped and newly passed markers add up to the record count |
| `Recovery.Recover` | caracaldb/storage/recovery.py:35-92 | calls the handlers of exactly the records above the original checkpoint that are not markers and have one, once each and in order; counts what was replayed and skipped; ends with the larger of the old checkpoint and the greatest marker LSN; fails if and only if one of those handlers raises, stops there and leaves the manifest alone |
| `CrashSafety.RecoveryIsTheStep` | caracaldb/storage/recovery.py:83-90 | the manifest recovery writes is the one of the protocol's recovery step |
| `CrashSafety.FlushedRecordsAreReplayed` | caracaldb/storage/recovery.py:47-80 | after a crash anywhere in any run, every flushed record that is neither a marker nor covered by the checkpoint is replayed exactly once |
| `HeaderLoss.ScanAll` | caracaldb/storage/wal.py:99-102 | the scan of a directory: the largest LSN of all records, or the error of the first file that has one |
| `HeaderLoss.ReopensIffHeaded` | caracaldb/storage/wal.py:258-280 | after a crash that may cut every file at any byte no fsync covers, opening succeeds if and only if every file has kept its 24-byte header, and then reads a record-level crash of the log |
| `HeaderLoss.OpensIffEveryFileSynced` | caracaldb/storage/wal.py:205-214 | no crash takes a header if and only if every file has a synced record |
| `HeaderLoss.FirstAppendMayNotReopen` | caracaldb/storage/wal.py:205-214 | a run in mode group: one append on a fresh database, after which some crash leaves a directory that does not open |
| `HeaderLoss.OversizedRecordMayNotReopen` | caracaldb/storage/wal.py:186-195 | the same in mode on, for a record that does not fit a fresh segment |
| `LruK.KeyIsFromLog` | caracaldb/storage/buffer_pool.py:193-221 | the trimmed history ranks a frame by its k-th latest and latest access of the whole log |
| `LruK.LowestKey` | caracaldb/storage/buffer_pool.py:207-221 | finds an unpinned frame of lowest key, or reports that all are pinned |
| `PoolRuns.RoomTakesVictim` | caracaldb/storage/buffer_pool.py:199-221 | what a full pool evicts is the page LRU-K selects, and no other page qualifies |
| `PoolRuns.StepCorrect` | caracaldb/storage/buffer_pool.py:103-228 | every operation of a client that writes only while pinned and marks dirty keeps the pool sound and changes the page memory as its meaning says |
| `PoolRuns.PoolRefinesMemory` | caracaldb/storage/buffer_pool.py:103-228 | over every run with a write callback the pool shows exactly one flat page memory |
| `PoolRuns.FetchReadsMemory` | caracaldb/storage/buffer_pool.py:103-117 | a fetch returns what was last stored in its page, however often the page was evicted |
| `PoolRuns.PinnedPagesStay` | caracaldb/storage/buffer_pool.py:199-221 | a pinned page is never evicted and residency never exceeds the capacity |
| `PoolPins.StepPins` | caracaldb/storage/buffer_pool.py:103-154 | every operation: a fetch or new_page that succeeds adds a pin to its page, an unpin takes one, and nothing else changes the pins of any page that stays |
| `PoolPins.PinsAreHeld` | caracaldb/storage/buffer_pool.py:103-197 | over every run a page has as many pins as it was fetched or made anew, less the unpins |
| `PoolPins.HeldIsResident` | caracaldb/storage/buffer_pool.py:103-221 | so a page fetched and not yet released is resident |
| `PoolPins.FetchRefusedIff` | caracaldb/storage/buffer_pool.py:103-117 | a fetch is refused if and only if its page is absent and no frame is free or unpinned, or its copy on disk is too long |
| `PoolPins.LogsAreAccesses` | caracaldb/storage/buffer_pool.py:189-197 | over every run the access log of a resident page, which LRU-K ranks it by, holds exactly the times of its accesses since it became resident |
| `PoolRuns.WithoutWriterEvictionForgets` | caracaldb/storage/buffer_pool.py:223-228 | without a write callback an eviction keeps the memory exactly when the page's bytes are already on disk |
| `PoolRuns.WithoutWriterRunForgets` | caracaldb/storage/buffer_pool.py:199-228 | such a run: one frame, a page fetched, written, marked dirty and released, another fetched; the pool no longer shows the flat memory |
| `BufferPool.Pool.FetchPage` | caracaldb/storage/buffer_pool.py:103-117 | hit, miss, eviction, oversized page and full pool, as the fetch operation of the runs; on success the page has one pin more than it had, none counting as 0, and no other page's pins change |
| `BufferPool.Pool.NewPageAt` | caracaldb/storage/buffer_pool.py:119-137 | zeroes a resident page or makes room for a new one; the page has one pin more, and no other page's pins change |
| `BufferPool.Pool.UnpinPage` | caracaldb/storage/buffer_pool.py:145-154 | one pin less, dirty if said so, refused when not resident or not pinned; no other page's pins change |
| `BufferPool.Pool.MarkPageDirty` | caracaldb/storage/buffer_pool.py:156-161 | sets the dirty flag of a resident page, and reports whether there was one |
| `BufferPool.Pool.EnsureCapacity` | caracaldb/storage/buffer_pool.py:199-205 | makes room as described, or changes nothing when all frames are pinned |
| `BufferPool.Pool.FlushAll` | caracaldb/storage/buffer_pool.py:170-172 | writes back every resident page once |
| `BufferPool.FlushAllCleans` | caracaldb/storage/buffer_pool.py:170-172 | after flush_all no page is dirty, and every page without a pending client write equals its disk copy |
| `BufferPool.OpenPool` | caracaldb/storage/buffer_pool.py:76-101 | refuses non-positive sizes; a fresh pool shows the disk |
| `Transactions.FirstCommitterWinsAlways` | caracaldb/tx/manager.py:69-88 | in every interleaving, of two successful commits that share a written key the earlier commit LSN is at most the later one's snapshot LSN |
| `Transactions.RejectedIffOvertaken` | caracaldb/tx/manager.py:58-88 | in every interleaving a transaction begun without an explicit snapshot is rejected at commit if and only if, after it began, a commit that wrote one of its keys went through |
| `Transactions.ConflictMapIsGreatest` | caracaldb/tx/manager.py:86-87 | the conflict map holds, for exactly the keys ever committed, the greatest commit LSN |
| `Transactions.StepKeeps` | caracaldb/tx/manager.py:58-95 | begin, record_write, commit, rollback and foreign log records keep both |
| `Transactions.TransactionManager.Start` | caracaldb/tx/manager.py:58-67 | a fresh id and the given snapshot or the log's end before the BEGIN record, which takes one LSN |
| `Transactions.TransactionManager.Finish` | caracaldb/tx/manager.py:69-88 | rejects exactly when a written key was committed after the snapshot and then changes nothing; otherwise stamps exactly the written keys with the next LSN |
| `Transactions.TransactionManager.Abort` | caracaldb/tx/manager.py:90-95 | clears the write set and takes one LSN |
| `Stores.FilterIsVisibility` | caracaldb/storage/node_store.py:296-313 | the column filter keeps a row exactly when RowVersion.visible_to says so: created by the snapshot and not deleted by it |
| `Stores.Scan` | caracaldb/storage/node_store.py:242-254 | every visible row of every chunk, in storage order |
| `Stores.AppendAdds` | caracaldb/storage/node_store.py:203-240 | a successful append adds exactly the batch, in order, under fresh consecutive ids |
| `Stores.AppendNumbers` | caracaldb/storage/edge_store.py:203-256 | row i of a store has id i, through every append |
| `Stores.LaterAppendHidden` | caracaldb/storage/node_store.py:203-254 | an append under a later LSN is invisible to every earlier snapshot |
| `TimeTravel.DoKeeps` | caracaldb/api.py:409-432 | inserts, refused or not, and snapshot bookkeeping leave every past reading of every store unchanged |
| `TimeTravel.SnapshotReadsThePast` | caracaldb/storage/snapshot.py:81-95 | over every run, reading any node or edge store at a snapshot's LSN yields exactly the rows, in order, it held when the snapshot was made |
| `TimeTravel.NameReadsThePast` | caracaldb/storage/snapshot.py:81-109 | so reading at the LSN a registered name stands for yields the rows the store held when the name was bound |
| `TimeTravel.EntryKeepsLsn` | caracaldb/storage/snapshot.py:112-139 | opening and releasing never change the LSN a registered name stands for |
| `TimeTravel.Database.AppendBatch` | caracaldb/api.py:1619-1625 | the LSN is taken before the append, so a refused batch costs one; accepted by the rows and columns alone |
| `TimeTravel.Database.InsertNodeBatch` | caracaldb/api.py:409-432 | accepted if and only if the class is known, the batch has rows, none of its columns is the id or an LSN column, and its columns are the store's if the store has chunks; then one chunk with the next ids, under the next LSN; an empty batch or unknown class costs nothing |
| `TimeTravel.Database.InsertEdgeGroups` | caracaldb/api.py:562-571 | one append per relation, stopping at the first that is refused; all are accepted if and only if there is a group and each has rows, no reserved column, src and dst of type uint64, and the columns of its store and of the earlier groups of its relation |
| `TimeTravel.Database.Snapshot` | caracaldb/storage/snapshot.py:81-95 | accepted if and only if the name is non-empty and new; then it is bound to the current LSN, with a count of one, and no other name changes |
| `TimeTravel.Database.ReleaseNamed` | caracaldb/storage/snapshot.py:122-139 | counts down and removes the name when its count was at most one; refused if the name is unknown; no other name changes |
| `TimeTravel.Database.ReadAsOf` | caracaldb/storage/snapshot.py:98-109 | resolves the name without touching the registry and reads the store at its LSN |
| `Expressions.EvalDependsOnColumnsUsed` | caracaldb/plan/rules.py:39-58 | the value of an expression depends on a batch only through its height and the columns _columns_used reports |
| `Expressions.EvalMonotone` | caracaldb/exec/expr.py:42-103 | an expression that has a value keeps it when columns are added |
| `Plans.OnePassSettles` | caracaldb/plan/rules.py:61-130 | after one pass of both rules neither changes any plan, well formed or not |
| `Plans.RunRules` | caracaldb/plan/rules.py:133-152 | returns the settled plan within two iterations, and names a rule exactly when one changed something; the plan is the original but for the columns of its scans: exactly those mentioned by a projection right above, with the filter between them, or those of a filter in addition to the listed ones |
| `Plans.OnePassRewrites` | caracaldb/plan/rules.py:61-130 | one pass of both rules leaves exactly that plan |
| `Expressions.UsedMeansMentioned` | caracaldb/plan/rules.py:39-58 | _columns_used reports a name if and only if a column reference to it stands in the expression or in one of its operands |
| `PlanMeaning.PushdownKeepsRows` | caracaldb/plan/rules.py:61-80 | predicate_pushdown preserves the rows by column name of every well-formed plan of any depth |
| `PlanMeaning.PruningKeepsRows` | caracaldb/plan/rules.py:83-107 | so does projection_pruning |
| `PlanMeaning.Rewrite` | caracaldb/plan/rules.py:133-152 | so does run_rules |
| `PlanMeaning.PruningExactlyWhen` | caracaldb/plan/rules.py:83-107 | pruning a runnable projection of a scan is right if and only if the class has every reported column, or none is reported |
| `PlanMeaning.FilteredPruningExactlyWhen` | caracaldb/plan/rules.py:93-105 | the same for a projection of a filtered scan, with the columns reported for its predicate |
| `PlanMeaning.PushdownExactlyWhen` | caracaldb/plan/rules.py:61-80 | widening a runnable filtered scan is right if and only if the scan already lists every reported column |
| `PlanMeaning.LiteralMistakenForColumn` | caracaldb/plan/rules.py:47-57 | a tuple literal that reads like a column reference makes a running plan fail after pruning |
| `Relabel.RelabelByTable` | caracaldb/api.py:7239-7254 | the dense-array branch relabels exactly the pairs with both ends sampled, in order |
| `Relabel.RelabelByDictionary` | caracaldb/api.py:7255-7266 | and so does the dictionary branch |
| `Relabel.RelabelEdges` | caracaldb/api.py:7231-7266 | so the density test does not matter |
| `Relabel.RelabelledMapsBack` | caracaldb/api.py:7239-7266 | each relabelled pair stands for one of the sampled pairs |
| `Relabel.RelabelledNames` | caracaldb/api.py:7239-7266 | the relabelled pairs name, by position, just the sampled pairs with both ends among the nodes, in order |
| `GnnSampler.VisitReader` | caracaldb/api.py:7171-7214 | one reader's turn: a sample of the frontier nodes it has, oriented source to target, cut to the edge cap, recorded, its far ends handed on, and the new ends added to the nodes |
| `GnnSampler.AddNodes` | caracaldb/api.py:7204-7212 | new nodes only, no duplicates, in ascending order, and all of them or the smallest until the cap, which is never exceeded |
| `GnnSampler.Grow` | caracaldb/api.py:7165-7228 | leaves a trace: frontier 0 is the capped seeds; until the edge cap every layer has a turn for every reader of every requested type, in order, each with a sample of the frontier; frontier i+1 holds, ascending, exactly the far ends recorded in layer i, under max_nodes those admitted; turns are cut by the edge cap only and nothing is recorded after a cut; the layers go on to the last fanout or an empty frontier |
| `GnnSampler.SampleSubgraph` | caracaldb/api.py:7115-7267 | rejects bad arguments; otherwise such a trace, whose recorded pairs with both ends known are the result, in order; n_id is duplicate-free, starts with the deduplicated, capped seeds and holds only nodes within one step per fanout of them; every pair maps back to a stored edge of a requested type; both caps hold; with positive fanouts and sampling the pairs stay within the budget of fanout pairs per frontier node, reader and layer; with strategy all and no caps no edge within reach is missing |
| `GnnSampler.DedupKeepsFirsts` | caracaldb/api.py:7150-7155 | each seed is taken where it occurs first, in that order |
| `SampleTrace.TookMore` | caracaldb/api.py:7169-7216 | the turns of a layer add up: their columns end to end, cut by the edge cap only, each continuing from the nodes the one before it left |
| `SampleTrace.TraceStep` | caracaldb/api.py:7165-7228 | a layer taken from the last frontier of a trace, and what it hands on, make a longer trace of the longer sample |
| `SampleMeaning.TracedIsStored` | caracaldb/api.py:7165-7228 | everything a traced run records is a stored edge of a requested type |
| `SampleMeaning.TracedIsNear` | caracaldb/api.py:7165-7228 | and every node within one step per layer of a seed |
| `SampleMeaning.TracedIsFrugal` | caracaldb/api.py:7165-7228 | with sampling and positive fanouts it records at most its budget |
| `SampleMeaning.TracedIsExhaustive` | caracaldb/api.py:7165-7228 | with strategy all and no caps it records every edge that leaves a node fewer steps from a seed than there are layers |
| `SampleMeaning.ReaderHoldsTable` | caracaldb/api.py:7289-7300 | a reader built from the edge table, forward or reverse, with or without edge ids, holds an edge if and only if it is a row of the table |
| `SampleDraws.LayerDraws` | caracaldb/api.py:7165-7228 | without an edge cap every layer has, for each reader of each requested type, a turn recorded whole that draws of every frontier node the reader has all its neighbours, or as many as the fanout allows by the strategy |
| `SampleDraws.DrawnWithoutRepeats` | caracaldb/graph/csr_reader.py:159-195 | without repeats that is min(fanout, degree) different places of the node's list |
| `SampleDraws.CoveredInOrder` | caracaldb/api.py:7171-7173 | the frontier nodes a reader has come in frontier order |

## Left out

- PatternTheorems.MatchPattern: asks for a stored id column and integer ids inside the vertex space on every class of the pattern, because the compiled scan has no meaning without them; ids need not be unique.
- PatternPipeline.RunPattern: node aliases are distinct and their qualified columns do not collide, which distinct dot-free aliases guarantee; the WHERE and RETURN stages after the last join are ordinary per-row operators and are left out.
- PatternPipeline.Expand: the optional edge-id column, which the pattern compiler does not ask for, is left out.
- Operators.HashJoin: inner joins only; the left-join branch is not used by the pattern compiler. A missing key column is excluded by the argument types.
- Paths.TypedAdjacency: edge filters, property ordering and the per-node cut-off are left out.
- ShortestPath.PathsQuery: edge filters and path scores are left out; node keys arrive resolved to internal ids.
- ShortestPath.EnumerationExact: edge rows are distinct, which fails only where an edge type is asked for twice; its paths then come twice.
- InferClosure.InferAll: the log record of a materialisation and a rule other than the two are left out; the stores are distinct objects, and targets name them by position.
- Hierarchy.FromEdges: the node list and the children of the parent table are distinct, as a catalogue's classes and a dictionary's keys are.
- ClosureIndex.Index.IsSubclass: class ids are distinct, as the catalogue assigns them; reading cached bitmaps from a file, which trusts them when the ids match, is left out.
- WalCodec.ReadCutSegment: LSNs are natural numbers; appending to a segment whose tail is torn inside a record is left out.
- WalFiles.Wal.Append: statistics counters are left out.
- Durability.FlushedRecordsSurvive: segment indices are compared as numbers; name order agrees with them below one million, and not always above; a crash that takes a 24-byte header is described in HeaderLoss and not part of the runs.
- Recovery.Recover: the log is rising, as every run keeps it.
- Transactions.TransactionManager.Finish: the log is reduced to its LSN counter, the lock to atomic steps.
- BufferPool.Pool.FetchPage: page ids are natural numbers; callbacks that raise are left out.
- TimeTravel.SnapshotReadsThePast: the insert calls and the snapshot registry; upserts, appends with the default LSN and writes through the log's own clock are left out, and edge rows come grouped by relation with endpoints resolved.
- Stores.AppendAdds: a column type is a name; Arrow types and chunk files are left out.
- PlanMeaning.Rewrite: values are opaque and errors keep only their code; well-formed means that scans list existing columns and the filters and projections directly above them mention columns they offer.
- GnnSampler.SampleSubgraph: seeds are given as internal ids, ids stay below 2^63, and the edge types as the readers that serve them.
- Vector indexes, text scoring, entity linking, GraphRAG ranking: floating point and foreign libraries.
- The Tuft language front end, Arrow files, compression, zip bundles, JSON manifests, the command line and viewer: foreign calls or plumbing.
- The property-index prefilter, cost estimates, random walks, bundle diff, RDF and Parquet ingest: would only add easy members, or have no exact specification.
