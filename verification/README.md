# Verified models of DuckDB's transactional storage, optimizer rewrites and hash structures

This project models the parts of DuckDB in which many small steps have to add up
to one simple promise, and proves the promise for all inputs, all runs and all
interleavings.

**Transactions and storage.** `VersionChain`, `Mvcc`, `MvccInvariant`,
`MvccSteps` and `MvccTheorems` define multi-version concurrency control as a
transition system: starting, writing, committing entry by entry, rolling back
entry by entry and collecting garbage. A cell of this system is a table row or a
catalog name. The theorems are about every run: snapshot isolation, rollback,
safe and exact garbage collection, and the row counter. The imperative modules
are proved against the functions of this system. `TransactionManager` holds the
loops over undo buffers and transaction lists, `StorageChunk` the doubly linked
lists of pre-images, `TableScan` scanning and fetching, `CatalogSet` the
versions of catalog names. The operations on a row chain or a name chain are the
same functions (`Push`, `Stamp`, `Undo`, `Unlink`, `Pick`) that the transition
system uses. `TableSteps` and `CatalogSteps` show that every operation on the
pointers is a step of the system: from the empty table or set on, what the
pointers hold is what the state holds. `Snapshots` puts both together: a scan of
the pointers of a table, and a lookup in the lists of a catalog set, return what
the history of commits defines. `ClockOverflow` is about commit numbers that reach
the transaction identifiers. A chain node holds the value after a write;
`StorageChunk.ChainOf` relates this to the values before a write that a chunk
stores.

**Keys and durability.** `UniqueKeys` adds a unique index to the transition
system and proves key uniqueness over all runs in which the test and the writes of
a batch are one step; `IndexLocks` takes them apart, with the chunk locks that
the engine holds, and says exactly when keys stay unique. `UniqueIndex` is the
search tree with its tests, which are shown to be the condition that `UniqueKeys`
needs. `CommitLogging` commits an undo buffer against the version lists of the
tables, `UndoLogging` keeps what it logs in order, and `WriteAheadLog` says what
any prefix of the bytes replays to.

**Optimizer rewrites.** `FilterCombiner` merges equalities and prunes
comparisons under three-valued logic, `JoinOrder` rebuilds a plan from a join
tree, and `MarkJoin` rewrites IN lists. `CorrelatedMarks` computes the marks of
correlated subqueries from a hash table and a table of counts. `Comparisons` has
the comparison operators, `Vectors` the vector size and values with their NULL
mask.

**Execution.** `AggregateHashTable` is the linear-probing table of groups,
`Aggregates` the running STDDEV_SAMP and COUNT(DISTINCT) on top of it,
`JoinHashTable` the chained table with its incremental probes, and `SegmentTree`
the window segment tree.

Some members carry ghost parameters that name the position of a node in a list
or the history so far; they do not influence what is computed.

## Where the code does less than it seems to promise

Each of these is kept as it is in the code, with the exact condition.

- A commit does not test the clock, only a start does
  (`src/transaction/transaction_manager.cpp:28-63`), so commit numbers can reach the
  transaction identifiers. Commits at any clock are part of the transition system
  and of all runs. `MvccTheorems.ReadExactly` says what is read,
  `MvccTheorems.SnapshotExactly` when that is the snapshot, and
  `ClockOverflow.ConflictExactly` which writes are refused;
  `ClockOverflow.LateCommitIsRead` is a run.
- A pre-image does not record that the row was deleted
  (`src/transaction/transaction.cpp:32-55`), and the conflict test admits a write to a
  row whose deletion is committed. `StorageChunk.WriteInvisibleExactly`,
  `StorageChunk.UndoRestoresExactly` and `Snapshots.WriteIsStep` are the exact conditions,
  `DeletedRows.DeletedRowReappears` is a run. The transition system takes
  updates and deletions of rows that are not deleted.
- Halfway through the rollback of a bulk update the base table can hold a key
  twice (`UniqueKeys.RollbackShowsDuplicate`). `UniqueKeys.UniqueOverRuns` speaks
  about what remains once rollbacks are complete, and `UniqueKeys.BaseUnique`
  about the base table: only rows that are still to be undone can share a key.
- A test of the unique index reads the rows of the last chunk without a lock
  (`src/storage/unique_index.cpp:42-48`), which is right for appends, whose lock the
  comment there assumes, but updates make the same test. `IndexLocks.UniqueExactly`
  is the exact condition over all runs, `IndexLocks.LocksExclude` says which locks
  ensure it, and `IndexLocks.TailUpdateDuplicates` is a run without it.
- A join compares the data of probe keys under their NULL mask
  (`src/execution/join_hashtable.cpp:413-482`), while only the build side drops rows
  with NULL. `JoinHashTable.JoinExactly` and `JoinHashTable.DrainExactly` are the
  exact conditions, `JoinHashTable.NullProbeIsJoined` is an instance. Without NULL
  in the probe keys all joins are exact (`JoinHashTable.EmittedIs`).
- `e = e` is pruned although it rejects NULL. `FilterCombiner.GeneratesExactly` is the
  exact condition under which this is noticed, and `FilterCombiner.RepairedPasses`
  says that nothing else is lost.
- Pruning treats a NULL constant as the smallest value
  (`FilterCombiner.SoundExactly`, with the instance `FilterCombiner.NullIsPruned`).
  Comparisons with NULL are folded before filters get here
  (`src/optimizer/rule/comparison_simplification.cpp:18-29`).
- An empty log entry stops the replay, and sizes are cut to 32 bits
  (`WriteAheadLog.ReplaysExactly`).
- The MinimumValue of FLOAT and DOUBLE is the smallest positive number
  (`src/common/types/value.cpp:24-54`), so the window MAX of values below it is wrong
  (`SegmentTree.FoldMaxExactly`).
- The window MIN takes the MaximumValue of a type for an empty vector
  (`src/common/vector_operations/aggregate_operators.cpp:85-94`), and a part of the
  window that is NULL makes the result NULL. `Compute` of `SegmentTree` is right if every part of
  a group in the window has a smaller value, and NULL if a part at an end that is
  not a whole group has none; `SegmentTree.LivelyExactly` says for which inputs all
  windows are right. If a whole group has none, its node is not written
  (`WriteGroup`), and the result is NULL or at most whatever the node holds.

## Model

| member | source | states |
|---|---|---|
| `MvccSteps.StepKeeps` | src/transaction/undo_buffer.cpp:26-282 | every step of the transition system (start, write, one entry of a commit, one entry of a rollback, one entry of a collection, and what surrounds them) keeps the invariant: each chain is the uncommitted entries of at most one transaction, newest first, then the entries of the committed transactions in reverse commit order |
| `MvccSteps.InitKeeps` | src/transaction/transaction_manager.cpp:16-26 | the invariant holds when the engine starts |
| `MvccSteps.WriteKeeps` | src/transaction/transaction.cpp:17-55 | linking a pre-image in front of a chain keeps the invariant, because the conflict test found no entry of another running or committing transaction there |
| `MvccSteps.UndoKeeps` | src/transaction/undo_buffer.cpp:252-282 | undoing the last entry of a transaction keeps it |
| `MvccSteps.BeginCommitKeeps` | src/transaction/transaction_manager.cpp:50-63 | taking a commit identifier keeps it |
| `MvccSteps.CommitOneKeeps` | src/transaction/undo_buffer.cpp:204-232 | stamping a single entry in the middle of a commit keeps it |
| `MvccSteps.EndCommitKeeps` | src/transaction/transaction_manager.cpp:91-104 | moving the transaction to the recently committed ones keeps it |
| `MvccSteps.CleanupKeeps` | src/transaction/undo_buffer.cpp:26-63 | collecting a single entry keeps it |
| `MvccSteps.RetireKeeps` | src/transaction/transaction_manager.cpp:105-138 | freeing a collected transaction keeps it |
| `MvccTheorems.RunInv` | src/transaction/transaction_manager.cpp:28-154 | the invariant holds in every state of every run of interleaved steps |
| `MvccTheorems.ReadIsSnapshot` | src/storage/data_table.cpp:394-428 | snapshot isolation: what the visibility walk selects for a running transaction is the database after exactly the commits with a smaller number than its start time, overlaid with its own writes, unless a commit has its identifier as number |
| `MvccTheorems.ReadExactly` | src/storage/data_table.cpp:394-428 | in every reachable state, with no condition on the clock: a transaction reads the commits before its start, over them the commit whose number is its identifier, as far as that commit got, and over them its own writes |
| `MvccTheorems.SnapshotExactly` | src/storage/data_table.cpp:394-428 | a transaction reads its snapshot and its own writes in all cells if and only if the commit whose number is its identifier leaves every cell that the transaction has not written as it is in the snapshot |
| `MvccTheorems.ClockBelow` | src/transaction/transaction_manager.cpp:28-63 | there is no such commit while the clock is not above 2^32 |
| `ClockOverflow.ClashIsRead` | src/transaction/transaction_manager.cpp:50-63 | a row of the commit whose number is the identifier of a transaction is read by it like an own write, whatever was committed since |
| `ClockOverflow.LateCommitIsRead` | src/transaction/transaction_manager.cpp:28-63 | a run, up to a clock of 2^32, after which a transaction reads a row that was committed after its start |
| `ClockOverflow.ConflictExactly` | src/storage/data_table.cpp:206-219 | while nobody commits, a write to a cell without uncommitted entries is refused if and only if the newest commit on it has a number from 2^32 on, other than the identifier of the writer |
| `ClockOverflow.OtherWriterConflicts` | src/storage/data_table.cpp:206-219 | a write to a cell with an uncommitted entry of another transaction is refused, whatever the clock |
| `MvccTheorems.ViewStable` | src/storage/data_table.cpp:394-428 | over a run, no step of others (including single entries of half-done commits and rollbacks, and collection) changes what a transaction sees, unless a commit gets its identifier as number |
| `MvccTheorems.SnapshotStable` | src/transaction/undo_buffer.cpp:204-250 | no step changes the database of the commits before a given start time |
| `MvccTheorems.FreshRead` | src/transaction/transaction_manager.cpp:28-48 | a transaction that can start while no commit is in progress sees all finished commits |
| `MvccTheorems.StartAbove` | src/transaction/transaction_manager.cpp:28-48 | a transaction that starts has a start time above the number of every commit there was, an identifier of its own and no writes |
| `MvccTheorems.StartReadsAll` | src/transaction/transaction_manager.cpp:28-48 | a transaction that starts reads in every cell what all finished commits left there |
| `MvccTheorems.CommittedLast` | src/storage/data_table.cpp:394-428 | what the commits leave in a cell is the value of the last write to it by the last commit that wrote it |
| `MvccTheorems.CommittedNone` | src/storage/data_table.cpp:394-428 | a cell that no commit wrote has no row |
| `MvccTheorems.SnapshotLast` | src/storage/data_table.cpp:394-428 | the snapshot at a start time has in a cell the last value written by the last commit with a smaller number that wrote it |
| `MvccTheorems.SnapshotNone` | src/storage/data_table.cpp:394-428 | a cell that no commit with a smaller number wrote has no row in the snapshot |
| `MvccTheorems.CardinalityCounts` | src/transaction/undo_buffer.cpp:216-232 | whenever no commit is half done, the row counter is the number of rows a transaction starting now would see |
| `MvccTheorems.StartCounts` | src/transaction/transaction_manager.cpp:28-48 | the row counter is the number of rows that a transaction reads when it starts |
| `MvccTheorems.CollectionExact` | src/transaction/transaction_manager.cpp:77-138 | when collection stops at its early break, exactly the transactions committed before every running one are gone, and none committed from 2^32 on |
| `MvccTheorems.NoDangling` | src/transaction/transaction_manager.cpp:105-154 | every node of every chain belongs to a transaction that is not freed |
| `MvccTheorems.CollectedIsOldest` | src/transaction/undo_buffer.cpp:26-63 | the node that collection takes out is the oldest of its chain and committed |
| `MvccTheorems.UndoneIsNewest` | src/storage/storage_chunk.cpp:34-50 | every entry is at the head of its list when it is undone |
| `MvccTheorems.RollbackRestores` | src/transaction/undo_buffer.cpp:252-282 | a rollback gives every cell the transaction wrote the newest committed value, leaves all other chains and the row counter alone |
| `MvccTheorems.RollbackReturns` | src/transaction/undo_buffer.cpp:252-282 | over a run, a rollback gives a cell the value it had before the transaction first wrote it, whatever others did in between |
| `MvccTheorems.CommittedFrozen` | src/storage/data_table.cpp:213-219 | while a transaction has uncommitted entries on a cell, nobody commits another value to it |
| `MvccTheorems.CommitFindsWritten` | src/transaction/undo_buffer.cpp:128-202 | when an entry commits, the chain still holds the value that entry wrote, even if the transaction wrote the cell again, and the value below it is absent exactly for insertions |
| `TransactionManager.Manager.constructor` | src/transaction/transaction_manager.cpp:16-26 | the initial state of the transition system |
| `TransactionManager.Manager.StartTransaction` | src/transaction/transaction_manager.cpp:28-48 | an error once the clock has reached 2^32; otherwise a transaction without writes whose start time is above the number of every commit, and which reads in every cell what all finished commits left there |
| `TransactionManager.Manager.LowestOther` | src/transaction/transaction_manager.cpp:78-91 | the loop finds the lowest start time of all other active transactions, 2^32 if there is none |
| `TransactionManager.Manager.Cleanup` | src/transaction/undo_buffer.cpp:26-63 | the loop over one undo buffer performs the collection steps of its entries |
| `TransactionManager.Manager.RemoveTransaction` | src/transaction/transaction_manager.cpp:77-154 | leaves the active list and collects until the oldest committed transaction is still needed |
| `TransactionManager.Manager.CommitTransaction` | src/transaction/transaction_manager.cpp:50-63 | all commit steps of the transaction in order, then removal and collection |
| `TransactionManager.Manager.RollbackTransaction` | src/transaction/transaction_manager.cpp:65-75 | all undo steps from the end of the undo buffer, then removal and collection |
| `TransactionManager.CommitAppends` | src/transaction/transaction_manager.cpp:50-63 | a commit appends exactly one transaction, with the next commit identifier, to the history of committed transactions, and the oldest of those left uncollected is still needed by a running one or has a number from 2^32 on |
| `TransactionManager.RollbackAppendsNothing` | src/transaction/transaction_manager.cpp:65-75 | a rollback leaves the history of committed transactions as it was, and collects as far as a commit does |
| `TransactionManager.NothingHalfCollected` | src/transaction/transaction_manager.cpp:105-138 | between two collections no remaining transaction is partly collected |
| `StorageChunk.Chunk.Link` | src/transaction/transaction.cpp:32-55 | a new node becomes the head of the doubly linked list of its row, and the old head points back to it |
| `StorageChunk.Chunk.Cleanup` | src/storage/storage_chunk.cpp:25-32 | takes the head out of the list of its row |
| `StorageChunk.Chunk.Splice` | src/transaction/undo_buffer.cpp:50-58 | takes a node out of the middle of its list |
| `StorageChunk.Chunk.Collect` | src/transaction/undo_buffer.cpp:43-58 | unlinks the version of one undo entry from the chain of its row and leaves all other rows alone |
| `StorageChunk.Chunk.StampEntry` | src/transaction/undo_buffer.cpp:216-220 | gives the version of one undo entry its commit identifier |
| `StorageChunk.Chunk.Undo` | src/storage/storage_chunk.cpp:34-50 | undoes the newest version of the row: base value, deleted flag and list |
| `StorageChunk.Chunk.DeleteRow` | src/storage/data_table.cpp:206-224 | fails exactly on a write-write conflict, else pushes a deletion |
| `StorageChunk.Chunk.UpdateRow` | src/storage/data_table.cpp:263-302 | fails exactly on a write-write conflict, else pushes the new value; a row that is deleted stays deleted |
| `StorageChunk.Chunk.AppendRow` | src/storage/data_table.cpp:143-159 | the new row has one version, an uncommitted insertion, and was absent before it |
| `StorageChunk.Chunk.FindChunk` | src/transaction/undo_buffer.cpp:145-153 | following the back links from any node ends at the chunk of its row |
| `StorageChunk.Chunk.InsertedRow` | src/transaction/undo_buffer.cpp:137-201 | the row that is logged for an insertion is the value the insertion left |
| `StorageChunk.LinkIs` | src/transaction/transaction.cpp:32-55 | a pre-image in front of a list is a version pushed on the chain |
| `StorageChunk.SpliceIs` | src/transaction/undo_buffer.cpp:43-58 | a pre-image taken out of a list is a version unlinked from the chain |
| `StorageChunk.UndoIs` | src/storage/storage_chunk.cpp:34-50 | copying the newest pre-image back is undoing the newest version |
| `StorageChunk.StampIs` | src/transaction/undo_buffer.cpp:216-220 | numbering a node stamps its version and no other |
| `StorageChunk.BeforeIs` | src/transaction/transaction.cpp:32-55 | the value below a version is the pre-image that its node keeps |
| `StorageChunk.WriteInvisibleExactly` | src/transaction/transaction.cpp:32-55 | a write is invisible to another transaction if and only if the row was not deleted or that transaction does not read the base row |
| `StorageChunk.UndoRestoresExactly` | src/storage/storage_chunk.cpp:34-50 | undoing a write gives the row back if and only if it was not deleted before the write |
| `DeletedRows.DeletedRowReappears` | src/storage/data_table.cpp:264-278 | a run at whose end a transaction can update a row whose deletion is committed, after which a reader that started after the deletion sees the row again |
| `TableScan.PickImageIs` | src/storage/data_table.cpp:402-427 | walking pre-images to the last invisible one selects what the version chain shows |
| `TableScan.FollowVersions` | src/storage/data_table.cpp:402-427 | the pointer walk returns the value the transaction sees |
| `TableScan.SplitBlock` | src/storage/data_table.cpp:377-386 | every visible row of the block is in exactly one of the two selections; rows without versions read as the base row |
| `TableScan.ChaseVersions` | src/storage/data_table.cpp:388-431 | rows with versions are split into base rows, pre-images and nothing, keeping the visible values |
| `TableScan.BaseData` | src/storage/data_table.cpp:340-366 | copies exactly the selected base rows |
| `TableScan.ScanBlock` | src/storage/data_table.cpp:376-433 | the values of a block are exactly its visible rows, each once |
| `TableScan.DataTable.GetChunk` | src/storage/data_table.cpp:38-50 | finds the chunk that holds the row identifier, and fails exactly on those out of range |
| `TableScan.DataTable.FetchRow` | src/storage/data_table.cpp:457-518 | the visible value of one row identifier |
| `TableScan.DataTable.Fetch` | src/storage/data_table.cpp:446-522 | the visible rows among the identifiers, in their order; an error exactly if one is out of range |
| `TableScan.DataTable.NextBlock` | src/storage/data_table.cpp:368-444 | reads the visible rows of the next block and moves past it |
| `TableScan.DataTable.Scan` | src/storage/data_table.cpp:368-444 | at most one vector of visible rows, between the old and the new place; nothing only at the end |
| `TableScan.DataTable.Drain` | src/storage/data_table.cpp:368-444 | repeated scans return every visible row of the table exactly once |
| `Snapshots.ViewAtIsOwn` | src/storage/data_table.cpp:394-428 | every row identifier shows the transaction what ReadExactly says |
| `Snapshots.OwnIs` | src/storage/data_table.cpp:394-428 | what a transaction reads is the database of the commits before its start with its own writes, unless a commit has its identifier as number |
| `Snapshots.ScanTable` | src/storage/data_table.cpp:368-444 | from the pointers up to the history of commits: a full scan returns exactly the rows that the transaction reads, each once |
| `Snapshots.WriteIsStep` | src/transaction/transaction.cpp:32-55 | a write to a row is the write step of the transition system if and only if the row was not deleted |
| `Snapshots.LookupName` | src/catalog/catalog_set.cpp:152-165 | a catalog lookup finds exactly what the transaction reads under the name |
| `TableSteps.HoldsIs` | src/storage/data_table.cpp:368-444 | a table that holds the rows of a state, as the operations below keep it, is as scans, index tests and the theorems about them need it |
| `TableSteps.NewTable` | src/storage/data_table.cpp:17-30 | a new table holds the rows of the initial state |
| `TableSteps.Append` | src/storage/data_table.cpp:143-183 | appending a row, to a new chunk if the last one is full, is the write step of an insertion: the table holds the rows of the next state |
| `TableSteps.UpdateOrDelete` | src/storage/data_table.cpp:206-302 | updating or deleting a row that is not deleted is the write step of the transition system, and happens if and only if that step can |
| `TableSteps.CommitRow` | src/transaction/undo_buffer.cpp:216-220 | committing one undo entry of a row is one commit step |
| `TableSteps.UndoRow` | src/storage/storage_chunk.cpp:34-50 | undoing one undo entry of a row, which is at the head of its list, is one undo step |
| `TableSteps.CollectRow` | src/transaction/undo_buffer.cpp:43-58 | collecting one undo entry of a row is one collection step |
| `TableSteps.ElsewhereKeeps` | src/transaction/transaction_manager.cpp:28-154 | all steps that change no row of the table leave it with the rows of the next state |
| `CatalogSteps.NewSet` | src/catalog/catalog_set.cpp:9-50 | a new catalog set holds the names of the initial state |
| `CatalogSteps.CreateName` | src/catalog/catalog_set.cpp:9-50 | creating a name is the write step of an insertion, and happens if and only if that step can |
| `CatalogSteps.AlterName` | src/catalog/catalog_set.cpp:52-83 | altering a name is the write step of an update, and happens if and only if the name exists, the change is supported and the step can happen |
| `CatalogSteps.DropName` | src/catalog/catalog_set.cpp:85-134 | dropping a name is the write step of a deletion, and happens if and only if the step can and no dependent object prevents it |
| `CatalogSteps.CommitName` | src/transaction/undo_buffer.cpp:208-215 | committing one undo entry of a name is one commit step |
| `CatalogSteps.UndoName` | src/catalog/catalog_set.cpp:167-186 | undoing one undo entry of a name, which is always that of its newest version, is one undo step |
| `CatalogSteps.CollectName` | src/transaction/undo_buffer.cpp:36-42 | collecting one undo entry of a name, which always keeps its oldest version, is one collection step |
| `CatalogSteps.ElsewhereKeeps` | src/transaction/transaction_manager.cpp:28-154 | all steps that change no name of the set leave it with the names of the next state |
| `CatalogSet.Set.CreateEntry` | src/catalog/catalog_set.cpp:9-50 | a conflict, a refusal because the name exists, or a new version pushed on the chain of the name; other names keep theirs |
| `CatalogSet.Set.AddDummy` | src/catalog/catalog_set.cpp:17-28 | an unknown name gets a deleted version that changes no view |
| `CatalogSet.Set.AlterEntry` | src/catalog/catalog_set.cpp:52-83 | all outcomes of an alteration, and the altered version on the chain |
| `CatalogSet.Set.DropEntry` | src/catalog/catalog_set.cpp:85-134 | all outcomes of a drop, and the deletion on the chain |
| `CatalogSet.Set.GetEntryForTransaction` | src/catalog/catalog_set.cpp:136-150 | the version that the visibility walk selects |
| `CatalogSet.Set.GetEntry` | src/catalog/catalog_set.cpp:152-165 | absent exactly if the selected version is a deletion |
| `CatalogSet.Set.CommitEntry` | src/transaction/undo_buffer.cpp:208-215 | the version that replaced the one in the undo buffer gets the commit identifier, as one step of a commit does |
| `CatalogSet.Set.Undo` | src/catalog/catalog_set.cpp:167-186 | takes the version that replaced the given one out of the list; at the head this is the undo step |
| `CatalogSet.Set.Cleanup` | src/transaction/undo_buffer.cpp:36-42 | drops the superseded version, which has no older one left, as one step of a collection does |
| `CatalogSet.CleanupIs` | src/transaction/undo_buffer.cpp:36-42 | dropping the oldest version of a list unlinks the version that replaced it |
| `CatalogSet.WithoutIs` | src/catalog/catalog_set.cpp:167-186 | removing one version of a list removes its node of the chain |
| `WriteAheadLog.SizeRoundTrip` | src/storage/write_ahead_log.cpp:150-156 | a size reads back modulo 2^32 |
| `WriteAheadLog.ParseTransaction` | src/storage/write_ahead_log.cpp:36-88 | a flushed transaction is read back whole, and reading goes on behind it |
| `WriteAheadLog.CutTransaction` | src/storage/write_ahead_log.cpp:36-88 | a transaction cut anywhere before the end of its flush yields nothing |
| `WriteAheadLog.PrefixReplays` | src/storage/write_ahead_log.cpp:36-88 | crash atomicity: every byte prefix of a log replays exactly the transactions whose flush lies in it, in order |
| `WriteAheadLog.ReplaysExactly` | src/storage/write_ahead_log.cpp:26-88 | a log gives its transactions back if and only if every entry has a valid type and between 1 and 2^32 - 1 bytes |
| `WriteAheadLog.FailureKeepsEarlier` | src/storage/write_ahead_log.cpp:48-67 | when a transaction fails to replay, exactly those before it remain |
| `WriteAheadLog.ReplayExactly` | src/storage/write_ahead_log.cpp:52-61 | replaying a transaction gives a database if and only if its entries lead there one after the other, and fails if and only if after some of them the next cannot be applied |
| `WriteAheadLog.RecoverIs` | src/storage/write_ahead_log.cpp:48-67 | a recovery passes through one database per replayed transaction and stops at the first transaction that fails |
| `WriteAheadLog.LogRecovers` | src/storage/write_ahead_log.cpp:36-88 | recovering from a log cut anywhere replays, entry by entry, the transactions whose flush lies before the cut, up to the first that fails |
| `WriteAheadLog.Log.WriteEntry` | src/storage/write_ahead_log.cpp:150-156 | appends type, size and contents |
| `WriteAheadLog.Log.Flush` | src/storage/write_ahead_log.cpp:352-359 | appends the flush header |
| `WriteAheadLog.Log.WriteTransaction` | src/storage/write_ahead_log.cpp:141-156 | the file stays the log of all committed transactions |
| `WriteAheadLog.Log.Replay` | src/storage/write_ahead_log.cpp:36-88 | the transactions the file holds are applied in order, each by a chain of databases with one applied entry between neighbours, up to the first transaction with an entry that cannot be applied, of which nothing remains |
| `UndoLogging.FlushAppends` | src/transaction/undo_buffer.cpp:112-126 | all buffered rows go to the log, once each and in order |
| `UndoLogging.WriteTuple` | src/transaction/undo_buffer.cpp:128-202 | one more inserted row is in the buffer of its table; a full buffer goes to the log first |
| `UndoLogging.LogEntry` | src/transaction/undo_buffer.cpp:204-250 | one undo buffer entry goes to the log: logged and buffered events together stay those of the entries so far, for every table and for the catalog |
| `UndoLogging.RowsInAt` | src/transaction/undo_buffer.cpp:112-126 | the rows logged for a table are those of its batches one after the other, each row at the place behind the rows of the batches before |
| `UndoLogging.RowsInFrom` | src/transaction/undo_buffer.cpp:112-126 | and every logged row lies in such a batch |
| `UndoLogging.QuerySides` | src/transaction/undo_buffer.cpp:204-250 | a logged query has before it exactly the rows of each table and the catalog changes that were before it in the undo buffer |
| `CommitLogging.NodeIsWrite` | src/transaction/undo_buffer.cpp:128-202 | the node of an entry that commits has the value of its write, and keeps no pre-image exactly if the write is an insertion |
| `CommitLogging.LoggedRow` | src/transaction/undo_buffer.cpp:128-202 | the row found through the version list is the value the row was inserted with, whatever the transaction did to it later; updates and deletions log none |
| `CommitLogging.StampRow` | src/transaction/undo_buffer.cpp:216-220 | stamping the entry of a row is one commit step for all tables |
| `CommitLogging.CommitEntry` | src/transaction/undo_buffer.cpp:204-241 | an inserted row is logged with its table and the value it was inserted with, an update or deletion as nothing to write, a query or catalog change as itself; all tables hold the next state |
| `CommitLogging.InsertedAt` | src/transaction/undo_buffer.cpp:128-202 | every insertion into a table has its value among the inserted rows, at the place given by the insertions before it |
| `CommitLogging.InsertedFrom` | src/transaction/undo_buffer.cpp:128-202 | and every inserted row is the value of such an insertion |
| `CommitLogging.EntriesTell` | src/transaction/undo_buffer.cpp:128-241 | the rows that the entries of an undo buffer log for a table are the values inserted into it |
| `CommitLogging.QueryPlace` | src/transaction/undo_buffer.cpp:204-250 | every logged query is one of the undo buffer, with the same rows and changes before it |
| `CommitLogging.CommitEntries` | src/transaction/undo_buffer.cpp:204-250 | the log holds the events of all entries, in order, for every table and for the catalog |
| `CommitLogging.Commit` | src/transaction/undo_buffer.cpp:204-250 | the rows logged for a table are the values of the insertions into it, in the order of the writes, and nothing else; queries and catalog changes are those of the undo buffer, in order; before each logged query are exactly the rows and changes that were before it in the buffer; logged batches hold 1 to 1024 rows; all tables hold the rows of the state with all entries stamped |
| `UniqueKeys.BatchUnique` | src/storage/unique_index.cpp:278-357 | a batch that passes the index test keeps all keys unique, whichever running transactions commit |
| `UniqueKeys.ClashExactly` | src/storage/unique_index.cpp:33-111 | a chain clashes with a key if and only if one of its values down to the first visible version, without the newest one for a replaced row, has that key |
| `UniqueKeys.FreeKeysPass` | src/storage/unique_index.cpp:18-357 | a batch of different keys that no version of any row has passes the test |
| `UniqueKeys.OtherUnique` | src/storage/data_table.cpp:227-309 | a write that keeps the key of its row keeps all keys unique without a test |
| `UniqueKeys.PlainUnique` | src/transaction/undo_buffer.cpp:204-282 | starting, committing, rolling back and collecting keep all keys unique |
| `UniqueKeys.StepKept` | src/transaction/undo_buffer.cpp:204-282 | what the table becomes for a choice of rolled back transactions after such a step is what it becomes for a choice before it |
| `UniqueKeys.UniqueOverRuns` | src/storage/unique_index.cpp:18-357 | in every state of every run in which each batch is tested and written without another batch in between, and for every set of running transactions that are rolled back, no two rows share a key, and the index covers all keys in all chains |
| `UniqueKeys.BaseUnique` | src/storage/unique_index.cpp:18-357 | no two rows of the base table share a key, except for rows that a rollback in progress still has to undo |
| `UniqueKeys.RollbackShowsDuplicate` | src/transaction/undo_buffer.cpp:252-282 | a run in which the base table holds a key twice halfway through a rollback |
| `IndexLocks.StepInv` | src/storage/unique_index.cpp:18-134 | with test and writes of a batch as separate steps under chunk locks: the index covers all rows and all tested batches, and a tested batch holds the locks of its rows |
| `IndexLocks.StepUnique` | src/storage/unique_index.cpp:278-357 | every step but a test keeps uniqueness, of the table with all tested batches written out too, and a test keeps it if and only if no batch that is tested and not yet written has one of its keys |
| `IndexLocks.TestExactly` | src/storage/unique_index.cpp:18-134 | the same for the test step |
| `IndexLocks.UniqueExactly` | src/storage/unique_index.cpp:18-357 | over every run of such steps: the table can never come to hold a key twice if and only if no test passes while a batch with one of its keys is tested and not yet written |
| `IndexLocks.LocksExclude` | src/storage/unique_index.cpp:40-56 | no such test passes if it holds the lock of the last chunk, if nobody holds that lock, or if it meets only rows of other chunks |
| `IndexLocks.NewRowsExclude` | src/storage/unique_index.cpp:224-267 | a batch of new rows is never the other batch of such a test |
| `IndexLocks.BaseStaysUnique` | src/storage/unique_index.cpp:18-357 | over every run in which all tests are of this kind no two rows of the base table share a key, except for rows being undone |
| `IndexLocks.TailUpdateDuplicates` | src/storage/unique_index.cpp:45-48 | a run with an update in the last chunk and one elsewhere after which the base table holds a key twice, with no transaction rolling back |
| `UniqueIndex.RowConflicts` | src/storage/unique_index.cpp:33-111 | the test of one row compares the key with the base value, unless the row is ignored, and with every pre-image down to the visible version |
| `UniqueIndex.SearchComplete` | src/storage/unique_index.cpp:18-134 | equal keys lie on one search path: a finished search has visited all nodes with its key |
| `UniqueIndex.Index.Traverse` | src/storage/unique_index.cpp:26-121 | goes down to an empty place if and only if every row indexed under the key admits it |
| `UniqueIndex.Index.AddEntry` | src/storage/unique_index.cpp:18-134 | adds the entry if and only if every row indexed under the key admits it |
| `UniqueIndex.Index.AddEntries` | src/storage/unique_index.cpp:181-209 | succeeds if and only if every value passes after those before it were added |
| `UniqueIndex.Index.Append` | src/storage/unique_index.cpp:224-267 | succeeds if and only if NULLs are allowed or no key is NULL, no two keys of the batch are equal, and no indexed row clashes |
| `UniqueIndex.Index.Update` | src/storage/unique_index.cpp:278-357 | succeeds if and only if NULLs are allowed or absent from the updated key columns, no two tuples are equal, and no indexed row outside the batch, or older version inside it, clashes; it then adds exactly the entries of the values without NULL |
| `UniqueIndex.TestIsPasses` | src/storage/unique_index.cpp:18-357 | the test on the tree and the pointers of the table is exactly the condition under which UniqueKeys admits a batch, for new rows and for updates |
| `UniqueIndex.UpdatePasses` | src/storage/unique_index.cpp:278-357 | an update whose keys have NULL in columns that are not updated is tested like one without, and what passes is admitted by UniqueKeys |
| `FilterCombiner.SoundExactly` | src/optimizer/filter_combiner.cpp:234-357 | pruning two comparisons loses no condition if and only if neither of them is `<>`, `>` or `>=` with NULL while the other is `=`, `>` or `>=` with a constant |
| `FilterCombiner.NullIsPruned` | src/optimizer/filter_combiner.cpp:298-318 | x > NULL AND x > 5 is reduced to x > 5 |
| `FilterCombiner.AddConstantComparison` | src/optimizer/filter_combiner.cpp:46-70 | the new list accepts exactly the values that the old list and the new comparison accept, or there are none |
| `FilterCombiner.GeneratesAll` | src/optimizer/filter_combiner.cpp:83-115 | rows that pass the added filters pass the generated ones, stale buckets included |
| `FilterCombiner.GeneratesOnly` | src/optimizer/filter_combiner.cpp:83-115 | rows that pass the generated filters pass every added filter other than e = e |
| `FilterCombiner.GeneratesExactly` | src/optimizer/filter_combiner.cpp:83-214 | the generated filters pass exactly the rows of the added ones if and only if no expression is compared with itself only, or no row passes the added filters at all |
| `FilterCombiner.TightPasses` | src/optimizer/filter_combiner.cpp:83-115 | without such an expression, a row that passes the generated filters passes every added one, whether or not some row passes |
| `FilterCombiner.RepairedPasses` | src/optimizer/filter_combiner.cpp:180-189 | a row that passes the generated filters passes all added ones once the expressions that are compared only with themselves have a value |
| `FilterCombiner.LooseEscapes` | src/optimizer/filter_combiner.cpp:180-189 | setting an expression that is compared only with itself to NULL is not noticed |
| `FilterCombiner.MergeOk` | src/optimizer/filter_combiner.cpp:190-213 | merging two sets keeps the invariant, with the bucket and constants of the right set left behind |
| `FilterCombiner.MergeFails` | src/optimizer/filter_combiner.cpp:190-213 | contradicting sets let no row pass |
| `FilterCombiner.Combiner.GetEquivalenceSet` | src/optimizer/filter_combiner.cpp:30-44 | the set of an expression; a new one for a new expression |
| `FilterCombiner.Combiner.AddFilter` | src/optimizer/filter_combiner.cpp:72-214 | UNSATISFIABLE only if no row passes all added filters, else the filter is taken in |
| `FilterCombiner.Combiner.MergeBuckets` | src/optimizer/filter_combiner.cpp:190-201 | moves the right bucket into the left one |
| `FilterCombiner.Combiner.GenerateFilters` | src/optimizer/filter_combiner.cpp:83-115 | the filters that are returned pass exactly the rows of the added ones, if and only if no expression is compared with itself only or no row passes the added ones; they always pass those rows |
| `FilterCombiner.EntryFilters` | src/optimizer/filter_combiner.cpp:94-109 | one entry of a bucket is equal to all later ones and meets all constants |
| `JoinOrder.PushEmits` | src/optimizer/join_order_optimizer.cpp:56-70 | a filter on top of a plan keeps exactly the combinations that satisfy it |
| `JoinOrder.ConditionIs` | src/optimizer/join_order_optimizer.cpp:505-521 | a comparison with exchanged sides and flipped operator means the same |
| `JoinOrder.Optimizer.PlaceConditions` | src/optimizer/join_order_optimizer.cpp:484-521 | succeeds if and only if the node names no condition twice and each is a comparison of which one side lies in the left and the other in the right relations, neither being constant; each is taken from the list once |
| `JoinOrder.Optimizer.PushDown` | src/optimizer/join_order_optimizer.cpp:535-590 | pushes exactly the remaining filters that the relations cover; fails if and only if one splits where no join exists |
| `JoinOrder.Optimizer.GenerateJoins` | src/optimizer/join_order_optimizer.cpp:474-592 | succeeds for every tree whose nodes name exactly the conditions that split there, in general if and only if the tree is placeable; the plan then means exactly the filters taken |
| `JoinOrder.Optimizer.RewritePlan` | src/optimizer/join_order_optimizer.cpp:594-612 | succeeds for every tree whose nodes name exactly the conditions that split there; the plan emits each combination of one row per relation that satisfies all filters exactly once; every filter is consumed exactly once |
| `JoinOrder.PlaceableExactly` | src/optimizer/join_order_optimizer.cpp:484-521 | a tree is placeable if and only if every inner node names its conditions once each, and every one is a comparison with one side in the left and the other in the right relations, neither being constant |
| `JoinOrder.CompleteIsPlaceable` | src/optimizer/join_order_optimizer.cpp:484-521 | a tree whose nodes name exactly the conditions that split there is placeable |
| `JoinOrder.TreesAgree` | src/optimizer/join_order_optimizer.cpp:474-612 | plans from any two join trees emit the same combinations equally often |
| `JoinHashTable.HashTable.InsertHashes` | src/execution/join_hashtable.cpp:57-77 | puts every row of a node in front of the chain of its bucket |
| `JoinHashTable.HashTable.Resize` | src/execution/join_hashtable.cpp:79-145 | every stored row is again in the chain of its bucket exactly once |
| `JoinHashTable.HashTable.Build` | src/execution/join_hashtable.cpp:212-321 | adds exactly the rows without NULL in the columns in which NULL does not equal NULL, with NULL filled in the others, and notes whether there was such a NULL |
| `JoinHashTable.Scan.constructor` | src/execution/join_hashtable.cpp:323-375 | every probe row starts at the head of the chain of its hash |
| `JoinHashTable.Scan.ResolvePredicates` | src/execution/join_hashtable.cpp:413-482 | testing the conditions one after the other on shrinking selections decides all of them, on the data under the NULL mask |
| `JoinHashTable.Scan.ScanInnerJoin` | src/execution/join_hashtable.cpp:484-519 | what it returns and what is still to come are what was to come; the remaining chain length decreases |
| `JoinHashTable.Scan.NextInnerJoin` | src/execution/join_hashtable.cpp:521-550 | the next matching pairs, none only at the end |
| `JoinHashTable.Scan.NextLeftJoin` | src/execution/join_hashtable.cpp:717-751 | the next matching pairs, at the end the probe rows that never matched |
| `JoinHashTable.Scan.ScanKeyMatches` | src/execution/join_hashtable.cpp:552-584 | the flags of exactly the probe rows that match some row |
| `JoinHashTable.FreshExact` | src/execution/join_hashtable.cpp:323-375 | at the start of a probe the pairs to come are exactly those whose data satisfy all conditions, each once |
| `JoinHashTable.InnerJoin` | src/execution/operator/join/physical_hash_join.cpp:18-118 | draining a probe emits every pair whose data satisfy all conditions exactly once |
| `JoinHashTable.LeftJoin` | src/execution/join_hashtable.cpp:717-751 | draining emits every such pair once and every probe row without one once |
| `JoinHashTable.SemiOrAntiJoin` | src/execution/join_hashtable.cpp:586-629 | semi and anti join partition the probe rows by whether such a pair exists |
| `JoinHashTable.EmittedIs` | src/execution/join_hashtable.cpp:413-482 | a pair joins in SQL if and only if it is emitted and its probe key has no NULL |
| `JoinHashTable.JoinExactly` | src/execution/join_hashtable.cpp:413-482 | what is emitted is the join, and the probe rows with a partner are those that join, if and only if no pair is emitted for a probe key with NULL |
| `JoinHashTable.DrainExactly` | src/execution/join_hashtable.cpp:413-482 | with the NULL data of storage: that is so if and only if no probe key has NULL under `<>`, `<` or `<=` only and satisfies all other conditions with some stored row |
| `JoinHashTable.NullProbeIsJoined` | src/execution/join_hashtable.cpp:413-519 | for a.x = b.x AND a.y < b.y the probe row (1, NULL) is emitted with the stored row (1, v) |
| `JoinHashTable.HashTable.FirstPointers` | src/execution/join_hashtable.cpp:323-375 | the head of the chain of every probe key, and exactly the keys with such a row |
| `MarkJoin.ConstructMarkJoinResult` | src/execution/join_hashtable.cpp:632-662 | the mark of every key from its match flag and the NULL flag of the right side |
| `MarkJoin.MarkIsIn` | src/execution/join_hashtable.cpp:632-662 | for a right side that is not empty, that mark is the truth value of IN |
| `MarkJoin.BuildChunks` | src/optimizer/optimizer.cpp:121-138 | value i of the list is value i mod 1024 of chunk i / 1024, and the chunks hold nothing else; all but the last one are full |
| `MarkJoin.MarkJoin` | src/execution/operator/join/physical_hash_join.cpp:72-116 | every mark is the truth value of IN, with an empty right side too |
| `MarkJoin.RewriteIn` | src/optimizer/optimizer.cpp:98-160 | an IN list rewritten into a mark join keeps its truth value on every row |
| `CorrelatedMarks.AddCounts` | src/execution/aggregate_hashtable.cpp:171-193 | the table of groups has COUNT(*) and COUNT(value) of the rows of every group, NULL groups as groups of their own |
| `CorrelatedMarks.FetchCounts` | src/execution/aggregate_hashtable.cpp:317-345 | the two counts of every group of a chunk, zero for groups without rows |
| `CorrelatedMarks.CorrelatedMarkIsIn` | src/execution/join_hashtable.cpp:677-707 | the mark from a match flag and two counts is the truth value of IN among the values of the group, also if there are none |
| `CorrelatedMarks.MarkTable.constructor` | src/execution/join_hashtable.cpp:172-180 | the hash table compares the group columns with NULL equal to NULL and the value without |
| `CorrelatedMarks.MarkTable.Build` | src/execution/join_hashtable.cpp:236-258 | all rows of a chunk are counted, and those with a value are stored in the hash table |
| `CorrelatedMarks.MarkTable.FoundIs` | src/execution/join_hashtable.cpp:552-584 | a probe finds a row exactly if the group has its value |
| `CorrelatedMarks.MarkTable.Marks` | src/execution/join_hashtable.cpp:665-715 | every mark is the truth value of IN among the values of its group, from the flags of the probe and the counts of the tables |
| `AggregateHashTable.EmptyMeansAbsent` | src/execution/aggregate_hashtable.cpp:349-427 | an empty cell at the end of a probe means that the group is not stored |
| `AggregateHashTable.FillStores` | src/execution/aggregate_hashtable.cpp:349-427 | filling that cell stores the group and keeps all probes intact |
| `AggregateHashTable.Table.Probe` | src/execution/aggregate_hashtable.cpp:395-421 | a probe ends at the cell of the group or at an empty one |
| `AggregateHashTable.Table.FindOrCreateGroup` | src/execution/aggregate_hashtable.cpp:389-426 | finds the group, or stores it with initial aggregates and says that it is new |
| `AggregateHashTable.Table.FindOrCreateGroups` | src/execution/aggregate_hashtable.cpp:349-427 | the map gains exactly the new groups; a flag is set exactly on the first occurrence of a new group; addresses lead to the groups |
| `AggregateHashTable.Table.Resize` | src/execution/aggregate_hashtable.cpp:95-169 | the map stays the same, and the larger table does not itself resize |
| `AggregateHashTable.Table.Scan` | src/execution/aggregate_hashtable.cpp:429-490 | the next full cells, at most a vector of them; none only at the end |
| `AggregateHashTable.Table.ScanAll` | src/execution/aggregate_hashtable.cpp:429-490 | repeated scans list every group exactly once with its aggregates |
| `Aggregates.WelfordStep` | src/execution/aggregate_hashtable.cpp:266-305 | one update of the triple (count, mean, sum of squares) of some values gives the triple of one more value |
| `Aggregates.MomentsAre` | src/execution/aggregate_hashtable.cpp:266-305 | the triple is the number of values, their sum over that number, and the sum of squared distances from that mean |
| `Aggregates.AddMoments` | src/execution/aggregate_hashtable.cpp:266-305 | after any chunks, each group has the count, mean and sum of squared deviations of its non-NULL values |
| `Aggregates.AddDistinct` | src/execution/aggregate_hashtable.cpp:214-265 | after any chunks, each group has the number of its distinct non-NULL values, through the second table |
| `SegmentTree.InternalNodes` | src/execution/window_segment_tree.cpp:93-100 | the allocated space is the number of nodes of all levels |
| `SegmentTree.WindowSegmentTree.WindowSegmentValue` | src/execution/window_segment_tree.cpp:42-87 | combines one part of a level, read inside one group and so inside one vector of the input |
| `SegmentTree.AggregateVector` | src/common/vector_operations/aggregate_operators.cpp:49-94 | the sum of the values; their least value, NULL if and only if none is below the MaximumValue; their greatest, NULL if and only if none is above the MinimumValue |
| `SegmentTree.FoldSum` | src/execution/window_segment_tree.cpp:66-71 | SUM is the recursive sum of the values |
| `SegmentTree.SumLaws` | src/execution/window_segment_tree.cpp:66-71 | SUM is 0 of no values, the value of one, and the sum of both parts of a concatenation |
| `SegmentTree.WindowIs` | src/execution/window_segment_tree.cpp:127-151 | the aggregate of a window as a difference of prefix sums, a least value or a greatest value |
| `SegmentTree.WindowSegmentTree.ConstructTree` | src/execution/window_segment_tree.cpp:89-125 | every level aggregates the groups of the one below, up to one node, within the allocated space |
| `SegmentTree.WindowSegmentTree.WriteGroup` | src/execution/window_segment_tree.cpp:107-119 | writes the aggregate of a group to its node; for MIN of a group with only the MaximumValue the node keeps what was in memory |
| `SegmentTree.FoldUp` | src/execution/window_segment_tree.cpp:89-125 | full groups of a level aggregate to the same value as the values they stand for |
| `SegmentTree.Climb` | src/execution/window_segment_tree.cpp:138-147 | two partial groups and the groups between them aggregate to the window |
| `SegmentTree.WindowSegmentTree.Compute` | src/execution/window_segment_tree.cpp:127-151 | SUM is the difference of two prefix sums of the input, MAX the greatest value of the window if one is not below the MinimumValue, MIN the least one; the direct aggregate of the window, for MIN if every part of a group in it has a value below the MaximumValue; NULL for the empty window, and for MIN if a part at an end that is not a whole group has none; in all cases MIN is NULL or at most every such value of the window and every such node of a whole group in it; returned inside the loop, from at most 2 * 63 nodes of each level |
| `SegmentTree.FoldMin` | src/execution/window_segment_tree.cpp:72-76 | MIN is a lower bound of the values, and one of them or the MaximumValue |
| `SegmentTree.FoldMinExactly` | src/common/types/value.cpp:56-85 | MIN is the least value if and only if some value is not above the MaximumValue |
| `SegmentTree.LivelyExactly` | src/common/vector_operations/aggregate_operators.cpp:85-94 | all windows of an input meet the condition of Compute if and only if the aggregate is not MIN or all values are below the MaximumValue; a window of one other value is NULL |
| `SegmentTree.FoldMaxExactly` | src/common/types/value.cpp:24-54 | MAX is the greatest value if and only if some value is not below the MinimumValue |
| `SegmentTree.NegativesHaveNoMax` | src/common/types/value.cpp:38-44 | with the positive MinimumValue of FLOAT and DOUBLE, the MAX of a negative value is that minimum |

## Left out

- TransactionManager.Manager.RemoveTransaction: freeing by highest_active_query is not modelled, freed means collected.
- MvccTheorems.ReadExactly: for runs in which updates and deletions reach rows that are not deleted in the base table (see above for what happens otherwise); so are all theorems about runs.
- TableSteps.UpdateOrDelete: under the same condition.
- MvccTheorems.RollbackReturns: under the same condition.
- MvccTheorems.FreshRead: for a clock at which a transaction can start; MvccTheorems.CardinalityCounts likewise.
- UniqueKeys.UniqueOverRuns: the index test and the row writes of one batch are one step; IndexLocks takes them apart. Keys are integers.
- IndexLocks.UniqueExactly: a batch writes all its rows in one step after the test, under the locks of their chunks; the wait of an update for a lock that it holds itself is a step that does not happen.
- UniqueIndex.Index.AddEntries: a batch that fails may leave entries in the model; UniqueIndex::RemoveEntry and the destructors that take them out are not modelled (stale entries do not affect the uniqueness result).
- CatalogSet.Set.Cleanup: the entry type UPDATED_ENTRY, which nothing sets, is not modelled; cascading drops in dependent sets are not either.
- StorageChunk.Chunk.AppendRow: appends one row; TableSteps.Append adds a new storage chunk when the last one is full, one row at a time.
- TableScan.DataTable.Fetch: takes the row identifiers in the order in which the code has sorted them.
- WriteAheadLog.Log.Replay: replaying an entry is a parameter, with contents as bytes; opening, closing and syncing files are not modelled.
- CommitLogging.Commit: the place of a catalog change relative to buffered rows is not stated, the code does not fix it; the tables of a flush come in any order; catalog changes are opaque, and their versions are stamped by CatalogSteps.CommitName.
- FilterCombiner.Combiner.AddFilter: expressions are values that a row gives independently; parameters and foldable expressions are decided by the caller.
- JoinOrder.Optimizer.RewritePlan: join enumeration and greedy ordering are not modelled, the tree is any well-formed one; extracting relations from the old plan is not modelled.
- JoinHashTable.HashTable.Build: keys are integers with a NULL mask; string keys and NextSingleJoin are not modelled.
- JoinHashTable.DrainExactly: for NULLs whose data are the NULL value of storage, below all values; JoinHashTable.JoinExactly has no such condition.
- AggregateHashTable.Table.FindOrCreateGroups: needs an initial capacity of at least 1024 cells, which all uses in the repository give.
- Aggregates.AddMoments: values are exact reals; the final division and square root, and the other aggregates, are not modelled.
- SegmentTree.WindowSegmentTree.Compute: values are exact reals without NULL; when a whole group inside the window has only the MaximumValue, MIN is only bounded by what its unwritten node holds; AVG, whose inner nodes store averages, is not modelled.
- Storage locks, mutexes and spinning: every locked section is one step.
- Byte layouts, string heaps, selection vectors, NULL sentinels and statistics: rows and keys are abstract values.
- The order index, index scans and the row identifier column of versioned rows.
- Parser, binder, planner, the remaining optimizer rules, profiler and client interfaces.
