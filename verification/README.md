# A verified model of AURA_SQL

AURA_SQL is a small relational engine: SQL text goes through a lexer and a recursive-descent
parser, statements are planned and run by iterator operators, and rows live either in an
in-memory store or in a disk engine with slotted pages, a buffer pool, multi-version
concurrency control and B+-tree indexes. This project models those parts in Dafny and proves
what they promise. `dafny verify dfyconfig.toml` checks everything.

The layers are proved separately and then joined; `Core` and `Sequences` hold what they share:

* **Bytes to rows.** `Bytes`, `Page`, `BufferPool`, `RowCodec`, `HeapFile`, `Table`: a page is
  an array of 4096 bytes changed in place, the pool shares those arrays with its callers and
  evicts any page it likes, the heap file packs page and slot into a row id. Each layer is
  proved to refine a simpler one: slots to a list of rows, the cache to a flat page array, the
  file to a map from row ids to bytes, the table to a map from row ids to versions.
* **Index.** `SortedList`, `LeafLists`, `BTree`, `BTreeInsert`, `BTreeRuns`, `BTreeChain`,
  `BTreeOrder`, `BTreeCapacity`, `BTreeWitness` hold the tree as a value and the theorems about every insert, every run and every seek; `NodeCodec`, `Index`,
  `IndexSeek` are the program that reads and writes its nodes through the pool.
* **Transactions.** `Mvcc` is the step machine of the engine, `MvccReads` what its transactions
  read of their own and of others' writes, up to serial runs as one map with a working copy,
  `MvccWitness` the runs that show where its guarantees end, `IndexAgreement` joins it with the index, `Engine` and `IndexBuild`
  are the engine's methods, proved to take exactly the steps of that joint machine on real
  pages.
* **Queries.** `Eval`, `Query`, `Joins`, `JoinPlans`, `SelectPlans`, `DiskPlans`: three-valued
  evaluation, the index plan, the join operators and when one may stand for the other, and whole
  plans over the in-memory and the disk engine. `EvalMeaning` and `PlanMeaning` state what every
  operator of the language, every join and every filter does, value by value and row by row.
* **Planner.** `Subsets`, `Planner`, `Optimizer`: the join-order search; `PlannerCost` states the
  costs and estimates it compares as plain arithmetic.
* **Parser.** `Parser`, `ParserClass`, `ParserInverse`, `ParserNumerals`, `Lexer`,
  `LexerSpelling`: token streams, SQL text, and all the ways a text can spell its tokens.
* **In-memory engine.** `Memstore`, `MemstoreEngine`, and `MemstoreReads` for what scans return.

Where the code does less than its documentation says, the model follows the code:

* Seeks are exact at every point of a run if and only if every leaf split falls between two
  different keys (`RunRefinesList`). On an ordered tree the seek for a key equal to the separator on
  its right misses entries (`MissedKey`), and `EqualKeysAreLost` is a run that gets there. Distinct
  keys are always safe (`DistinctRunIsClean`).
* The leaf chain runs through the children from left to right exactly while no split hands its parent
  a separator that already stands on the right of the leaf, and so long the tree holds the flat
  sorted list (`RunInOrderIff`); `ChainLeavesOrder` is a run that breaks it. Whatever happens, the
  chain visits every leaf once and ends (`RunKeepsChain`), so every seek terminates.
* Two transactions in progress may overwrite each other's deletion mark, so lost updates are not
  prevented between them: a second writer succeeds exactly until the first one commits
  (`FirstCommitterWins`, `SecondWriterSucceedsIff`; `BothWritersCommit` is an instance). What this
  does to the other guarantees is stated exactly: `SnapshotStableIff` says when a snapshot stays
  stable, `UnnoticedIffPolite` when a transaction that does not commit goes unnoticed, and
  `DeletionFinalIff` when a deletion is final: exactly when its mark still stands at the commit
  (`RollbackCanUndoADelete` shows one that is lost).
* An update whose new row is too long for a page reports an error after the old version was
  stamped, and an insert whose index update fails keeps the row: both are visible in the
  contracts of `Engine.Engine.Update` and `Engine.Engine.Insert`.
* A failed index insert has already split the leaf (`FailedInsertStaysInChain`), and later seeks find
  the entry (`SeekAfterFailure`).
* Over the disk engine a seek for a NULL or a value of another type fails as soon as the index is not
  empty (`SeekIncomparable`). So an indexed join reports an error where the plain one skips a row
  with a NULL key (`DiskJoinIff`, `NullKeyFails`), and a WHERE that compares an indexed INT column
  with another kind of literal fails where the scan finds no rows, for example after all rows were
  deleted (`OtherLiteralFails`). `DiskPlanIff` says exactly which plans are affected.
* CreateIndex on a column the table does not have reports an error and leaves an empty index
  registered.
* In the in-memory engine an update without a transaction ignores claims. `StepKeepsInvIff` and
  `StaysDisjointIff` prove that this is the only call that breaks them, and that it always does. The
  package comment says commit and rollback do nothing; the code applies and discards pending
  changes, and that is what is modelled.
* The planner estimates every join over a join at zero rows, so from the fourth table on the
  order is not decided by cost (`UpperJoinsAreFree`).

## Model

| member | source | states |
|---|---|---|
| `SortedList.PlaceKeepsSorted` | storage/btree_insert.go:122-153 | placing an entry after all keys not greater than it keeps the list sorted |
| `SortedList.UnderPlace` | storage/btree_insert.go:122-153 | the row ids under a key keep insertion order: the new one is last under its own key, all other keys are unchanged |
| `LeafLists.CutKeepsOrder` | storage/btree_insert.go:175-211 | cutting a sorted leaf in two with the first upper key as separator keeps leaves and separators ordered, and strictly separated exactly if the cut falls between different keys |
| `BTreeInsert.InsertKeepsShape` | storage/btree_insert.go:10-114 | for any keys: an insert succeeds exactly when not both its leaf and the root are full, and then the tree keeps its shape (non-root leaves 125 to 249 entries, an internal root 1 to 249 keys, distinct pages) and its bag of entries gains exactly the new one |
| `BTreeInsert.InsertFrame` | storage/btree_insert.go:13-114 | an insert changes no page outside its tree and takes new pages only from the end of the file |
| `BTreeInsert.InsertRefinesPlace` | storage/btree_insert.go:13-114 | on a strictly separated tree an insert places the pair in the flat sorted list, leaves stay sorted and chained left to right, and strict separation survives exactly if a split falls between different keys |
| `BTreeInsert.FailureKeepsShape` | storage/btree_insert.go:69-114 | when the internal root is full the insert fails and the tree that is left still has a valid shape |
| `BTreeRuns.StrictSeek` | storage/btree.go:193-247 | on a strictly separated tree a seek returns the row ids under the key in insertion order, equal to filtering the flat list |
| `BTreeRuns.SeekExactIffStrict` | storage/btree.go:193-247 | on an ordered, chained tree seeks are exact for every key if and only if no key equals the separator on its right |
| `BTreeRuns.MissedKey` | storage/btree.go:193-220 | when a leaf ends with a key equal to the separator on its right, the seek for that key misses an entry |
| `BTreeWitness.EqualKeysAreLost` | storage/btree_insert.go:175-211 | inserting one key 250 times into a leaf root ends in an index whose seek for that key is not exact, whatever the row ids |
| `BTreeRuns.RunRefinesList` | storage/btree_insert.go:13-153 | over every error-free run of inserts, seeks are exact at every point if and only if every leaf split fell between two different keys, and then the tree holds the list built by placing the pairs one by one |
| `BTreeRuns.DistinctRunIsClean` | storage/btree_insert.go:175-211 | a run with pairwise distinct keys never splits between equal keys |
| `BTreeRuns.Capacity` | storage/btree_insert.go:10-36 | no tree exceeds 62250 entries, and an insert can fail only on a tree with at least 31374 |
| `BTreeRuns.RunConserves` | storage/btree_insert.go:13-114 | for any keys, an error-free run adds exactly the inserted entries to the tree's bag |
| `BTreeRuns.RunSucceeds` | storage/btree_insert.go:69-114 | inserts cannot fail before the 31375th entry |
| `BTreeRuns.RunCapacity` | storage/btree_insert.go:69-114 | from an empty leaf: up to 31374 entries every run succeeds, beyond 62250 every run fails |
| `BTreeCapacity.AscendingRunIff` | storage/btree_insert.go:69-114 | a run of ascending keys succeeds if and only if the index then holds at most 31374 entries |
| `BTreeCapacity.CapacityIsAttained` | storage/btree_insert.go:69-114 | the bound is attained: any 31374 ascending keys go into a new index and the 31375th insert fails |
| `BTreeRuns.FailedInsertStaysInChain` | storage/btree_insert.go:69-114 | a failed insert leaves the entry reachable through the leaf chain although the root does not know the new leaf |
| `BTreeChain.InsertKeepsChain` | storage/btree_insert.go:69-114 | for any keys, on success and on failure: the leaf chain visits every leaf of the tree once and ends, and gains exactly the new entry; on success no other leaf joins it (in which order it visits them is the next rows' matter) |
| `BTreeOrder.InsertInOrderIff` | storage/btree_insert.go:69-153 | on any ordered, chained tree an insert leaves the chain running through the children from left to right, and the tree ordered, if and only if it splits no leaf below an internal root or the first key of the upper half differs from the separator on the right of the leaf; then it places the pair in the flat list, whether the split was clean or not |
| `BTreeOrder.RunInOrderIff` | storage/btree_insert.go:13-153 | over every error-free run the chain runs through the children from left to right at every point if and only if every insert meets that condition, and then the tree holds the flat sorted list |
| `BTreeWitness.ChainLeavesOrder` | storage/btree_insert.go:102-153 | a key inserted 250 times into a leaf root and then any 125 smaller ones: all inserts succeed and the chain no longer follows the children |
| `BTreeChain.RunKeepsChain` | storage/btree_insert.go:13-114 | the same over every run, going on after failures |
| `BTreeChain.SeekIsSound` | storage/btree.go:37-88 | for any keys a seek returns only rows stored under its key, none more often than it is stored |
| `BTreeChain.AlongIsSeek` | storage/btree.go:37-88 | where the children are chained in order, walking the chain is walking the children |
| `BTreeChain.SeekAfterFailure` | storage/btree_insert.go:69-114 | after a failed insert into a strictly separated tree every seek returns the rows under its key with the new pair among them, in order |
| `BTreeRuns.OtherIndexUntouched` | storage/btree_insert.go:161-172 | an insert into one index of the shared file leaves the tree and contents of every other index as they were |
| `NodeCodec.LeafBack` | storage/btree.go:118-189 | decoding the bytes written for a leaf gives its entries and its chain pointer back |
| `NodeCodec.InnerBack` | storage/btree.go:118-189 | decoding the bytes written for an internal node gives its keys and all its pointers back |
| `NodeCodec.WriteBytes` | storage/btree.go:158-189 | after writing, the page decodes to the node |
| `NodeCodec.ReadBytes` | storage/btree.go:118-156 | reading a page gives a node whose value is the decoding of the page |
| `Index.FetchNode` | storage/btree.go:118-156 | the node read through the pool is the one the file view holds, and no other page view changes |
| `Index.WriteNode` | storage/btree.go:158-189 | exactly one node of the file view is replaced |
| `Index.AllocatePage` | storage/btree_insert.go:161-172 | the file grows by one page and all existing nodes stay |
| `Index.InsertIntoNodeArrays` | storage/btree_insert.go:122-153 | shifting both arrays puts the pair after all keys not greater than it |
| `Index.SplitLeafNode` | storage/btree_insert.go:175-211 | the upper half moves to a fresh page that takes over the chain pointer, and its first key goes up |
| `Index.CreateNewRoot` | storage/btree_insert.go:214-246 | a new internal node over the two halves is appended to the file |
| `Index.IndexTree.constructor` | storage/engine.go:455-479 | a new index is an empty leaf on a fresh last page, and existing pages stay |
| `Index.IndexTree.FindLeafWithPath` | storage/btree_insert.go:39-66 | the descent reaches the leaf for the key and returns the internal nodes above it |
| `Index.IndexTree.HandleSplitCascade` | storage/btree_insert.go:69-114 | the loop over parents ends with the tree that the insert specification prescribes |
| `Index.IndexTree.Insert` | storage/btree_insert.go:13-36 | the byte-level insert leaves exactly the nodes, root and result of the specification |
| `IndexSeek.SeekIterator.NextEntry` | storage/btree.go:37-88 | each call delivers the next remaining row id under the key, and none exactly when nothing remains |
| `IndexSeek.SeekIndex` | storage/btree.go:222-247 | on every index the engine can build, the opened iterator has the walk along the leaf chain ahead of it |
| `IndexSeek.DrainSeek` | storage/btree.go:37-88 | seek plus repeated Next terminates on every index and returns rows stored under the key; on a strictly separated tree all of them, in insertion order |
| `IndexSeek.SeekIncomparable` | storage/btree.go:193-247 | a seek for a NULL or a value of another type fails exactly when the index is not empty |
| `Mvcc.StepKeepsInv` | storage/engine.go:113-204 | every call keeps: snapshots are sets of committed transactions, active and committed are disjoint, stamps name transactions that began |
| `Mvcc.OthersStep` | storage/engine.go:155-204 | one call of another transaction changes what an active transaction sees exactly when it overwrites a deletion mark of that transaction |
| `Mvcc.OthersOnlyAdd` | storage/engine.go:155-184 | while only others act, no row leaves the view of an active transaction |
| `Mvcc.SnapshotStableIff` | storage/engine.go:113-204 | over every run of calls by others, an active transaction sees the same rows at the end if and only if none of its own deletion marks was overwritten along the run |
| `Mvcc.ReaderIsStable` | storage/engine.go:113-184 | a transaction that has stamped nothing has an unconditionally stable view |
| `Mvcc.CommittedDeleterIsFinal` | storage/engine.go:186-204 | once a version's deleter has committed, the mark never changes and every later write of that version fails |
| `Mvcc.SnapshotIsFrozen` | storage/engine.go:113-141 | along any run an active transaction keeps the snapshot of its start and the committed set only grows |
| `Mvcc.GoneForever` | storage/engine.go:113-153 | a finished transaction never becomes active again and its outcome never changes |
| `Mvcc.FirstCommitterWins` | storage/engine.go:186-204 | over every run since its Begin, a transaction can write a version if and only if its creator is the transaction itself, had committed before the Begin or has not committed, and its deleter has not committed |
| `Mvcc.SecondWriterSucceedsIff` | storage/engine.go:186-204 | after one writer stamped a version that another transaction sees, and whatever happened since, the other one can write it exactly until the deleter has committed; while the mark is the first writer's, until that one commits |
| `Mvcc.DeletionFinalIff` | storage/engine.go:129-204 | at the moment a transaction commits, no reader that begins at any later point of any run sees a version if and only if the mark on it is still that transaction's |
| `Mvcc.SameForOthers` | storage/engine.go:155-204 | two states that differ only in an uncommitted transaction's work give all others the same rows and the same conflicts |
| `Mvcc.UncommittedLeavesNoTrace` | storage/engine.go:144-204 | if a transaction that does not commit never overwrites the mark of another one in progress, the run without its calls is possible and gives every other transaction the same answers, call by call |
| `Mvcc.UnnoticedIffPolite` | storage/engine.go:144-204 | the exact condition: for every run with visible targets in which a transaction does not commit, every other transaction in progress sees the same rows and meets the same conflicts with and without its calls, at every point, if and only if it never overwrites the mark of another one in progress |
| `Mvcc.ImpoliteCallIsSeen` | storage/engine.go:297-358 | every call that overwrites such a mark changes what the owner of the mark sees |
| `Mvcc.AbortedRunIsInvisible` | storage/engine.go:144-204 | the equivalence and the unchanged answers, from the start of the engine |
| `MvccReads.InsertReads` | storage/engine.go:272-295 | in every reachable state a transaction that inserts a row then sees its old view with exactly those values under the new id |
| `MvccReads.DeleteReads` | storage/engine.go:339-358 | after a deletion that goes through, the transaction sees its old view without that row |
| `MvccReads.UpdateReads` | storage/engine.go:297-336 | after an update that goes through, the transaction sees its old view without the old row and with the new values under the new id; if the new row does not fit, only without the old row |
| `MvccReads.VersionIsFixed` | storage/engine.go:272-358 | over any run a version keeps its creator and its values |
| `MvccReads.SnapshotReads` | storage/engine.go:113-184 | whatever happened since it began, a transaction sees a version if and only if it was made by itself or by a transaction committed when it began and is deleted neither by itself nor by such a one |
| `MvccReads.StoredIsSeenIff` | storage/engine.go:113-204 | after any further run, a transaction that begins then sees a version stored by an insert or an update if and only if its creator has committed and no committed transaction has deleted it, and it sees exactly the values that were stored |
| `MvccReads.SerialRunIsMap` | storage/engine.go:113-423 | every serial run from the start of the engine whose targets are visible is answered, call by call, like one map with a working copy that a commit publishes and a rollback drops |
| `MvccWitness.TwoWritersIsReachable` | storage/engine.go:113-141 | the state of the following examples is reachable |
| `MvccWitness.BothWritersCommit` | storage/engine.go:186-204 | an instance of `SecondWriterSucceedsIff`: two active writers both update one version and both commit |
| `MvccWitness.DeletedRowComesBack` | storage/engine.go:297-358 | an overwritten deletion mark brings a row back into the deleter's own view |
| `MvccWitness.RollbackCanUndoADelete` | storage/engine.go:144-153 | an instance of `DeletionFinalIff`: a rollback after overwriting a mark undoes another transaction's committed deletion |
| `IndexAgreement.SysStepKeepsInv` | storage/engine.go:272-358 | every call keeps: each version with a non-NULL key is in the index exactly once under that key |
| `IndexAgreement.SysRunKeepsInv` | storage/engine.go:272-358 | the same over whole runs |
| `IndexAgreement.SeekAgreesWithScan` | storage/btree.go:37-88 | an exact seek filtered by visibility returns each matching row of the scan once and nothing else |
| `IndexAgreement.InvariantMeansAgreement` | storage/engine.go:391-423 | in every state with the invariant, index path and scan agree for every transaction and key |
| `IndexAgreement.IndexPathEqualsScan` | storage/engine.go:272-423 | in every state reached by calls without index error and with clean splits, draining the index seek returns exactly the rows of the filtered scan, for every transaction and INT key |
| `Page.InsertedRows` | storage/page.go:125-154 | an insert keeps header, slots and rows disjoint inside the page and appends the row |
| `Page.DeletedRows` | storage/page.go:177-192 | a delete empties one slot and keeps the others |
| `Page.UpdatedRows` | storage/page.go:195-217 | an update replaces one row and keeps the others |
| `Page.PageRunRefinesRows` | storage/page.go:125-217 | every sequence of operations on a page does to its rows and its room what the same sequence does to a plain list of rows |
| `Page.NewPage` | storage/page.go:31-36 | a new page is consistent and has no rows |
| `Page.Insert` | storage/page.go:125-154 | succeeds exactly when the row and its slot fit, stores it in the next slot, and a refusal changes no byte |
| `Page.Get` | storage/page.go:157-174 | returns the last bytes stored in the slot, empty after a delete, an error for unused slots |
| `Page.Delete` | storage/page.go:177-192 | empties an existing slot, a refusal changes no byte |
| `Page.Update` | storage/page.go:195-217 | succeeds exactly for an existing slot and bytes that are not longer, a refusal changes no byte |
| `BufferPool.Pool.FetchPage` | storage/bufferpool.go:34-56 | returns the current contents of the page, changes no page's contents whatever is evicted, and keeps the number of cached pages within the capacity |
| `BufferPool.Pool.EvictPage` | storage/bufferpool.go:98-127 | removes one cached page of any choice without changing any page's contents |
| `BufferPool.Pool.Flush` | storage/bufferpool.go:64-80 | writes one page back, changing no page's contents |
| `BufferPool.Pool.FlushAll` | storage/bufferpool.go:83-95 | afterwards the file holds the contents of every page |
| `BufferPool.Pool.MarkDirty` | storage/bufferpool.go:59-61 | a page modified in place becomes consistent again when it is marked |
| `BufferPool.Drive` | storage/bufferpool.go:34-127 | for every sequence of fetches, modifications, flushes and any evictions, each page reads as its last modified contents, and the pool never exceeds a capacity of at least 1 |
| `RowCodec.RoundTripIffShort` | storage/page.go:45-116 | decoding an encoded row gives it back, up to the type tag of NULLs, if and only if every text is shorter than 65536 bytes |
| `RowCodec.PageRowsAreShort` | storage/page.go:45-75 | every row that fits a page meets that bound |
| `RowCodec.StampInPlace` | storage/page.go:45-75 | a new deletion mark keeps the length of the encoding |
| `RowCodec.Serialize` | storage/page.go:45-75 | the loop produces the specified bytes |
| `RowCodec.Deserialize` | storage/page.go:80-116 | the cursor loop computes the specified decoding, for any bytes |
| `HeapFile.IdRoundTrip` | storage/heapfile.go:15-24 | page and slot are recovered from a packed row id |
| `HeapFile.IdInjective` | storage/heapfile.go:15-24 | different row ids name different places |
| `HeapFile.HeapFile.InsertAt` | storage/heapfile.go:103-141 | the row goes to the lowest page with room, otherwise to one new page, and all other rows stay |
| `HeapFile.HeapFile.Insert` | storage/heapfile.go:103-141 | refused without effect exactly for rows over 4088 bytes, otherwise a never-used id is returned and every other id keeps its bytes |
| `HeapFile.HeapFile.Get` | storage/heapfile.go:144-160 | returns the latest bytes stored under the id |
| `HeapFile.HeapFile.Update` | storage/heapfile.go:163-183 | succeeds exactly if the row exists and the bytes are not longer, and changes no other id |
| `HeapFile.HeapFile.Delete` | storage/heapfile.go:186-202 | empties an existing row and changes no other id |
| `Table.Table.Add` | storage/engine.go:272-295 | stores a version under an unused id, refused exactly when its encoding exceeds 4088 bytes |
| `Table.Table.Read` | storage/btree.go:252-289 | returns the stored version |
| `Table.Table.Stamp` | storage/engine.go:303-318 | rewriting a version with a new deletion mark never fails as too large |
| `Table.HeapIterator.NextRow` | storage/engine.go:391-423 | delivers the stored version with the smallest id at or after the cursor, and ends exactly when none is left |
| `Engine.Engine.constructor` | storage/engine.go:42-85 | a new engine is in the initial state with an empty index |
| `Engine.Engine.Begin` | storage/engine.go:113-126 | takes the Begin step of the joint machine with a fresh transaction id |
| `Engine.Engine.Commit` | storage/engine.go:129-141 | takes the Commit step, or fails without effect for a transaction that is not active |
| `Engine.Engine.Rollback` | storage/engine.go:144-153 | takes the Rollback step |
| `Engine.Engine.IsVisible` | storage/engine.go:155-184 | decides visibility as the step machine defines it |
| `Engine.Engine.CheckWriteConflict` | storage/engine.go:186-204 | decides conflicts as the step machine defines them |
| `Engine.Engine.Insert` | storage/engine.go:272-295 | refused without effect exactly for too long rows, otherwise one Insert step on versions and index, reporting whether the index accepted it; the transaction then sees its old view with exactly the given values under a new id, NULLs without their type |
| `Engine.Engine.Update` | storage/engine.go:297-336 | no effect on a conflict, otherwise one Update step on versions and index; the transaction then sees its old view without the old row and with the new values under the new id, or only without the old row when the new one is too long |
| `Engine.Engine.Delete` | storage/engine.go:339-358 | no effect on a conflict, otherwise one Delete step, after which the transaction sees its old view without the row |
| `Engine.ScanAll` | storage/engine.go:360-423 | draining a scan gives the ids of the visible versions in ascending order, each once, with exactly their values, and changes nothing |
| `Engine.SeekAll` | storage/btree.go:222-289 | on every engine state, draining an index seek on pages gives the walk along the chain filtered by visibility, and changes nothing |
| `Engine.SeekAgainstScan` | storage/engine.go:360-423 | on one engine with an exact index, the drained seek is a permutation of the scanned rows with that key |
| `IndexBuild.BuildStep` | storage/engine.go:496-514 | adding one scanned version keeps the index exact as long as fewer than 250 keys are in it |
| `IndexBuild.CreateIndex` | storage/engine.go:442-517 | refused without effect for an indexed column; otherwise a new root is registered and other index pages stay, an unknown column is reported and leaves the root empty, and over fewer than 250 non-NULL keys the index is strictly separated and holds exactly the keys of all stored versions, visible or not |
| `Eval.SplitMeans` | executor/executor.go:217-226 | for clean terms, WHERE is true exactly when every AND-term is true |
| `Eval.CombineMeans` | executor/executor.go:228-241 | the recombined condition is true exactly when all its terms are |
| `Eval.CombineSplit` | executor/executor.go:217-241 | splitting and recombining a condition keeps its meaning |
| `Eval.TakeOut` | executor/executor.go:198-241 | a row passes WHERE exactly when it passes one term and the recombined rest |
| `Eval.CombineAndTerms` | executor/executor.go:228-241 | the loop builds the specified left-nested conjunction |
| `EvalMeaning.LeavesMean` | executor/eval.go:10-28 | a literal is itself, a column is the cell under the first column of its name, a missing column or cell and a star are errors |
| `EvalMeaning.ErrorsSpread` | executor/eval.go:48-56 | a failing operand fails every operator, AND and OR included |
| `EvalMeaning.IntsMean` | executor/eval.go:83-135 | on integers the six comparisons are those of the numbers, AND and OR are errors |
| `EvalMeaning.SumsMean` | executor/eval.go:98-107 | sums and differences are exact in the 64-bit range and otherwise congruent to the exact ones modulo 2 to the 64th |
| `EvalMeaning.TextsMean` | executor/eval.go:83-135 | texts compare by their bytes, every other operator is an error |
| `EvalMeaning.BoolsMean` | executor/eval.go:83-135 | false is before true, AND and OR are the usual ones, + and - are errors |
| `EvalMeaning.MixedIsError` | executor/eval.go:83-145 | every operator on values of different types is an error |
| `EvalMeaning.NullsMean` | executor/eval.go:58-81 | with a NULL operand AND is false beside false, OR is true beside true, and everything else is NULL, whatever the other type |
| `EvalMeaning.WhereMeans` | executor/eval.go:30-46 | a row passes WHERE exactly when there is none or it is true, is rejected for false and NULL, and anything else is an error |
| `PlanMeaning.SplitIsFlat` | executor/executor.go:217-226 | no term that WHERE is split into is itself a conjunction |
| `PlanMeaning.SplitUndoesCombine` | executor/executor.go:217-241 | splitting a recombined condition gives its terms back in order |
| `Query.FindIndexedEquality` | executor/executor.go:198-271 | finds the first term that equates an indexed column with a literal, on either side, and returns the recombined rest; otherwise, also without WHERE, there is none and WHERE is kept as it is |
| `PlanMeaning.EqualityIff` | executor/executor.go:243-271 | the recognised terms are exactly column = literal and literal = column with an unqualified column or one qualified by the table |
| `Query.TermIsKeyTest` | executor/eval.go:113-121 | on a row of the joins, the chosen term is true exactly when the seek test passes |
| `Query.PushBelowJoins` | executor/executor.go:126-154 | a test on base columns can be applied below a whole chain of joins |
| `Query.IndexPlanPreservesMeaning` | executor/executor.go:126-171 | seeking on the indexed term below all joins and filtering by the rest gives the same rows in the same order as scan, join and filter, when the AND-terms are clean |
| `Query.AnyExactSeekPreservesMeaning` | executor/executor.go:126-171 | with a seek that returns its rows in any order, the plan gives the same bag of rows |
| `Joins.NestedLoopJoinOp.MaterializeRight` | executor/join.go:84-98 | collects the right child's rows in order, or stops at its first error |
| `Joins.NestedLoopJoinOp.Next` | executor/join.go:43-82 | delivers exactly the remaining items of the pair comprehension in order, errors of both children and of ON included, then reports the end for ever, also for an empty right side |
| `JoinPlans.ItemsAreJoin` | executor/join.go:43-98 | without errors these items are the join comprehension |
| `PlanMeaning.PlainIsJoined` | executor/join.go:43-98 | the plain join delivers, for each left row in turn and each right row in order, the pair when ON is true, nothing when ON is false or NULL, and otherwise an error; an error of the right child comes first, once |
| `Joins.IndexedNestedLoopJoinOp.Next` | executor/join.go:149-194 | delivers exactly the remaining items of the probing comprehension in order, errors of the left child, the key, the seek, its iterator and ON included |
| `PlanMeaning.IndexedIsJoined` | executor/join.go:149-194 | the indexed join delivers the same for the right items that the seek for the cell under the left column returns, an error where there is no such cell or the seek cannot be opened |
| `PlanMeaning.IndexedJoinIff` | executor/executor.go:278-332 | an indexed join is chosen exactly for an equality of a column of the left schema and an indexed column of the right table, in either order, the first operand as the left one if both ways fit |
| `PlanMeaning.FilterMeans` | executor/operator.go:154-188 | the filter keeps a row when its condition is true or absent, drops it when that is false or NULL, reports anything else as an error, and treats every item by itself in order |
| `JoinPlans.IndexedJoinEqualsPlain` | executor/executor.go:278-332 | for error-free equality ON clauses whose right column is no left column name, and a seek in scan order for the keys that occur, the indexed join gives the same sequence as the plain one |
| `JoinPlans.IndexedJoinBagIff` | executor/executor.go:278-332 | with any exact seek, in whatever order, the indexed join gives the bag of rows of the plain one if and only if no left row has a key on which the seek fails |
| `DiskPlans.SeekRows` | storage/btree.go:222-289 | on an engine with an exact index, a drained seek for any key, with its rows fetched from pages, is the seek of the following rows: it fails exactly for a key that is no INT over an index that is not empty |
| `DiskPlans.DiskJoinIff` | executor/join.go:149-194 | over the disk engine the indexed join gives the bag of rows of the plain one if and only if the index is empty or every left key is an INT |
| `DiskPlans.NullKeyFails` | executor/join.go:149-194 | for every left row with a NULL key and every index that is not empty, the plain join skips the row and the indexed one reports an error |
| `SelectPlans.PlanIsQuery` | executor/executor.go:126-196 | the whole plan, base access path, chain of plain or indexed joins and remaining filter, with seeks in scan order, delivers the rows of scan, join and filter in the same order |
| `SelectPlans.PlanIsQueryBag` | executor/executor.go:126-196 | with exact seeks in any order, on the base table and on every joined one, it delivers the same bag of rows without error |
| `SelectPlans.MemoryPlanIsQuery` | executor/executor.go:126-196 | over the in-memory engine, for error-free ON conditions and clean WHERE terms, the plan is the query, row by row |
| `DiskPlans.DiskPlanIff` | executor/executor.go:126-196 | over the disk engine, for error-free ON conditions and clean WHERE terms, the plan delivers the bag of rows of the query without error if and only if the literal of the base path is an INT or that index is empty, and along the joins every key that probes an index is an INT or that index is empty |
| `DiskPlans.OtherLiteralFails` | executor/executor.go:156-171 | for every literal that is no INT, over a table with index entries but no visible rows, the query is empty and the plan reports an error |
| `JoinPlans.ShadowedColumnDiffers` | executor/executor.go:278-332 | whenever the right column's name is also a left column name, there are rows on which the two joins differ |
| `Subsets.GenerateSubsets` | executor/planner/optimizer.go:236-264 | the bit-mask loops list the specified subsets, and none once the shift overflows at 63 tables |
| `Subsets.EachSubsetOnce` | executor/planner/optimizer.go:236-264 | every subset of a size is listed exactly once, and nothing else |
| `Subsets.SubsetKey` | executor/planner/optimizer.go:267-277 | the loop joins the sorted names |
| `Subsets.KeyIdentifies` | executor/planner/optimizer.go:267-277 | for comma-free names, two lists have the same key if and only if they hold the same tables, in any order |
| `Subsets.CommaBreaksKeys` | executor/planner/optimizer.go:267-277 | a name with a comma shares its key with the two tables it spells, for any two names in order |
| `Planner.BestIsCheapestSplit` | executor/planner/optimizer.go:179-233 | the chosen plan is a one-table split over the plans chosen for the parts, and none of these costs less |
| `Planner.BestIsLeftDeep` | executor/planner/optimizer.go:179-233 | the chosen plan is left-deep, joins each table once, and uses each predicate as the ON of its right table |
| `Planner.FromIsLeftmost` | executor/planner/optimizer.go:179-233 | the FROM table is the leftmost leaf |
| `Planner.BestIsTotal` | executor/planner/optimizer.go:109-161 | every list of at most 62 distinct tables, each the FROM table or joined by a clause, gets a plan |
| `PlannerCost.CostIsTotal` | executor/planner/cost.go:24-54 | a left-deep plan costs the rows of its first table and, for every join, the rows on its left times the rows of the table on its right |
| `PlannerCost.TwoTables` | executor/planner/cost.go:41-54 | a chosen order of two tables costs the rows of the first and the product of both |
| `PlannerCost.ChosenIsFirstLeast` | executor/planner/optimizer.go:179-233 | the chosen plan is a one-table split; no other has a smaller sum and those tried before it have larger ones |
| `PlannerCost.ChosenIsEstimated` | executor/planner/optimizer.go:179-233 | in a chosen plan every scan carries the rows of its table and every join the estimate for the tables beside it |
| `PlannerCost.CrossEstimate` | executor/planner/stats.go:92-110 | without a column on the left of ON a join is estimated at the product of the row counts, modulo 2 to the 64th |
| `PlannerCost.ColumnEstimate` | executor/planner/stats.go:112-134 | with one, at that product divided by the larger number of distinct values, at least 1, rounded toward zero |
| `Planner.UpperJoinsAreFree` | executor/planner/stats.go:92-134 | a chosen plan over four or more tables costs as much as its left part, because a join over a join is estimated at 0 rows |
| `Optimizer.FindBestJoinForSubset` | executor/planner/optimizer.go:179-233 | with a memo that is right for the parts, the loops find the plan of the plain recursion |
| `Optimizer.FillSize` | executor/planner/optimizer.go:134-150 | after a size the memo agrees with the recursion on all subsets up to that size and has no entry for larger ones |
| `Optimizer.FindBestJoinOrder` | executor/planner/optimizer.go:109-161 | the memoised search returns the plan of the plain recursion, with estimated rows in every join: the first, in the order of the loops, of the one-table splits whose sum of first rows and left rows times right rows is least; the fallback is taken exactly when there is none or there are more than 62 tables |
| `Optimizer.BuildLeftDeepPlan` | executor/planner/optimizer.go:280-313 | the fallback is left-deep over the tables in list order, each with the first clause for it and the estimate for it and the first table |
| `Optimizer.ChosenPlan` | executor/planner/optimizer.go:109-233 | for a query of 2 to 62 distinct tables the fallback is unreachable and the plan is left-deep with every table once, FROM leftmost, ON with its right table, and the first of the splits with the least sum |
| `ParserClass.TokenParser.ParseExpression` | parser/parser.go:327-417 | the token loops compute the specified parse and leave the specified rest |
| `ParserClass.TokenParser.ParseSelectStmt` | parser/parser.go:203-288 | reads a SELECT as specified |
| `ParserClass.TokenParser.ParseStatement` | parser/parser.go:39-74 | reads a whole statement as specified |
| `ParserInverse.ExprBack` | parser/parser.go:327-465 | every expression the precedence ladder can build, printed and followed by a token that does not continue it, parses back to itself and leaves the rest |
| `ParserInverse.ExprSound` | parser/parser.go:327-465 | whatever the expression parser accepts has the ladder's shape and consumed exactly its printing, up to the spelling of integers |
| `ParserInverse.StmtBack` | parser/parser.go:203-567 | every SELECT, UPDATE, DELETE and EXPLAIN the parser can build parses back from its printing |
| `ParserInverse.StmtSound` | parser/parser.go:203-567 | every accepted token stream is exactly the printing of its statement, up to the spelling of integers, consumed to the end |
| `ParserNumerals.ParseIntIff` | parser/parser.go:441-447 | an integer literal is worth v exactly if it is the decimal numeral of v behind any zeros, and v is below 2 to the 63rd |
| `ParserNumerals.StmtAlike` | parser/parser.go:39-74 | token streams that differ only in the spelling of integers parse to the same statement |
| `ParserNumerals.ParseIff` | parser/parser.go:39-567 | a token stream is accepted as a statement if and only if the statement has a shape of the grammar and the stream is its printing, up to the spelling of integers |
| `Lexer.Lexer.NextToken` | parser/lexer.go:185-268 | each call delivers the next token of the stream that `LexIffSpelled` characterises and moves forward; the end is reported exactly at the end of the input |
| `Lexer.Lexer.ReadTextLiteral` | parser/lexer.go:270-284 | reads up to the closing quote; an unclosed literal is an error that takes the rest |
| `Lexer.LexBack` | parser/lexer.go:185-365 | lexing the spelling of any tokens, each followed by a space, gives the tokens back |
| `LexerSpelling.KeywordTable` | parser/lexer.go:294-365 | the keywords are exactly the 29 of the table, and those of statements outside the model become one token |
| `LexerSpelling.OneSpelled` | parser/lexer.go:185-268 | every spelling of a token (`!=` and `<>`, keywords in any case, names, integers, quoted texts) followed by a text that does not continue it is lexed to that token |
| `LexerSpelling.OneIsSpelled` | parser/lexer.go:185-268 | whatever one call lexes is such a spelling of its token |
| `LexerSpelling.LexIffSpelled` | parser/lexer.go:185-369 | a text is lexed to a list of tokens if and only if it is a sequence of spellings of them, with any white space between and without it where one does not continue the other |
| `LexerSpelling.ComparisonsTouch` | parser/lexer.go:211-243 | a name, a comparison in any spelling and an integer are lexed to themselves without spaces between them |
| `LexerSpelling.TextParsesIff` | parser/parser.go:19-74 | SQL text is parsed as a statement if and only if the statement has a shape of the grammar and the text spells its tokens, integers by their value |
| `LexerSpelling.CharBytes` | parser/lexer.go:270-284 | a character of a text is stored as the bytes of its UTF-8 encoding |
| `LexerSpelling.TextsAreDistinct` | parser/lexer.go:270-284 | different texts are stored as different bytes |
| `Lexer.NamesAreCommaFree` | parser/lexer.go:294-369 | no name in any statement text contains a comma, so memo keys identify the table sets of every parsed query |
| `Lexer.StatementTextBack` | parser/parser.go:19-74 | the SQL text of every statement whose names and texts can be written parses back to that statement |
| `Lexer.AcceptedTextIsPrinting` | parser/parser.go:33-74 | for every accepted SQL text the tokens are the printing of its statement, up to the spelling of integers |
| `Memstore.StepKeepsInvIff` | memstore/memstore.go:64-290 | every call through a live handle keeps row claims, disjoint write sets, id bounds and row widths, except exactly an update without a transaction on a claimed row |
| `Memstore.RunKeepsInvIff` | memstore/memstore.go:64-290 | over every run through live handles the invariant holds at every point if and only if no such update occurs |
| `Memstore.ClobberBreaksDisjointness` | memstore/memstore.go:200-290 | after every such update, in every state with the invariant, a new transaction can delete the row while another one still holds it |
| `Memstore.StaysDisjointIff` | memstore/memstore.go:200-290 | the write sets are disjoint after a call and after every further run without such updates if and only if the call is no such update |
| `Memstore.StepKeepsWide` | memstore/memstore.go:64-290 | every call, also such an update, keeps one value per column in every stored or pending row |
| `Memstore.WriteSetsAreDisjointIff` | memstore/memstore.go:200-290 | along every run from the empty engine the write sets are and stay disjoint if and only if no call updates a claimed row without a transaction |
| `Memstore.ConflictIffPending` | memstore/memstore.go:213-222 | a write is refused as a conflict if and only if another transaction has a pending change on that row |
| `Memstore.CommitsCommute` | memstore/memstore.go:64-89 | committing two transactions in either order gives the same engine state |
| `Memstore.CommitOrderIsIrrelevant` | memstore/memstore.go:64-89 | committing any active transactions in any order gives the same engine state |
| `Memstore.CommitPublishes` | memstore/memstore.go:64-89 | a new scan after a commit returns what the committer's scan returned just before |
| `Memstore.CommitSeenByOther` | memstore/memstore.go:308-336 | a commit changes another transaction's scan exactly by the committed changes |
| `Memstore.RollbackLeavesNoTrace` | memstore/memstore.go:91-110 | a rollback changes no one else's scan and frees every claimed row |
| `Memstore.OthersAreInvisible` | memstore/memstore.go:165-290 | uncommitted calls of others change no scan |
| `MemstoreReads.WriteAcceptedIff` | memstore/memstore.go:200-290 | an update or a deletion goes through exactly when the table exists, the row is committed, no other transaction has a pending change on it and a new row has the right width; which error is reported otherwise |
| `MemstoreReads.InsertReads` | memstore/memstore.go:165-198 | an accepted insert adds exactly that row, under an id that was in no view, to the caller's own view or, without a transaction, to the table and every view of it; no other view changes |
| `MemstoreReads.WriteReads` | memstore/memstore.go:200-290 | an accepted update or deletion writes exactly that row in the caller's own view or, without a transaction, in the table and every view of it without a pending change on the row; no other view changes |
| `MemstoreReads.RollbackDiscards` | memstore/memstore.go:91-110 | after a rollback the handle reads the committed rows |
| `MemstoreReads.BeginReads` | memstore/memstore.go:112-118 | a new transaction has an unused id and reads the committed rows |
| `MemstoreReads.CreateReads` | memstore/memstore.go:120-132 | a new table has the given columns and is empty for everyone; an existing one stays as it is |
| `MemstoreReads.OwnWritesAreRead` | memstore/memstore.go:64-336 | over every run in which nobody else commits, a transaction reads the rows it started from with its own accepted writes in them, in order, and its commit makes exactly those rows the table |
| `Memstore.ClaimedIsReachable` | memstore/memstore.go:200-246 | the state of the following example is reachable |
| `Memstore.NilUpdateBreaksDisjointness` | memstore/memstore.go:200-246 | an instance of `ClobberBreaksDisjointness` from the reachable state |
| `Memstore.ClashDependsOnOrder` | memstore/memstore.go:64-89 | after that the order of the commits decides the row's value |
| `MemstoreEngine.Engine.Begin` | memstore/memstore.go:112-118 | takes the Begin step |
| `MemstoreEngine.Engine.Commit` | memstore/memstore.go:64-89 | the loops over tables and changes take the Commit step, in whatever order the tables come |
| `MemstoreEngine.Engine.Rollback` | memstore/memstore.go:91-110 | the loops take the Rollback step |
| `MemstoreEngine.Engine.CreateTable` | memstore/memstore.go:120-132 | adds an empty table, refused for an existing name |
| `MemstoreEngine.Engine.Insert` | memstore/memstore.go:165-198 | takes the Insert step and reports the specified error or the new id; the caller then scans its old view with exactly that row under the id |
| `MemstoreEngine.Engine.Update` | memstore/memstore.go:200-246 | takes the write step and reports the specified error, checked in the source's order; the caller then scans its old view with exactly the new row under the id |
| `MemstoreEngine.Engine.Delete` | memstore/memstore.go:248-290 | takes the write step for a deletion; the caller then scans its old view without the row |
| `MemstoreEngine.Engine.Scan` | memstore/memstore.go:308-336 | an iterator over the transaction's view, ids ascending, each once |
| `MemstoreEngine.Engine.SeekIndex` | memstore/memstore.go:357-378 | an iterator over a fresh scan with the column's position, refused for an unknown table or column |
| `MemstoreEngine.RowIterator.Next` | memstore/memstore.go:297-304 | delivers the remaining rows in order |
| `MemstoreEngine.IndexIterator.Next` | memstore/memstore.go:386-400 | delivers the next remaining row whose column equals the key |
| `MemstoreEngine.DrainSeek` | memstore/memstore.go:386-400 | draining gives all matching rows of the scan in scan order |
| `MemstoreEngine.SeekIsFilteredScan` | memstore/memstore.go:357-400 | the sought rows are the list that the index plan theorem puts below the joins |
| `Core.ColumnIndex` | core/core.go:142-149 | the first column with the name, or -1 exactly when there is none |
| `Core.CompareOrders` | core/core.go:97-132 | an error exactly for NULLs and different types, 0 exactly for equal values, negative exactly for the smaller number, the lexicographically earlier bytes, or false before true |

## Left out

- Real files, system calls and torn pages: a file is a growing sequence of pages and every read and write succeeds.
- The JSON catalog, restart and recovery: transaction state is not persisted, so everything holds for one engine lifetime.
- Goroutines and mutexes: each call is one step. An index iterator is assumed to be drained while the index does not change.
- IndexBuild.CreateIndex: claims builds over fewer than 250 non-NULL keys only, because at the 250th the source locks a mutex it already holds.
- TEXT and BOOL indexes and DeleteFromIndex: nodes store integers only, and nothing outside tests calls the deletion.
- Engine.Engine.Insert: one table with one indexed INT column, where the source maintains every index of a table in turn; `BTreeRuns.OtherIndexUntouched` shows that indexes sharing the file do not disturb each other.
- Engine.Engine.Update: the same, and calls come through handles of transactions in progress, as the storage interface requires.
- HeapFile.HeapFile.Insert: files of fewer than 2 to the 48th pages, the range of the row id packing; index files stay below 2 to the 31st pages, the range of the chain pointer.
- BTreeRuns.RunRefinesList: for the same reason runs are bounded by the pages a 32-bit chain pointer can name, far beyond the 62250 entries a tree can hold.
- Mvcc.UncommittedLeavesNoTrace: transaction and row ids are labels of the run; without the erased calls the engine would hand out other numbers for the same rows.
- Mvcc.UnnoticedIffPolite: deletions and updates target rows their transaction can see, as the executor issues them after a scan.
- Query.IndexPlanPreservesMeaning: rows are lists and an ON condition that fails to evaluate counts as no match; `Joins` states when the operators report such errors.
- Query.AnyExactSeekPreservesMeaning: the seek is a list of rows; `DiskPlans.DiskPlanIff` says when the disk seek delivers one.
- DiskPlans.DiskPlanIff: one indexed INT column per table, and projection is left out.
- Joins.NestedLoopJoinOp.Next: a child is a fixed list of rows and errors; ScanOp and ProjectOp only forward or map rows and are not modelled, FilterOp is the function `SelectPlans.FilterItems`.
- ParserClass.TokenParser.ParseStatement: INSERT, DDL, transaction and ANALYZE statements are easy members and count as rejected.
- ParserInverse.StmtSound: the same statements.
- Lexer.Lexer.NextToken: the unicode character classes are parameters with the properties listed in `Sane`; parentheses, errors and the keywords of statements outside the model become one token.
- Lexer.AcceptedTextIsPrinting: texts of SELECT, UPDATE, DELETE and EXPLAIN of these.
- Name qualification in projections, and UPDATE and DELETE execution: easy members.
- Planner.BestIsCheapestSplit: costs are real numbers, not floating point; global optimality is not claimed, because the search keeps one plan per subset.
- Filter and projection nodes on top of the join plan and EstimateSelectivity: they only pass costs through.
- MemstoreEngine.Engine.SeekIndex: DropTable is left out; a table created again with other columns could receive rows of the old width.
- 64-bit wrap-around of transaction and row counters in the in-memory engine.
- Session, command line, statistics collection and output formatting.
