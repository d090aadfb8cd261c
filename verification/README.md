# Verified model of the RMDB kernel

A Dafny model of the database kernel under `rmdb/src`: its B+ tree index, join executors,
planner rewrites, latch and statement dispatcher, hash aggregation, condition flattening,
LIKE matcher, plan cache and table printer, with the Python parser in `backend/core/database.py`
that reads the printed tables. `dafny verify dfyconfig.toml` checks all of it.

## What is proved

* **Index.** The tree is a map with insert-if-absent. The invariant is local: every page has a
  ghost level and key range, and each condition mentions a page and its neighbours. An insertion
  is followed through leaf split, parent insertion, internal splits and a new root
  (`TreeSplit`, `TreeGrow`), on pages that are arrays shifted in place (`IndexNode`,
  `IndexHandle`). Runs of insertions, lookups, deletions without underflow and scans agree with
  the map (`IndexRuns`, `IndexScan`), and an insertion changes keys only under the write latches
  that the descent retains (`LatchCrabbing`). Keys are integers, the ranks that the byte-wise
  comparison induces (`KeyOrder`).
* **Joins.** One reference join, which filters the cross product (`JoinSpec`, `JoinAlgebra`).
  Each executor is a class with the iterator state of the original; the rows it is still due to
  yield are a ghost function of that state, and every call is specified by what it does to them.
  Nested loop yields the reference in order, hash join a permutation of it wherever rows that
  match have the same key. Sort-merge yields the join of the left rows it keeps; exactly when
  that is the join is proved for both ways of writing the condition (`MergeSpec`,
  `MergeReversed`). Where the executors read a column, and how they compare CHAR columns, is
  modelled on bytes, with the exact condition under which that is what the condition means
  (`ColumnLookup`, `CharColumns`).
* **Planner.** For a checked query over two tables, the plan that the rewrites produce yields
  the bag of the filtered cross product, whichever side and algorithm is chosen (`PlanMeaning`,
  `JoinResult`, `PlanResult`). A comparison within the second table is pushed to the first and
  lost; the theorem says exactly when that matters.
* **Concurrency.** The latch with its version sequence and optimistic readers, and the dispatcher
  with its workers, are step relations over any number of threads and connections; the
  properties hold in every state of every run (`SpinLatch`, `Dispatcher`). The dispatcher loses,
  repeats and reorders nothing in any interleaving, but it can run two statements of one
  connection at once; the exact condition is proved. Undisturbed calls of the latch achieve what
  they are for (`LatchProgress`), and without new input the dispatcher comes to rest with
  everything answered and sent (`DispatcherProgress`). The server's methods are proved equal to
  the steps (`EpollServer`).
* **Statements on one table.** The check of conditions, the choice of an index and the values of a
  plan are pinned to what the statement says (`Literals`, `StatementMeaning`), and the condition
  evaluators to numbers and bytes (`ConditionMeaning`).
* **Plan cache.** Statements are analysed and planned as the code does (`StatementPlan`), clones
  and rebinding work on buffers (`PlanCache`), and over any run of a worker the rebound plan is
  the statement's own exactly if the slot's first statement fits (`PlanSlots`).
* **The rest.** Aggregation is a fold per group; flattening keeps the meaning of condition trees
  in an exact fragment; LIKE is cutting into fitting pieces; what is printed is parsed back.

## Where the code and its comments differ

* `rmdb/src/index/ix_index_handle.cpp:430` puts the separator one slot too far unless the split
  child is the rightmost one. Both forms are modelled: `IndexPages.AsWrittenIffRightmost` says
  when they agree, `IndexHandle.IxIndex.InsertAscending` uses the code as written, and
  `IndexHandle.IxIndex.InsertEntry` the layout documented at lines 348-351.
* `rmdb/src/index/ix_manager.h:83` reserves room for as many keys as a node may hold, with the
  record ids right behind (`rmdb/src/index/ix_index_handle.h:68-69`), yet a split starts from one
  key more: that key is written over the first record id, also in ascending insertion.
  `PageBytes.Layout.IntactIff` has the exact condition. The tree is proved for nodes with room for
  that key.
* `rmdb/src/execution/executor_sortmerge_join.h:54-68` searches the combined columns first, where
  the right ones carry offsets moved up by the left tuple's length, and adds those to the right
  record: it reads past the column. `ColumnLookup.Children.LookupIff` has the exact condition. The
  merge theorems speak of keys wherever they are read, or, where they compare with the join, of
  keys read at their own places.
* `rmdb/src/network/epoll_server.cpp:274-276` wants the statements of a connection run one at a
  time. The read handler tests and sets the busy flag without the mutex that a worker holds
  between answering and dispatching; `Dispatcher.TwoTasks` and `Dispatcher.OneTaskIff`.
* `rmdb/src/rmdb.cpp:279-281` wants a pattern to match the fast path's shape; `identify_pattern`
  looks at less, so that a slot can be filled by another shape; `PlanSlots.WrongWhere` and
  `PlanSlots.SlotIff`.
* The join evaluators compare as many bytes of CHAR columns as the first has, the hash key takes
  each side's own length (`rmdb/src/execution/executor_hash_join.h:88`); `CharColumns.AgreeIff`.
* `rmdb/src/optimizer/planner.cpp:280-283` returns the scan of the only table and forgets the
  conditions that were not popped: an OR or a NOT, which name no table. `StatementMeaning.OrIsLost`
  and `StatementMeaning.SelectedRowsIff`.
* `rmdb/src/analyze/analyze.cpp:473-477` and `rmdb/src/execution/executor_aggregation.h:161-162` speak
  of promotion, yet a FLOAT literal beside an INT loses its fraction; `Literals.CheckedIff` and
  `Literals.HavingIff`. The check of BETWEEN looks at the type of the first bound only;
  `Literals.CheckedRange`.
* The comment at `rmdb/src/index/ix_index_handle.cpp:34-39` lets the upper bound start from 1; the
  code returns 0 below the first key, and so does the model.
* `rmdb/src/optimizer/planner.cpp:72` announces conditions across tables; the test below it takes
  comparisons within one table, of any table, for the table at hand. The model follows the test.
* The new root's parent is never assigned (`rmdb/src/index/ix_index_handle.cpp:387-401`); the model
  takes it as none.

## Model

| member | source | states |
|---|---|---|
| IndexRuns.InsertRun | rmdb/src/index/ix_index_handle.cpp:455-514 | with parents changed by the documented layout, any sequence of insertions into a created index, through any number of cascading splits, ends in a B+ tree whose content is the map in which the first value inserted under a key wins |
| IndexRuns.InsertRunThenScan | rmdb/src/index/ix_index_handle.cpp:455-514 | with parents changed by the documented layout, inserting any sequence of pairs and scanning from the first leaf to the end returns each inserted key once, ascending, with the value inserted first |
| IndexRuns.FirstWinsIsFirst | rmdb/src/index/ix_index_handle.cpp:117-125 | the specification map holds exactly the inserted keys, each with the value of its first insertion |
| BPlusTree.EmptyIndexIsTree | rmdb/src/index/ix_manager.h:95-128 | the index as created is a B+ tree storing the empty map |
| BPlusTree.LeafInsertIntoTree | rmdb/src/index/ix_index_handle.cpp:456-500 | inserting into the leaf that covers the key keeps every condition of the tree but the size of that leaf, and stores the map with the key added if absent |
| BPlusTree.LeafRemoveFromTree | rmdb/src/index/ix_index_handle.cpp:523-540 | removing from a covering leaf above the minimum, or from a root that is a leaf, keeps the whole tree and stores the map without the key |
| BPlusTree.SameLevelDisjoint | rmdb/src/index/ix_index_handle.cpp:348-351 | two pages of one level with a key in both their ranges are the same page: separators cut the keys into disjoint ranges |
| TreeSplit.SplitLeafKeepsTree | rmdb/src/index/ix_index_handle.cpp:321-347 | splitting an overfull leaf keeps order, ranges, sizes between minimum and maximum and the leaf list in both directions, and stores the same map; only the separator is missing from the parent |
| TreeSplit.SplitInternalKeepsTree | rmdb/src/index/ix_index_handle.cpp:321-366 | splitting an overfull internal node moves the middle key up, gives the moved children their new parent, keeps all conditions and the map; only the separator is missing from the parent |
| TreeGrow.GrowRootKeepsTree | rmdb/src/index/ix_index_handle.cpp:385-401 | when the split page was the root, the new root over the two halves completes the tree one level higher, with the same map |
| TreeGrow.InsertChildKeepsTree | rmdb/src/index/ix_index_handle.cpp:417-432 | putting the pending separator and the new page after the split child, as the documented layout says, closes the gap in every condition; only the parent may now be overfull |
| TreePaths.LeavesAtOneDepth | rmdb/src/index/ix_index_handle.cpp:321-514 | climbing from any leaf by parent links reaches the root after exactly the height of the tree, and not before |
| TreePaths.StoredInOneLeaf | rmdb/src/index/ix_index_handle.cpp:303-312 | a key is in the stored map exactly when it is in a leaf, and it is in no more than one |
| TreePaths.PropagationIsConfined | rmdb/src/index/ix_index_handle.cpp:385-448 | pages that a separator insertion changes in more than their links are ancestors of the split page that were full, an unbroken chain upwards, or new pages |
| TreePaths.InsertionIsConfined | rmdb/src/index/ix_index_handle.cpp:455-514 | a whole insertion changes pages in more than their links only for the leaf and, if the leaf was full, the unbroken chain of full pages above it |
| IndexPages.LowerBoundUnique | rmdb/src/index/ix_index_handle.cpp:21-32 | on sorted keys the result is the one position with smaller keys before it and no smaller key from it on |
| IndexPages.UpperBoundUnique | rmdb/src/index/ix_index_handle.cpp:40-51 | on sorted keys the result is the one position with no larger key before it and only larger keys from it on |
| IndexPages.LowerBoundFinds | rmdb/src/index/ix_index_handle.cpp:61-68 | a key is present exactly when it stands at its lower bound |
| IndexPages.LeafInsert | rmdb/src/index/ix_index_handle.cpp:117-125 | the result is sorted and holds the old keys and the new one, with unchanged size for a key already there |
| IndexPages.LeafInsertValues | rmdb/src/index/ix_index_handle.cpp:117-125 | every old key keeps its value, also when it is inserted again; a new key has the given value |
| IndexPages.LeafRemove | rmdb/src/index/ix_index_handle.cpp:153-160 | the result is sorted, holds the old keys but the removed one, and loses one entry exactly if the key was there |
| IndexPages.LeafRemoveValues | rmdb/src/index/ix_index_handle.cpp:153-160 | removing one key leaves the value of every other key |
| IndexPages.AsWrittenIffRightmost | rmdb/src/index/ix_index_handle.cpp:417-432 | the insertion into the parent as coded agrees with the documented layout, and keeps the keys sorted, if and only if the split child is the rightmost one |
| IndexPages.AsWrittenLosesChild | rmdb/src/index/ix_index_handle.cpp:417-432 | a parent with keys 10, 20 and a split of its first child: the code leaves the keys 10, 5, 20 and drops the last child |
| IndexNode.IxNode.FindLower | rmdb/src/index/ix_index_handle.cpp:21-32 | the binary search computes the lower bound |
| IndexNode.IxNode.FindUpper | rmdb/src/index/ix_index_handle.cpp:40-51 | the binary search computes the upper bound |
| IndexNode.IxNode.LeafLookup | rmdb/src/index/ix_index_handle.cpp:61-68 | finds a key exactly when it is in the leaf, and returns its record id |
| IndexNode.IxNode.InternalLookup | rmdb/src/index/ix_index_handle.cpp:75-78 | returns the child at the upper bound |
| IndexNode.IxNode.InsertPairs | rmdb/src/index/ix_index_handle.cpp:94-110 | n pairs put in at a position in place: prefix, new pairs, shifted suffix, and the record ids past the entries move along unchanged |
| IndexNode.IxNode.Insert | rmdb/src/index/ix_index_handle.cpp:117-125 | insertion in place equals insertion if absent into the page, and returns its size |
| IndexNode.IxNode.ErasePair | rmdb/src/index/ix_index_handle.cpp:132-146 | erasing a position in place removes exactly that key and that record id |
| IndexNode.IxNode.Remove | rmdb/src/index/ix_index_handle.cpp:153-160 | removal in place equals removal of the key from the page, and returns its size |
| IndexNode.IxNode.FindChildSlot | rmdb/src/index/ix_index_handle.h:154-164 | the first slot that points to the child, searched over all children of the node |
| IndexNode.IxNode.RightHalfInternal | rmdb/src/index/ix_index_handle.cpp:348-366 | the new internal node holds the keys after the middle one and one child more |
| IndexNode.IxNode.InsertChildAfter | rmdb/src/index/ix_index_handle.cpp:417-432 | the documented layout: separator at the slot of the split child, new child after it, all other keys and children kept in order |
| IndexNode.IxNode.InsertChildAsWritten | rmdb/src/index/ix_index_handle.cpp:417-432 | what the code does to the entries of a node with room for them: the separator one slot too far, the last child lost |
| IndexHandle.IxIndex.constructor | rmdb/src/index/ix_manager.h:60-128 | a created index is a B+ tree that stores the empty map |
| IndexHandle.IxIndex.FindLeaf | rmdb/src/index/ix_index_handle.cpp:186-255 | the descent ends in the leaf whose key range covers the key |
| IndexHandle.IxIndex.GetValue | rmdb/src/index/ix_index_handle.cpp:303-312 | lookup agrees with the stored map: found exactly for its keys, with their values |
| IndexHandle.IxIndex.SplitPage | rmdb/src/index/ix_index_handle.cpp:321-369 | the split on page buffers is the specified split of leaf or internal node, and creates only new buffers |
| IndexHandle.IxIndex.InsertIntoParent | rmdb/src/index/ix_index_handle.cpp:385-448 | by the documented layout, completes any pending split up to and including a new root, with the map kept and other pages changed only in their links, but for the unbroken chain of full ancestors |
| IndexHandle.IxIndex.InsertEntry | rmdb/src/index/ix_index_handle.cpp:455-514 | by the documented layout, insert-if-absent on the stored map, with all tree conditions kept |
| IndexHandle.IxIndex.InsertEntryWith | rmdb/src/index/ix_index_handle.cpp:455-514 | the same, the leaf covers the key, and every page but that leaf and the full chain above it changes at most its links to parent and previous leaf |
| IndexHandle.IxIndex.InsertAscending | rmdb/src/index/ix_index_handle.cpp:385-514 | with the entries of a parent moved as the code moves them, in nodes with room for one more, inserting a key above all stored ones keeps the tree and adds the key |
| IndexHandle.IxIndex.LargestKeyGoesLast | rmdb/src/index/ix_index_handle.cpp:417-432 | a key above all stored ones falls in the rightmost leaf, which is why ascending insertion splits rightmost children only |
| PageBytes.Layout.IntactIff | rmdb/src/index/ix_index_handle.cpp:94-110 | with the record ids right behind the room reserved for the keys, inserting a pair leaves the record ids right, whatever they are, if and only if the node holds fewer keys than its maximum |
| PageBytes.Layout.FullNodeLosesFirst | rmdb/src/index/ix_index_handle.cpp:94-110 | appending a key to a full node, as every split begins, writes the key over the first record id |
| PageBytes.Layout.KeysInserted | rmdb/src/index/ix_index_handle.cpp:94-110 | with room for one more the keys are the old ones with the new one put in at its place |
| IndexHandle.IxIndex.DeleteEntryFast | rmdb/src/index/ix_index_handle.cpp:523-540 | taken exactly if the leaf that covers the key holds more than its minimum; then the map loses exactly the key and the answer says whether it was there; otherwise nothing changes |
| IndexHandle.IxIndex.DeleteEntry | rmdb/src/index/ix_index_handle.cpp:523-565 | up to the point where a leaf becomes too small, which is when the key is there, its leaf holds no more than its minimum, and it is not a root with another key: the map loses exactly the key, with the answer; at that point the tree is unchanged |
| IndexHandle.IxIndex.OneLeafFor | rmdb/src/index/ix_index_handle.cpp:303-312 | one leaf covers a key, so both descents of a deletion end in the same |
| IndexScan.NextPassesOneKey | rmdb/src/index/ix_scan.cpp:16-45 | one step of the scan passes exactly one stored key, also across leaves, and ends on an entry or at the end position |
| IndexScan.LeafBeginIsFirst | rmdb/src/index/ix_index_handle.cpp:798-801 | no stored key lies before the begin position |
| IndexScan.SamePosition | rmdb/src/index/ix_scan.h:38 | two positions with the same stored keys before them are the same page and slot, so the test for the end is a test of place |
| IndexScan.BoundPositions | rmdb/src/index/ix_index_handle.cpp:758-784 | where the lower (upper) position is a proper one, exactly the keys below (not above) the bound lie before it |
| IndexRange.RangeStopsIff | rmdb/src/index/ix_scan.cpp:16-45 | the scan of a range, stepping on as the code does with assertions off, ever stands at its end if and only if both positions are proper or they are the same |
| IndexRange.ImproperEndNeverMet | rmdb/src/index/ix_scan.cpp:16-45 | from a proper position an end past the last slot of a leaf that is not the last is never reached by any number of steps |
| IndexRange.StaysStuck | rmdb/src/index/ix_scan.cpp:16-45 | from past the last slot of a leaf the scan goes on past it for ever |
| IndexRange.EqualMeansEmpty | rmdb/src/index/ix_index_handle.cpp:758-784 | where both positions are the same no stored key is in the range |
| IndexRange.RangeNeverStops | rmdb/src/index/ix_index_handle.cpp:758-784 | in a tree with the leaves 10, 20 and 30, 40, 50 the scan from 25 to 50 never stops |
| IndexScan.IxScan.Next | rmdb/src/index/ix_scan.cpp:16-45 | the cursor moves to the next position |
| IndexScan.ScanRange | rmdb/src/index/ix_scan.cpp:16-45 | a scan between two proper positions yields the entries between them, ascending, each once, with their values |
| IndexScan.ScanAll | rmdb/src/index/ix_index_handle.cpp:786-801 | the scan from begin to end yields the whole stored map, ascending, each key once |
| IndexScan.LowerPosition | rmdb/src/index/ix_index_handle.cpp:758-766 | the position found, and whether it is proper; if so, the keys before it are the smaller ones |
| IndexScan.UpperPosition | rmdb/src/index/ix_index_handle.cpp:772-780 | the position found, and whether it is proper; if so, the keys before it are those not larger |
| IndexRange.ScanBetween | rmdb/src/index/ix_index_handle.cpp:758-784 | the positions, and whether their scan stops; if it does it yields exactly the stored keys between the bounds, ascending, with their values |
| KeyOrder.CompareIsRank | rmdb/src/index/ix_index_handle.h:39-47 | comparing composite keys byte-wise, column by column, is comparing integer ranks: the order on which the tree is built is total |
| KeyOrder.ColumnIsOrder | rmdb/src/index/ix_index_handle.h:20-37 | for INT, FLOAT and STRING columns the comparison is a total order of column contents |
| KeyOrder.MemCmpIsOrder | rmdb/src/index/ix_index_handle.h:32-33 | memcmp on equal lengths is the order of big-endian numbers |
| KeyOrder.WordIs | rmdb/src/index/ix_index_handle.h:22-26 | each byte of an INT weighs 256 times the one before it |
| KeyOrder.FloatOrder | rmdb/src/index/ix_index_handle.h:27-31 | FLOATs compare by sign and, within a sign, by their other bits; the two zeros are equal |
| KeyOrder.FloatPowers | rmdb/src/index/ix_index_handle.h:27-31 | a FLOAT with an empty fraction is the power of two that its exponent names; one has the exponent 127 |
| KeyOrder.BytesRead | rmdb/src/common/common.h:66-84 | the four bytes written for a number of 32 bits read back as it |
| LatchCrabbing.CrabbingFindLeaf | rmdb/src/index/ix_index_handle.cpp:263-293 | returns the covering leaf holding write latches on exactly it and the retained ancestors, a path by parent links in which every node below the topmost is unsafe |
| LatchCrabbing.ChainIsRetained | rmdb/src/index/ix_index_handle.cpp:263-293 | the pages a split can propagate to, computed by climbing while pages are full, are exactly the retained ones |
| LatchCrabbing.LatchedIsTouched | rmdb/src/index/ix_index_handle.cpp:263-293 | the latched pages are exactly those whose keys or record ids an insertion of the key can change |
| LatchCrabbing.InsertUnderLatches | rmdb/src/index/ix_index_handle.cpp:263-293 | an insertion changes an existing page in more than its links to parent and previous leaf only under a write latch, also when the root splits |
| JoinAlgebra.JoinIsFilteredCross | rmdb/src/execution/executor_nestedloop_join.h:216-323 | the reference join, inner, equals the cross product filtered by the conditions |
| JoinBags.RowsBag | rmdb/src/execution/executor_sortmerge_join.h:427-524 | permuting the inputs permutes the join |
| NestedLoopJoin.NestedLoopJoinExecutor.FindNextMatch | rmdb/src/execution/executor_nestedloop_join.h:130-183 | stops on the next row of the join, or at the end when none is due |
| NestedLoopJoin.NestedLoopJoinExecutor.BeginTuple | rmdb/src/execution/executor_nestedloop_join.h:216-259 | after it the rows due are the whole join: for each left row its matches in order, or one padded row if LEFT has none |
| NestedLoopJoin.NestedLoopJoinExecutor.NextTuple | rmdb/src/execution/executor_nestedloop_join.h:275-323 | drops exactly the first row due |
| NestedLoopJoin.NestedLoopJoinExecutor.Next | rmdb/src/execution/executor_nestedloop_join.h:331-349 | returns the first row due, padded when LEFT found no match |
| NestedLoopJoin.NestedLoopJoinExecutor.Drain | rmdb/src/execution/executor_nestedloop_join.h:216-323 | a full iteration ends and returns the join, in order |
| HashProbe.Hashing.HashJoinIsJoin | rmdb/src/execution/executor_hash_join.h:280-391 | what the phases of a hash join are due to yield is a permutation of the join, for INNER and LEFT, whatever rows share a bucket |
| HashProbe.Hashing.ProbeIsColumns | rmdb/src/execution/executor_hash_join.h:194-225 | probing buckets finds every qualifying pair once, because every build row is in the bucket of its key |
| HashProbe.Hashing.PickedPermutation | rmdb/src/execution/executor_hash_join.h:194-210 | the order of a bucket does not matter, nor entries that fail the conditions |
| HashProbe.Hashing.MarkAllFlags | rmdb/src/execution/executor_hash_join.h:194-238 | after the probe a build row is marked exactly if some probe row matches it |
| HashProbe.Hashing.NullRowsArePads | rmdb/src/execution/executor_hash_join.h:227-238 | the null phase emits, in order, one padded row for each build row without a match |
| HashJoin.HashJoinExecutor.Build | rmdb/src/execution/executor_hash_join.h:280-307 | the table holds each build row once, in the bucket of its key |
| HashJoin.HashJoinExecutor.TryProbeNext | rmdb/src/execution/executor_hash_join.h:194-210 | takes the next passing entry of the bucket and marks its build row, or uses up the bucket |
| HashJoin.HashJoinExecutor.AdvanceRight | rmdb/src/execution/executor_hash_join.h:212-225 | moves to the next probe row with a match, dropping nothing that is due |
| HashJoin.HashJoinExecutor.EmitNullRight | rmdb/src/execution/executor_hash_join.h:227-238 | finds the next unmarked build row, or none is left |
| HashJoin.HashJoinExecutor.BeginTuple | rmdb/src/execution/executor_hash_join.h:280-352 | after it the rows due are what the phases yield from a table that holds the left input; where matching rows have the same key that is a permutation of the join |
| HashJoin.HashJoinExecutor.NextTuple | rmdb/src/execution/executor_hash_join.h:354-391 | drops exactly the first row due, through both phases |
| HashJoin.HashJoinExecutor.Next | rmdb/src/execution/executor_hash_join.h:399-428 | returns the first row due, padded in the null phase |
| HashJoin.HashJoinExecutor.Drain | rmdb/src/execution/executor_hash_join.h:280-391 | a full iteration ends and returns what the phases yield; where matching rows have the same key that is a permutation of the join |
| JoinKeys.Sides.SameKey | rmdb/src/execution/executor_hash_join.h:72-94 | rows that agree on every equi-condition have the same key |
| JoinKeys.Sides.SameKeyIff | rmdb/src/execution/executor_hash_join.h:72-94 | with columns of one type in every equi-condition, numbers of 32 bits and strings without zeros, two rows have the same key if and only if they agree on every equi-condition |
| JoinKeys.Sides.HashKeysFit | rmdb/src/execution/executor_hash_join.h:72-94 | rows that pass all conditions, with strings compared whole, have the same key, since the conditions include every equi-condition |
| JoinKeys.EquiConds | rmdb/src/portal.h:189-195 | the extracted conditions are exactly the equalities between columns |
| ColumnLookup.Children.LookupIff | rmdb/src/execution/executor_sortmerge_join.h:54-101 | an executor reads a column's own bytes, on every pair of records, if and only if it is not the sort-merge join, or the column is on the left, or the left tuple is empty |
| ColumnLookup.Children.PlaceIff | rmdb/src/execution/executor_hash_join.h:97-117 | nested loop and hash find every column at its own offset; sort-merge finds one of the right side past it by the length of the left tuple |
| ColumnLookup.Children.BehindRecordIff | rmdb/src/execution/executor_sortmerge_join.h:54-101 | the sort-merge join reads behind the right record if and only if less than the left tuple's length follows the column there |
| ColumnLookup.SortMergeComparesWrongColumn | rmdb/src/execution/executor_sortmerge_join.h:70-101 | t(a INT) and u(b INT, c INT) joined on a = b: for a = 1, b = 2, c = 1 sort-merge compares a with c and finds them equal, the others compare a with b |
| CharColumns.SameLengthIff | rmdb/src/execution/executor_nestedloop_join.h:82-95 | comparing as many bytes as the first column has is comparing the values, whatever lies behind the second, if and only if the columns have the same length |
| CharColumns.EqualLengthsCompare | rmdb/src/execution/executor_nestedloop_join.h:82-95 | for columns of one length the bytes compare as the values do, in all six comparisons |
| CharColumns.KeyIsValue | rmdb/src/execution/executor_hash_join.h:72-94 | the bytes up to the first zero, which go into the key, are the value |
| CharColumns.AgreeIff | rmdb/src/execution/executor_hash_join.h:72-94 | on an equality of CHAR columns, hash join and nested loop yield the same bag, for all rows and whatever lies behind, if and only if the columns have the same length |
| CharColumns.ShorterColumnDiffers | rmdb/src/execution/executor_hash_join.h:72-94 | CHAR(2) ab joined with CHAR(4) abcd: the nested loop yields the pair, the hash join nothing |
| CharColumns.Chars.EvalIsWhole | rmdb/src/execution/executor_nestedloop_join.h:39-117 | for every condition tree whose compared columns have one length, evaluating bytes is evaluating values |
| JoinKeys.Sides.MergeCompares | rmdb/src/execution/executor_sortmerge_join.h:70-101 | with one key pair, read at its own place, the comparison of two rows is the order of their sort keys, in the direction the condition is written |
| JoinKeys.Sides.MergeKeysFit | rmdb/src/execution/executor_sortmerge_join.h:70-101 | rows that pass all conditions, read at their own places and compared whole, compare as equal |
| MergeSpec.Merging.StartIsKept | rmdb/src/execution/executor_sortmerge_join.h:329-413 | for a condition that names the left column first, the merge of sorted inputs yields the nested-loop join of the left rows it keeps, from any position in the search for the first match |
| MergeSpec.Merging.FromIsKept | rmdb/src/execution/executor_sortmerge_join.h:193-270 | the same from any later left row and right position, over the rewind after an unmatched left row |
| MergeSpec.Merging.MergeIsJoinIff | rmdb/src/execution/executor_sortmerge_join.h:193-270 | for a condition that names the left column first, the merge is the nested-loop join, in order or as a bag, if and only if no left row that loses its run had a partner |
| MergeSpec.Merging.EquiMergeIff | rmdb/src/execution/executor_sortmerge_join.h:193-270 | for a plain equi-join that names the left column first, the merge is the join if and only if no two adjacent left rows share a key that occurs on the right |
| MergeResult.MergeIsJoin | rmdb/src/execution/executor_sortmerge_join.h:329-524 | keys read at their own places and the left named first: if no key occurs twice on the left and at all on the right, the merge is the nested-loop join of the sorted inputs, hence a permutation of the join |
| MergeResult.EquiJoinIff | rmdb/src/execution/executor_sortmerge_join.h:329-524 | for a plain equi-join, keys read at their own places and the left named first, the merge yields the join if and only if no key occurs twice on the left and at all on the right |
| MergeResult.RepeatedKeyLosesRow | rmdb/src/execution/executor_sortmerge_join.h:193-270 | two left rows with the key of one right row, keys read at their own places: the join has two rows, the merge yields one |
| MergeResult.ReversedConditionLosesRow | rmdb/src/execution/executor_sortmerge_join.h:70-101 | a condition written with the right table first, keys read at their own places: the join has one row, the merge yields none |
| MergeReversed.ReversedMergeIff | rmdb/src/execution/executor_sortmerge_join.h:70-101 | for a plain equi-join that names the right column first, the merge of sorted inputs is the join, in order or as a bag, if and only if no left key occurs on the right, or the first keys are equal and of the later left rows only the second has a key that occurs, that of the second run |
| MergeReversed.ReversedJoinIff | rmdb/src/execution/executor_sortmerge_join.h:329-524 | the same for the inputs before they are sorted, as a bag |
| MergeSpec.CmpOrder | rmdb/src/execution/executor_sortmerge_join.h:70-101 | the comparison of keys is a total order |
| SortMergeJoin.SortExecutor.BeginTuple | rmdb/src/execution/execution_sort.h:39-77 | the child is read in full and sorted, and the cursor stands at the first row |
| SortMergeJoin.SortMergeJoinExecutor.AdvanceToNextMatch | rmdb/src/execution/executor_sortmerge_join.h:193-270 | wherever the keys are read, stops on the next row of the merge by them, or at the end when none is due |
| SortMergeJoin.SortMergeJoinExecutor.FindFirstRun | rmdb/src/execution/executor_sortmerge_join.h:352-385 | wherever the keys are read, finds the first run of equal ones, or nothing is due |
| SortMergeJoin.SortMergeJoinExecutor.Collect | rmdb/src/execution/executor_sortmerge_join.h:225-232 | buffers right rows up to the first that compares as larger |
| SortMergeJoin.SortMergeJoinExecutor.DropLower | rmdb/src/execution/executor_sortmerge_join.h:233-239 | drops from the buffer the rows before the first that compares as equal |
| SortMergeJoin.SortMergeJoinExecutor.BeginTuple | rmdb/src/execution/executor_sortmerge_join.h:329-413 | wherever the keys are read, after it the rows due are the whole merge by them |
| SortMergeJoin.SortMergeJoinExecutor.NextTuple | rmdb/src/execution/executor_sortmerge_join.h:427-524 | drops exactly the first row due |
| SortMergeJoin.SortMergeJoinExecutor.Drain | rmdb/src/execution/executor_sortmerge_join.h:329-524 | wherever the keys are read, a full iteration ends and returns the merge by them, in order |
| Portal.ExtractEqui | rmdb/src/portal.h:189-195 | collects exactly the equalities between columns, in order |
| Portal.RunJoin | rmdb/src/portal.h:179-211 | the executor chosen by tag yields what the tag promises: the join by the evaluators in order, what the hash phases yield, or the merge of the sorted sides |
| Portal.RunOuter | rmdb/src/portal.h:179-211 | LEFT, and RIGHT by exchanging the sides, run by hash or nested loop yield what those promise |
| Planner.EqFirstIsStableSort | rmdb/src/optimizer/planner.cpp:167-176 | equalities first, and both kinds in their old order: the stable sort |
| Planner.ReorderedBag | rmdb/src/optimizer/planner.cpp:144-185 | the reordering keeps the conditions as a bag |
| Planner.LogicalOptimization | rmdb/src/optimizer/planner.cpp:144-185 | filters before join conditions, each equalities first; the rest of the query unchanged |
| Planner.PopConds | rmdb/src/optimizer/planner.cpp:56-83 | separates the conditions one table answers for from the others, both in order |
| Planner.IsEquiJoin | rmdb/src/optimizer/planner.cpp:247-258 | true exactly if some condition equates columns of two named tables |
| Planner.ChooseJoin | rmdb/src/optimizer/planner.cpp:300-322 | algorithm and sides: hash for an equi-join if enabled, with the smaller table on the build side; otherwise sort-merge only if nested loop is off |
| Planner.MakeOneRel | rmdb/src/optimizer/planner.cpp:261-351 | the plan from scans with popped conditions and joins in tree order with all remaining column conditions |
| Planner.PlanQuery | rmdb/src/optimizer/planner.cpp:461-475 | the plan of a query is that of its reordered form |
| JoinAlgebra.Pushdown | rmdb/src/optimizer/planner.cpp:266-280 | filtering both sides first equals filtering in the join |
| JoinAlgebra.Swap | rmdb/src/optimizer/planner.cpp:300-322 | exchanging the sides of a mirrored inner join permutes its rows |
| PlanMeaning.Database.TwoTablePlan | rmdb/src/optimizer/planner.cpp:261-351 | the plan of any checked query over two tables is a join of two filtered scans, with three given condition lists |
| PlanMeaning.Database.SortedOut | rmdb/src/optimizer/planner.cpp:56-83 | which list each condition of the query goes to; none is lost and none invented |
| PlanMeaning.Database.Pushed | rmdb/src/execution/executor_seq_scan.h:42-203 | a pushed condition means on its own row what it means on the joined one, except a comparison within the second table, which any row of the first passes |
| PlanMeaning.Database.CrossMeans | rmdb/src/execution/executor_nestedloop_join.h:39-117 | a join condition means the same in the join, either way round, as on the joined row |
| PlanMeaning.Database.Checks | rmdb/src/optimizer/planner.cpp:261-351 | a pair passes both scans and the join exactly if the joined row passes the conditions that are not dropped |
| JoinResult.AnyAlgorithm | rmdb/src/portal.h:179-211 | whatever algorithm runs a join, INNER or LEFT, over compared columns of one length, its rows are a permutation of the join the conditions mean; sort-merge with keys read at their own places and where it can be trusted |
| JoinResult.DecidesAsMeant | rmdb/src/execution/executor_nestedloop_join.h:39-117 | over compared columns of one length the executors decide on every pair of rows as the conditions mean |
| PlanResult.AnyAlgorithm | rmdb/src/portal.h:179-211 | the same for a plan of one join of two scans |
| PlanResult.PushedJoin | rmdb/src/optimizer/planner.cpp:144-351 | the pushed-down join equals, in order, the filtered cross product |
| PlanResult.SwappedJoin | rmdb/src/optimizer/planner.cpp:300-322 | the side swap permutes the rows |
| PlanResult.PlanYieldsQuery | rmdb/src/optimizer/planner.cpp:144-351 | for every checked two-table query over compared columns of one length, any settings, any row counts and any tag, the plan yields the bag of the cross product filtered by the conditions that are not dropped; sort-merge as above |
| PlanResult.NothingDropped | rmdb/src/optimizer/planner.cpp:144-351 | so such a query without a comparison within its second table yields its meaning |
| PlanResult.DroppedIff | rmdb/src/optimizer/planner.cpp:73-79 | in general such a query yields its meaning if and only if no pair that passes the other conditions fails a comparison within the second table |
| PlanResult.SecondTableComparisonIsLost | rmdb/src/optimizer/planner.cpp:73-79 | u.b = u.c in a join of t and u, with rows where it fails: the query is empty, the plan yields a row |
| SpinLatch.EveryState | rmdb/src/common/rwlatch.h:53-93 | every state of every run of any number of threads below 2^31 satisfies the invariant of word, sequence, page and readers |
| SpinLatch.InvKept | rmdb/src/common/rwlatch.h:53-93 | every atomic step keeps the invariant |
| SpinLatch.Exclusion | rmdb/src/common/rwlatch.h:53-93 | a writer excludes every other holder; the word is the write bit exactly while a writer holds and otherwise the number of readers, which stays below bit 31 |
| SpinLatch.UnlockErasesNoReader | rmdb/src/common/rwlatch.h:89-93 | when unlock stores 0 there is no reader to erase |
| SpinLatch.SharedHolderSeesOnePage | rmdb/src/common/rwlatch.h:53-71 | no step changes the page while a thread holds the latch shared |
| SpinLatch.QuietWindow | rmdb/src/common/rwlatch.h:73-108 | between two states with the same even number of bumps the page is the same |
| SpinLatch.EqualSamples | rmdb/src/common/rwlatch.h:106-108 | two equal even samples of the sequence, less than a full wrap apart, saw one page throughout |
| SpinLatch.AcceptedLookup | rmdb/src/index/ix_index_handle.cpp:198-221 | a lookup that reads cell by cell among any writer steps and is then accepted returns the child at the upper bound of one well-formed page |
| SpinLatch.FrameWasThere | rmdb/src/index/ix_index_handle.cpp:198-221 | and that page is what the latch protected when the thread sampled, since when it has been reading |
| SpinLatch.SearchFinds | rmdb/src/index/ix_index_handle.cpp:40-51 | the cell-by-cell search on an unchanged page ends at the upper bound |
| LatchProgress.SharedIff | rmdb/src/common/rwlatch.h:53-65 | in every reachable state an undisturbed lock_shared gets in at its first attempt, beside any other readers and counted once, if and only if there is no writer; otherwise it is back where it was |
| LatchProgress.SharedLeaves | rmdb/src/common/rwlatch.h:67-69 | unlock_shared takes one reader off the word and changes nothing else |
| LatchProgress.ExclusiveIff | rmdb/src/common/rwlatch.h:73-87 | in every reachable state an undisturbed lock gets in at its first attempt, with the write bit and an odd sequence, if and only if nobody holds the latch; otherwise it is back where it was |
| LatchProgress.ExclusiveLeaves | rmdb/src/common/rwlatch.h:89-93 | unlock leaves the word zero and the sequence even |
| LatchProgress.LookupIff | rmdb/src/index/ix_index_handle.cpp:198-221 | in every reachable state an undisturbed optimistic lookup is accepted, with the child at the upper bound of the page, if and only if the sequence is even; otherwise it is back where it was |
| LatchProgress.TwoReaders | rmdb/src/common/rwlatch.h:53-65 | two threads come to hold the latch shared at once |
| Dispatcher.EveryState | rmdb/src/network/epoll_server.cpp:247-318 | every state of every interleaving of I/O and worker steps, with a worker's answer and its next dispatch as two steps, satisfies the invariant |
| Dispatcher.InvKept | rmdb/src/network/epoll_server.cpp:196-224 | every step keeps the invariant |
| Dispatcher.OneTaskIff | rmdb/src/network/epoll_server.cpp:196-291 | for every rule on when the read handler may look at a connection: no connection ever has two statements queued or running if and only if the handler never looks at one on which a worker has answered but not yet dispatched, with two statements waiting |
| Dispatcher.TwoTasks | rmdb/src/network/epoll_server.cpp:196-291 | the code has no such rule: a run in which the client sends b;c; while a; runs ends with b; and c; both queued |
| Dispatcher.OneTaskUnderMutex | rmdb/src/network/epoll_server.cpp:277-291 | if the read handler held the connection mutex for its dispatch, a connection would be busy exactly while a statement of it is queued or running, and never have two |
| Dispatcher.OneTaskOneWaiting | rmdb/src/network/epoll_server.cpp:196-291 | as the code is, the same holds on every run in which no connection has two complete statements waiting, and a worker runs the statement whose response comes next |
| Dispatcher.NoneLost | rmdb/src/network/epoll_server.cpp:196-291 | in every interleaving the statements without a response are those queued or running, and what runs was dispatched on its connection |
| Dispatcher.BytesKept | rmdb/src/network/epoll_server.cpp:247-318 | dispatched statements and read buffer add up to the bytes received; bytes sent and unsent add up to the responses |
| Dispatcher.DispatchedInOrder | rmdb/src/network/epoll_server.cpp:277-291 | the statements of the bytes received are those dispatched, in order, followed by those still in the read buffer |
| Dispatcher.StatementsOf | rmdb/src/network/epoll_server.cpp:277-291 | cutting at semicolons is unambiguous: statements joined and followed by a rest are read back as they were |
| Dispatcher.IdleMeansDone | rmdb/src/network/epoll_server.cpp:196-224 | an idle connection, with no handler under way, has dispatched every complete statement it received |
| Dispatcher.NothingForgotten | rmdb/src/network/epoll_server.cpp:196-318 | when nothing is queued or running and no handler is under way, every complete statement has been dispatched and answered |
| DispatcherProgress.ComesToRest | rmdb/src/network/epoll_server.cpp:196-318 | with at least one worker, every run can be continued without new input until nothing is queued, running or unsent |
| DispatcherProgress.StepUses | rmdb/src/network/epoll_server.cpp:196-318 | every step that needs no new input leaves less to do, or as much to do and less to send; so no run of such steps goes on for ever |
| DispatcherProgress.StuckIff | rmdb/src/network/epoll_server.cpp:196-318 | with at least one worker, no such step is possible in a reachable state if and only if the server is at rest: no deadlock |
| DispatcherProgress.AtRest | rmdb/src/network/epoll_server.cpp:196-318 | at rest the statements of every connection have been answered, each once and in the order received, and the answers sent are all the answers |
| Dispatcher.CutOk | rmdb/src/network/epoll_server.cpp:277-291 | cutting one statement off a read buffer keeps the accounts |
| Dispatcher.FlushOk | rmdb/src/network/epoll_server.cpp:293-318 | a partial or full write keeps the accounts, also when the buffer is cleared |
| EpollServer.Server.Submit | rmdb/src/network/epoll_server.cpp:30-37 | the statement goes to the end of the queue |
| EpollServer.Server.NextTask | rmdb/src/network/epoll_server.cpp:47-59 | a worker takes the front of the queue |
| EpollServer.Server.EnqueueResponse | rmdb/src/network/epoll_server.cpp:196-224 | the call that the I/O thread does not disturb: the answer is buffered, the connection is idle and its next statement is dispatched; nothing for an unknown connection |
| EpollServer.Server.HandleRead | rmdb/src/network/epoll_server.cpp:247-291 | reads all chunks and dispatches at most one statement, if the connection is idle |
| EpollServer.Server.HandleWrite | rmdb/src/network/epoll_server.cpp:293-318 | sends as much of what is unsent, from its front, as the writes before the first failure accept, an interrupted one aside, and clears a buffer sent in full |
| EpollServer.AllSentIff | rmdb/src/network/epoll_server.cpp:301-317 | the buffer is empty afterwards if and only if those writes accept all that is unsent; otherwise just the rest is left |
| EpollServer.WriteIsStep | rmdb/src/network/epoll_server.cpp:293-318 | the write handler is one step of the protocol, and possible whenever it is called |
| EpollServer.HandlerIsSteps | rmdb/src/network/epoll_server.cpp:247-291 | an undisturbed read handler is a run of the steps of the protocol |
| EpollServer.ResponseIsSteps | rmdb/src/network/epoll_server.cpp:196-224 | an undisturbed answer is the two steps of a worker in the protocol |
| AggregateSpec.FoldMeans | rmdb/src/execution/executor_aggregation.h:118-135 | the accumulated state is the count, the sum, the least and the greatest of the values |
| AggregateMeaning.CellMeans | rmdb/src/execution/executor_aggregation.h:71-100 | in an output row, over the numbers of its group: COUNT is how many there are, SUM their sum, AVG times their number is their sum, MAX and MIN are among them with none larger or smaller; without rows they are zero |
| AggregateMeaning.CountMeans | rmdb/src/execution/executor_aggregation.h:71-100 | COUNT, of a column or of all, is the number of rows of the group |
| AggregateMeaning.GroupIs | rmdb/src/execution/executor_aggregation.h:42-56 | a group has each row with its key as often as the input has it, and no other row |
| AggregateMeaning.OutputMeans | rmdb/src/execution/executor_aggregation.h:230-328 | so every cell of every row of a grouped output is what its aggregate says of the numbers of a group that is not empty |
| Literals.HavingIff | rmdb/src/execution/executor_aggregation.h:137-184 | HAVING compares as numbers, or strings by their bytes; a COUNT with a FLOAT literal is decided as the numbers say if and only if the literal is whole, or is not just beyond the count, or the operator does not notice |
| Literals.HavingIgnores | rmdb/src/execution/executor_aggregation.h:137-156 | HAVING on a name the output does not have, or with a column on the right, lets every row pass |
| AggregateSpec.Grouping.GroupMembers | rmdb/src/execution/executor_aggregation.h:42-56 | a group is not empty exactly if its key occurs, and holds only rows of the key |
| AggregateSpec.Grouping.EmittedIsGrouped | rmdb/src/execution/executor_aggregation.h:305-325 | going once through the distinct keys yields exactly one row per key that passes HAVING |
| AggregateSpec.Grouping.GroupsAddUp | rmdb/src/execution/executor_aggregation.h:268-325 | over the distinct keys, the counts add up to the number of rows and the sums to the ungrouped sum |
| AggregateSpec.Grouping.OutputAddsUp | rmdb/src/execution/executor_aggregation.h:230-328 | without HAVING the COUNT column of the output adds up to the input length and each SUM column to the ungrouped sum |
| Aggregation.AggregationExecutor.AccumulateRow | rmdb/src/execution/executor_aggregation.h:118-135 | every state becomes the fold over one row more |
| Aggregation.AggregationExecutor.AddRow | rmdb/src/execution/executor_aggregation.h:270-303 | the table stays right: a state per occurring key, each the fold over exactly the rows of the key |
| Aggregation.AggregationExecutor.MakeRow | rmdb/src/execution/executor_aggregation.h:305-321 | an output row is the key and the values of its aggregates |
| Aggregation.AggregationExecutor.EmitGroups | rmdb/src/execution/executor_aggregation.h:305-325 | the results are one row per key that passes HAVING, in whatever order the table is gone through |
| Aggregation.AggregationExecutor.BeginTuple | rmdb/src/execution/executor_aggregation.h:230-328 | without GROUP BY one row over all input, if it passes HAVING; with it, one row per distinct key that does |
| Aggregation.AggregationExecutor.NextTuple | rmdb/src/execution/executor_aggregation.h:330-335 | drops exactly the first row due |
| Conditions.CompareOrder | rmdb/src/execution/executor_seq_scan.h:138-200 | the comparison of two values of one type is a total order |
| ConditionMeaning.CompareBytesLess | rmdb/src/execution/executor_seq_scan.h:163-165 | bytes compare by the first difference: a smaller byte, or the end of the string |
| ConditionMeaning.OnInts | rmdb/src/execution/executor_seq_scan.h:138-168 | the six operators decide on INT values as on integers |
| ConditionMeaning.OnFloats | rmdb/src/execution/executor_seq_scan.h:138-168 | and on FLOAT values as on numbers |
| ConditionMeaning.ScanDecides | rmdb/src/execution/executor_seq_scan.h:86-203 | the scan keeps a row on a comparison exactly if it is true of the two values, on BETWEEN if the value is neither below the first bound nor above the second, on IN if it is in the list, and the other way for NOT |
| ConditionMeaning.TreeDecides | rmdb/src/analyze/analyze.cpp:326-360 | a comparison in a condition tree says the same |
| ConditionMeaning.PairDecides | rmdb/src/execution/executor_nestedloop_join.h:39-117 | a join condition on two columns of one type decides on the values that the two rows have, by all six operators; on columns of two types it is never true |
| ConditionMeaning.BytesDecide | rmdb/src/execution/executor_nestedloop_join.h:82-117 | and so do the bytes of columns of one length |
| ConditionMeaning.NullTests | rmdb/src/common/common.h:123-130 | an INT is null when it is the smallest of 32 bits, a FLOAT or a string when it is what an outer join pads with; so padding tests as null but in INT columns |
| CondTree.FlattenedMeans | rmdb/src/analyze/analyze.cpp:280-404 | for every tree, the exact meaning of its flattened list: an OR or NOT argument of several conditions counts as true |
| CondTree.ClauseMeansTree | rmdb/src/analyze/analyze.cpp:280-404 | if every argument of OR and NOT flattens to one condition, checking the list is evaluating the tree, on every row |
| CondTree.LeafIs | rmdb/src/analyze/analyze.cpp:326-400 | a leaf becomes one condition on its column, marked as having a value on the right, and as arithmetic, exactly where the tree has them |
| CondTree.LeafMeans | rmdb/src/analyze/analyze.cpp:326-400 | each kind of leaf becomes one condition with its meaning |
| CondTree.OrOverAndIff | rmdb/src/analyze/analyze.cpp:293-309 | where the check lets it through, an OR with an argument of several conditions means its tree on a row if and only if the tree holds there |
| CondTree.NotOverAndIff | rmdb/src/analyze/analyze.cpp:310-325 | where the check lets it through, a NOT over other than one condition means its tree on a row if and only if its argument holds there |
| CondTree.NotOverAndFails | rmdb/src/analyze/analyze.cpp:310-325 | where the check lets it through, NOT (a = 1 AND a = 2) rejects the row a = 3 |
| StatementPlan.PlaceholderChecked | rmdb/src/analyze/analyze.cpp:406-434 | whether the check lets such a placeholder through depends on a flag that is never set |
| Literals.CheckedIff | rmdb/src/analyze/analyze.cpp:469-487 | a checked comparison with a literal says of a row what it said before, numbers compared as numbers; for an INT column and a FLOAT literal if and only if the literal is whole, or is not just beyond the value, or the operator does not notice |
| Literals.WhereMisread | rmdb/src/analyze/analyze.cpp:473-477 | WHERE n < 2.5 rejects the row in which the INT n is 2 |
| Literals.CheckedRange | rmdb/src/analyze/analyze.cpp:445-457 | a checked BETWEEN is about values of one type if and only if its second bound fits, which the check does not look at; then it says what it said |
| Literals.CheckedList | rmdb/src/analyze/analyze.cpp:458-469 | a checked IN has values of the column's type, and is true of a row whose value is one of them |
| Literals.AcceptedIff | rmdb/src/analyze/analyze.cpp:406-496 | the check accepts a condition exactly if its columns exist and the literals, or the two columns, go together; LIKE needs a string column |
| StatementMeaning.SelectedRowsIff | rmdb/src/optimizer/planner.cpp:261-283 | the scan of a SELECT of one table yields the rows that pass its conditions if and only if every row that passes the others passes each OR and NOT too |
| StatementMeaning.OrIsLost | rmdb/src/optimizer/planner.cpp:280-283 | SELECT * FROM t WHERE a = 1 OR a = 2 yields the row a = 3 |
| StatementMeaning.ChangedRows | rmdb/src/optimizer/planner.cpp:559-579 | the scan of an UPDATE or a DELETE gets all conditions |
| StatementMeaning.IndexIff | rmdb/src/optimizer/planner.cpp:29-49 | a scan uses an index if and only if the conditions that fix columns by equality with a value or by a null test fix just its columns, in its order |
| StatementMeaning.SelectedColumns | rmdb/src/analyze/analyze.cpp:107-135 | without a list all columns are shown, in order; the index alone is read if and only if it is used and has every column shown |
| StatementMeaning.LiftedValues | rmdb/src/analyze/analyze.cpp:445-490 | the values a planned condition compares a column with stand in buffers of the column's length |
| StatementMeaning.InsertedValues | rmdb/src/optimizer/planner.cpp:554-558 | an INSERT carries its literals row by row and place by place |
| StatementMeaning.SetValues | rmdb/src/analyze/analyze.cpp:197-213 | an UPDATE carries its assignments in order, to existing columns of its table |
| LikePattern.LikeIff | rmdb/src/common/common.h:133-150 | matches exactly when the string can be cut into pieces that fit the elements of the pattern one by one (section 8.5 of ISO/IEC 9075:1992) |
| LikePattern.MatchCuts | rmdb/src/common/common.h:133-150 | a match gives such a cutting |
| LikePattern.CutsMatch | rmdb/src/common/common.h:133-150 | every such cutting is found |
| PlanCache.ClonePlan | rmdb/src/rmdb.cpp:355-390 | the clone has the same content, without the nodes that the cache does not clone, and only new, mutually unshared buffers |
| PlanCache.CloneConditions | rmdb/src/rmdb.cpp:315-332 | conditions are copied in depth: same content, new and unshared buffers |
| PlanCache.RebindInt | rmdb/src/rmdb.cpp:394-398 | the value is the number, and its buffer, if any, starts with the four bytes of it |
| PlanCache.RebindStr | rmdb/src/rmdb.cpp:399-408 | the value is the string, and its buffer, if any, holds it cut or zero-padded to its length |
| Literals.ReboundReads | rmdb/src/rmdb.cpp:394-408 | a rebound buffer reads back as the new number or string, keeps its length and, behind a number, its other bytes |
| Literals.FilledReads | rmdb/src/common/common.h:66-84 | the buffer of a checked value reads back as the value: a number by its bytes, a string up to the first zero |
| PlanCache.CloneRebindUpdate | rmdb/src/rmdb.cpp:410-427 | on new buffers, the cached plan's content with the statement's numbers written into its first condition, its SET clause and its scan; the cached plan keeps its content |
| PlanCache.CloneRebindDelete | rmdb/src/rmdb.cpp:429-444 | the same for DELETE |
| PlanCache.CloneRebindSelect | rmdb/src/rmdb.cpp:446-468 | the same for the bounds of a SELECT's first condition |
| PlanCache.CloneRebindInsert | rmdb/src/rmdb.cpp:470-486 | the same for the three values of an INSERT |
| PlanSlots.SlotIff | rmdb/src/rmdb.cpp:554-646 | over any run of a worker, where the slot is filled a statement of the fast path runs its own plan if and only if the statement that filled the slot, in the catalog of that time, has the shape the fast path builds, on the same table with the same columns |
| PlanSlots.FirstFills | rmdb/src/rmdb.cpp:642-646 | a slot is filled by the first statement of its pattern that is planned, through the parser or not, and keeps its plan |
| PlanSlots.ReboundIff | rmdb/src/rmdb.cpp:488-507 | for any statement that a pattern is taken for: its plan rebound is the plan that analysis and planning give the new statement if and only if it fits |
| PlanSlots.UpdateIff | rmdb/src/rmdb.cpp:410-427 | for UPDATE: an INT id, one condition, an equality of the id with a number, the same index on it, and a value other than NULL |
| PlanSlots.DeleteIff | rmdb/src/rmdb.cpp:429-444 | for DELETE: an INT id, one condition, an equality of the id with a number, and the same index on it |
| PlanSlots.SelectIff | rmdb/src/rmdb.cpp:446-468 | for SELECT: all columns of one table without anything more, an INT id, and a scan on a range of it and val above zero |
| PlanSlots.InsertIff | rmdb/src/rmdb.cpp:470-486 | for INSERT: no column list and no NULL |
| PlanSlots.WrongWhere | rmdb/src/rmdb.cpp:282-311 | after UPDATE t SET val = 1 WHERE val > 3 the fast path runs UPDATE t SET val = 5 WHERE id = 7 with the condition val > 7 |
| Utf8Width.DisplayWidth | rmdb/src/record_printer.h:27-38 | the columns a string takes: one for ASCII, two for every other sequence |
| Utf8Width.Truncate | rmdb/src/record_printer.h:42-65 | the cut and the dots after it |
| Utf8Width.CutFits | rmdb/src/record_printer.h:42-65 | on well-formed UTF-8 the cut is the longest whole-sequence prefix that fits the width |
| Utf8Width.TruncationKeepsSequences | rmdb/src/record_printer.h:42-65 | what is kept of a well-formed string is well-formed: no sequence is split |
| Utf8Width.CellWidth | rmdb/src/record_printer.h:107-112 | every printed cell of a well-formed value is exactly 16 columns wide |
| Utf8Text.ByteClass | rmdb/src/record_printer.h:27-57 | the upper bits of a byte tell whether it continues a sequence, and how long a sequence it begins; other bytes stand alone |
| Utf8Text.DecodeEncode | rmdb/src/record_printer.h:42-65 | code points encoded by section 3 of RFC 3629 are decoded back |
| Utf8Text.EncodedText | rmdb/src/record_printer.h:27-38 | encoded text is well-formed, and as wide as its code points: one column for ASCII, two for the others |
| Utf8Text.ShownText | rmdb/src/record_printer.h:104-112 | a cell shows an encoded text of up to 16 columns as it is, of a wider one the longest beginning in whole code points of up to 13 columns, and three dots |
| TablePrinter.Context.PrintSeparator | rmdb/src/record_printer.h:82-101 | each piece is written whole, or not at all from the first that does not fit |
| TablePrinter.Context.PrintRecord | rmdb/src/record_printer.h:104-127 | the same for the cells of a record |
| TablePrinter.Context.PrintRecordCount | rmdb/src/record_printer.h:129-138 | the count line always fits in the buffer, after dots if something was left out |
| TablePrinter.RoomKept | rmdb/src/record_printer.h:82-127 | any table leaves more than the reserve of 40 bytes free |
| TablePrinter.CountLineFits | rmdb/src/record_printer.h:129-138 | the count line of up to 15 digits, with the dots, fits in the reserve that is left |
| TablePrinter.DigitsRead | rmdb/src/record_printer.h:129-138 | the digits of the count read back as it, without a leading zero |
| TablePrinter.TableFits | rmdb/src/record_printer.h:82-127 | a table that fits is written in full |
| TablePrinter.SelectFrom | rmdb/src/execution/execution_manager.cpp:154-209 | the buffer holds header, rows and footer in order, and the count line |
| TableParser.ParseRmdbAsciiTable | backend/core/database.py:124-169 | the line-by-line loop computes the specified reading of the text |
| TableParser.ReadRecord | backend/core/database.py:159-165 | a printed record is read back cell by cell |
| TableParser.SplitTable | backend/core/database.py:140-142 | a printed table splits into its lines |
| TableParser.ReadTable | backend/core/database.py:149-165 | the lines of a printed table are read back as its captions and rows |
| TableParser.RoundTrip | backend/core/database.py:124-169 | what is printed for any captions and rows of plain cells that fit the buffer is parsed back to them |
| TableParser.MessageIsRows | backend/core/database.py:140-169 | a text of lines that show something, none with a bar in front, comes back line by line as the rows of one column |

## Left out

- IndexRuns.InsertRun: inserts into parents by the documented layout, in nodes with room for one key more than the code reserves; what the code does to parents is `IndexPages.AsWrittenIffRightmost`, to pages `PageBytes.Layout.IntactIff`.
- IndexRuns.InsertRunThenScan: the same layout and room.
- TreeGrow.InsertChildKeepsTree: the documented layout, not the pair insertion at `rmdb/src/index/ix_index_handle.cpp:430`.
- IndexNode.IxNode.InsertChildAfter: the documented layout.
- IndexNode.IxNode.InsertChildAsWritten: entries only, in a node with room for one more.
- IndexHandle.IxIndex.InsertIntoParent: the documented layout and room for one key more.
- IndexHandle.IxIndex.InsertEntry: the documented layout and room for one key more; a new page takes the header's page count as its number.
- IndexHandle.IxIndex.InsertEntryWith: the same, on one thread.
- IndexHandle.IxIndex.InsertAscending: in nodes with room for one key more, so without the record id that the code overwrites.
- IndexHandle.IxIndex.DeleteEntry: stops where a leaf becomes too small or the root empty; `adjust_root`, `redistribute` and `coalesce` assume one child per key, which contradicts the split.
- IndexRange.ScanBetween: a scan that never stops is not run; with assertions on, the code aborts there.
- Leaf header page 1 as a page of its own; buffer pool pins; file serialisation.
- LatchCrabbing.InsertUnderLatches: structure and latching are proved side by side on one thread's steps. Links are written without a latch: the previous-leaf link of the next leaf (`rmdb/src/index/ix_index_handle.cpp:336-343`) and the parent links of moved children (361-365). The second latching of a retained ancestor at line 442 is not modelled.
- KeyOrder.CompareIsRank: FLOAT keys are read as sign, exponent and fraction; NaN, which has no order, is given one.
- SpinLatch.AcceptedLookup: speaks of one accepted internal lookup, not of a whole optimistic descent, whose leaf is not validated again; a sequence that wraps around all 2^64 values between two samples is excluded (`stale`). Weak memory order is left out; a spurious CAS failure is the failed step.
- Dispatcher.EveryState: connections are opened but not closed; sockets, epoll flags, descriptor reuse and shutdown are left out. `process_query` answers each statement once; its commit after the answer is a separate step. Finding, cutting and submitting a statement with its busy flag is one step, and so is each append; what two threads do to one string at the same instant is not modelled.
- Rows are maps from column names to values: floats are exact reals, strings are bytes up to their padding, null padding is the zero bytes that the executors write. `ColumnLookup` and `CharColumns` say when that is what the executors read.
- JoinKeys.Sides.HashKeysFit: strings compared whole, which is what the executors do for columns of one length (`CharColumns.SameLengthIff`).
- JoinKeys.Sides.MergeCompares: right columns read at their own places, strings compared whole.
- JoinKeys.Sides.MergeKeysFit: right columns read at their own places, strings compared whole.
- MergeSpec.Merging.StartIsKept: the left column named first; the other way is `MergeReversed.ReversedMergeIff`.
- MergeSpec.Merging.FromIsKept: the left column named first.
- MergeSpec.Merging.MergeIsJoinIff: the left column named first; with the right one named first the exact condition is proved for a plain equi-join.
- MergeSpec.Merging.EquiMergeIff: the left column named first.
- MergeResult.MergeIsJoin: keys read at their own places, the left named first.
- MergeResult.EquiJoinIff: keys read at their own places, the left named first; one pair of key columns. Several equi-conditions are compared column by column in the code and sorted by the first only.
- SortMergeJoin.SortMergeJoinExecutor.Drain: INNER only; the match positions kept for FULL and the flag for LEFT are left out. `std::sort` is any function that returns a sorted permutation.
- FULL JOIN phases of the three executors: they step past the first right row before reading it.
- Portal.RunOuter: no sort-merge, whose LEFT phases are left out, and no side swap of the planner under LEFT, which does not preserve meaning.
- JoinResult.AnyAlgorithm: compared CHAR columns of one length; with others hash join and nested loop differ (`CharColumns.AgreeIff`). Sort-merge with keys read at their own places, one key pair, the left named first and no key that repeats on the left and has a partner.
- PlanResult.AnyAlgorithm: as `JoinResult.AnyAlgorithm`.
- PlanResult.PlanYieldsQuery: two base tables and inner joins, compared CHAR columns of one length, sort-merge as in `JoinResult.AnyAlgorithm`; with more tables the evaluators decide a column's side from the first table only. An index scan counts as the table filtered by its conditions, and `IndexScanExecutor` is not modelled.
- PlanResult.NothingDropped: as `PlanResult.PlanYieldsQuery`.
- PlanResult.DroppedIff: as `PlanResult.PlanYieldsQuery`.
- Planner.MakeOneRel: `push_conds` and the branch without a join tree, which no checked query reaches.
- CondTree.ClauseMeansTree: arithmetic left sides and unsupported right sides are flattened but have no meaning of their own to compare with.
- StatementMeaning.SelectedRowsIff: the rows that pass the conditions after the check; the scan counts as the table filtered by its conditions, by an index or not.
- Literals.FilledReads: the bytes of a FLOAT are a parameter.
- LatchProgress.LookupIff: one internal lookup, as in `SpinLatch.AcceptedLookup`; starvation by other threads is not excluded.
- CondTree.OrOverAndIff: what the list means if the check lets it through; the check may refuse the placeholder first (`StatementPlan.PlaceholderChecked`).
- CondTree.NotOverAndIff: the same.
- CondTree.NotOverAndFails: the same.
- Aggregation.AggregationExecutor.BeginTuple: columns are found by name; sums are exact and counts unbounded.
- PlanSlots.SlotIff: literals in conditions are numbers and strings; aliases, views and the text scan of the fast path are left out, and whatever else a SELECT has stands as one flag. Where the slot's plan lacks a node or entry that rebinding takes for granted the code's behaviour is undefined, and none is given. Plans are values; only raw buffers are heap objects.
- TablePrinter.SelectFrom: the copy to output.txt and the conversion of numbers to text are left out; the rows are given as strings.
- Buffer pool, disk, lock manager, transactions, MVCC, log and recovery: not part of this model.
- HTTP endpoints, language model calls, sessions and the front end: input and output.
- Limit, Distinct and Projection executors, the arena and the index header serialiser: they would only add easy members.
