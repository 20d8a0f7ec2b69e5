# RedGiant, verified

RedGiant keeps an inverted index of weighted documents and answers queries with the n best documents by dot
product. This project models the parts that make that work and proves what they promise, up to one statement
about the whole: from the empty index through any run of updates, removals and applies, a query returns the top n of
the rows as of the last apply before the query, whatever operations run between any two steps of draining it
(`Manager.SearchFromEmpty`, `Manager.SearchInterleaved`, `FeatureMapping.Execute`). Which rows these are is told from
the operations alone (`RowLife.LifeOfARow`, and `PointLife.LifeOfAPoint` for points).

| file | what it models |
|---|---|
| Wrappers.dfy | optional values |
| Postings.dfy, Sums.dfy | posting lists with their cached weight bound, forward cursors, cursors scaled by a query weight |
| WandSpec.dfy, Wand.dfy | `WandReader`: the merge of many cursors that skips what cannot beat a threshold |
| Heap.dfy, TopN.dfy, TopNSpec.dfy, Reading.dfy | `read_topn` over a binary heap, `read_single`, a walk under changing thresholds |
| BaseIndex.dfy | published lists shared with readers, private pending copies, deferred apply |
| ExpireTable.dfy | expiry times by key and in expiry order |
| RowSpec.dfy, RowIndex.dfy, PointIndex.dfy | the indexes updated row by row and point by point, and the plain tables they refine |
| RowLife.dfy, PointLife.dfy | what queries see of a document or a point after any operations |
| Manager.dfy, FeatureMapping.dfy | querying, searching, flattening documents, and the rewrite of requests into queries |
| SnapshotFormat.dfy, Snapshot.dfy, SnapshotStream.dfy | the words of a snapshot, its parser, dumping and loading, and streams no dump wrote |
| MessageQueue.dfy | the bounded blocking queue and its worker threads as interleaved steps |
| DocumentId.dfy | the 128-bit id: order, neighbours, UUID text |

Ids are natural numbers with 0 as the invalid id (`DocumentId.OrderIsNumeric` is the bridge), weights and scores are
exact reals, times are integers. Ordered and hashed containers are maps and sets, enumerated in key order or in any
order. Classes stand for the objects the program updates in place; what a method promises is stated about a plain
function or table, and the ghost fields of a class hold that table.

What the code does differently from what it says:

- `WandReader::threshold(Score)` does not override `PostingListReader::threshold(const Weight&)`, so `read_topn`
  reaches the base no-op. `Reading.Consider` leaves it open whether a hint arrives; all results hold both ways.
- A comment in `step_next` says the picked cursor is not above the input cursor. That holds for the first pick of a
  call only: `WandSpec.LaterPickBeyond` is a state where the second pick stands beyond the target, and
  `WandSpec.OvertakingReached` a way there from a new reader. Such a pick changes nothing, and only such a pick
  (`WandSpec.AdvanceIdle`).
- The expire table is searched with the pair (default key, T + 1), so an item with the default key and time T + 1
  expires one tick early, and exactly such an item makes an expiry take more than the items of time at most T
  (`ExpireTable.DueIff`, `ExpireTable.ExactlyDueIff`, with document 0 as the input in `ExpireTable.ExpiresEarly`).
- "No larger than size_limit" after an expiry fails exactly for limit 0 when something is not due, since 0 means no
  limit (`ExpireTable.LimitIff`, with an input in `ExpireTable.LimitZero`).
- A scaled bound bounds the scaled list for every query weight that is not negative, and otherwise only for lists of
  zeros (`Postings.ScaledBound`, with inputs in `Postings.NegativeScale`). `WandSpec.NegativeWeightLoses` is a query
  of weights -1 and 1 that loses its best document. Merged terms are therefore taken when their scaled bounds hold,
  which is a non-negative weight or a list of zeros (`Wand.ScoredBound`); a query that finds at most one term may have
  any weight.
- A snapshot of a row index holds the published lists but the current document-term map and expiry times. The loaded
  index keeps its invariants exactly when every pending list holds the same documents as the published one, and holds
  the same table, up to documents without terms, exactly when they also have the same weights (`Snapshot.ReloadRows`).
  One unapplied update breaks it (`Snapshot.UnappliedUpdate`); a changed weight alone gives a consistent copy of the
  table before (`Snapshot.WeightChange`).
- A point index is dumped without the lock that updates and applies take, so they may run between its lists and its
  expire table. The loaded index keeps its invariants exactly when the valid points published before them are the
  valid points timed after them (`Snapshot.ReloadPoints`); when nothing runs in between that is the condition above.
  An unapplied point breaks it (`Snapshot.UnappliedPoint`), and so does, with nothing pending, an apply in between that
  expires a dumped point (`Snapshot.ExpiredBetween`).
- A queue of capacity 0, the default, accepts nothing (`MessageQueue.AcceptsIff`). Stopping a worker pool executes all
  accepted jobs exactly when none is queued at the flush (`MessageQueue.Stopped`); `MessageQueue.DropsAJob` is a run
  that drops one.

## Model

| member | source | states |
|---|---|---|
| Postings.Seek | src/main/core/reader/posting_list_reader.h:17-27 | a cursor lands on the first posting at or after its position that lies beyond the given id, and everything it passes lies at or below it |
| Postings.InKeyOrderContents | src/main/core/index/btree_posting_list.h:88-95 | the in-order enumeration of a stored map is strictly ascending and holds exactly the map's entries |
| Postings.OrderedWeight | src/main/core/index/btree_posting_list.h:88-99 | looking a document up in that enumeration gives the weight stored for it, or 0 |
| Postings.PostingList.constructor | src/main/core/index/btree_posting_list.h:22-25 | a new list is empty with bound 0 |
| Postings.PostingList.FromReader | src/main/core/index/btree_posting_list.h:32-41 | a list rebuilt from a cursor holds exactly what the cursor still had to deliver, and its bound is the exact maximum of 0 and the weights |
| Postings.PostingList.Update | src/main/core/index/btree_posting_list.h:49-56 | the invalid id is refused; otherwise the weight is stored and the bound grows to cover it |
| Postings.PostingList.Remove | src/main/core/index/btree_posting_list.h:58-65 | one document goes, the bound stays and still covers the rest |
| Postings.MaximumGrows | src/main/core/reader/algorithms.h:18-30 | the running maximum stays the exact maximum when one more weight is merged in |
| Postings.PostingCursor.Next | src/main/core/index/btree_posting_list.h:88-95 | the cursor moves to the first posting beyond the given id and returns its id, 0 at the end |
| Postings.PostingCursor.Read | src/main/core/index/btree_posting_list.h:97-99 | the weight under the cursor |
| Postings.DotProductReader.Next | src/main/core/reader/dot_product_reader.h:28-30 | the scaled reader visits the same documents |
| Postings.DotProductReader.Read | src/main/core/reader/dot_product_reader.h:32-34 | its score is the stored weight times the query weight |
| Postings.ScaledBound | src/main/core/reader/dot_product_reader.h:36-38 | the scaled bound bounds the scaled list if and only if the query weight is not negative or the list is all zeros under bound 0 |
| Postings.NegativeScale | src/main/core/reader/dot_product_reader.h:36-38 | two stored lists whose scaled bound fails under query weight -1 |
| Postings.OrderedBounds | src/main/core/reader/posting_list_reader.h:37-45 | no weight a cursor delivers exceeds the list's cached bound |
| WandSpec.InitialStructure | src/main/core/reader/wand_reader-inl.h:11-23 | the constructed state satisfies the structural invariant |
| WandSpec.PrefixesMonotone | src/main/core/reader/wand_reader-inl.h:73-78 | accumulated bounds never decrease, which the binary search relies on |
| WandSpec.AdvanceStructure | src/main/core/reader/wand_reader-inl.h:91-159 | advancing the first reader keeps the active indexes distinct and ordered by cursor, the accumulated bounds exact prefix sums, and every cursor on its reader's posting |
| WandSpec.AdvancePassed | src/main/core/reader/wand_reader-inl.h:91-112 | advancing never moves any reader past a document beyond the target |
| WandSpec.AdvanceBehind | src/main/core/reader/wand_reader-inl.h:91-112 | the readers standing at or below a horizon stay too weak together to beat the threshold |
| WandSpec.AdvanceMeasure | src/main/core/reader/wand_reader-inl.h:91-112 | postings left plus readers left never grows, and shrinks when the first cursor is not above the target: the search terminates |
| WandSpec.SkippedBelowPivot | src/main/core/reader/wand_reader-inl.h:26-48 | of a document below the pivot's cursor that no reader has passed, even the bounds of all lists that hold it sum to at most the threshold |
| WandSpec.PivotReaches | src/main/core/reader/wand_reader-inl.h:26-48 | the bounds of all lists that hold the pivot's document sum to more than the threshold |
| WandSpec.ScoreWithinReach | src/main/core/reader/wand_reader-inl.h:26-48 | no document scores more than the bounds of the lists that hold it |
| WandSpec.PivotLocated | src/main/core/reader/wand_reader-inl.h:36-41 | when the first cursor reaches the pivot's, all lists holding that document, and no others, form the equal-cursor front of the permutation |
| WandSpec.LocatedScore | src/main/core/reader/wand_reader-inl.h:51-62 | the sum over the equal-cursor front is the full score over all input lists |
| WandSpec.RotateSums | src/main/core/reader/wand_reader-inl.h:133-159 | moving one reader back leaves the prefix sums behind its new place unchanged |
| WandSpec.WithoutSums | src/main/core/reader/wand_reader-inl.h:115-130 | dropping a reader lowers the later prefix sums by its bound |
| WandSpec.AdvanceIdle | src/main/core/reader/wand_reader-inl.h:94-103 | advancing the first reader changes nothing if and only if it stands beyond the target already |
| WandSpec.LaterPickBeyond | src/main/core/reader/wand_reader-inl.h:94-95 | a state in which the first pick is as the comment says and the second, in the same call, stands beyond the target |
| WandSpec.OvertakingReached | src/main/core/reader/wand_reader-inl.h:26-48 | from a newly built reader the steps of one next lead to that state |
| WandSpec.NegativeWeightLoses | src/main/core/reader/wand_reader-inl.h:26-33 | with weights -1 and 1 no accumulated bound beats the first threshold though a document scores 1 |
| Wand.WandReader.constructor | src/main/core/reader/wand_reader-inl.h:11-23 | the reader starts valid over the scaled lists, with threshold 0 and nothing passed |
| Wand.WandReader.Threshold | src/main/core/reader/wand_reader.h:24-26 | stores the hint and keeps the invariant |
| Wand.WandReader.UpperBound | src/main/core/reader/wand_reader-inl.h:65-70 | the sum of the bounds of the active readers, and no document still ahead of all readers scores more |
| Wand.WandReader.FindPivot | src/main/core/reader/wand_reader-inl.h:73-78 | the binary search returns the first accumulated bound above the threshold from the given place on |
| Wand.WandReader.RemoveTerm | src/main/core/reader/wand_reader-inl.h:115-130 | the shifting loop removes one place and leaves exact prefix sums |
| Wand.WandReader.MoveTerm | src/main/core/reader/wand_reader-inl.h:133-159 | the shifting loop rotates one reader behind all smaller cursors and leaves exact prefix sums |
| Wand.WandReader.AdvanceFirst | src/main/core/reader/wand_reader-inl.h:95-107 | one pass of the loop is one advance of the plain state |
| Wand.WandReader.StepNext | src/main/core/reader/wand_reader-inl.h:91-112 | never indexes out of range; the search from the lowered pivot finds the pivot a search from 0 would; passes nothing beyond the target; makes progress |
| Wand.WandReader.Next | src/main/core/reader/wand_reader-inl.h:26-48 | terminates; the bounds of every document it passes over sum to at most the threshold; the result lies beyond the current id, occurs in a list and is the document of the pivot; when no reader had moved past the current id, it stands under every reader whose list holds it, and its bounds sum to more than the threshold |
| Wand.WandReader.Read | src/main/core/reader/wand_reader-inl.h:51-62 | after a successful next, the sum equals the score over all input lists |
| Wand.ScoredBound | src/main/core/reader/dot_product_reader.h:28-38 | a scaled cursor is ordered, and bounded by its scaled bound if and only if the query weight is not negative or the list is all zeros under bound 0 |
| Heap.PushHeap | src/main/core/reader/reader_utils.h:84-85 | pushing keeps the heap order and adds exactly one entry |
| Heap.PopHeap | src/main/core/reader/reader_utils.h:89 | popping keeps the heap order and removes exactly the front |
| Heap.FrontIsLeast | src/main/core/reader/reader_utils.h:88 | the front of the heap is its least score |
| Heap.SortHeap | src/main/core/reader/reader_utils.h:97-99 | sorting gives the same entries by descending score |
| TopN.OfferHeap | src/main/core/reader/reader_utils.h:83-95 | one turn of the loop keeps a heap of at most n entries and replaces the front only by a strictly greater score |
| TopN.RunIsBest | src/main/core/reader/reader_utils.h:82-96 | for every stream, what remains is a true top n: whoever is left out scores no more than anybody kept |
| TopN.NoneEntered | src/main/core/reader/reader_utils.h:80 | with count 0 nothing enters |
| TopN.AcceptedIff | src/main/core/reader/reader_utils.h:83-91 | a document is accepted if and only if fewer than n earlier ones score at least as much: the tie rule without the heap |
| TopN.AtLeastRun | src/main/core/reader/reader_utils.h:82-96 | the kept entries and the whole stream agree on how many score at least w, up to n |
| TopNSpec.StreamMore | src/main/core/reader/reader_utils.h:82-96 | skipping documents that are already outdone leaves the heap, and the sequence of documents that entered it, where the full stream would take them |
| TopNSpec.Complete | src/main/core/reader/reader_utils.h:72-102 | at the end every document of the lists is returned, at or below the first threshold, or outdone by a full result |
| Reading.NextDocument | src/main/core/reader/posting_list_reader.h:17-27 | a single cursor delivers the next document of its list; a merged one exactly the next document whose lists have bounds that sum above the threshold in force: it skips all others and only those |
| Reading.ForemostUnique | src/main/core/reader/wand_reader-inl.h:26-48 | lists, bounds, threshold and current document fix the next document |
| Reading.ReadDocument | src/main/core/reader/posting_list_reader.h:29-35 | both kinds read the full score |
| Reading.Hint | src/main/core/reader/posting_list_reader.h:57-67 | a hint may be honoured or ignored and moves nothing |
| Reading.Walk | src/main/core/reader/wand_reader-inl.h:26-62 | for every sequence of thresholds, rising or not, repeated next and read give, with full scores, exactly the documents whose bounds beat the threshold then in force, each the first such one beyond the one before |
| Reading.Consider | src/main/core/reader/reader_utils.h:83-95 | one turn offers the document's full score to the heap, and the limit only ever becomes the heap's least score |
| Reading.ReadTopN | src/main/core/reader/reader_utils.h:72-102 | at most n distinct documents with exact scores, descending when sorted, everybody else excused; when no document is below the first threshold, the sequence of accepted pairs and the result are those of the full stream whether hints are honoured or not; a reader that ignores hints reads exactly the documents whose bounds beat its first threshold |
| Reading.SelectedNext | src/main/core/reader/reader_utils.h:82-96 | the documents whose bounds beat a threshold, in order with their scores, grow by exactly the next one |
| Reading.ReadSingle | src/main/core/reader/reader_utils.h:104-117 | on a fresh cursor the stored weight exactly when the key is present, and in general exactly when the cursor has not passed it |
| BaseIndex.FreezableList.Update | src/main/core/impl/freezable_posting_list.h:60-65 | a frozen list refuses the update and keeps contents and bound; another stores the weight and raises its bound to it if need be |
| BaseIndex.FreezableList.Remove | src/main/core/impl/freezable_posting_list.h:68-73 | a frozen list refuses the removal and keeps its contents |
| BaseIndex.FreezableList.GetInstance | src/main/core/impl/freezable_posting_list.h:94-100 | the wrapped list is handed out only once it is frozen |
| BaseIndex.Copy | src/main/core/impl/base_index_impl-inl.h:160-165 | a copy-on-write copy has the same postings and an exact bound |
| BaseIndex.Index.Change | src/main/core/impl/base_index_impl-inl.h:147-177 | the term gets a private pending list that reads like the pending-or-published one; the published side does not change |
| BaseIndex.Index.CreateUpdate | src/main/core/impl/base_index_impl-inl.h:179-186 | the pending-or-published view changes in one weight, and no published list changes |
| BaseIndex.Index.Remove | src/main/core/impl/base_index_impl-inl.h:188-195 | the pending-or-published view loses one posting, reported exactly when it was there, and no published list changes |
| BaseIndex.Index.Publish | src/main/core/impl/base_index_impl-inl.h:216-233 | a pending list that emptied a published term erases it, any other takes its place |
| BaseIndex.Index.Apply | src/main/core/impl/base_index_impl-inl.h:209-238 | all pending lists are published, in any enumeration order, with one outcome; lists published before do not change |
| BaseIndex.AppliedReads | src/main/core/impl/base_index_impl-inl.h:209-238 | after an apply every term reads as its pending-or-published list did before |
| BaseIndex.Index.BatchQuery | src/main/core/impl/base_index_impl-inl.h:101-134 | one fresh cursor over the published list of every known query term, in query order |
| ExpireTable.LessIsTotal | src/main/core/impl/btree_expire_table.h:18-22 | of two different items exactly one comes first in expiry order |
| ExpireTable.LessIsTransitive | src/main/core/impl/btree_expire_table.h:18-22 | the expiry order is transitive |
| ExpireTable.OrderedIs | src/main/core/impl/btree_expire_table.h:18-22 | the ordered enumeration of a set is ascending and holds exactly its items |
| ExpireTable.DueIff | src/main/core/impl/btree_expire_table.h:95-99 | an item is due at T exactly when it is not beyond the searched pair: time at most T, or the default key at T + 1 |
| ExpireTable.ExpiresEarly | src/main/core/impl/btree_expire_table.h:95-99 | of two documents with time 6 an expiry at 5 takes document 0 and not document 1 |
| ExpireTable.ExactlyDueIff | src/main/core/impl/btree_expire_table.h:95-99 | an expiry takes exactly the items of time at most T if and only if the default key is not there with time T + 1 |
| ExpireTable.Expiries.Update | src/main/core/impl/btree_expire_table.h:64-74 | map and ordered set stay in bijection with the key's time replaced |
| ExpireTable.Expiries.Remove | src/main/core/impl/btree_expire_table.h:80-88 | map and ordered set stay in bijection without the key |
| ExpireTable.Expiries.ExpireInternal | src/main/core/impl/btree_expire_table.h:142-163 | the two loops take exactly the front of the order, at least the due items and at least the minimum while there are any |
| ExpireTable.Expiries.Expire | src/main/core/impl/btree_expire_table.h:95-99 | takes exactly what is due |
| ExpireTable.Expiries.ExpireWithLimit | src/main/core/impl/btree_expire_table.h:106-112 | takes the shortest front that holds everything due and leaves at most a non-zero limit; the rest stays |
| ExpireTable.Expiries.ForceExpire | src/main/core/impl/btree_expire_table.h:119-123 | takes the first items in order, exactly as many as exceed a non-zero limit |
| ExpireTable.ExpiresUnique | src/main/core/impl/btree_expire_table.h:101-112 | there is only one such front |
| ExpireTable.LimitIff | src/main/core/impl/btree_expire_table.h:101-112 | the documented size bound holds if and only if the limit is not 0 or everything was due |
| ExpireTable.LimitZero | src/main/core/impl/btree_expire_table.h:101-112 | an expiry with limit 0 that leaves an item |
| ExpireTable.EvictionOrder | src/main/core/impl/point_index_impl.h:37-39 | of items of one time an expiry takes smaller terms first and of one term smaller documents |
| ExpireTable.EarlierFirst | src/main/core/impl/btree_expire_table.h:101-112 | an expiry never leaves an item with an earlier time than one it takes |
| RowSpec.ClearRow | src/main/core/impl/row_index_impl-inl.h:123-133 | clearing the listed terms of a document removes exactly its row from the inverted lists |
| RowSpec.WriteRow | src/main/core/impl/row_index_impl-inl.h:22-32 | writing the terms of a row adds exactly that row to the inverted lists |
| RowSpec.RowOfIs | src/main/core/impl/row_index_impl-inl.h:22-32 | a row holds the given terms, each with the last weight given for it |
| RowSpec.InvertsDetermines | src/main/core/impl/row_index_impl-inl.h:22-133 | the inverted lists determine the row of every valid document |
| RowSpec.StepFunctional | src/main/core/impl/row_index_impl-inl.h:22-80 | the plain table is deterministic, expiry included |
| RowSpec.RunFunctional | src/main/core/impl/row_index_impl-inl.h:22-80 | operations fix every state of a run of the plain table |
| RowIndex.RemoveTerms | src/main/core/impl/base_index_impl-inl.h:197-207 | the document leaves the lists of the given terms; the count is the number of distinct terms that held it |
| RowIndex.WriteTerms | src/main/core/impl/row_index_impl-inl.h:28-30 | the lists hold the last weight given for every term of the row |
| RowIndex.Rows.RemoveDocInternal | src/main/core/impl/row_index_impl-inl.h:123-133 | the document's row is gone from lists and forward map, the count is its size |
| RowIndex.Rows.UpdateDocTerms | src/main/core/impl/row_index_impl-inl.h:100-121 | the forward map names the new terms and the old row is gone from the lists |
| RowIndex.Rows.Update | src/main/core/impl/row_index_impl-inl.h:22-32 | one step of the plain table: the row replaced, the time set, the published side and all published lists unchanged |
| RowIndex.Rows.Remove | src/main/core/impl/row_index_impl-inl.h:49-53 | one step of the plain table: the row gone, the expiry time left behind |
| RowIndex.Rows.Apply | src/main/core/impl/row_index_impl-inl.h:66-80 | one step of the plain table: exactly the expired documents go and the published lists then hold the current rows; the counts are the terms then pending and the expired items |
| RowIndex.Rows.Execute | src/main/core/impl/row_index_impl-inl.h:22-80 | every run of operations refines a run of the plain table and changes no list published before it |
| RowLife.AppliedStep | src/main/core/impl/row_index_impl-inl.h:66-80 | an apply without limit drops exactly the documents that do not outlive it, and publishes the rest |
| RowLife.TimedOnce | src/main/core/impl/row_index_impl-inl.h:22-32 | at most one update is the one that times a document |
| RowLife.EveryDocumentTold | src/main/core/impl/row_index_impl-inl.h:22-80 | after any operations from the empty index without limit, the row and the time of every document are those of its latest update, if no removal and no apply it does not outlive came after |
| RowLife.LifeOfARow | src/main/core/impl/row_index_impl-inl.h:22-80 | what queries see of a document after any operations: the row of its latest update before the last apply, unless a removal or an apply it does not outlive came between; else nothing |
| RowLife.NothingApplied | src/main/core/impl/row_index_impl-inl.h:22-80 | before the first apply queries see nothing |
| RowLife.LimitedApply | src/main/core/impl/row_index_impl-inl.h:66-80 | under a limit too, an apply leaves only documents that outlive it, with the rows they had |
| PointIndex.Points.Update | src/main/core/impl/point_index_impl-inl.h:21-25 | the point gets its weight and time; points of lists and expire table stay the same set |
| PointIndex.Points.BatchUpdate | src/main/core/impl/point_index_impl-inl.h:28-36 | the batch is written in order, later points over earlier ones, and the count is that of the valid documents |
| PointIndex.BatchLast | src/main/core/impl/point_index_impl-inl.h:28-36 | every point of a batch gets the weight and the time of its last tuple, and the others keep theirs |
| PointIndex.Points.Apply | src/main/core/impl/point_index_impl-inl.h:39-50 | afterwards only points later than T remain, at most a non-zero maximum, and the published lists hold exactly them; the counts are the terms then pending and the expired points |
| PointIndex.PublishKeeps | src/main/core/impl/point_index_impl-inl.h:39-50 | an apply without limit keeps exactly the points that are not due, with their weights and times |
| PointIndex.Points.Execute | src/main/core/impl/point_index_impl-inl.h:21-50 | in every reachable state the valid points of the lists are exactly those of the expire table, and every run refines a run of plain points |
| PointIndex.PointStepFunctional | src/main/core/impl/point_index_impl-inl.h:21-50 | the plain points are deterministic, expiry included |
| PointIndex.PointRunFunctional | src/main/core/impl/point_index_impl-inl.h:21-50 | operations fix every state of a run of the plain points |
| PointLife.EveryPointTold | src/main/core/impl/point_index_impl-inl.h:21-50 | after any operations from the empty index without limit, weight and time of every point are those of the last tuple written for it, if it outlives every apply since |
| PointLife.LifeOfAPoint | src/main/core/impl/point_index_impl-inl.h:21-50 | what queries see of a point after any operations: the weight of the last tuple written for it before the last apply, if its time outlives every apply since; else nothing |
| Manager.ScoreIsDot | src/main/index/document_index_manager.cc:98-131 | the score over the readers of a query is the dot product with the document's row |
| Manager.DotIs | src/main/index/document_index_manager.cc:98-131 | a query of one term scores its weight times that of the row, and queries add up |
| Manager.FindReaders | src/main/index/document_index_manager.cc:108 | for any weights the readers stand ready over published lists scaled by the weights of the hits |
| Manager.Query | src/main/index/document_index_manager.cc:98-131 | no reader means no list; one hit gives its cursor, more a merged reader, over exactly the lists of the hits |
| Manager.TopNAnswers | src/main/query/simple_query_executor.cc:53-65 | a top n over the readers is the answer for the rows the published lists invert |
| Manager.Drain | src/main/query/simple_query_executor.cc:53 | a prepared reader is drained into an answer |
| Manager.Search | src/main/query/simple_query_executor.cc:41-65 | at most n documents by descending score, each score the exact dot product with the row as of the last apply; whoever is missing scores at most 0, or the result is full and nobody in it scores less |
| Manager.Interrupt | src/main/core/impl/base_index_impl-inl.h:101-238 | any operations of other threads leave a reader where it is, over the lists it had |
| Manager.ReadTopNAmid | src/main/core/reader/reader_utils.h:72-102 | with operations of other threads before every next and every read, the result is still the sorted top n of the lists as they were queried |
| Manager.SearchInterleaved | src/main/core/impl/base_index_impl-inl.h:101-238 | over every interleaving of updates, removals and applies with the steps of a drain, a query answers for the rows of the one version it was taken from, and the index meanwhile refines the plain table |
| Manager.SearchFromEmpty | src/main/query/simple_query_executor.cc:41-65 | from the empty index through any run of operations: the answer is for the rows as of the last apply in the one run of the plain table these operations have, whatever runs during the drain |
| Manager.FlatRow | src/main/index/document_index_manager.cc:60-67 | where vectors of a document share a feature the later one decides its weight |
| Manager.FlatIs | src/main/index/document_index_manager.cc:60-67 | the row of a document has exactly the features of its vectors, each with the weight of the last place that names it |
| Manager.UpdateDocument | src/main/index/document_index_manager.cc:57-69 | a document becomes the row of all its features |
| FeatureMapping.WordsAreNumbers | src/main/data/feature_space.h:62-83 | masking and shifting a 64-bit word, in all three operations, is the arithmetic on the number it stands for |
| FeatureMapping.ProjectParts | src/main/data/feature_space.h:62-72 | projection replaces the space, keeps the feature, and is undone by projecting back; the space is kept exactly when it fits 8 bits |
| FeatureMapping.ProjectCollides | src/main/data/feature_space.h:62-64 | two features collide in a space exactly when their feature bits agree |
| FeatureMapping.RangeIs | src/main/ranking/feature_mapping_model.cc:28 | a vector is mapped by exactly the mappings of its space, each as often as it was set |
| FeatureMapping.MapDotAdd | src/main/ranking/feature_mapping_model.cc:54-58 | merging a collision into the term map adds exactly its own product to every score |
| FeatureMapping.AddFeatures | src/main/ranking/feature_mapping_model.cc:50-71 | one mapping adds its weight times the dot product of the projected vector, for every document |
| FeatureMapping.AddMapped | src/main/ranking/feature_mapping_model.cc:38-72 | one vector adds the sum over its mappings of positive weight |
| FeatureMapping.Process | src/main/ranking/feature_mapping_model.cc:19-75 | the rewritten query has ascending distinct terms and scores every document as the weighted sum, over vectors and positive mappings, of projected dot products; non-negative requests give non-negative queries |
| FeatureMapping.OneFeature | src/main/ranking/feature_mapping_model.cc:19-75 | one feature under one mapping of its space and positive weight scores the mapping weight times the feature weight times the weight of the projected feature, and otherwise 0 |
| FeatureMapping.VectorsAdd | src/main/ranking/feature_mapping_model.cc:24-73 | the meaning of vectors together is the sum of their meanings |
| FeatureMapping.MappingsAdd | src/main/ranking/feature_mapping_model.cc:28-72 | so is the meaning under mappings together |
| FeatureMapping.FeaturesAdd | src/main/ranking/feature_mapping_model.cc:50-71 | and that of the features of one vector |
| FeatureMapping.Execute | src/main/query/simple_query_executor.cc:14-70 | the executor answers for the request's own meaning over the rows as of the last apply before it, whatever operations run while the results are read |
| SnapshotFormat.ListRoundTrip | src/main/core/reader/reader_utils.h:119-129 | a dumped list is read back whole and the parser stops right behind its sentinel, whatever follows |
| SnapshotFormat.IndexRoundTrip | src/main/core/impl/base_index_impl-inl.h:240-252 | the published table is read back from any enumeration order of the hash map |
| SnapshotFormat.OrderedTimes | src/main/core/impl/btree_expire_table.h:125-134 | the items in expiry order name every key once and stand for the table's map |
| SnapshotFormat.ExpireRoundTrip | src/main/core/impl/btree_expire_table.h:125-134 | the expire table is read back, keyed by document or by point |
| SnapshotFormat.DocTermsRoundTrip | src/main/core/impl/row_index_impl-inl.h:161-176 | the document-term map is read back for the documents that have terms |
| SnapshotFormat.RowRoundTrip | src/main/core/impl/row_index_impl-inl.h:82-93 | all three parts of a row index are read back from one stream, exactly to its end |
| SnapshotFormat.PointRoundTrip | src/main/core/impl/point_index_impl-inl.h:53-59 | both parts of a point index are read back from one stream, exactly to its end |
| SnapshotStream.RowsExtend | src/main/core/impl/row_index_impl-inl.h:8-14 | a row snapshot that loads does not depend on what follows it |
| SnapshotStream.TruncatedRows | src/main/core/impl/row_index_impl-inl.h:8-14 | a dumped row index that is cut short, anywhere, does not load |
| SnapshotStream.TruncatedPoints | src/main/core/impl/point_index_impl-inl.h:8-12 | a dumped point index that is cut short, anywhere, does not load |
| SnapshotStream.AnyList | src/main/core/snapshot/snapshot_reader.h:17-26 | of any records of valid documents, in any order, exactly those are loaded whose document lies beyond every one before |
| SnapshotStream.AnyExpire | src/main/core/impl/btree_expire_table.h:26-42 | of any items, in any order, exactly the first of every key is loaded |
| Snapshot.Loader.Load | src/main/core/snapshot/snapshot.h:70-78 | one word is consumed, and reading past the end fails |
| Snapshot.SnapshotReader.Next | src/main/core/snapshot/snapshot_reader.h:17-26 | on every stream the skip loop leaves the rest of the list to be parsed as before, with a document beyond the current one |
| Snapshot.LoadList | src/main/core/index/btree_posting_list.h:32-41 | on every stream, truncated or not, the list is the parsed one with the exact bound |
| Snapshot.LoadIndex | src/main/core/impl/base_index_impl-inl.h:25-49 | on every stream the index publishes the parsed table, with exact bounds and nothing pending, or fails |
| Snapshot.LoadExpire | src/main/core/impl/btree_expire_table.h:26-42 | on every stream map and ordered set are in bijection and hold the parsed times, a repeated key keeping its first |
| Snapshot.LoadDocTerms | src/main/core/impl/row_index_impl-inl.h:135-159 | on every stream the map holds the parsed terms, documents without terms left out |
| Snapshot.LoadRows | src/main/core/impl/row_index_impl-inl.h:8-14 | on every stream a loaded row index keeps its invariants if and only if the parts in the stream are consistent: lists hold exactly the remembered terms of valid documents, every document is timed, every key a document |
| Snapshot.ConsistentIff | src/main/core/impl/row_index_impl-inl.h:8-14 | loaded parts are those of some table if and only if they are consistent, and then of the table they say |
| Snapshot.LoadPoints | src/main/core/impl/point_index_impl-inl.h:8-12 | on every stream a loaded point index keeps its invariants if and only if the lists hold exactly the timed points of valid documents |
| Snapshot.ConsistentPointsIff | src/main/core/impl/point_index_impl-inl.h:8-12 | loaded parts are those of some points if and only if they are consistent |
| Snapshot.SamePointsIff | src/main/core/impl/point_index_impl-inl.h:8-12 | parts are consistent if and only if lists and times name the same valid points |
| Snapshot.DumpList | src/main/core/reader/reader_utils.h:119-129 | the words of a list: its postings in order and the sentinel |
| Snapshot.DumpIndex | src/main/core/impl/base_index_impl-inl.h:240-252 | the words of the published table in some order that visits every term once |
| Snapshot.DumpExpire | src/main/core/impl/btree_expire_table.h:125-134 | the words of the table in expiry order |
| Snapshot.DumpDocTerms | src/main/core/impl/row_index_impl-inl.h:161-176 | the words of the document-term map in some order that visits every document once |
| Snapshot.DumpPoints | src/main/core/impl/point_index_impl-inl.h:53-59 | the words of the lists as of the first part and of the expire table as of the second, with any operations between |
| Snapshot.ReloadRows | src/main/core/impl/row_index_impl-inl.h:8-93 | dump and load: stream consumed, same published lists, same times, same terms of documents with terms; the copy keeps its invariants if and only if pending lists hold the documents of the published ones, and has the same table if and only if they are the same lists |
| Snapshot.ReloadPoints | src/main/core/impl/point_index_impl-inl.h:8-59 | dump and load with any operations between the two parts: the copy has the lists of before and the times of after, keeps its invariants if and only if they name the same valid points, and holds the points of before if and only if nothing differed pending and the same points are timed |
| Snapshot.UpToDateIff | src/main/core/impl/base_index_impl-inl.h:240-252 | the published lists are those of the current rows if and only if every pending list repeats the published one |
| Snapshot.DumpedIff | src/main/core/impl/row_index_impl-inl.h:82-93 | what is dumped is consistent if and only if every pending list holds the documents of the published one |
| Snapshot.GainedTerm | src/main/core/impl/row_index_impl-inl.h:82-93 | a term gained since the last apply is dumped without its posting |
| Snapshot.UnappliedUpdate | src/main/core/impl/row_index_impl-inl.h:82-93 | one update dumped before an apply gives a copy that fits no table |
| Snapshot.UnappliedPoint | src/main/core/impl/point_index_impl-inl.h:53-59 | one point dumped before an apply gives a copy that fits no points |
| Snapshot.ExpiredBetween | src/main/core/impl/point_index_impl-inl.h:53-59 | with nothing pending, an apply between the two parts gives a copy with a posting and no time, which fits no points |
| Snapshot.WeightChange | src/main/core/impl/row_index_impl-inl.h:82-93 | a pending change of a weight is dumped as the table before the change |
| MessageQueue.EveryState | src/main/utils/concurrency/message_queue.h:23-78 | in every interleaving of any number of threads: accepted items are the popped ones in order followed by the queued ones, the size is within capacity, no wake-up is lost for consumers or producers, and only the flusher is still to notify |
| MessageQueue.NoLostWakeUp | src/main/utils/concurrency/message_queue.h:23-78 | when nobody can go on, consumers sleep only at an empty queue and producers only at a full one, never both with positive capacity, nobody after a flush, and every popped job was executed as often as it was popped |
| MessageQueue.FlushedAwake | src/main/utils/concurrency/message_queue.h:69-78 | once the flushing thread has notified, nobody sleeps |
| MessageQueue.FlushedStep | src/main/utils/concurrency/message_queue.h:23-78 | after a flush every step of a call brings its thread closer to its return and no thread away from it |
| MessageQueue.WindsDown | src/main/utils/concurrency/message_queue.h:23-78 | a flushed queue winds down: without new calls at most two more steps for every thread, spurious wake-ups included |
| MessageQueue.BudgetFalls | src/main/utils/concurrency/message_queue.h:23-78 | flushed or not, every step of a call but a spurious wake-up uses up some of what the threads can still do, though it may wake others |
| MessageQueue.NoSpinning | src/main/utils/concurrency/message_queue.h:23-78 | without new calls and spurious wake-ups the number of further steps is bounded by the state: no thread wakes others in circles |
| MessageQueue.AllReturned | src/main/utils/concurrency/message_queue.h:23-78 | when no call can take a step every thread is idle or asleep as it should be, and after a flush all calls have returned |
| MessageQueue.History | src/main/utils/concurrency/message_queue.h:23-78 | accepted and popped sequences only grow, and not at all after a flush |
| MessageQueue.AtMostOnce | src/main/utils/concurrency/worker_executor.h:65-78 | every accepted job is queued, in one worker's hand or executed, and executed at most as often as accepted |
| MessageQueue.Stopped | src/main/utils/concurrency/worker_executor.h:39-48 | after a stop the executed jobs are exactly those popped by then, and all accepted jobs were executed if and only if none was queued at the flush |
| MessageQueue.DropsAJob | src/main/utils/concurrency/worker_executor.h:39-48 | a run in which an accepted job is never executed |
| MessageQueue.AcceptsIff | src/main/utils/concurrency/message_queue.h:39-51 | some run accepts a job if and only if the capacity is positive |
| MessageQueue.StepPoppers | src/main/utils/concurrency/message_queue.h:23-36 | a step keeps: while a consumer sleeps, queue length is at most owed notifications plus woken consumers |
| MessageQueue.StepPushers | src/main/utils/concurrency/message_queue.h:39-66 | a step keeps: while a producer sleeps, free slots are at most owed notifications plus woken producers |
| MessageQueue.Queue.Pop | src/main/utils/concurrency/message_queue.h:23-36 | the code under the mutex in pop is one step of the machine; `MessageQueue.WindsDown` and `MessageQueue.AllReturned` say that it returns |
| MessageQueue.Queue.Push | src/main/utils/concurrency/message_queue.h:39-66 | the code under the mutex in push is one step of the machine |
| MessageQueue.Queue.Flush | src/main/utils/concurrency/message_queue.h:69-78 | the code under the mutex in flush is one step of the machine |
| DocumentId.OrderIsNumeric | src/main/data/document_id.h:22-48 | the two-word comparisons and the validity test are those of the 128-bit numbers |
| DocumentId.DocumentId.Increment | src/main/data/document_id.h:50-56 | the successor modulo 2^128 |
| DocumentId.DocumentId.Decrement | src/main/data/document_id.h:58-65 | the exact predecessor of every valid id |
| DocumentId.DocumentId.Parse | src/main/data/document_id.cc:7-19 | any text gives the id of its 11 fields, or the invalid id when one does not match; the lemmas on scanning below say which texts match |
| DocumentId.JoinSplit | src/main/data/document_id.h:79-90 | splitting an id into fields and joining them gives the id |
| DocumentId.FieldsRoundTrip | src/main/data/document_id.cc:7-31 | printed fields scan back to themselves from every field on |
| DocumentId.TextRoundTrip | src/main/data/document_id.cc:7-31 | parsing the text of an id gives the id, whatever follows the text |
| DocumentId.TextInjective | src/main/data/document_id.cc:21-31 | two ids have the same text exactly when they are the same id |
| DocumentId.TextForm | src/main/data/document_id.cc:21-31 | the text has the 36-character form of section 3 of RFC 4122 in lower case |
| DocumentId.TextDigits | src/main/data/document_id.cc:21-31 | which digits stand for which bits: groups one to three are the low word in 32, 16 and 16 bits from its low end, the others the bytes of the high word from its low end |
| DocumentId.HexDigitIs | src/main/data/document_id.cc:10-13 | a digit is one of the sixteen of either case, with its value |
| DocumentId.HexValueJoins | src/main/data/document_id.cc:10-13 | digits are read with the most significant one first |
| DocumentId.StoredIs | src/main/data/document_id.cc:10-17 | a field keeps the scanned number, or its negative, modulo its size |
| DocumentId.ScanForm | src/main/data/document_id.cc:10-17 | every number that has the form of a %x conversion is read with its value and the text behind it is left |
| DocumentId.ScanReads | src/main/data/document_id.cc:10-17 | nothing else is read: a conversion succeeds on numbers of that form only |
| DocumentId.CaseIgnored | src/main/data/document_id.cc:7-19 | texts that differ only in the case of letters give the same id, matching or not |
| DocumentId.UpperRoundTrip | src/main/data/document_id.cc:7-31 | the text of an id in upper case is read back as the id |

## Left out

- HTTP service, handlers, logging, configuration and JSON parsing: plumbing over libraries.
- Union, Intersect and Subtract readers (reader_tree.h), `ThreadPoolExecutor`, `MapPostingList` and `SequentialPostingList`: unused, unfinished, or repeating the modelled list.
- `batch_update` and `batch_remove` of the row index, and `peek`: a batch is a run of `RowIndex.Rows.Execute` without an apply between; peek is a query of one term.
- Chained executors (`set_next`), worker preparation and cleanup, latency tracking, timers and string hashing of features.
- Byte counts returned by dumps, file streams and byte layout: a snapshot is a sequence of untagged words.
- The order of a hash map's enumeration and of `equal_range` is any order; B-tree, hash map and lock internals are library code.
- Floating-point rounding of weights, scores and prefix sums, and 32-bit overflow of `expire_time + 1`: arithmetic is exact.
- TermDocIdPair's `operator==` compares wrongly but nothing calls it; keys are compared by value.
- Mutexes of the indexes: an update, removal, apply, query or row dump is one atomic step; a point dump is two, one for its lists and one for its expire table, which the program iterates without a lock. Other threads' operations run between the steps and between the calls of a drain.
- Heap.SortHeap: the layout of equal scores is that of a plain binary heap, not of one library's `push_heap` and `pop_heap`.
- MessageQueue.EveryState: the waits are steps of a machine over values, because their interleavings are the point; `MessageQueue.Queue` ties the guarded code to those steps, and object lifetime (joining, destruction) is not modelled.
- DocumentId.DocumentId.Parse: conversions follow ISO C `sscanf` on a little-endian machine; text behind a NUL character is not cut off.
- Wand.WandReader.constructor: takes distinct, fresh, scaled cursors whose bounds hold, as readers promise of theirs.
- Reading.NextDocument: takes a current id that the reader has not moved past, as every caller in the program does; `Wand.WandReader.Next` says what holds otherwise.
- Reading.ReadTopN: takes a reader that has delivered nothing yet, the only kind the program drains.
- Manager.ReadTopNAmid: as `Reading.ReadTopN`.
- Manager.Query: merges terms whose scaled bounds hold; with at most one term found any weight is taken, and `WandSpec.NegativeWeightLoses` shows what a bound that fails costs.
- Manager.Search: as `Manager.Query`.
- Manager.SearchInterleaved: as `Manager.Query`.
- Manager.SearchFromEmpty: takes non-negative query weights, since which terms are found is not known beforehand.
- FeatureMapping.Execute: takes requests with non-negative feature weights, whose rewritten queries are then non-negative.
