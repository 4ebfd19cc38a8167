# PISA: a verified model

PISA answers top-k queries over an inverted index: for every document it adds up the scores its
query terms give it, and returns the k best. This project models the parts of PISA where
an answer could silently go wrong: the query algorithms that skip most postings, the
upper bounds that justify the skipping, the compressed sequences and lists the postings are kept
in, and the construction of the index from a collection. Each part is a Dafny module that keeps
the form of the C++ code (loops, objects with fields, in-place updates) and is proved against a
specification that does not mention how the code works.

`dafny verify dfyconfig.toml` checks the whole project.

## What is modelled and proved

**Queries** (`Postings`, `TopK`, `Cursors`, `Traversal`, `PivotSearch`, `RankedOr`, `Wand`,
`BlockMaxWand`, `MaxScore`, `BlockMaxMaxScore`, `RankedAnd`, `BlockMaxRankedAnd`, `SameScores`,
`RangeQueries`, `BoundSums`).
`Total` is the score of a document over the lists of a query, and `IsTopK` says what an exact
answer is: k documents (or all that exceed the floor), each with its true total, and no document
left out that is better than one kept. A queue is `Exact` over a multiset of entries when it holds
the best of what was offered; when every document was offered once, that is `IsTopK`
(`BestOfDocuments`). All algorithms share one invariant: a frontier up to which the queue is exact,
and cursors that have skipped nothing at or past it. Each pruning rule is shown to move the frontier
only over documents that cannot enter. The pruned queries therefore add to what the queue is exact
over what the exhaustive ones add, and end with the same scores (`SameScores`). Termination is part of
each proof: an iteration consumes a posting, or in the conjunctive queries moves the
candidate, and the one place where Block-Max Ranked-AND moves its candidate backwards
is shown to be followed only by the end of the query. The anytime queries are proved exact over
what the ranges they visit offer; stopping at a bound is proved to lose nothing, and stopping at a
clock to lose only documents bounded by the first unvisited range. How far they go is determined: every
range visited had a sum above the threshold of its turn, itself settled by what was offered (`ThresholdSettled`),
and no range is visited after a reading of the clock that forbids it (`LateReadingIsLast`). What ranges are ordered by is stated
on the lists alone (`BoundSums`).

**Upper bounds** (`Blocks`, `StaticPartition`, `ScoreOptPartition`, `WandData`). Blocks tile each list
and carry its true maxima. For the optimised partition this needs the sliding-window queue to be
right and the traced path to avoid nodes that were never reached, whose recorded maximum is 0.
The partition found is proved to cost no more than any chain of blocks the windows admit, and the blocks of
each list to be those its block size asks for.
Data built for any collection satisfy everything the queries assume (`DescribedIsSound`,
`BuiltCursorsAreReady`).

**Sequences** (`Bits`, `Pointers`, `Sequences`, `EliasFano`, `RankedBitvector`, `IndexedSequence`, `IntegerCodes`,
`PartitionedSequence`, `OptimalPartition`). `Encodes` and its relatives say which bits a
sequence is stored as, for any sampling parameters; the writers are proved to produce such bits,
and the enumerators, given such bits, to behave as a position in the plain sequence whichever path they take.
Of its representations a part is written in the one that takes the least space, and the endpoints of
the parts are the cheapest among all chains of parts the windows tried.

**Posting lists** (`Interpolative`, `BlockPostingList`). The bit writer and reader are two views of one number;
on top of them interpolative blocks are read back exactly, followed by anything. The
block cursor is a position in the plain lists under every operation, forwards and backwards, and
whatever order the blocks were stored in.

**Construction** (`Inversion`, `SemiasyncQueue`). An index is described by the postings it holds,
without reference to any order of work, and is unique (`IndexUnique`); so the splitting, the batch
size and the number of threads cannot matter. The job queue keeps a log of every preparation and
commit, and its invariants hold after any steps of any workers; while jobs are
added, a thread starts exactly when the work waiting suffices for one.

## Where the code falls short of what it suggests

Where an input makes the code go wrong, a lemma gives such an input and another the exact condition under which
the code is right.

- `all_ranges` starts each range one past the boundary of the one before, while the ends are
  exclusive, so the document on an inner boundary belongs to no range. `BoundaryDocumentIsLost`
  gives a collection whose best document is lost. Range queries are complete for every k if and only
  if no inner boundary document is above the floor (`CompleteIffBoundariesBelowFloor`), and for a given k if
  and only if each that is has k rivals (`CompleteIffBoundariesHaveRivals`).
- A range that ends past the number of documents lets an exhausted cursor, whose current document is
  the number of documents, be chosen and scored (`ExhaustedIsSelected`, `RunsPastTheEnd`). The
  traversals score nothing but postings, whatever the bounds and the threshold, if and only if no range ends past
  it (`RangesSafeIff`), that is, the last boundary does not (`RangesSafeIffLastFits`).
- Documents at or past the last boundary are mapped to range 0 again. Lists keep rising range identifiers, which
  the search for a range bound relies on, if and only if the last boundary reaches the end of the collection or there
  is at most one (`ClustersRiseIff`). Boundaries that do not rise map documents to a
  range other than their own; `RangesMapIff` says when they do not.
- A cluster that is selected twice queues its documents twice (`SelectedTwiceIsQueuedTwice`). The
  selection gives the best documents, for every k, if and only if no document above the floor lies in two
  of the selected ranges (`SelectionExactIff`); for disjoint ranges that means a repeated cluster (`InBothIffTwice`).
- The reader of a single-part sequence keeps the last entry in an `int`, which is cut to 32 bits and can overflow when 1 is
  added. The universe and the upper bound it sees are right if and only if the last entry plus 1
  is below 2^31, or the entry is so close to 2^64 that sign extension restores it (`LastKeptIff`,
  `SingleSeenIff`); `LargeLastIsLost` gives the first two entries that go wrong. Signed overflow
  is taken to wrap around.
- In the interpolative coder `high - low + 1` wraps to 0 in 32 bits. It counts right if and only if
  `high - low` is not the largest 32-bit number or nothing is coded (`CountsFitIff`), so a block of
  several values must not have the largest 32-bit sum (`BlockOkIff`, `LargestSumDoesNotFit`).
- The Elias-Fano `next_geq` stays where it is when the current value equals the bound, even if the same value
  also stands earlier. `StayingIsLeastIff` says when that is the least position, and
  `StayingIsNotLeast` gives a sequence where it is not. Strictly increasing sequences are not
  affected, and the partitioned sequence copes with repeated upper bounds.
- A sequence that fills its universe answers `next_geq` with the bound itself, which is a position if and only if the
  bound does not exceed the universe (`FullLeast`).
- An exhausted list cursor keeps the block it stopped in. A later `next_geq` brings it back exactly when the
  bound lies past that block and not past the list (`NextGeq`); the queries only ask past the last
  document (`ExhaustedBehind`), although `next_geq` asserts more, namely bounds at or past the number of documents.
- Cursors multiply list, block and range bounds by the query weight but not `score()`, and BoundSum
  adds unweighted range bounds. All of these remain upper bounds because weights are at least 1 and
  scores are unweighted.
- Skipping in Block-Max Ranked-AND can move the candidate back once a list is exhausted. This is
  harmless (`BlockMaxRankedAnd.Step`).
- MaxScore goes on to the next range without reading the clock when a range is dead at once, so its last
  reading can be older than its last range.

## Model

| member | source | states |
|---|---|---|
| TopK.TopkQueue.Insert | include/pisa/topk_queue.hpp:28-45 | An entry is accepted exactly when its score exceeds the threshold; acceptance adds it and, beyond k entries, drops a least one; the queue stays well formed |
| TopK.TopkQueue.Finalize | include/pisa/topk_queue.hpp:49-59 | Afterwards the same entries stand best score first; those with score 0 or less are cut off and only those |
| TopK.TopkQueue.SetThreshold | include/pisa/topk_queue.hpp:63-63 | On a fresh queue the given threshold becomes the floor every later entry has to exceed |
| TopK.TopkQueue.Clear | include/pisa/topk_queue.hpp:67-71 | The queue is as good as new: well formed, empty, with threshold and floor 0 |
| TopK.InsertionKeepsExact | include/pisa/topk_queue.hpp:28-45 | An accepted entry keeps the queue exact, now over that entry too, and never lowers the threshold |
| TopK.RefusalKeepsExact | include/pisa/topk_queue.hpp:28-32 | A refused entry keeps the queue exact, now over that entry too |
| TopK.BestOfDocuments | include/pisa/query/algorithm/ranked_or_query.hpp:25-40 | When every document is offered once, the best of what was offered are exactly the k best documents |
| TopK.OfferedOnceIff | include/pisa/topk_queue.hpp:28-45 | For queues of every size, holding the best of what was offered means holding the best documents if and only if nothing above the floor was offered twice |
| TopK.ExactIffAccounted | include/pisa/topk_queue.hpp:28-47 | A well-formed queue holds the best of what was offered if and only if it holds nothing else and whatever offered entry it does not hold cannot enter |
| TopK.ExactAnswersAgree | include/pisa/query/algorithm/ranked_or_query.hpp:25-40 | Any two exact answers hold the same multiset of scores, so exactness leaves open only which of equally scored documents is kept |
| TopK.ExactRankingsAgree | include/pisa/topk_queue.hpp:49-61 | Any two exact answers, ranked, give the same scores at every rank |
| TopK.ThresholdUnique | include/pisa/topk_queue.hpp:28-47 | What the next entry has to exceed depends only on what was offered, not on which of equally scored entries are held |
| TopK.ThresholdSettled | include/pisa/topk_queue.hpp:28-47 | The threshold of an exact queue is that value: the floor while there is room, else the least of the k best scores offered |
| Cursors.Cursor.NextGeq | include/pisa/cursor/scored_cursor.hpp:38-38 | Moves forward to the first posting at or past the bound and never back; nothing happens when already there |
| Cursors.Cursor.GlobalGeq | include/pisa/cursor/scored_cursor.hpp:40-40 | Finds the first posting at or past the bound from the list start, so also backwards |
| Cursors.Cursor.BlockMaxNextGeq | include/pisa/wand_data_raw.hpp:123-128 | Moves the block forward only past blocks that end before the bound |
| Cursors.Cursor.BlockMaxGlobalGeq | include/pisa/wand_data_raw.hpp:131-137 | Finds the block for the bound from the first one, so also backwards |
| Cursors.Cursor.UpdateRangeMaxScore | include/pisa/cursor/max_scored_cursor.hpp:33-56 | The bound becomes weight times the range bound, and dominates every posting the range holds |
| Cursors.RangeScore | include/pisa/wand_data_raw.hpp:140-150 | For rising range identifiers the linear search returns the stored bound, 0 when the list has no such range |
| Cursors.BlockBoundsScore | include/pisa/wand_data_raw.hpp:123-155 | After moving to a document the block maximum times the weight dominates the score there, at the document or at any later one the block still covers |
| Cursors.ArrangedTotals | include/pisa/query/algorithm/wand_query.hpp:22-35 | Sorting the cursors does not change any document total |
| Traversal.Offer | include/pisa/topk_queue.hpp:28-45 | Offering a score adds the document at the frontier to those the queue is exact over, provided that a score that enters is its true total and one that does not enter belongs to a document that cannot enter or was passed already |
| Traversal.RaiseFrontier | include/pisa/query/algorithm/wand_query.hpp:36-87 | The frontier may rise past documents whose totals cannot enter; the queue is then exact over those too |
| Traversal.BoundedByPrefix | include/pisa/query/algorithm/wand_query.hpp:37-50 | When the cursors in front are bounded and those behind do not hold the document, its total is at most the sum of those bounds |
| Traversal.BubbleDown | include/pisa/query/algorithm/wand_query.hpp:78-85 | Swapping the moved cursor backwards restores the order by document and only permutes the cursors |
| PivotSearch.FindPivot | include/pisa/query/algorithm/wand_query.hpp:37-55 | Finds the first prefix of cursors, all showing documents below the end, whose bounds can enter; finds none exactly when there is none |
| PivotSearch.PivotHasPostingIff | include/pisa/query/algorithm/wand_query.hpp:146-172 | Whatever the bounds and the threshold, no exhausted cursor becomes the pivot, if and only if the end is at or below the number of documents |
| PivotSearch.ExhaustedShowsIff | include/pisa/block_posting_list.hpp:101-108 | An exhausted cursor shows a document before the end exactly when the end lies past the number of documents |
| PivotSearch.ExhaustedIsSelected | include/pisa/query/algorithm/wand_query.hpp:146-172 | With one document in the collection and a range ending at 2, an exhausted cursor is chosen as the pivot |
| PivotSearch.ChoosePivot | include/pisa/query/algorithm/wand_query.hpp:36-58 | No document between the old frontier and the pivot can enter, so the frontier may move up to it; without a pivot it moves to the end |
| PivotSearch.AdvanceList | include/pisa/query/algorithm/wand_query.hpp:72-86 | Moving one list up to the pivot keeps the run invariant, restores the order and consumes a posting |
| PivotSearch.OfferPivot | include/pisa/query/algorithm/wand_query.hpp:57-71 | After the pivot is offered the queue is exact over every document up to it and the cursors have passed it |
| RankedOr.Query | include/pisa/query/algorithm/ranked_or_query.hpp:14-41 | The exhaustive disjunctive query leaves the best of what was offered before and of all documents, each once, and terminates |
| RankedOr.Step | include/pisa/query/algorithm/ranked_or_query.hpp:25-40 | One document is scored with its full total, and every list containing it moves on |
| Wand.Query | include/pisa/query/algorithm/wand_query.hpp:15-88 | WAND leaves the best of what was offered before and of all documents, as the exhaustive query does, and terminates |
| Wand.Traverse | include/pisa/query/algorithm/wand_query.hpp:146-202 | WAND over one interval adds every document of it to those the queue is exact over, also when some were offered before |
| Wand.EvaluatePivot | include/pisa/query/algorithm/wand_query.hpp:59-71 | When the pivot stands first it is scored with its full total and every list on it moves past it |
| BlockMaxWand.Query | include/pisa/query/algorithm/block_max_wand_query.hpp:14-160 | Block-Max WAND leaves the best of what was offered before and of all documents, as the exhaustive query does, and terminates |
| BlockMaxWand.Traverse | include/pisa/query/algorithm/block_max_wand_query.hpp:36-159 | Over one interval every document of it is added to those the queue is exact over; the postings left fall with every iteration |
| BlockMaxWand.BlockUpperBound | include/pisa/query/algorithm/block_max_wand_query.hpp:65-74 | The block bounds are defined for every cursor up to the pivot, and their sum is returned |
| BlockMaxWand.BoundedByBlocks | include/pisa/query/algorithm/block_max_wand_query.hpp:65-76 | Documents from the pivot on that all current blocks cover total at most the sum of the block bounds |
| BlockMaxWand.ScoreBounded | include/pisa/query/algorithm/block_max_wand_query.hpp:79-90 | Replacing block bounds by scores one by one yields either the full score of the lists up to the pivot, or proof that the document cannot enter or was passed already |
| BlockMaxWand.GiveUp | include/pisa/query/algorithm/block_max_wand_query.hpp:86-89 | Scores so far plus the remaining block bounds dominate both the partial score and, for a document not yet settled, the true total |
| BlockMaxWand.NextCandidate | include/pisa/query/algorithm/block_max_wand_query.hpp:131-146 | The skip target lies past the pivot document, within reach of all blocks up to the pivot and not past any later cursor |
| BlockMaxWand.SkippedSettled | include/pisa/query/algorithm/block_max_wand_query.hpp:118-148 | No document jumped over could enter the queue |
| BlockMaxWand.SkipBlocks | include/pisa/query/algorithm/block_max_wand_query.hpp:118-158 | After the jump the frontier stands at the target and a posting has been consumed |
| MaxScore.Query | include/pisa/query/algorithm/maxscore_query.hpp:130-139 | MaxScore leaves the best of what was offered before and of all documents, as the exhaustive query does, and terminates |
| MaxScore.RunSorted | include/pisa/query/algorithm/maxscore_query.hpp:60-127 | The document loop with essential and lookup lists settles every document below the end |
| MaxScore.RunRange | include/pisa/query/algorithm/maxscore_query.hpp:171-252 | The range variant, which inserts a sentinel at the end with score 0, adds exactly the documents of the interval; it leaves a range at once exactly when its first bound cannot enter |
| MaxScore.CalcUpperBounds | include/pisa/query/algorithm/maxscore_query.hpp:34-44 | Entry i is the sum of the bounds of lists i, i+1, ... |
| MaxScore.UpdateNonEssential | include/pisa/query/algorithm/maxscore_query.hpp:69-79 | Lists past the split alone cannot reach the threshold, and the split is the first such one |
| MaxScore.OnlyLookups | include/pisa/query/algorithm/maxscore_query.hpp:69-83 | A document in none of the essential lists totals at most the threshold |
| MaxScore.CandidateHasPostingIff | include/pisa/query/algorithm/maxscore_query.hpp:208-236 | No exhausted cursor proposes a candidate if and only if the end is at or below the number of documents |
| MaxScore.ExhaustedBehind | include/pisa/query/algorithm/maxscore_query.hpp:108-120 | A lookup in an exhausted list asks past its last document |
| MaxScore.ScoreLookups | include/pisa/query/algorithm/maxscore_query.hpp:108-120 | Lookups complete the score to the full total, or stop only when the total cannot enter |
| MaxScore.Sorted | include/pisa/query/algorithm/maxscore_query.hpp:18-31 | The cursors reordered by falling bound |
| BlockMaxMaxScore.Query | include/pisa/query/algorithm/block_max_maxscore_query.hpp:13-95 | Block-Max MaxScore leaves the best of what was offered before and of all documents, as the exhaustive query does, and terminates |
| BlockMaxMaxScore.RefineByBlocks | include/pisa/query/algorithm/block_max_maxscore_query.hpp:56-67 | The bound dominates what the lookup lists give the document, also after an early break; without a break every list is refined to its block bound |
| BlockMaxMaxScore.CompleteLookups | include/pisa/query/algorithm/block_max_maxscore_query.hpp:68-84 | The bound ends as what the lookup lists really give, or the loop breaks with score plus bound below the threshold and the bound still dominating |
| BlockMaxMaxScore.RefinedDominates | include/pisa/query/algorithm/block_max_maxscore_query.hpp:56-66 | With the lists from i on refined to block bounds, the running bound dominates what those lists give the document |
| BlockMaxMaxScore.UpdateNonEssential | include/pisa/query/algorithm/block_max_maxscore_query.hpp:86-92 | The non-essential prefix is the longest whose bounds together cannot enter |
| SameScores.Disjunctive | include/pisa/query/algorithm/ranked_or_query.hpp:25-40 | Each of the four pruned queries and the exhaustive one, over the same lists with queues of the same size and floor, end with the same scores |
| RankedAnd.Query | include/pisa/query/algorithm/ranked_and_query.hpp:13-55 | The exhaustive conjunctive query leaves the best of what was offered before and of the documents all lists contain, and terminates |
| RankedAnd.Align | include/pisa/query/algorithm/ranked_and_query.hpp:34-41 | Either all cursors stand on the candidate, or the first that does not names the next candidate and no common document lies between |
| BlockMaxRankedAnd.Query | include/pisa/query/algorithm/block_max_ranked_and_query.hpp:13-79 | Block-Max Ranked-AND leaves the best of what was offered before and of the documents all lists contain, as the exhaustive conjunctive query does, and terminates |
| SameScores.Conjunctive | include/pisa/query/algorithm/ranked_and_query.hpp:31-54 | Block-Max Ranked-AND and the exhaustive conjunctive query end with the same scores |
| BlockMaxRankedAnd.JumpSettles | include/pisa/query/algorithm/block_max_ranked_and_query.hpp:64-76 | Documents from the candidate to the jump target total at most the sum of the block bounds |
| BlockMaxRankedAnd.Exhausted | include/pisa/query/algorithm/block_max_ranked_and_query.hpp:70-73 | When the candidate already is past the jump target, the lists have no common document from it on |
| BlockMaxRankedAnd.Step | include/pisa/query/algorithm/block_max_ranked_and_query.hpp:34-77 | Each iteration keeps the run invariant and moves on; a candidate moved back is followed by termination |
| RangeQueries.OrderedRangeQuery | include/pisa/query/algorithm/wand_query.hpp:95-204 | For any given order of ranges, repeated or not, cut off after max_clusters, the queue is exact over what the ranges in that prefix offer, a document as often as it is offered, for all three traversals |
| RangeQueries.SelectionExactIff | include/pisa/query/algorithm/wand_query.hpp:95-204 | For queues of every size, the selected ranges give their best documents if and only if no document above the floor lies in two of them |
| RangeQueries.InBothIffTwice | include/pisa/clusters.hpp:26-52 | Of disjoint ranges, a document lies in two of those selected exactly when its range was selected twice |
| RangeQueries.SelectedTwiceIsQueuedTwice | include/pisa/clusters.hpp:26-52 | One document whose range is selected twice takes both places of a queue of two |
| RangeQueries.BoundSumQuery | include/pisa/query/algorithm/block_max_wand_query.hpp:370-541 | Exact over the ranges visited in BoundSum order, which may overlap. Every range visited had a sum above the threshold of its turn, settled by what the ranges before it offer; only the count, or a sum at or below that threshold, ends the query, and the latter leaves it exact over all ranges |
| RangeQueries.BoundSumTimeoutQuery | include/pisa/query/algorithm/block_max_wand_query.hpp:546-748 | For every clock: at every reading v before the last range, clock(v) + risk * clock(v) / v is at most the timeout, and nothing is visited once a reading exceeds the timeout; if a range that could enter is left, the last reading went over, and otherwise the queue is exact over all ranges. The clock is read after every range, with MaxScore after every range whose weighted bounds could enter. Missed documents total at most the first unvisited bound, and the clock alone never cuts off the first range |
| RangeQueries.LateReadingIsLast | include/pisa/query/algorithm/wand_query.hpp:381-383 | When every reading at which the query went on was in time, a reading over the timeout was the last |
| RangeQueries.LastReadIs | include/pisa/query/algorithm/maxscore_query.hpp:464-514 | The last reading follows a range that MaxScore did not find dead, and every range since then was dead |
| RangeQueries.DisjointOnce | include/pisa/wand_data.hpp:152-161 | Disjoint ranges offer each of their documents once, so exactness over all entries is exactness over the documents of all ranges |
| RangeQueries.BoundSumDominates | include/pisa/query/algorithm/wand_query.hpp:227-237 | The unweighted sum of range bounds dominates every total in the range |
| RangeQueries.OrderByBoundSum | include/pisa/query/algorithm/wand_query.hpp:227-239 | Every range occurs once, with its own sum of list bounds, best first; `BoundSums.BoundSumIsLargestSum` says what the sum is |
| RangeQueries.StopIsSafe | include/pisa/query/algorithm/wand_query.hpp:246-249 | A range whose bound cannot enter ends the search with nothing lost: the queue is already exact over all ranges |
| RangeQueries.UnvisitedBounded | include/pisa/query/algorithm/wand_query.hpp:376-383 | A document of no visited range totals at most the bound of the first unvisited one |
| BoundSums.RangeMaxIff | include/pisa/cursor/max_scored_cursor.hpp:38-41 | A value bounds a list in a range and is reached there, or is 0, if and only if it is the largest score of the documents mapped to the range |
| BoundSums.BoundSumIsLargestSum | include/pisa/query/algorithm/wand_query.hpp:229-237 | Over built data the sum a range is ordered by is the sum, list by list, of the largest score among the documents mapped to it, whatever the query weights |
| BoundSums.LargestSumOne | include/pisa/query/algorithm/wand_query.hpp:229-237 | For one list the sum is exactly its largest score there |
| BoundSums.LargestSumConcat | include/pisa/query/algorithm/wand_query.hpp:229-237 | The sum is additive over the lists of a query |
| BoundSums.BoundSumOrderIff | include/pisa/query/algorithm/wand_query.hpp:227-239 | However the query arranged its cursors, the order it visits ranges in is the falling order of those sums over the lists |
| RangeQueries.VisitUnlessDead | include/pisa/query/algorithm/wand_query.hpp:124-136 | Skipping a range whose list bounds cannot enter keeps the queue exact over what it offers |
| RangeQueries.VisitRange | include/pisa/query/algorithm/maxscore_query.hpp:155-252 | Repositioning, lowering the bounds and traversing extends exactness by what one range offers, for each of the three traversals; MaxScore finds the range dead if and only if its weighted bounds together cannot enter |
| RangeQueries.RangesSafeIff | include/pisa/query/algorithm/wand_query.hpp:146-202 | Whatever the bounds and the threshold, traversing the ranges scores nothing but postings if and only if none of them ends past the number of documents |
| RangeQueries.RunsPastTheEnd | include/pisa/query/algorithm/wand_query.hpp:118-182 | In a range ending one past the collection the steps of WAND score the only document and then choose its exhausted cursor as the pivot |
| Blocks.TilesAreValid | include/pisa/wand_utils.hpp:42-66 | Blocks that tile a list with true maxima bound every posting they cover, as cursors assume |
| Blocks.ListMaxIs | include/pisa/wand_data_raw.hpp:47-47 | The largest block maximum is the largest score of the list |
| Blocks.RunsIncrease | include/pisa/wand_utils.hpp:54-67 | Range identifiers come out strictly increasing if and only if documents map to ranges without falling |
| Blocks.RangeBoundIsMax | include/pisa/wand_data_raw.hpp:140-150 | For every range, what the lookup returns is the largest score the list has there, 0 when it has none |
| StaticPartition.StaticBlockPartition | include/pisa/wand_utils.hpp:25-71 | There are ceil(n / size) blocks; block b ends just before posting (b + 1) * size, the last one at the last document; each carries the true maximum of its postings; runs of equal range carry theirs |
| StaticPartition.NextBlock | include/pisa/wand_utils.hpp:47-54 | A new quotient closes the block at a multiple of the size, just before the document that opens the next |
| StaticPartition.CutsAreFixed | include/pisa/wand_utils.hpp:42-65 | Cuts at the multiples of the size, the last one at most a size before the end, give exactly the fixed-size blocks and their number |
| ScoreOptPartition.Partition | include/pisa/score_opt_partition.hpp:104-199 | The chosen blocks tile the list with true maxima and cost at most any chain of blocks from node to node each of which ends where some window bound stops it; a single block carries no fixed cost. If there is a window at all, they cost at most n * fixedCost |
| ScoreOptPartition.ChainCosts | include/pisa/score_opt_partition.hpp:133-172 | The cost recorded for the end is at most that of every chain of blocks the windows admit |
| ScoreOptPartition.AtMostSingles | include/pisa/score_opt_partition.hpp:121-159 | Whenever there is a window the partition costs at most as much as a block for every posting, so a single block is kept only if it falls short by no more than that |
| ScoreOptPartition.AdmitsOne | include/pisa/score_opt_partition.hpp:148-169 | From each node a window bound admits exactly one farthest end |
| ScoreOptPartition.LadderUnique | include/pisa/score_opt_partition.hpp:121-131 | The window bounds are determined by the fixed cost, the two factors and the cost of a single block |
| ScoreOptPartition.TopsExtend | include/pisa/score_opt_partition.hpp:60-75 | Popping smaller values from the back and pushing keeps the queue the sequence of values no later one exceeds |
| ScoreOptPartition.TopsDropFirst | include/pisa/score_opt_partition.hpp:44-58 | Popping the front when it equals the leaving value keeps the queue right for the shorter window |
| ScoreOptPartition.TopsStartWithMax | include/pisa/score_opt_partition.hpp:92-92 | The front of the queue is the maximum of the window |
| ScoreOptPartition.ScoreWindow.WindowCost | include/pisa/score_opt_partition.hpp:84-90 | The cost is how far the window falls short of its maximum plus the fixed part |
| ScoreOptPartition.CostAtLeastFixed | include/pisa/score_opt_partition.hpp:84-90 | No window costs less than the fixed part, so costs are never negative |
| ScoreOptPartition.Relax | include/pisa/score_opt_partition.hpp:155-159 | Recording an edge keeps every node either at the single-block cost or reached by a recorded block with its true maximum |
| ScoreOptPartition.Trace | include/pisa/score_opt_partition.hpp:174-184 | Every node on the way back was reached, although untouched nodes hold a maximum of 0, and the costs of the blocks add up to the cost recorded for the end |
| ScoreOptPartition.CreateWindows | include/pisa/score_opt_partition.hpp:121-131 | Window bounds are exactly the fixed cost times powers of the factor, as long as they are wanted and none before has reached the single block; the loop terminates |
| WandData.VariableBlockPartition | include/pisa/wand_utils.hpp:75-128 | Variable blocks with the cost guarantee of ScoreOptPartition.Partition and range runs of one list, both with true maxima |
| WandData.DocToRange | include/pisa/wand_data.hpp:95-102 | A document below some boundary is mapped to the first range whose boundary lies past it, and no other is mapped |
| WandData.AllRanges | include/pisa/wand_data.hpp:152-161 | Range r runs from one past the previous boundary to its own, both boundaries excluded |
| WandData.RangesMapIff | include/pisa/wand_data.hpp:95-102 | For any boundaries, the documents of every range are mapped to it if and only if no boundary lies beyond the start of a later non-empty range |
| WandData.RangesCover | include/pisa/wand_data.hpp:152-161 | The ranges cover exactly the documents below the last boundary that are not themselves boundaries |
| WandData.WholeCollectionIffOneRange | include/pisa/wand_data.hpp:152-161 | The ranges are the whole collection if and only if there is just one |
| WandData.CompleteIffBoundariesCannotEnter | include/pisa/wand_data.hpp:152-161 | A finished queue exact over all ranges is exact over the collection if and only if no inner boundary document exceeds its threshold |
| WandData.CompleteIffBoundariesHaveRivals | include/pisa/wand_data.hpp:152-161 | For a given k, every exact answer over all ranges is exact over the collection if and only if each inner boundary document above the floor has k rivals in the ranges |
| WandData.CompleteIffBoundariesBelowFloor | include/pisa/wand_data.hpp:152-161 | For every k, it is if and only if no inner boundary document is above the floor |
| WandData.BoundaryDocumentIsLost | include/pisa/wand_data.hpp:152-161 | A concrete collection whose best document lies on a boundary and is missed by every range query |
| WandData.Builder.AddSequence | include/pisa/wand_data_raw.hpp:36-64 | A list is appended with its true list maximum, in blocks as its block size asks: every size postings, or cheapest in the sense of ScoreOptPartition.Partition; the data of earlier lists do not change |
| WandData.Builder.Append | include/pisa/wand_data_raw.hpp:49-63 | The new list reads back exactly what was appended, earlier lists what they read before, and the block size of each is kept |
| WandData.BuildWandData | include/pisa/wand_data.hpp:91-138 | All lists are described, in order, in blocks as the block size asks; the index maximum dominates every score and some score reaches it, or it is 0 without lists |
| WandData.DescribedIsSound | include/pisa/wand_data_raw.hpp:123-155 | Data built for rising boundaries that reach the end of the collection satisfy all that cursors and range queries assume, and each range bound is the exact maximum |
| WandData.ClustersRiseIff | include/pisa/wand_utils.hpp:54-67 | Every list maps to ranges without falling if and only if the last boundary reaches the end of the collection, or there is at most one |
| WandData.RangesSafeIffLastFits | include/pisa/wand_data.hpp:225-238 | Traversals of all ranges score nothing but postings if and only if the last boundary is at or below the number of documents |
| WandData.BuiltCursorsAreReady | include/pisa/cursor/block_max_scored_cursor.hpp:44-65 | Cursors over data built for boundaries ending at the number of documents may take part in every range query over all ranges, which are disjoint |
| Bits.UnarySkip0 | include/pisa/bit_vector.hpp:489-504 | Finds the k-th zero ahead, a one already read counting as a zero |
| Bits.UnarySkip | include/pisa/bit_vector.hpp:454-468 | Finds the k-th one ahead and leaves it unread |
| Bits.FieldOfPut | include/pisa/bit_vector.hpp:59-79 | A field just written reads back as the number written |
| Pointers.SetRun | include/pisa/codec/compact_elias_fano.hpp:87-101 | Writes the entries of exactly the sampled positions of a run, and changes nothing else |
| EliasFano.Write | include/pisa/codec/compact_elias_fano.hpp:70-140 | The bits appended encode the sequence with all its pointers, for any sampling; empty and unsorted input is reported, and earlier bits stay |
| EliasFano.SpaceBound | include/pisa/codec/compact_elias_fano.hpp:26-43 | The low bits of a value are at most the logarithm of universe / n, and at that number the high bits of all values take no more than 3n + 1 |
| EliasFano.WriteOne | include/pisa/codec/compact_elias_fano.hpp:106-136 | Writing one value extends high bits, low bits and both pointer tables by that value and disturbs none of them |
| EliasFano.EncodingDetermines | include/pisa/codec/compact_elias_fano.hpp:70-140 | The same bits never encode two different sequences |
| EliasFano.EncodesAnywhere | include/pisa/codec/compact_elias_fano.hpp:148-155 | Only the bits of the layout matter, so sequences can stand side by side |
| EliasFano.EncodesShift | include/pisa/codec/compact_elias_fano.hpp:26-43 | The encoding may be built apart and appended anywhere |
| EliasFano.Enumerator.Move | include/pisa/codec/compact_elias_fano.hpp:157-185 | Any move, by scan, skip or pointer, arrives at the value with that index |
| EliasFano.Enumerator.SlowMove | include/pisa/codec/compact_elias_fano.hpp:258-283 | Skipping ahead and jumping to a pointer both arrive at the value with that index |
| EliasFano.Enumerator.NextGeq | include/pisa/codec/compact_elias_fano.hpp:187-216 | Arrives at the least value at or above the bound, on every path; stays when the current value is the bound |
| EliasFano.Enumerator.SlowNextGeq | include/pisa/codec/compact_elias_fano.hpp:285-328 | Skipping zeros ahead and jumping to a pointer both arrive at the least value at or above the bound |
| EliasFano.Enumerator.Next | include/pisa/codec/compact_elias_fano.hpp:220-231 | Arrives at the following value, or past the end |
| EliasFano.Enumerator.PrevValue | include/pisa/codec/compact_elias_fano.hpp:233-251 | The value before the current one, also past the end; 0 before the first |
| EliasFano.NthZeroIs | include/pisa/codec/compact_elias_fano.hpp:302-313 | Skipping k zeros arrives at zero number z + k, whose position gives the count of smaller high parts |
| EliasFano.Pointer0Leads | include/pisa/codec/compact_elias_fano.hpp:303-309 | The pointer for a bound leads to an earlier zero with a known number |
| Sequences.StayingIsLeastIff | include/pisa/codec/compact_elias_fano.hpp:189-191 | Staying at a value equal to the bound is the least position if and only if the value before is smaller |
| Sequences.StayingIsNotLeast | include/pisa/codec/compact_elias_fano.hpp:189-191 | With a repeated value the stay is not the least position |
| RankedBitvector.Write | include/pisa/codec/compact_ranked_bitvector.hpp:59-116 | The bits appended mark the values, with exact rank samples and pointers; repeated or unsorted input is reported |
| RankedBitvector.BitInside | include/pisa/codec/compact_ranked_bitvector.hpp:98-100 | The bit of a value lies inside the bit array exactly when the value is below the universe |
| RankedBitvector.WriteOne | include/pisa/codec/compact_ranked_bitvector.hpp:89-113 | Writing one value extends marks, pointers and rank samples and disturbs none of them |
| RankedBitvector.Enumerator.NextGeq | include/pisa/codec/compact_ranked_bitvector.hpp:160-187 | Arrives at the least value at or above the bound, on every path and for every bound |
| RankedBitvector.Enumerator.CountTo | include/pisa/codec/compact_ranked_bitvector.hpp:256-282 | Current position or sampled rank plus a count of ones is the number of values below the bound |
| RankedBitvector.Enumerator.Move | include/pisa/codec/compact_ranked_bitvector.hpp:131-158 | Any move arrives at the value with that index |
| RankedBitvector.Enumerator.PrevValue | include/pisa/codec/compact_ranked_bitvector.hpp:204-218 | The value before the current one, also past the end; 0 before the first |
| RankedBitvector.OnesAreValues | include/pisa/codec/compact_ranked_bitvector.hpp:269-282 | The ones between two positions number the values between them |
| IndexedSequence.Write | include/pisa/sequence/indexed_sequence.hpp:43-77 | The representation appended holds the sequence, and its length is the least of the possible ones: no bits for a sequence that fills its universe, else no more than either representation with its type bit |
| IndexedSequence.Enumerator.NextGeq | include/pisa/sequence/indexed_sequence.hpp:120-124 | Arrives at the least value at or above the bound: for every bound, except that a sequence filling its universe takes bounds up to the universe |
| IndexedSequence.FullLeast | include/pisa/codec/all_ones_sequence.hpp:43-48 | In a sequence that fills its universe the bound itself is the least position if and only if it does not exceed the universe |
| IndexedSequence.Enumerator.Move | include/pisa/sequence/indexed_sequence.hpp:115-119 | Arrives at the value with the given index for all three types |
| IndexedSequence.AllOnes | include/pisa/codec/all_ones_sequence.hpp:24-66 | A strictly increasing sequence as long as its universe is 0, 1, 2, ..., which is why nothing is stored for it |
| IntegerCodes.ReadGamma | include/pisa/codec/integer_codes.hpp:23-28 | Reads back the number of a gamma code and stops right behind it |
| IntegerCodes.WriteGamma | include/pisa/codec/integer_codes.hpp:8-15 | Appends the gamma code of a number, 0 included |
| IntegerCodes.ReadDelta | include/pisa/codec/integer_codes.hpp:44-48 | Reads back the number of a delta code and stops right behind it |
| IntegerCodes.WriteDelta | include/pisa/codec/integer_codes.hpp:35-42 | Appends the delta code of a number |
| PartitionedSequence.Write | include/pisa/sequence/partitioned_sequence.hpp:22-113 | For any endpoints rising to the end, the bits appended store the sequence, in the single-part layout, tight or not, or the multi-part one |
| PartitionedSequence.WriteMany | include/pisa/sequence/partitioned_sequence.hpp:63-112 | Header, both tables, endpoints and all parts stand where the reader will look for them |
| PartitionedSequence.WriteSingle | include/pisa/sequence/partitioned_sequence.hpp:40-62 | Base, optional last entry and values of a single part; a tight universe is written as 0 without ambiguity |
| PartitionedSequence.Open | include/pisa/sequence/partitioned_sequence.hpp:121-168 | Opening what was written gives an enumerator over the sequence, at its end; a single part must have a last entry the reader can keep |
| PartitionedSequence.LastKeptIff | include/pisa/sequence/partitioned_sequence.hpp:138-147 | Kept in a signed 32-bit number, the last entry of a single part gives the right universe and upper bound if and only if its successor is below 2^31, or sign extension restores it |
| PartitionedSequence.SingleSeenIff | include/pisa/sequence/partitioned_sequence.hpp:138-147 | The reader sees a single part as it was written if and only if its last entry fits |
| PartitionedSequence.LargeLastIsLost | include/pisa/sequence/partitioned_sequence.hpp:138-147 | Last entries 2^31 and 2^31 - 1 are read with a wrong universe, 2^31 - 2 is not |
| PartitionedSequence.Locate | include/pisa/sequence/partitioned_sequence.hpp:278-305 | The tables give back where a part starts, its first and last index, its base and its upper bound |
| PartitionedSequence.Enumerator.Move | include/pisa/sequence/partitioned_sequence.hpp:170-181 | Arrives at the value with the given index, switching parts where needed |
| PartitionedSequence.Enumerator.Next | include/pisa/sequence/partitioned_sequence.hpp:195-204 | Arrives at the following value, across part ends, or past the end |
| PartitionedSequence.Enumerator.NextGeq | include/pisa/sequence/partitioned_sequence.hpp:185-193 | Arrives at the least value at or above the bound, for every bound and every part |
| PartitionedSequence.Enumerator.SlowNextGeq | include/pisa/sequence/partitioned_sequence.hpp:256-276 | The table of upper bounds leads to the part of the least value, also when it stays put at a repeated bound |
| PartitionedSequence.Enumerator.PrevValue | include/pisa/sequence/partitioned_sequence.hpp:208-214 | The value before the current one, also across a part boundary; 0 before the first |
| PartitionedSequence.Enumerator.ValueIs | include/pisa/sequence/partitioned_sequence.hpp:170-181 | Base plus the part entry is the value of the sequence; past the end it is the universe |
| PartitionedSequence.LeastInPart | include/pisa/sequence/partitioned_sequence.hpp:187-191 | The least entry of the part that spans the bound is the least value of the whole sequence |
| OptimalPartition.Partition | include/pisa/optimal_partition.hpp:56-118 | Endpoints rise strictly to the end, also for eps1 = 0. Unless a single part was kept they are parts the windows tried and cost less than a single part, and no chain of parts the windows tried costs less than what was kept, for any cost function |
| OptimalPartition.ChainCosts | include/pisa/optimal_partition.hpp:79-108 | The cost recorded for the end is at most that of every chain of parts the windows tried |
| OptimalPartition.LadderUnique | include/pisa/optimal_partition.hpp:65-75 | The window bounds, cut to whole bits, are determined |
| OptimalPartition.ComputePartition | include/pisa/sequence/partitioned_sequence.hpp:330-410 | The endpoints are legal for the writer: one part when it is small, else those of consecutive superblocks of the fixed size, the last one taking up the rest, each cut into its best parts from the value where the one before ends |
| Interpolative.BitWriter.Write | include/pisa/codec/interpolative_coding.hpp:17-33 | Appending bits to 32-bit words appends them to the number the words spell |
| Interpolative.BitReader.Read | include/pisa/codec/interpolative_coding.hpp:80-97 | Reading from bytes takes the low bits off the number the remaining bytes spell |
| Interpolative.BytesValue | include/pisa/codec/block_codecs.hpp:141-143 | The bytes of the words spell the same number as the words |
| Interpolative.WriteInt | include/pisa/codec/interpolative_coding.hpp:37-52 | Appends the truncated binary code of a value among u |
| Interpolative.ReadInt | include/pisa/codec/interpolative_coding.hpp:99-112 | Reads back any value written among u and stops right behind its code |
| Interpolative.WriteInterpolative | include/pisa/codec/interpolative_coding.hpp:54-66 | Appends the codes of non-decreasing values, the middle one first, then each half between tighter bounds, whenever the 32-bit counts of candidates do not wrap |
| Interpolative.ReadInterpolative | include/pisa/codec/interpolative_coding.hpp:114-133 | Reads back the values written, whatever follows, and stops right behind them |
| Interpolative.CountsFitIff | include/pisa/codec/interpolative_coding.hpp:54-66 | Every number written is among the candidates counted in 32 bits if and only if there is nothing to write or the bounds leave one of 2^32 numbers out |
| Interpolative.BlockOkIff | include/pisa/codec/block_codecs.hpp:126-145 | Beside size, 32-bit totals and the announced sum a block needs nothing but counts that do not wrap |
| Interpolative.LargestSumDoesNotFit | include/pisa/codec/interpolative_coding.hpp:63-63 | For the block 0, 2^32 - 1 the count of candidates is 0 |
| Interpolative.VariableByteIs | include/pisa/codec/block_codecs.hpp:33-81 | The five cases of the encoder produce seven bits a byte, low ones first, the last byte marked |
| Interpolative.DecodeVariableByte | include/pisa/codec/block_codecs.hpp:91-106 | Decodes the number encoded at a position and stops right behind it |
| Interpolative.EncodeBlock | include/pisa/codec/block_codecs.hpp:126-145 | The bytes encode the block, with its sum in front when the reader will not know it |
| Interpolative.DecodeBlock | include/pisa/codec/block_codecs.hpp:147-169 | Decoding an encoded block followed by anything gives back its values and ends exactly at its end |
| BlockPostingList.Write | include/pisa/block_posting_list.hpp:13-50 | The bytes store both lists: length, true block maxima, endpoints and encoded blocks, as long as endpoints fit 32 bits |
| BlockPostingList.WriteBlocks | include/pisa/block_posting_list.hpp:53-78 | Storing the blocks in any order that keeps the first one first stores the same lists, as long as endpoints fit 32 bits |
| BlockPostingList.GapsTotal | include/pisa/block_posting_list.hpp:42-43 | The gaps of a block add up to what its maximum leaves over, so the reader knows their sum |
| BlockPostingList.DocumentEnumerator.constructor | include/pisa/block_posting_list.hpp:82-97 | Opening stored lists gives a cursor at the first document |
| BlockPostingList.DocumentEnumerator.Reset | include/pisa/block_posting_list.hpp:99-99 | Goes back to the first document from anywhere, also from past the end |
| BlockPostingList.DocumentEnumerator.DecodeDocsBlock | include/pisa/block_posting_list.hpp:284-309 | Decoding a block puts the cursor on its first document |
| BlockPostingList.DocumentEnumerator.Next | include/pisa/block_posting_list.hpp:101-113 | Goes to the document with the next index, across block ends, or past the end |
| BlockPostingList.DocumentEnumerator.NextGeq | include/pisa/block_posting_list.hpp:140-162 | Goes to the first document at or past the bound from here on, or past the end if there is none; past the end it stays, unless the bound lies past the block it stopped in and not past the list |
| BlockPostingList.DocumentEnumerator.GlobalGeq | include/pisa/block_posting_list.hpp:117-138 | Goes to the first document of the whole list at or past the bound, also backwards, or past the end |
| BlockPostingList.DocumentEnumerator.Move | include/pisa/block_posting_list.hpp:164-174 | Goes to the document with the given index |
| BlockPostingList.DocumentEnumerator.Freq | include/pisa/block_posting_list.hpp:178-184 | Returns the frequency of the current document, decoding the block only when asked, and moves nothing |
| Inversion.InvertedIndex.Apply | include/pisa/invert.hpp:121-148 | Adding a sorted range to an index gives the index of all postings together |
| Inversion.InvertedIndex.Join | include/pisa/invert.hpp:150-168 | Joining two indexes gives the index of all postings together, whichever of the two comes first for a term |
| Inversion.JoinedList | include/pisa/invert.hpp:87-101 | Joining two lists of a term gives the list of all postings; a document at both ends gets the sum of its frequencies |
| Inversion.Reduce | include/pisa/invert.hpp:233-233 | Any way of splitting, continuing and joining ends with the index of the whole range |
| Inversion.IndexUnique | include/pisa/invert.hpp:121-168 | Two indexes of the same postings are equal, whatever the order of work |
| Inversion.MapToPostings | include/pisa/invert.hpp:74-85 | One posting for every occurrence of a term, in document order |
| Inversion.MapInBatches | include/pisa/invert.hpp:206-225 | Mapping in one batch per thread and concatenating gives the same postings for every number of threads |
| Inversion.InvertRange | include/pisa/invert.hpp:196-236 | The result is the index of the documents, for every number of threads and every plan |
| Inversion.BuildBatches | include/pisa/invert.hpp:238-265 | Consecutive batches of the given size, the last one possibly smaller, each with the index of its own documents, together all of the collection |
| Inversion.MergeTerm | include/pisa/invert.hpp:302-314 | Concatenating the lists of a term over the batches gives its list over the whole collection |
| Inversion.MergeBatches | include/pisa/invert.hpp:267-338 | All lists are merged if and only if every term occurs; the first missing term is reported, and a size mismatch never arises |
| Inversion.InvertForwardIndex | include/pisa/invert.hpp:340-365 | Inverting in batches gives the merged lists of the whole collection |
| Inversion.OutcomeUnique | include/pisa/invert.hpp:340-365 | Two runs with different batch sizes, threads and plans agree completely |
| SemiasyncQueue.SemiasyncQueue.AddJob | include/pisa/util/semiasync_queue.hpp:35-48 | When the works of the waiting jobs and this one, cut to whole units at each addition, reach what a thread is worth, exactly one new thread takes all of them and nothing waits, and the oldest thread is committed only if all were in use; otherwise the job waits and no thread is started or committed. Without threads the job is done at once |
| SemiasyncQueue.SemiasyncQueue.Complete | include/pisa/util/semiasync_queue.hpp:50-58 | Returns with every job committed once, in the order of addition, and nothing pending |
| SemiasyncQueue.SemiasyncQueue.CommitThread | include/pisa/util/semiasync_queue.hpp:80-89 | Joins the oldest thread, whose jobs commit in order after their own preparation, and removes it; the others stay |
| SemiasyncQueue.SemiasyncQueue.SpawnNextThread | include/pisa/util/semiasync_queue.hpp:61-78 | One new thread gets exactly the waiting jobs; the oldest is committed first if and only if all were in use |
| SemiasyncQueue.SemiasyncQueue.Workers | include/pisa/util/semiasync_queue.hpp:71-75 | Any number of steps of any workers at any moment keeps all invariants |
| SemiasyncQueue.SemiasyncQueue.JoinFront | include/pisa/util/semiasync_queue.hpp:83-83 | Waiting for the oldest thread ends, and it has prepared all its jobs |
| SemiasyncQueue.CommittedOnce | include/pisa/util/semiasync_queue.hpp:80-89 | If the commits of a log are 0, 1, 2, ... then no job is committed twice |
| SemiasyncQueue.NotYetPrepared | include/pisa/util/semiasync_queue.hpp:71-75 | The next job of a worker has not been prepared by any worker before |

## Left out

Query side:

- Rounding of floating-point scores, and the scorer formulas: scores are arbitrary non-negative reals.
- The internals of `std::sort` and the heap operations of the standard library: they are modelled by what they promise, so ties are broken arbitrarily.
- Class hierarchy of cursors: one cursor class with list, block and range bounds stands for all of them, over the decoded list; its `next_geq` promises what `BlockPostingList.DocumentEnumerator.NextGeq` promises for the bounds queries ask for.
- Queues for 0 results: `insert` is undefined for k = 0 in the code.
- Negative initial thresholds in disjunctive queries: with them, documents of total 0 would have to be found.
- Wand.Traverse: for an interval that ends past the number of documents nothing is promised, because the code then may score an exhausted cursor; `RangesSafeIff` is the exact condition.
- BlockMaxWand.Traverse: for an interval that ends past the number of documents nothing is promised, for the same reason.
- MaxScore.RunRange: for an interval that ends past the number of documents nothing is promised, for the same reason.
- RangeQueries.VisitRange: for ranges that end past the number of documents nothing is promised, for the same reason.
- RangeQueries.VisitUnlessDead: for ranges that end past the number of documents nothing is promised, for the same reason.
- RangeQueries.OrderedRangeQuery: for ranges that end past the number of documents nothing is promised, for the same reason.
- RangeQueries.BoundSumQuery: for ranges that end past the number of documents nothing is promised, for the same reason.
- TopK.TopkQueue.SetThreshold: stated for an empty queue only, which is how the query tools use it.
- RangeQueries.BoundSumTimeoutQuery: the clock is an arbitrary function of the number of ranges visited, real time is not modelled; and for ranges that end past the number of documents nothing is promised.
- The second check for a dead range inside the WAND BoundSum loop, which repeats the one before it.
- `or_query`, `and_query`, the fixed-range `range_query` wrappers and term-at-a-time accumulators: no pruning, nothing hard.

Upper bounds:

- Compressed and quantised WAND data: the compressed form refuses clusters, and quantisation only rounds the same maxima.
- Dropped terms, term statistics, progress output and files.
- Empty posting lists: building upper bounds for one is undefined in the code.
- `element_count`, `errors`, `universe()` and the reported total of the score-optimal partition: unused by its callers.
- ScoreOptPartition.Partition: cheapest among the chains of blocks the windows admit, but no (1 + eps) approximation guarantee over all chains; the windows carried from node to node do not give one.
- OptimalPartition.Partition: cheapest among the chains of parts the windows tried, but no (1 + eps) approximation guarantee over all chains, for the same reason, and no optimality over all chains for eps1 = 0.
- WandData.BuiltCursorsAreReady: boundaries must rise and end at the number of documents; `RangesMapIff`, `ClustersRiseIff` and `RangesSafeIffLastFits` say what each of these is needed for.

Sequences:

- 64-bit words below bit vectors: broadword select and popcount, prefetching and unaligned word access are specified as select, count and bit slice of a sequence of bits; fields are not limited to 56 bits.
- RankedBitvector.Write: values lie below the universe, as its callers guarantee; the code's assertion would also let a value equal the universe, whose bit lies outside the bit array (`BitInside`).
- IndexedSequence.Enumerator.NextGeq: bounds above the universe of a sequence that fills it are left out; there the position returned is no position (`FullLeast`).
- PartitionedSequence.Open: nothing is promised for a single part whose last entry the reader cannot keep; `SingleSeenIff` is the exact condition.
- PartitionedSequence.Write: the endpoints are a parameter, produced by OptimalPartition.ComputePartition; the representation of each part must take fewer than 2^64 - 1 bits, the number the code uses for an impossible one.
- Numbers of 64 bits wrapping around in positions and sizes.
- Uniform partitioned and strict Elias-Fano sequences: near copies.
- Positive sequences and frequency sequences on top of them.

Posting lists:

- Codecs other than the interpolative one: external or SIMD code.
- BlockPostingList.Write: the encoded blocks must take less than 2^32 bytes, since endpoints are 32-bit; the table is assembled from separate word vectors instead of being patched in place, with the same bytes.
- BlockPostingList.DocumentEnumerator.Next: past the end the code keeps an old position, so `next`, `move` and `freq` are not legal there until `reset`, `global_geq` or a `next_geq` that comes back.
- Interpolative.ReadInterpolative: returns the values instead of filling a caller's buffer; nothing is promised when counts of candidates wrap (`CountsFitIff`).
- Interpolative.WriteInterpolative: nothing is promised when counts of candidates wrap.
- Interpolative.EncodeBlock: several values with the largest 32-bit sum are left out (`BlockOkIff`).
- Interpolative.DecodeBlock: several values with the largest 32-bit sum are left out.
- Interpolative.BitWriter.Write: bits are added above the last one written, which is what the code's `or` and shift amount to.
- Big-endian hosts, profiling counters, `get_blocks` and statistics.

Construction:

- Inversion.InvertedIndex.Join: the contents of the index that was moved from are left unspecified; document sizes and file output are not modelled.
- Overflow of 32-bit frequencies and of document identifiers.
- SemiasyncQueue.SemiasyncQueue.AddJob: works are not negative; the estimate is cut to whole units at each addition, as in the code.
- SemiasyncQueue.SemiasyncQueue.Workers: a worker's preparation is one step, taken between two actions of the main thread; exceptions on the main thread are not modelled.
- Parsing, stemming, document reordering, command-line tools, file mapping and logging.
