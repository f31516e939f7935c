# Cordage in Dafny

Cordage is a map-reduce aggregation engine: it cuts a delimited file into newline-aligned
chunks, parses the chunks into typed rows in columnar batches, folds the rows into an
open-addressing table of running groups, and merges tables that were filled separately, by
goroutines of one process or by worker processes. This project models that chain, from the
bytes of a file to the sorted report, and proves that

- the group table refines a map under any hash function, across probing, growth and the
  merging of tables that hash with different seeds;
- however rows are folded in and partial results merged, the result represents exactly those rows:
  keys, counts, int64 sums, extremes and sketches are determined, *whatever the division, bracketing
  or order*;
- float sums are rounded as IEEE 754 prescribes, and so depend on that order in their last bits: each
  is the sum of exactly its group's column in some order, and where columns add up without rounding,
  and no percentile is asked for, the groups are equal;
- a percentile's t-digest depends on that order, but after any of it weighs exactly the numbers of
  its group's column, keeps at most 99 centroids, and estimates percentiles between their extremes;
- no goroutine overwrites a pooled batch that another one holds, so no run loses, repeats or invents
  a row: chunking splits no line, and *the parallel and the distributed executions give the single
  reader's answer*, up to that dependence on order, in every interleaving of their goroutines or calls;
- a report has exactly one group for every key, in ascending order, and each entry is the value of its
  function on its column of the rows with that key; a file written from a table, with any quoting
  and line ends, is reported as that table;
- reports of one file agree line by line, but for percentiles and the rounding of float sums and
  averages, unless two keys tie;
- the query parser accepts exactly its grammar, inverts printing, and reports errors at the first token
  that no query could have there.

Two ideas run through it. Each mutable object of the engine is a class whose methods are proved
against a value: an aggregator against the map `View()`, a digest against `State()`, a line reader
against `LinesOf` the bytes it has left. The concurrent parts are step systems (`Pipeline`,
`Coordination`): a step is one atomic action of one goroutine, a run is any list of possible
steps, and invariants are carried over whole runs.

## Modules

Each module is in the file of its name.

| modules | about |
|---|---|
| Words, Floats, Values, Sequences | wrapping int64, float64 bit patterns, tagged values and columns, sequence lemmas |
| Rounding, Summations, Averages | float64 addition, division and conversion, sums in any order, averages of integers |
| Clustering, Quantiles, Digests, TDigests | greedy clustering, interpolation, the t-digest as a value and as an object |
| HyperLogLogs, Accumulators, Groups | distinct-count sketches, one measure, groups and maps of groups |
| Representations, Histories | what a map of groups says about its rows, after any adds, merges and reports |
| GroupKeys, GroupAccums, GroupTables | key encoding and comparison, the groups on the heap, the probing table |
| States, Snapshots, Aggregators | snapshots as values and on the heap, the aggregator object |
| Lines, Chunks, Fields | lines, chunk planning and alignment, field splitting |
| Rows, ColumnBatches, Ingest | line reader and parser, batches and their pool, the drain loop |
| Pipeline, Completeness, Liveness | the concurrent run of one process: ownership, conservation and blame, termination |
| Jobs, Shards, Parallel, ParallelRuns | the single reader, the pieces of a file, the parallel answer, real workers |
| Distribution, Coordination | workers and merging, the coordinator's calls |
| Outputs, KeyOrders, Results, Reports | reported values, the order of keys, the sorted report, what it says entry by entry |
| Tables, EndToEnd | writing and reading back a table, from file to report in three ways |
| Lexer, Queries, QueryErrors | the query language, and where its errors are reported |

## Where the code and its comments part

- `encodeGroupKey` says that no two distinct tuples encode to the same bytes. That holds for
  tuples of one vector of column types (`EncodingIsInjective`), which is all a table ever compares,
  and for no two different vectors of one length (`EncodingSeparatesOneTypeVector`,
  `EncodingIsAmbiguousAcrossTypes`).
- `AlignChunks` says that every chunk but the first starts just after a newline. An empty chunk at
  the end of a file need not: a later chunk does exactly when there is a newline after the naive
  cut before it or the file ends in one (`StartsAfterNewline`, `SomeChunkFollowsNoNewline`). No
  line is split either way.
- A source that is read in several chunks reports no error when it was cancelled from outside,
  although rows may be missing; one reader of a whole source, the default, does report it. So success
  can be trusted, cancellations included, exactly if one reader read the source or it holds no row
  (`SuccessCanBeTrusted`, `OutsideCancellationLosesRows`). Without a cancellation from outside, a run
  reports success exactly when nothing was cancelled at all (`FinishedRun`).
- Merging two accumulators is said to give what feeding every row to one would. For float sums it may
  round differently (`MergeRoundsDifferently`, `OrderMatters`). For columns of multiples of a power
  of two, the order of additions never matters exactly as long as their magnitudes add up to at most
  2^53 + 1 times that (`LimitOfExactness`); then accumulators, groups and reports are equal
  (`ExactSumsAgree`, `RepresentationsAgree`, `ReportsAgree`).
- Result order is called deterministic. It is determined by the groups exactly when no two keys
  compare equal (`ReportIsUnique`, `TieMakesAnotherReport`): grouping by a float column, the two
  zeros, or two NaNs of different bits, are separate groups that the comparison ties (`ZerosTie`);
  a file can be searched for a tie beforehand (`TieMeaning`).
- An average of int64 values is computed from their wrapped sum. It is the rounded quotient of the
  column's sum and size exactly when the sum did not overflow (`AverageMeaning`, `OverflowedAverage`).
- Two aggregators built from one spec are taken to be mergeable. A spec that asks for the NaN
  percentile does not equal itself, so merging two such aggregators fails (`SpecMatchesItself`,
  `NaNSpecDiffers`, `MergeAll`).

## Model

| member | source | states |
|---|---|---|
| Words.AddI64Laws | internal/aggregate/accumulator.go:56-59 | int64 sums wrap, and wrapping addition is commutative and associative, so running sums do not depend on order |
| Words.MaskIsRemainder | internal/aggregate/grouptable.go:34-36 | masking with capacity - 1 is the remainder, for power-of-two capacities |
| Floats.MinIsOrderIndependent | internal/aggregate/accumulator.go:71-79 | the running float minimum does not depend on arrival order or bracketing, with NaN, infinities and signed zeros |
| Floats.MaxIsOrderIndependent | internal/aggregate/accumulator.go:106-121 | the same for the maximum |
| Floats.RankIsValueOrder | internal/aggregate/result.go:93-107 | comparing bit patterns by sign and magnitude is comparing the values they denote, the infinities at the two ends |
| Floats.CompareTies | internal/aggregate/result.go:93-107 | the float comparison ties two different patterns only if both are NaN or both are zero |
| Floats.OrderIsValueOrder | internal/aggregate/accumulator.go:71-79 | the order that extremes go by is that of the values, -0 below +0 |
| Rounding.RoundIsNearest | internal/aggregate/accumulator.go:71-72 | rounding gives the pattern nearest to an exact quotient among all patterns, and of two equally near the even one |
| Rounding.RoundsAbove | internal/aggregate/accumulator.go:71-72 | rounding passes a pattern exactly where the quotient passes the middle between it and the next, or meets it and the pattern is odd; for the last finite pattern, this is when it overflows |
| Rounding.RoundIsExact | internal/aggregate/accumulator.go:71-72 | a value that has a pattern is not changed by rounding |
| Rounding.PlusIsNearest | internal/aggregate/accumulator.go:71-72 | a finite float sum is the number nearest to the exact one, ties to even |
| Rounding.PlusSpecials | internal/aggregate/accumulator.go:71-72 | exactly when a sum is NaN, which infinity it is and when it overflows to one, and when it is a negative zero |
| Rounding.DivideIsNearest | internal/aggregate/result.go:66-71 | so is a quotient, signs aside |
| Rounding.DivideSpecials | internal/aggregate/result.go:66-71 | exactly when a quotient is NaN, infinite or zero, and its sign |
| Rounding.FromIntIsNearest | internal/aggregate/accumulator.go:86-90 | so is the conversion of an int64 |
| Rounding.FromIntIsExact | internal/aggregate/accumulator.go:86-90 | integers of up to 53 bits convert exactly |
| Averages.OneIsOne | internal/aggregate/accumulator.go:86-90 | the integer one converts to the pattern 0x3FF0000000000000 |
| Summations.OrderMatters | internal/aggregate/accumulator.go:94-104 | at every scale there are three numbers that add up to different sums in different orders |
| Summations.ExactSumsAgree | internal/aggregate/accumulator.go:94-104 | where no partial sum needs rounding, all arrangements of additions give one pattern, that of the exact sum |
| Summations.LimitOfExactness | internal/aggregate/accumulator.go:94-104 | for multiples of 2^k units, one sum for every column of magnitude up to b steps, if and only if b is at most 2^53 + 1 |
| Averages.OverflowChangesMean | internal/aggregate/result.go:66-71 | the average computed from a wrapped sum is that of the true sum if and only if the sum fits in an int64 |
| Values.SpecMatchesItself | internal/aggregate/aggregator.go:280-310 | a spec equals itself exactly when it asks for no NaN percentile |
| Values.SpecsEqualMeaning | internal/aggregate/aggregator.go:280-310 | two specs match if and only if they are the same up to the signs of zero quantiles, columns and their order included, and no quantile is NaN |
| Values.NaNSpecDiffers | internal/aggregate/spec.go:125-137 | a spec that does not equal itself |
| Values.DistributableMeaning | internal/aggregate/state.go:97-110 | a spec can be distributed exactly when it asks for no percentile |
| Values.EqualSpecsWantTheSame | internal/aggregate/aggregator.go:280-310 | specs that compare equal want sketches and digests for the same measures |
| HyperLogLogs.RhoMeaning | internal/aggregate/hyperloglog.go:71-81 | the first rho - 1 of the low 50 bits are zero and the next is one; rho is 65, and not 51, exactly when all 50 are zero |
| HyperLogLogs.BucketMeaning | internal/aggregate/hyperloglog.go:75-75 | a hash goes to register j exactly when it lies in that interval |
| HyperLogLogs.SketchMeaning | internal/aggregate/hyperloglog.go:71-81 | after any adds, register j is the largest rho among the hashes from j * 2^50 up to below (j + 1) * 2^50, or 0 |
| HyperLogLogs.SketchDependsOnSet | internal/aggregate/hyperloglog.go:108-117 | the set of hashes determines every register: neither order nor repetition matters |
| HyperLogLogs.UnionIsSketchOfBoth | internal/aggregate/hyperloglog.go:108-117 | merging two sketches is sketching all their hashes |
| HyperLogLogs.HyperLogLog.AddValue | internal/aggregate/hyperloglog.go:74-81 | the in-place update of one register is the sketch's add |
| HyperLogLogs.Merge | internal/aggregate/hyperloglog.go:111-117 | the merge loop computes the union in a fresh sketch and leaves both arguments alone |
| Accumulators.NumbersMeaning | internal/aggregate/accumulator.go:56-80 | an accumulator holds the sum (modulo 2^64 for int64, in some order of rounded additions for floats) and the least and greatest value of what was added |
| Accumulators.SampleMeaning | internal/aggregate/accumulator.go:85-91 | a digest is offered the exact value of every finite float, NaN and infinities as such, and of every int64 the nearest float, which up to 53 bits is the integer itself |
| Accumulators.AccumulateMeaning | internal/aggregate/accumulator.go:56-92 | a measure fed a column holds that summary, the sketch of its values' hashes, and a digest that describes exactly the numbers among them, NaN skipped |
| Accumulators.AddValueCommutes | internal/aggregate/accumulator.go:56-92 | adding two values in either order leaves the same accumulator, but for the state of a digest and the rounding of a float sum |
| Accumulators.MergeThenAdd | internal/aggregate/accumulator.go:94-136 | adding to the right-hand side of a merge is adding to the merge, with the same exceptions |
| Accumulators.MergedMeasure | internal/aggregate/accumulator.go:94-136 | merging the measures of two columns gives a measure of their concatenation, digest and float sum included |
| Accumulators.MergeRoundsDifferently | internal/aggregate/accumulator.go:94-104 | two float columns whose merged sum is not the sum of one accumulator fed both |
| Accumulators.MeasureAnyOrder | internal/aggregate/accumulator.go:16-23 | what a measure says of a column does not depend on the order of its values |
| Representations.GroupByMeaning | internal/aggregate/aggregator.go:98-182 | a key has a group exactly when some row has it, and each group counts and accumulates exactly the rows with its key |
| Representations.MergeRepresents | internal/aggregate/aggregator.go:255-278 | for every spec, merging the aggregates of two row lists gives an aggregate of both |
| Representations.RepresentsAnyOrder | internal/aggregate/parallel.go:9-13 | an aggregate of some rows is one of the same rows in any order |
| Representations.RepresentationsAgree | internal/aggregate/accumulator.go:94-96 | two aggregates of the same rows agree but for the states of digests and the rounding of float sums, and are equal if no percentile is asked for and no float sum of a group needs rounding |
| Representations.NoFloatsAreDetermined | internal/aggregate/accumulator.go:10-13 | measuring strings and int64 columns alone meets that condition |
| Representations.SettledRepresents | internal/aggregate/tdigest.go:150-158 | an aggregate of some rows is still one after a report flushed its digests |
| Representations.MergeIsGroupByOfBoth | internal/aggregate/aggregator.go:255-278 | under the same condition, merging the groups of two row lists gives the groups of their concatenation |
| Representations.GroupByDependsOnMultiset | internal/aggregate/parallel.go:9-13 | under the same condition, the groups depend only on which rows there are, not on their order |
| Histories.HistoryMeaning | internal/aggregate/aggregator.go:15-20 | after any tree of adds, merges and reports the map is an aggregate of exactly the rows taken in |
| Histories.HistoriesAgree | internal/aggregate/tdigest.go:194-197 | two histories of the same rows differ at most in the states of digests and the rounding of float sums, and not at all under the condition above |
| Histories.PercentilesMeaning | internal/aggregate/tdigest.go:20-31 | after any history each group's digest weighs exactly the numbers of its column, keeps at most 99 centroids, and estimates nondecreasing quantiles between their extremes; NaN exactly of none |
| GroupKeys.DimsEqual | internal/aggregate/grouptable.go:128-156 | the comparison loop decides equality of tuples, floats by bit pattern |
| GroupKeys.EncodeGroupKey | internal/aggregate/accumulator.go:170-184 | the appending loop produces the encoding of the tuple |
| GroupKeys.EncodePrefixFree | internal/aggregate/accumulator.go:164-169 | for one vector of types, encodings with any continuation are equal only if the tuples are |
| GroupKeys.EncodingIsInjective | internal/aggregate/accumulator.go:164-169 | equal encodings of tuples of the same types mean equal tuples |
| GroupKeys.EncodingIsAmbiguousAcrossTypes | internal/aggregate/accumulator.go:164-169 | two tuples of different types with one encoding |
| GroupKeys.EncodingSeparatesOneTypeVector | internal/aggregate/accumulator.go:164-169 | for type vectors of one length, encodings tell all tuples apart exactly when the two vectors are the same |
| GroupTables.HomeIsRemainder | internal/aggregate/grouptable.go:34-36 | a probe starts at the hash modulo the capacity |
| GroupTables.Layout.SomeGap | internal/aggregate/grouptable.go:66-79 | a table within its load bound has an empty slot, so every probe ends |
| GroupTables.Layout.GapMeansAbsent | internal/aggregate/grouptable.go:81-91 | a probe that reaches an empty slot has proved the key absent, whatever the hashes |
| GroupTables.Layout.PutKeepsGood | internal/aggregate/grouptable.go:71-78 | filling the first gap of a probe chain keeps every group reachable and adds just that one |
| GroupTables.GroupTable.constructor | internal/aggregate/grouptable.go:25-32 | a new table is well formed and stands for the empty map |
| GroupTables.GroupTable.FindByString | internal/aggregate/grouptable.go:81-91 | returns the group stored under that one string, or not found, for any hash function |
| GroupTables.GroupTable.FindByI64 | internal/aggregate/grouptable.go:93-103 | the same for one int64 |
| GroupTables.GroupTable.FindByF64 | internal/aggregate/grouptable.go:105-116 | the same for one float64 bit pattern |
| GroupTables.GroupTable.FindByDims | internal/aggregate/grouptable.go:118-126 | the same for any tuple |
| GroupTables.GroupTable.Place | internal/aggregate/grouptable.go:70-78 | the insertion probe ends and adds exactly the given group |
| GroupTables.GroupTable.Grow | internal/aggregate/grouptable.go:38-61 | doubling and reinserting by cached hash leaves the map unchanged |
| GroupTables.GroupTable.Reinsert | internal/aggregate/grouptable.go:48-60 | the reinsertion loop moves every group across |
| GroupTables.GroupTable.InsertNew | internal/aggregate/grouptable.go:63-79 | the map gains the new group under its key, growing first when needed |
| States.SnapshotRoundTrip | internal/aggregate/state.go:59-86 | without percentiles, a group survives the trip into a snapshot and back |
| States.MergeStatesIsMergeMaps | internal/aggregate/state.go:88-129 | folding an exported list of snapshots is merging the map it came from; into an empty aggregator it reproduces it |
| Aggregators.Aggregator.constructor | internal/aggregate/aggregator.go:85-95 | a new aggregator holds no groups |
| GroupAccums.AddToMeasureAccum | internal/aggregate/accumulator.go:56-92 | one value changes the measure's sketch and digest in place, as the value-level add does |
| GroupAccums.MergeMeasureAccums | internal/aggregate/accumulator.go:97-136 | merging makes a new sketch, reuses the left digest and flushes the right one |
| GroupAccums.GroupAccum.AddMeasures | internal/aggregate/aggregator.go:177-182 | one row is folded into every measure of its group, and the group keeps its objects |
| GroupAccums.GroupAccum.Merge | internal/aggregate/accumulator.go:153-158 | counts and measures are merged in place; the group gains only new objects |
| GroupAccums.AddRowTo | internal/aggregate/aggregator.go:177-182 | folding into one group leaves every other group of the table alone |
| Aggregators.Aggregator.FoldRow | internal/aggregate/aggregator.go:118-123 | find or insert, then fold: the map changes at one key |
| Aggregators.Aggregator.AddByString | internal/aggregate/aggregator.go:114-125 | the string fast path folds all rows of the batch |
| Aggregators.Aggregator.AddByInt | internal/aggregate/aggregator.go:126-137 | the int64 fast path computes the same map |
| Aggregators.Aggregator.AddByFloat | internal/aggregate/aggregator.go:138-155 | the float64 fast path computes the same map |
| Aggregators.Aggregator.AddByTuple | internal/aggregate/aggregator.go:158-174 | so does the generic path |
| Aggregators.Aggregator.AddBatch | internal/aggregate/aggregator.go:98-175 | the map after a batch is the rows folded in order; a batch of another width is refused and changes nothing |
| Aggregators.Aggregator.HashKey | internal/aggregate/aggregator.go:184-201 | re-derives the hash that the lookups of this aggregator use |
| Aggregators.Aggregator.FindByKey | internal/aggregate/aggregator.go:203-215 | finds the group of a key of any shape |
| GroupAccums.MergeGroupInto | internal/aggregate/accumulator.go:153-158 | merging into one group leaves every other group of the table alone |
| Aggregators.Aggregator.Absorb | internal/aggregate/aggregator.go:269-276 | another table's group is merged into its match, or its object is taken over |
| Aggregators.Aggregator.Merge | internal/aggregate/aggregator.go:255-278 | under any two seeds the result is the pointwise merge; mismatched specs or types change nothing |
| Snapshots.Snapshot | internal/aggregate/state.go:59-86 | a snapshot holds the group's state in arrays of its own |
| Snapshots.Restore | internal/aggregate/state.go:131-182 | builds a new group, with its own registers, exactly from snapshots of the expected arity and types |
| Aggregators.Aggregator.ExportState | internal/aggregate/state.go:45-57 | the snapshots list every group exactly once, in new arrays |
| Aggregators.ExportThenAdd | internal/aggregate/state.go:17-19 | rows added after an export change nothing in the snapshots, and the aggregator never holds their arrays |
| Aggregators.ExportThenMerge | internal/aggregate/state.go:48-50 | nor does a merge |
| Aggregators.Aggregator.MergeState | internal/aggregate/state.go:88-129 | all or nothing: a percentile measure or any malformed snapshot leaves the map unchanged, a good list is folded, repeated keys included |
| Clustering.JoinIsWeightedMean | internal/aggregate/tdigest.go:117-119 | joining a point keeps weight and weighted sum and stays between the two means |
| Clustering.ClusterMeaning | internal/aggregate/tdigest.go:86-129 | one pass keeps weight and weighted sum, gives sorted centroids within the points' range, and fewer than delta/2 disjoint pairs of them |
| Clustering.ClusteringIsCluster | internal/aggregate/tdigest.go:105-128 | centroids are those of a pass if and only if they are the weighted means of consecutive runs of the points, over each of which, if of several points, the scale rises by at most 1, and with the next point by more |
| Clustering.CentroidsExceedOne | internal/aggregate/tdigest.go:105-127 | from the share of the weight where one centroid starts to that where the next ends, the scale rises by more than 1 |
| Clustering.AtMostNinetyNine | internal/aggregate/tdigest.go:8-11 | at the default compression a pass never makes more than 99 centroids |
| Quantiles.AtRankMonotone | internal/aggregate/tdigest.go:159-191 | interpolation never decreases in the rank and goes from the minimum to the maximum |
| Quantiles.AtMidpoint | internal/aggregate/tdigest.go:165-183 | at a centroid's midpoint rank the interpolated value is its mean |
| Quantiles.QuantileMeaning | internal/aggregate/tdigest.go:146-192 | quantiles over [0,1] are nondecreasing and within the extremes, reaching both with two centroids or more |
| Quantiles.QuantilePieces | internal/aggregate/tdigest.go:150-192 | NaN of no centroid, the mean of a lone one; of more, the value rises in proportion to the rank from the minimum to the first mean, from mean to mean between midpoints, and on to the maximum |
| Quantiles.QuantileAtMidpoint | internal/aggregate/tdigest.go:165-183 | the quantile at the share of a centroid's midpoint is its mean |
| Quantiles.MidpointMeaning | internal/aggregate/tdigest.go:174-183 | a midpoint has the weight before the centroid and half its own below it |
| Digests.AddedSummarises | internal/aggregate/tdigest.go:44-65 | a digest of some numbers, given one more, conserves weight and weighted sum, keeps exact extremes, sorted centroids and at most 99 of them; NaN changes nothing |
| Digests.CompressedSummarises | internal/aggregate/tdigest.go:75-129 | so does compressing, which empties the buffer |
| Digests.CompressedMeaning | internal/aggregate/tdigest.go:75-129 | compressing makes that clustering of all centroids and buffered values in order of mean |
| Digests.MergedSummarises | internal/aggregate/tdigest.go:194-213 | merging two digests gives a digest of the numbers of both |
| Digests.DescribesAnyOrder | internal/aggregate/tdigest.go:26-31 | what a digest says of some samples does not depend on their order |
| Digests.NumbersInMeaning | internal/aggregate/tdigest.go:51-54 | every number counts as often as it was offered; NaN does not count |
| Digests.EstimateMeaning | internal/aggregate/tdigest.go:146-192 | estimates are NaN exactly of no numbers, else nondecreasing between the least and the greatest |
| Digests.EstimatePieces | internal/aggregate/tdigest.go:146-192 | the estimate at quantile q is read off the flushed centroids at rank q times their weight |
| Digests.FlushedIsRead | internal/aggregate/tdigest.go:146-192 | which is q times how many numbers were offered |
| TDigests.TDigest.AddValue | internal/aggregate/tdigest.go:44-65 | the object adds as the value does, compressing when the buffer is full |
| TDigests.TDigest.Compress | internal/aggregate/tdigest.go:75-129 | centroids and buffer become the clusters of all their points in order of mean |
| TDigests.TDigest.ClusterPoints | internal/aggregate/tdigest.go:105-128 | the loop computes greedy clustering |
| TDigests.TDigest.Quantile | internal/aggregate/tdigest.go:146-192 | flushes, then reads the estimate off the centroids, also at the quantile NaN |
| TDigests.TDigest.Interpolate | internal/aggregate/tdigest.go:159-191 | the loop computes the interpolation at the target rank |
| TDigests.TDigest.Merge | internal/aggregate/tdigest.go:194-213 | flushes both, takes over centroids and extremes, and compresses |
| Lines.RawLinesMeaning | internal/ingest/parser.go:27-58 | lines are the data cut after each newline: nothing is lost, only the last may lack its terminator |
| Lines.LinesInvertPrinting | internal/ingest/parser.go:26-58 | lines written with LF or CRLF after each, the last perhaps without, are read back as they were |
| Lines.LinesSplitAtCut | internal/ingest/chunk.go:48-53 | cutting just after a newline cuts the list of lines |
| Chunks.PlanChunks | internal/ingest/chunk.go:15-42 | the naive chunks tile the file; counts below 1 mean 1, an empty file gets one empty chunk |
| Chunks.FindNextNewline | internal/ingest/chunk.go:87-117 | the windowed search finds just past the first newline, or the size, whatever the window |
| Chunks.AlignChunks | internal/ingest/chunk.go:48-85 | the aligned chunks tile the file one for one and split no line |
| Chunks.BoundaryMeaning | internal/ingest/chunk.go:65-117 | a boundary moves just past the next newline, passing none, or to the end if there is none |
| Chunks.ShardsPreserveLines | internal/ingest/chunk.go:48-56 | the chunks' line lists, joined, are the file's |
| Chunks.FirstChunkHoldsFirstLine | internal/ingest/chunk.go:54-56 | the whole first line lies in chunk 0 |
| Chunks.StartsAfterNewline | internal/ingest/chunk.go:48-51 | a later chunk starts after a newline exactly when one follows the naive cut before it or ends the file |
| Chunks.SomeChunkFollowsNoNewline | internal/ingest/chunk.go:48-51 | one that does not |
| Fields.SplitFields | internal/ingest/parser.go:60-78 | the scanning loop splits at every delimiter |
| Fields.SplitInvertsJoin | internal/ingest/parser.go:60-78 | splitting what was joined from delimiter-free fields gives the fields |
| Fields.JoinInvertsSplit | internal/ingest/parser.go:60-78 | joining what was split gives the line, from delimiter-free fields |
| Fields.ReadQuoted | internal/ingest/parser.go:90-107 | the inner loop reads the content of a quoted field, doubled quotes undone |
| Fields.SplitFieldsQuoted | internal/ingest/parser.go:80-129 | the loop computes the quoted split, or its error |
| Fields.SplitQuotedInvertsQuoting | internal/ingest/parser.go:80-84 | fields quoted where needed (and anywhere else) come back, for any delimiter but the quote |
| Fields.QuotingInvertsSplitQuoted | internal/ingest/parser.go:80-129 | conversely, every line that splits is its fields, legally quoted |
| Fields.RejectedLineIsBroken | internal/ingest/parser.go:80-129 | every line that does not holds some fields and then a quoted one that, according to the error, never closes or is followed by neither delimiter nor quote |
| Fields.SplitsAgree | internal/ingest/parser.go:80-129 | the two splits agree exactly on lines none of whose plain fields starts with a quote |
| Rows.LineReader.ReadSlice | internal/ingest/parser.go:33-41 | bytes through the newline, a full buffer, or the rest |
| Rows.LineReader.ReadRaw | internal/ingest/parser.go:30-48 | slices are gathered up to the next newline whatever the buffer size |
| Rows.LineReader.ReadLine | internal/ingest/parser.go:27-58 | yields the lines of the data one by one, independent of the buffer size |
| Rows.Format.ParseLineMeaning | internal/ingest/parser.go:140-162 | a line that prints some fields parses to a row if and only if that has the string of every string field and what the number parsers read of the others; else the error is the field count or the first number that cannot be read |
| Rows.Format.LineIsPrinted | internal/ingest/parser.go:268-281 | every line prints some fields unless its quoting is broken |
| Rows.Format.FirstBadMeaning | internal/ingest/parser.go:309-319 | every line before the first bad one parses |
| Rows.Format.GoodRowsConcat | internal/ingest/parser.go:247-251 | the good rows and bad lines of two line lists are those of their concatenation |
| ColumnBatches.AppendRow | internal/ingest/parser.go:297-307 | a whole row is appended, one value per column, and columns stay aligned |
| ColumnBatches.BatchPool.Get | internal/ingest/batch.go:56-85 | an empty batch of the schema's shape, new or recycled, which the pool no longer holds |
| ColumnBatches.BatchPool.Put | internal/ingest/batch.go:87-89 | a released batch is pooled |
| Ingest.RowParser.HandleHeader | internal/ingest/parser.go:232-245 | drops the first line once, if it is to be dropped |
| Ingest.ParseRow | internal/ingest/parser.go:268-295 | splits and parses into a scratch row; the first field that fails is the error |
| Ingest.RowParser.Next | internal/ingest/parser.go:247-319 | one line per call: its row is appended, or it is skipped and reported or failed and the batch is untouched |
| Tables.PrintedTableReads | internal/ingest/parser.go:26-58 | a file written as an optional header and a table, with any legal quoting and line ends, is read back as exactly the rows of the table |
| Ingest.BatchesMeaning | internal/ingest/ingest.go:260-306 | batching loses and reorders nothing; batches are nonempty and full but for the last |
| Ingest.NextRow | internal/ingest/ingest.go:272-276 | one turn of the drain keeps the account of rows, skips and lines |
| Ingest.DrainChunk | internal/ingest/ingest.go:260-306 | emits the good rows in batches, reports every skip, stops at the first bad line under the fail policy, and emits or returns every pooled batch |
| Pipeline.OwnersChange | internal/ingest/ingest.go:262-306 | what a step takes from one owner of a batch it gives to another |
| Pipeline.BatchesHaveOneOwner | internal/ingest/batch.go:40-46 | in every interleaving each batch has exactly one owner at every moment |
| Pipeline.HeldRowsAreUndisturbed | internal/ingest/batch.go:78-89 | with one owner each, no step changes the rows of a batch that another goroutine holds |
| Completeness.RowsAreConserved | internal/ingest/ingest.go:223-306 | from one owner each, no run makes a row appear, disappear or repeat, although pooled batches are reset and refilled |
| Completeness.SharedBatchLosesRows | internal/ingest/batch.go:78-85 | where a batch has two owners, a step can lose a row |
| Completeness.BadLinesAreConserved | internal/ingest/ingest.go:301-304 | every bad line is skipped once or still unread |
| Completeness.AlwaysSound | internal/ingest/ingest.go:231-256 | every cancellation has a reported cause or came from outside; errors cancel; workers finish after the channel closes |
| Completeness.AlwaysSized | internal/ingest/ingest.go:278-299 | from the start on, in every interleaving, batches on their way are nonempty, full but for the last of a chunk, and never over the batch size |
| Completeness.FinishedRun | internal/aggregate/parallel.go:39-66 | every finished run has all batches back in the pool once; if it reports success, and was not cancelled from outside or one reader read the source, exactly the good rows were folded and counted and the bad lines skipped |
| Completeness.NothingFoldedTwice | internal/ingest/ingest.go:223-306 | no run, finished or not, folds a row more often than the inputs hold it |
| Liveness.RunsAreBounded | internal/ingest/ingest.go:223-306 | no run goes on for ever |
| Liveness.OrdinaryRunSucceeds | internal/ingest/ingest.go:231-256 | a finished run in which nothing outside the program fails reports success exactly when bad lines are skipped or there are none |
| Liveness.FinishedRunExists | internal/aggregate/parallel.go:39-66 | for every input there is such a run |
| Liveness.OutsideCancellationLosesRows | internal/ingest/ingest.go:252-257 | for every input of several chunks and every configuration a run cancelled from outside reports success having folded nothing; rows are lost exactly if there are any |
| Liveness.SuccessCanBeTrusted | internal/ingest/ingest.go:109-119 | every run that reports success has folded exactly the good rows, cancelled or not, if and only if one reader reads the source or it holds no row |
| Liveness.NeverStuck | internal/aggregate/parallel.go:15-18 | an unfinished run can always go on, also when every worker has failed |
| Jobs.ReadSource | internal/ingest/ingest.go:205-218 | the single-goroutine path gives the batches of the whole source |
| Jobs.FoldBatches | internal/aggregate/parallel.go:43-54 | every batch received is folded, counted and released |
| Jobs.FoldSource | internal/distribute/worker_server.go:71-94 | one source folded into one aggregator, with its rows and skips; fails exactly on a bad line under the fail policy |
| Shards.PlanAligned | internal/distribute/coordinator.go:49-53 | the planned pieces divide the file between lines, the first holding the first line |
| Shards.PiecesHoldTheFile | internal/distribute/coordinator.go:22-26 | the pieces hold the file's rows and bad lines in order, the header dropped exactly once |
| Parallel.MergeNext | internal/aggregate/parallel.go:69-73 | merging one more aggregator merges its map and takes over its objects |
| Parallel.MergeAll | internal/aggregate/parallel.go:68-74 | the first aggregator ends with all maps merged in order |
| Parallel.MergedRepresents | internal/aggregate/parallel.go:68-74 | merging the workers' maps makes an aggregate of all the rows they folded |
| Parallel.MergedRows | internal/aggregate/parallel.go:68-74 | and of any arrangement of them; where order leaves no trace it is their group-by |
| ParallelRuns.FoldInto | internal/aggregate/parallel.go:43-50 | a worker folds one batch into its own aggregator and no other |
| ParallelRuns.Drain | internal/aggregate/parallel.go:39-57 | however batches are handed to workers, together they fold the rows of all of them, each counting its own; fails exactly on a batch of another width |
| ParallelRuns.RunParallel | internal/aggregate/parallel.go:9-75 | for any number of workers, hash seeds and assignment of batches, the merged aggregator is an aggregate of all rows, their group-by where order leaves no trace, and the count is their number |
| Parallel.ParallelEqualsSingle | internal/aggregate/parallel.go:9-18 | however scheduled, a successful run that was uncancelled, or had one reader, gives an aggregate of the file's rows, the single reader's row count and skips, and where order leaves no trace its groups |
| Distribution.PlanShards | internal/distribute/coordinator.go:29-65 | one shard per worker in order, only the first dropping a header; an empty file gets one shard |
| Distribution.RunShard | internal/distribute/worker_server.go:25-101 | a worker's answer lists exactly the groups, rows and skips of its content |
| Distribution.GroupByKeysTyped | internal/aggregate/state.go:135-143 | the groups of typed rows have the key types a merge expects |
| Distribution.MergeResults | internal/distribute/coordinator.go:163-181 | the answers are merged in shard order, with their totals, and refused if any is malformed |
| Distribution.DistributedEqualsSingle | internal/distribute/coordinator.go:78-86 | for every spec without percentiles, content, number of workers and hash seeds, the merged answers are an aggregate of the file's rows, with the single reader's row count and skips, and its groups where no float sum needs rounding |
| Distribution.ReadableInPieces | internal/distribute/worker_server.go:92-94 | every shard can be read exactly when the whole file can |
| Coordination.AlwaysConsistent | internal/distribute/coordinator.go:107-161 | stored results are the workers' own; an error is recorded exactly when a call failed, and cancels |
| Coordination.FirstErrorIsRecordedOnce | internal/distribute/coordinator.go:119-124 | the error recorded is that of the earliest failure, and nothing later replaces it |
| Coordination.RunsComplete | internal/distribute/coordinator.go:114-157 | a run is complete exactly when each call has had its event |
| Coordination.CompleteRun | internal/distribute/coordinator.go:157-161 | a complete run records no error if and only if no call broke and every worker succeeded; then every shard's reply is stored, whatever the order of arrival |
| Coordination.DistributedRun | internal/distribute/coordinator.go:78-86 | whatever the interleaving, a run that records no error merges to an aggregate of the file's rows, the single reader's answer where no float sum needs rounding |
| Coordination.CallWorkers | internal/distribute/coordinator.go:107-161 | called in any order, the workers' answers are filed by shard; some call fails exactly if the file cannot be read |
| Coordination.RunDistributed | internal/distribute/coordinator.go:87-182 | real workers in any order of dispatch: succeeds exactly when the spec is distributable and the file readable, and returns such an aggregate and its counts |
| KeyOrders.CompareKeys | internal/aggregate/result.go:93-113 | the loop computes the lexicographic comparison |
| KeyOrders.KeysOrderly | internal/aggregate/result.go:93-113 | the comparison is an order with ties |
| KeyOrders.KeysTie | internal/aggregate/result.go:93-96 | typed keys tie exactly when they agree up to NaN bits and the sign of zero |
| KeyOrders.CompareMeaning | internal/aggregate/result.go:93-113 | typed keys compare as less if and only if at the first column where they are not alike the first is below: a smaller integer, a proper prefix or smaller byte, NaN or a smaller float |
| Results.ReportAscends | internal/aggregate/result.go:81-91 | a listing of the groups is a report if and only if each is below or alike those after it |
| Outputs.OutputMeaning | internal/aggregate/result.go:43-79 | in any aggregate of some rows, each reported sum, minimum, maximum, average, register of a distinct count and percentile is that of the rows with that key, float sums in some order of additions |
| Outputs.PercentileAnswer | internal/aggregate/result.go:74-75 | a reported percentile is read at its rank off a digest that summarises exactly the numbers of the column, and from the 0th to the 100th lies between their extremes |
| Outputs.QuantileForIsNearest | internal/aggregate/result.go:74-75 | the quantile read is the float nearest to a hundredth of the percentile |
| Outputs.AverageMeaning | internal/aggregate/result.go:66-71 | the average of integers reported is the rounded quotient of the column's sum and size exactly when the sum did not overflow |
| Outputs.OverflowedAverage | internal/aggregate/result.go:66-71 | two values whose reported average is another number |
| Outputs.QuantilesRise | internal/aggregate/result.go:74-75 | percentiles between 0 and 100, divided by 100 with rounding, are quantiles between 0 and 1 in the same order |
| Outputs.PercentileMeaning | internal/aggregate/result.go:74-75 | a reported percentile lies between the least and the greatest number of the group's column and rises with the percentile asked for; NaN exactly of no numbers |
| Outputs.SettledOutput | internal/aggregate/result.go:74-75 | flushing a digest changes no output |
| Results.ReportGroup | internal/aggregate/aggregator.go:235-245 | every function of every measure is computed in order, and the group's digests are left flushed |
| Results.Report | internal/aggregate/aggregator.go:230-253 | lists every group exactly once, in key order; the aggregator is left with its digests flushed and otherwise as it was |
| Reports.RowsWithKeyMeaning | internal/aggregate/aggregator.go:158-175 | the rows of a key are those that hold it in the columns grouped by, each as often as it occurs |
| Reports.ReportMeaning | internal/aggregate/aggregator.go:230-253 | the report of any aggregate of some rows has exactly one group for every key among them, ascending; each has the count of its rows modulo 2^64, and for every measure and function, in order, an entry with that column, that function and its value on that column of its rows |
| Reports.PercentilesRise | internal/aggregate/aggregator.go:235-245 | of two reported percentiles of a column the larger has the larger value |
| Results.ReportAgain | internal/aggregate/aggregator.go:230-232 | reporting again lists the same |
| Results.ReportIsUnique | internal/aggregate/result.go:81-91 | without ties there is one report for a map of groups, whatever the seed, insertion order or layout of the table that holds it |
| Results.TieMakesAnotherReport | internal/aggregate/result.go:93-96 | with a tie there are at least two |
| Results.TieMeaning | internal/aggregate/result.go:93-96 | the groups of some rows tie exactly when two of the rows do |
| Results.ZerosTie | internal/aggregate/result.go:93-96 | two rows that tie: 0.0 and -0.0 |
| Results.NoTieWithoutFloats | internal/aggregate/result.go:81-86 | grouping by strings and int64 columns leaves no ties |
| Results.ReportsAgree | internal/aggregate/result.go:81-91 | without ties, the reports of two aggregates of the same rows differ at most in the values of percentiles and the rounding of float sums and averages, and not at all where order leaves no trace |
| EndToEnd.ReportSingle | internal/aggregate/aggregator.go:230-253 | one reader's report is one of the file's rows; it fails exactly if the file cannot be read |
| EndToEnd.ReportParallel | internal/aggregate/parallel.go:9-75 | so is the report of workers that receive the rows in batches in any order |
| EndToEnd.DistributedReportsAlike | internal/distribute/coordinator.go:78-86 | the coordinator's report agrees with the single reader's line by line but for the rounding of float sums and averages, and is the same sequence where none needs rounding, unless two keys of the file tie |
| EndToEnd.ReportOfFile | internal/aggregate/aggregator.go:230-253 | every report of a file, whoever made it, has one group for every key among the file's rows, ascending, with the result of the rows with that key |
| EndToEnd.ReportOfTable | internal/aggregate/aggregator.go:230-253 | the report of a file written from a table, with any quoting and line ends, is that of the table's rows |
| EndToEnd.AnswerIsReached | internal/aggregate/parallel.go:9-18 | some schedule of the goroutines ends, with success exactly when the file can be read, and then with an aggregate of its rows |
| Lexer.Lex | internal/query/query.go:32-68 | the scanning loop computes the tokens, or the first illegal character |
| Lexer.ScanInvertsRender | internal/query/query.go:32-68 | scanning printed tokens gives them back, whatever the white space |
| Lexer.ScannedIsRendered | internal/query/query.go:32-80 | whatever scans is its tokens printed with legal white space |
| Lexer.TokensSitAtTheirPositions | internal/query/query.go:26-30 | each token's text is found at its reported position |
| Lexer.RejectedCharacter | internal/query/query.go:64-66 | the text before the character reported scans, and that character starts no token |
| Queries.Parser.ParseSelectItem | internal/query/query.go:138-170 | reads one select item, or names the error |
| Queries.Parser.ParseSelectList | internal/query/query.go:172-187 | the loop reads items separated by commas |
| Queries.Parser.ParseColList | internal/query/query.go:189-204 | the loop reads columns separated by commas |
| Queries.Parser.ParseQuery | internal/query/query.go:242-266 | reads a whole query with nothing trailing |
| Queries.ParserMeetsGrammar | internal/query/query.go:210-217 | a token list is accepted exactly when the grammar derives it, with that derivation as the result |
| QueryErrors.FaultIsReported | internal/query/query.go:138-204 | a syntax error names the position of the faulty token, or the function before a star |
| QueryErrors.FaultIsFinal | internal/query/query.go:138-204 | no query starts with the tokens up to the faulty one, whatever follows |
| QueryErrors.FaultIsFirst | internal/query/query.go:138-204 | some query starts with the tokens before it, and goes on with what was expected |
| Queries.AppearancesMeaning | internal/query/query.go:283-293 | each measured column gets one measure |
| Queries.MeasuresMeaning | internal/query/query.go:273-295 | every column of a function item has one measure, in the order of the first items on them, with the functions of exactly the items on that column, in their order |
| Queries.ErrorIsReported | internal/query/query.go:276-287 | the first item that breaks a rule is reported, with the rule it breaks |
| Queries.EqualFoldMeaning | internal/query/query.go:97-104 | keywords match but for the case of letters |
| Queries.FoldItems | internal/query/query.go:268-297 | bare items must be grouped and functions known; measures fold by column in first-appearance order, functions in order |
| Queries.Parse | internal/query/query.go:233-298 | the whole parse, or its first error |
| Queries.PrintedQueryParses | internal/query/query.go:206-232 | printing any derivation with any white space and keyword case, then parsing, returns its group-by list and measures |
| Queries.ParsedQueryIsPrinted | internal/query/query.go:206-232 | every accepted query is the printed form of a derivation that obeys the rules |

## Left out

- Rounding.Plus: a NaN sum or quotient is one fixed NaN; hardware may keep an operand's payload or set its sign.
- Representations.RepresentationsAgree: the condition for equal groups is sufficient and, as a bound on magnitudes, the best there is (Summations.LimitOfExactness); columns beyond it may happen to agree all the same.
- Floats.MathMin: follows Go's portable code, which returns one fixed NaN; an architecture's own instruction may keep another NaN payload.
- HyperLogLogs.SketchMeaning: the value hash (FNV-1a and its mixer) is any function; the cardinality estimate and its error are not modelled.
- Digests.AddedSummarises: means and weights are real numbers, while the values offered are rounded as in the code. An infinite value breaks a digest's means: after one, a digest only records that it is unbounded.
- Quantiles.QuantileMeaning: over real numbers; the arcsine scale is any nondecreasing scale of the same length, and a digest's sort any function that arranges points by mean.
- Outputs.PercentileMeaning: of a column without infinities, between the 0th and the 100th percentile; an infinite percentile or an unbounded digest is reported as not modelled.
- Outputs.OutputMeaning: distinct counts are left as registers.
- Accumulators.MergeThenAdd: says nothing about digests and float sums, which depend on the order of events; Accumulators.MergedMeasure says what holds of them.
- GroupTables.GroupTable.InsertNew: the load test is written in integers, 10 (size + 1) > 7 capacity, which is the floating-point test for the power-of-two capacities that occur.
- Sequences.SortBy: an insertion sort stands in for the library's sort.Slice; only that its result is sorted and a permutation is used.
- Rows.LineReader.ReadLine: the reused line buffer is a value here, so that a parsed row never aliases it holds by construction; the same goes for the buffers of fields and scratch values.
- Aggregators.Aggregator.AddByTuple: the reused buffers of dimensions and encoded keys are values here, so that a stored key never aliases them holds by construction.
- Rows.Format.ParseLineMeaning: the number parsers are any partial functions; strconv is not part of this model.
- Ingest.DrainChunk: the channel is the list of emitted batches here, without cancellation; both are in Pipeline.
- Pipeline.BatchesHaveOneOwner: a cancellation is context.Canceled; a deadline on the caller's context, which is reported as an error, is not a step, and the pool never drops a batch.
- Jobs.ReadSource: takes no context, and returns when all batches have been read.
- Jobs.FoldSource: reads the source to its end before it folds; batches recycled while others are being filled are in Pipeline.
- ParallelRuns.Drain: which worker takes which batch is a parameter, and the batches are handed over one after another; overlapping, abort and release are in Pipeline.
- ParallelRuns.RunParallel: the same.
- Coordination.RunDistributed: dispatches one call after another, in any order; overlapping and broken calls are in the step system. A message delivers the worker's snapshots unchanged: the conversion to and from protobuf is taken to be the identity.
- Queries.Parse: function names are resolved by any partial function, since the percentile suffix goes through strconv.
- Resolving column names against a schema (aggregate.New), JSON schemas and column inference from a header: easy look-ups, and inference differs between the chunked and the single mode.
- Files, their errors and their changing during a run: a file is a fixed sequence of bytes, except that opening or reading a chunk may fail in Pipeline.
- Row counts are unbounded naturals; group counts and int64 sums wrap.
- Commands, discovery, deployment and generated code.
