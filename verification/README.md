# Verified model of the regex search engine

The repository answers queries by example: given strings that a regex must match and strings
that it must not, it finds the regexes of a database that fit. Each layer is a fast or
concurrent form of something simple, and this project proves that each fast form means the
simple one.

- **Clustered search.** Clusters hold an RE2 set and an aligned entity list. A query intersects
  byte-packed bitmaps over all examples, after a pre-filter that skips clusters. It is proved
  equal, entity for entity, to the one-regex-at-a-time scan, except for exactly what fits in
  clusters that fail to compile.
- **Thread pool.** The mutex/condition-variable protocol of `ThreadPool.h` is a labelled
  transition system with spurious wakeups and with notifications sent after the unlock. No
  wakeup is lost, every task runs exactly once and leaves the queue in order, and the
  destructor drains the queue and ends. On top of it the parallel repository query and both
  parallel similarity tables are proved independent of the number of workers and the schedule.
- **Greedy clustering and similarity graphs.** `create_clusters` conserves its items, moves none
  twice, and every greedy choice is optimal; the two similarity tables describe the same graph;
  `top_k_edges` is characterised up to ties.
- **Outliers and the result cache.** Removing outliers keeps more than half of the values; a
  lookup in the query-keyed cache returns exactly the entry last stored under the key.

RE2 is a parameter (`Re2.Engine`: functions that say which patterns parse, what they match and
which sets of patterns compile within their memory); nothing about regexes is assumed beyond the
contract of `RE2::Set`. Iteration over an `unordered_set`, random choice, ties in sorting and the
scheduler's choices are arbitrary choices in the model. `double` is `real`.

Files: `Sequences`, `Sorting`, `Counting` (shared), `Re2`, `Bitmap`, `Cluster`, `ClusterQuery`, `BruteForce`,
`Packing`, `ClusterRepository`, `PatternReader`, `PoolProtocol`, `ThreadPool`,
`ParallelRepository`, `ClusterTool`, `SimilarityTables`, `TopEdges`, `Stats`, `Paging`.
`dafny verify dfyconfig.toml` checks the whole project.

Where the code differs from what its names or comments suggest, the model follows the code:

- `Bitmap`'s `|` and `^` combine the right operand with itself when the sizes are equal, and let
  the padding of the shorter operand show through when they are not
  (`OrIsUnionIff`, `XorIsDifferenceIff` say exactly when the result is right;
  `OrLosesLeftOperand`, `XorLosesLeftOperand` and `PaddingShowsThrough` are failing inputs).
- `HashQuery` writes the sorted examples without separators, so queries that differ only in where
  an example ends or on which side it stands share a cache entry (`KeyIgnoresBoundaries`,
  `OtherQueryInterferes`).
- Limiting a row to its top k edges twice is not idempotent for rows with negative entries
  (`LimitIdempotentIff` gives the exact condition, `LimitTwiceLosesEdge` a failing input;
  similarity scores meet the condition, `SimilarityLimits`).
- `MatchQuery::score` calls an unmatched positive a false positive and a matched negative a false
  negative; only their sum is used.
- `add_entity` on a compiled cluster reaches `RE2::Set::Add` on a compiled set, which RE2 rejects;
  the model then adds nothing.

## Model

| member | source | states |
|---|---|---|
| PoolProtocol.StepKeepsInv | clustering/mcl-clustering/ThreadPool.h:43-61 | every step of every worker, caller, notifier and of the destructor keeps the four parts of the invariant: order, exactly once, no lost wakeup, orderly shutdown |
| PoolProtocol.StepNoLostWakeup | clustering/mcl-clustering/ThreadPool.h:76-87 | while a worker sleeps, queued tasks are at most as many as workers about to look at the queue plus notifications still to be sent, although notify_one comes after the unlock |
| PoolProtocol.StepExactlyOnce | clustering/mcl-clustering/ThreadPool.h:50-59 | a task taken from the queue is on exactly one worker or done, never both and never twice |
| PoolProtocol.StepOrderlyShutdown | clustering/mcl-clustering/ThreadPool.h:91-99 | no worker exits while a task is queued, nobody sleeps after notify_all, a join returns only for an exited worker |
| PoolProtocol.ReachableInv | clustering/mcl-clustering/ThreadPool.h:38-99 | the invariant holds after every run from the constructor on, for every number of threads, with spurious wakeups |
| PoolProtocol.ExactlyOnePlace | clustering/mcl-clustering/ThreadPool.h:50-59 | each submitted task is in exactly one of queued, running, done, and nothing else is anywhere |
| PoolProtocol.QueuedMeansAwake | clustering/mcl-clustering/ThreadPool.h:76-87 | with a non-empty queue some worker is up or a notification is pending |
| PoolProtocol.Progress | clustering/mcl-clustering/ThreadPool.h:43-99 | no reachable state with work left is stuck, and it never takes a spurious wakeup to go on |
| PoolProtocol.NoWorkersNoResults | clustering/mcl-clustering/ThreadPool.h:38-41 | the assumption of a worker is needed: a pool of zero threads never finishes a task |
| PoolProtocol.RunsAreBounded | clustering/mcl-clustering/ThreadPool.h:43-61 | between submissions a run is bounded by the work at its start plus twice its spurious wakeups |
| PoolProtocol.ShutdownIsBounded | clustering/mcl-clustering/ThreadPool.h:91-99 | once stop is set every run is finite, spurious wakeups included, with an explicit bound |
| PoolProtocol.StepShutdownWork | clustering/mcl-clustering/ThreadPool.h:45-60 | once stopped, every step uses up work and no worker goes back to sleep |
| PoolProtocol.JoinedMeansDrained | clustering/mcl-clustering/ThreadPool.h:97-99 | when all joins have returned, the queue is empty and the tasks done are exactly those submitted |
| PoolProtocol.DestructorDrains | clustering/mcl-clustering/ThreadPool.h:91-100 | every run after stop that cannot go on has joined all workers and finished every task once |
| ThreadPools.ThreadPool.Enqueue | clustering/mcl-clustering/ThreadPool.h:66-88 | refuses on a stopped pool without any change, else takes the Submit step of the protocol |
| ThreadPools.ThreadPool.WorkerSection | clustering/mcl-clustering/ThreadPool.h:49-57 | the critical section is the Take, Exit or Sleep step, by queue and stop flag |
| ThreadPools.ThreadPool.Step | clustering/mcl-clustering/ThreadPool.h:43-61 | an arbitrary enabled step, of a busy or an idle pool, keeps the pool consistent and uses up work |
| ThreadPools.ThreadPool.Follow | clustering/mcl-clustering/ThreadPool.h:43-61 | every schedule that the protocol allows can be followed by the pool, with exactly the protocol's outcome |
| ThreadPools.ThreadPool.Interleave | clustering/mcl-clustering/ThreadPool.h:43-61 | between two calls of its owner the pool follows an arbitrary schedule of the protocol |
| ThreadPools.AllMaySleep | clustering/mcl-clustering/ThreadPool.h:49-54 | one of these schedules puts every worker to sleep with nothing pending, so the next enqueue meets only sleepers |
| ThreadPools.ThreadPool.Get | clustering/mcl-clustering/ThreadPool.h:72-87 | waiting for a future ends under every schedule, with the value of its own task |
| ThreadPools.ThreadPool.Destroy | clustering/mcl-clustering/ThreadPool.h:91-100 | the destructor ends under every schedule; every task of the queue has then set its future |
| ParallelRepositories.Query | librereuse/db/parallel_regex_cluster_repository.cc:121-142 | for every number of workers and schedule, with idle workers asleep or awake at each enqueue, the same sequence as the serial query: AnswerAll, which DeepQuery also returns |
| ParallelRepositories.Collect | librereuse/db/parallel_regex_cluster_repository.cc:134-138 | futures collected in submission order, each block put in front of the earlier ones |
| ClusterRepositories.RegexClusterRepository.DeepQuery | librereuse/db/regex_cluster_repository.cc:74-112 | the fitting entities of all clusters, a permutation of the zero-miss scan over the database, whether or not the pre-filter is used; the skipped clusters are as many as those for which one example alone leaves no answer |
| ClusterRepositories.ClusteredIsBruteForce | librereuse/db/regex_cluster_repository.cc:82-100 | for every grouping, the clustered answer is a permutation of the zero-miss scan over the unpacked entities |
| ClusterRepositories.UnpackedAreAccepted | librereuse/db/regex_repository.cc:14-24 | the brute-force repository keeps every pattern unpacked from clusters |
| ClusterRepositories.DatabaseMisses | librereuse/db/regex_cluster_repository.cc:21-63 | for every input, cluster size and query, the constructed repository's answer plus what fits in the groups that fail to compile is the brute-force answer |
| ClusterRepositories.DatabaseIsBruteForce | librereuse/db/regex_cluster_repository.cc:21-63 | the two answers agree if and only if nothing that fits is in a group that fails to compile |
| ClusterRepositories.ScanSplits | librereuse/db/regex_cluster_repository.cc:52-62 | for every grouping, each brute-force result comes from a group that compiles or from one that does not |
| ClusterRepositories.RegexClusterRepository.constructor | librereuse/db/regex_cluster_repository.cc:21-63 | the clusters hold exactly the packed groups of the accepted patterns that compile, in order, all compiled and aligned |
| ClusterRepositories.PackClusters | librereuse/db/regex_cluster_repository.cc:25-50 | before compilation the clusters hold exactly the packed groups of the accepted patterns |
| ClusterRepositories.KeepCompiled | librereuse/db/regex_cluster_repository.cc:52-62 | compiles every cluster; keeps, in order, exactly those that compiled, which are those whose patterns RE2 can compile |
| ClusterRepositories.RegexClusterRepository.AddCluster | librereuse/db/regex_cluster_repository.cc:114-128 | appends the cluster if and only if it was compiled or can be compiled now; all others stay as they are |
| ClusterRepositories.RegexClusterRepository.ClusterIndexOf | librereuse/db/regex_cluster_repository.cc:138-153 | finds one exactly if the pattern is among those of the database, and then the first cluster with an entity of this pattern |
| Packing.PackIsChunking | librereuse/db/regex_cluster_repository.cc:25-50 | the groups concatenate to the input; all but the last hold exactly max(1, maxClusterSize), the last at least one and no more |
| Packing.PackCount | librereuse/db/regex_cluster_repository.cc:25-50 | the number of clusters is the input size divided by the capacity, rounded up |
| ClusterQueries.ClusterMatchQuery.Query | librereuse/query/cluster_match_query.cc:19-79 | the bitmap intersection returns, in cluster order, exactly the entities that match every positive and no negative example, for any iteration order and with the early empty return |
| ClusterQueries.ClusterMatchQuery.Test | librereuse/query/cluster_match_query.cc:81-120 | false exactly when one example alone leaves no answer, except that an empty cluster passes every negative example |
| ClusterQueries.HopelessIff | librereuse/query/cluster_match_query.cc:81-120 | the two forms of the pre-filter's verdict, by hit lists and by single-example answers, agree |
| ClusterQueries.PrefilterSound | librereuse/query/cluster_match_query.cc:81-120 | a cluster rejected by the pre-filter has an empty answer |
| ClusterQueries.HitsMeaning | librereuse/query/cluster_match_query.cc:98-107 | a hit list as long as the cluster means that every entity matches; an empty one that none does |
| Re2.HitListIsFull | librereuse/query/cluster_match_query.cc:98-100 | distinct hits are as many as there are patterns if and only if all match |
| Clusters.Cluster.constructor | librereuse/db/cluster.cc:10-29 | holds the parsable entities in order, set index i naming entity i |
| Clusters.Cluster.AddEntity | librereuse/db/cluster.cc:41-54 | adds the entity and its pattern under the same index, or changes nothing |
| Clusters.Cluster.CompileSet | librereuse/db/cluster.cc:56-61 | succeeds exactly if it has succeeded before or this is the set's first attempt and RE2 can compile its patterns; the set is sealed afterwards and the entities stay |
| BruteForce.MatchQuery.Score | librereuse/query/match_query.cc:22-47 | the score is the number of positives that do not match plus the number of negatives that do |
| BruteForce.MatchQuery.Test | librereuse/query/base_regex_query.cc:15-18 | passes exactly when at most maxMisses examples are misclassified, counted as sets of examples |
| BruteForce.MissesGrow | librereuse/query/match_query.cc:22-47 | a new example adds one miss if the pattern gets it wrong, and none otherwise |
| BruteForce.NoMissesIsFitting | librereuse/query/miss_score.cc:13-19 | a budget of zero misses means fitting every example |
| BruteForce.RegexRepository.constructor | librereuse/db/regex_repository.cc:14-24 | keeps the parsable entities in order, with aligned regexes |
| BruteForce.RegexRepository.Query | librereuse/db/regex_repository.cc:27-37 | in order, exactly the entities with at most maxMisses misclassified examples |
| Bitmaps.LocateIsBijective | librereuse/util/bitmap.cc:36-41 | splitting an index into byte and bit is a bijection |
| Bitmaps.UnpackUpdate | librereuse/util/bitmap.cc:26-29 | writing one bit of one byte changes this one element of the unpacked sequence and no other |
| Bitmaps.Bitmap.constructor | librereuse/util/bitmap.cc:9-19 | ceil(n/8) bytes, padding filled like the elements |
| Bitmaps.Bitmap.Get | librereuse/util/bitmap.cc:21-24 | reads the unpacked sequence, padding included |
| Bitmaps.Bitmap.Set | librereuse/util/bitmap.cc:26-29 | updates one element of the unpacked sequence |
| Bitmaps.Bitmap.Toggle | librereuse/util/bitmap.cc:31-34 | flips one element of the unpacked sequence |
| Bitmaps.Bitmap.Conjunction | librereuse/util/bitmap.cc:43-50 | pointwise conjunction on the size of the smaller map |
| Bitmaps.Bitmap.AndAssign | librereuse/util/bitmap.cc:52-59 | pointwise conjunction in place, given enough bytes on the right, also with itself |
| Bitmaps.Bitmap.Complement | librereuse/util/bitmap.cc:91-98 | pointwise negation, padding included |
| Bitmaps.Bitmap.Merge | librereuse/util/bitmap.cc:61-76 | what `\|` and `^` store, for equal and unequal sizes |
| Bitmaps.OrIsUnionIff | librereuse/util/bitmap.cc:61-76 | `\|` is the union of the elements if and only if the right operand contains the left one (equal sizes) or no padding bit of the shorter one meets a clear element (unequal sizes) |
| Bitmaps.XorIsDifferenceIff | librereuse/util/bitmap.cc:100-115 | `^` is the symmetric difference if and only if the operands are equal (equal sizes) or the shorter one's padding is clear (unequal sizes) |
| Bitmaps.OrLosesLeftOperand | librereuse/util/bitmap.cc:63-69 | an example on which `\|` loses an element |
| Bitmaps.XorLosesLeftOperand | librereuse/util/bitmap.cc:102-108 | an example on which `^` loses an element |
| Bitmaps.PaddingShowsThrough | librereuse/util/bitmap.cc:69-76 | an example of unequal sizes on which the padding of a filled map becomes an element of `\|` and `^` |
| PatternReader.UnpackPatterns | librereuse/db/pattern_reader.cc:105-113 | the concatenation of all clusters |
| PatternReader.RandomizeClusters | librereuse/db/pattern_reader.cc:116-140 | full groups and a rest that together permute the input; n/size groups, none for size 0; each cluster holds its group's parsable entities |
| PatternReader.RegroupedMeans | librereuse/db/pattern_reader.cc:116-140 | every group has the full size, the dropped rest is n mod size long, each cluster holds the parsable entities of its group as often as they occur, and nothing else is lost |
| ClusterTool.Build | clustering/cluster-tool/main.cc:36-68 | the generated strings after the first, filed by the regex's own verdict |
| ClusterTool.Score | clustering/cluster-tool/main.cc:70-99 | the share, among the strings of both regexes, of those on which the two give the same verdict |
| ClusterTool.ScoreCounts | clustering/cluster-tool/main.cc:70-99 | the same of the score by which clusters are grown, for the sets of strings with equal verdicts |
| ClusterTool.ScoreIsSimilarity | clustering/cluster-tool/main.cc:70-99 | symmetric, within [0,1], 1 if and only if the regexes agree on all strings of both, 1 against itself |
| ClusterTool.Rank | clustering/cluster-tool/main.cc:167-180 | sorting the scores permutes the indices, best first, each with its own score |
| ClusterTool.StealBest | clustering/cluster-tool/main.cc:182-188 | each stolen slot is still full, and what is taken and what stays make up the vector |
| ClusterTool.EraseHoles | clustering/cluster-tool/main.cc:190-196 | erases exactly the holes and keeps the order |
| ClusterTool.Cluster | clustering/cluster-tool/main.cc:158-199 | the seed and m others; every member taken scores at least as high against the seed as everything left behind |
| ClusterTool.RandomlyRemove | clustering/cluster-tool/main.cc:201-216 | takes one position out and keeps the others in order |
| ClusterTool.CreateClusters | clustering/cluster-tool/main.cc:218-234 | n/(m+1) clusters of m+1, n mod (m+1) leftovers, together a permutation of the input; none for a negative bound |
| ClusterTool.RunConserves | clustering/cluster-tool/main.cc:218-234 | over a whole run nothing is lost, duplicated or made up |
| ClusterTool.EarlierSeedsKeepTheirClosest | clustering/cluster-tool/main.cc:167-198 | no regex of a later cluster, and no leftover, is closer to an earlier seed than that seed's own members |
| SimilarityTables.Rate | clustering/mcl-clustering/similarity_table/rex_similarity_scorer.cc:72-86 | the rate times the number of strings is the number of positions whose string matches |
| SimilarityTables.HitRateCounts | clustering/similarity-table/similarity_table.cc:35-40 | the rate lies in [0,1], is 1 exactly when all strings match and 0 exactly when none does |
| SimilarityTables.CellsCountMatches | clustering/similarity-table/similarity_table.cc:27-63 | each cell of either matrix, times the number of the one entity's strings, counts those of them that the other entity's regex matches |
| SimilarityTables.MclSimilarityTable.constructor | clustering/mcl-clustering/similarity_table/similarity_table.cc:30-59 | under every schedule each cell gets the score of the column's regex on the row's strings |
| SimilarityTables.CellHasTask | clustering/mcl-clustering/similarity_table/similarity_table.cc:38-51 | every cell has a task |
| SimilarityTables.TaskIsRight | clustering/mcl-clustering/similarity_table/similarity_table.cc:43-48 | every task carries the score and the position of one cell |
| SimilarityTables.CollectCells | clustering/mcl-clustering/similarity_table/similarity_table.cc:53-58 | storing each future where it says fills the whole matrix rightly |
| SimilarityTables.SimilarityTable.ComputeRow | clustering/similarity-table/similarity_table.cc:27-44 | one regex's scores on the strings of every entity |
| SimilarityTables.SimilarityTable.ParallelCompute | clustering/similarity-table/similarity_table.cc:46-63 | under every schedule each cell gets the score of the row's regex on the column's strings |
| SimilarityTables.MclSimilarityTable.ToSimilarityGraph | clustering/mcl-clustering/similarity_table/similarity_table.cc:68-80 | the averaged lower triangle, entry by entry, or empty rows for a table without a matrix |
| SimilarityTables.SimilarityTable.ToSimilarityGraph | clustering/similarity-table/similarity_table.cc:65-76 | the averaged lower triangle |
| SimilarityTables.SameGraph | clustering/similarity-table/similarity_table.cc:46-76 | the two matrices are each other's transpose and the two graphs are equal, with weights in [0,1] |
| SimilarityTables.MclSimilarityTable.Prune | clustering/mcl-clustering/similarity_table/similarity_table.cc:107-114 | zeroes exactly the scores below the threshold |
| SimilarityTables.MclSimilarityTable.TopKEdges | clustering/mcl-clustering/similarity_table/similarity_table.cc:126-155 | limits every row and touches nothing else |
| TopEdges.LimitRow | clustering/mcl-clustering/similarity_table/similarity_table.cc:128-153 | exactly k positions keep their value, the others are zero, no kept value is below a dropped one; short rows are left alone |
| TopEdges.LimitedMultiset | clustering/mcl-clustering/similarity_table/similarity_table.cc:141-153 | however ties are broken, the values kept are the k best of the row |
| TopEdges.LimitTwiceIff | clustering/mcl-clustering/similarity_table/similarity_table.cc:126-155 | limiting to k and then to j <= k leaves the values of limiting to j, if and only if the row is short or its j-th best value is not negative |
| TopEdges.LimitIdempotentIff | clustering/mcl-clustering/similarity_table/similarity_table.cc:126-155 | limiting twice changes nothing, if and only if the row is short or its k-th best value is not negative |
| TopEdges.NonNegativeRows | clustering/mcl-clustering/similarity_table/similarity_table.cc:126-155 | a row without negative entries meets that condition for every k |
| TopEdges.NonNegativeLimits | clustering/mcl-clustering/similarity_table/similarity_table.cc:126-155 | on such a row, limiting to k and then to j <= k leaves the values of limiting to j, and limiting to k again changes nothing |
| TopEdges.LimitTwiceLosesEdge | clustering/mcl-clustering/similarity_table/similarity_table.cc:126-155 | a row with negative entries on which limiting twice to one edge loses it |
| SimilarityTables.SimilaritiesAreNonNegative | clustering/mcl-clustering/similarity_table/similarity_table.cc:68-114 | no entry of the matrix, of the graph or of the pruned graph is negative |
| SimilarityTables.SimilarityLimits | clustering/mcl-clustering/similarity_table/similarity_table.cc:126-155 | so on every row of a computed matrix, of its graph and of its pruned graph both laws of repeated limiting hold |
| Stats.Median | librereuse/util/stats.h:37-59 | the mean of the one or two middle values of the sorted data |
| Stats.Quartiles | librereuse/util/stats.h:61-79 | the sorted data at a quarter and at three quarters |
| Stats.Outliers | librereuse/util/stats.h:81-104 | in order, exactly the values further from their quartile than three halves of the quartiles' distance |
| Stats.RemoveOutliers | librereuse/util/stats.h:106-120 | erasing by value leaves, in order, exactly the values no further from either quartile than three halves of the quartiles' distance |
| Stats.MoreThanHalfSurvive | librereuse/util/stats.h:81-120 | more than half of the values survive, so a non-empty container is never emptied |
| Paging.HashQuery | server/paging.go:13-42 | the key is the decimal hash of the bytes of the positives, sorted in any way that sorts them, followed by those of the negatives |
| Paging.KeyIsHashOfSorted | server/paging.go:16-41 | the same as a law about the key |
| Paging.LexIsDictionaryOrder | server/paging.go:23-24 | the sorting order is alphabetical: a proper beginning first, otherwise the first byte that differs decides |
| Paging.OneByteChangesKey | server/paging.go:14-41 | requests whose sorted examples differ in exactly one byte, at any position, never share a key |
| Paging.StepIsInjective | server/paging.go:14 | one FNV-1a step loses neither the state nor the byte |
| Paging.KeyOfA | server/paging.go:14-41 | the key of the query for the one example "a" |
| Paging.KeyIgnoresOrder | server/paging.go:16-40 | the key depends only on the multisets of examples |
| Paging.KeysAreHashes | server/paging.go:40-41 | a key is never empty, and keys are equal exactly when the hashes are |
| Paging.ItoaInverse | server/paging.go:41 | the decimal text determines the hash |
| Paging.ResultTable.CacheResults | server/paging.go:69-86 | the key is the query's, from now on it names these results stored now, and every other key is as before |
| Paging.ResultTable.FetchResults | server/paging.go:88-95 | over the table's whole life: the entry last stored under the key, if not invalidated since and not older than five minutes, else nothing |
| Paging.ResultTable.FetchResultsWithQuery | server/paging.go:97-104 | over the table's whole life: what was last stored for this query or any reordering of it |
| Paging.ResultTable.InvalidateResults | server/paging.go:145-147 | from now on this key names nothing, and every other key is as before |
| Paging.LookupIsLastStored | server/paging.go:69-104 | over every run, clean-ups included, a lookup finds exactly the entry last stored under the key, not invalidated since and not expired |
| Paging.EntryLivesFiveMinutes | server/paging.go:63-95 | an entry is found for exactly five minutes and not a nanosecond longer |
| Paging.ReorderedQueryFinds | server/paging.go:97-104 | any reordering of a query finds what was stored for it while its key is not written again |
| Paging.OtherQueryInterferes | server/paging.go:13-42 | anywhere in a run, storing for another query leaves a query's live result alone if and only if the hashes differ or the results are equal |
| Paging.KeyIgnoresBoundaries | server/paging.go:26-38 | for all a not after b, requiring a and forbidding b has the key of requiring both and of requiring their concatenation |
| Paging.ResultTable.constructor | server/paging.go:63-67 | a table with an empty history whose keys are 32-bit FNV-1a hashes |

## Left out

- ThreadPools.ThreadPool: `librereuse` links an external pool of the same name (WORKSPACE:94-100); the header in `clustering/mcl-clustering` is taken as its definition, and at least one worker is assumed where results are waited for.
- ThreadPools.ThreadPool.Get: the platform causes finitely many spurious wakeups, any number of them; tasks end and do not throw. A task is a value-returning function: the clusters and strings it reads are constant while the pool runs.
- PoolProtocol: the mutex is modelled by making each critical section one step; waiting for the mutex is not a state of its own.
- Clusters.Cluster: whether a set compiles within its memory is a function of its patterns; RE2 memory limits at match time, `prime` and eager compilation are not modelled.
- ClusterTool.Cluster: the vector passed by reference is a parameter and a result, so aliasing is not captured; holes are `None`.
- ClusterTool.ScoreOf: a pair of regexes that both lack strings, for which the code divides zero by zero, is excluded; one regex without strings is covered.
- SimilarityTables.Rate: empty string lists, for which the code divides by zero, are excluded.
- SimilarityTables.MclSimilarityTable.constructor: the scorers are given; creating them runs foreign string generators.
- Stats.RemoveOutliers: an empty container, for which the code reads past its end, is excluded; the container is a parameter and a result.
- Bitmaps.Bitmap: `|=` and `^=` read past the right operand on unequal byte counts; `&=` requires enough bytes on the right; index splitting through `double` is exact below 2^53.
- Paging.ResultTable: the map behind it is the contract of the go-cache library (expiry after the stated time, clean-up at any time); the clock does not run backwards; locking is not modelled, and Go's RegexEntity is an opaque string.
- Paging.HashQuery: the laws about keys hold for every byte-wise 32-bit hasher, and the table uses FNV-1a; the hasher's Write never fails, so the branches for an empty key are not modelled.
- `FetchResultsWithPage`, `chunk`, `median_duration`, `SortByCoverage`: paging arithmetic and comparators that do not meet their names' promises.
- `ConcurrentTaskQueue`, `EntityCollector`, `TaskWorker`, `FuzzyClusterQuery`: unused or constant.
- `shuffle_clusters`, reading and writing files, gRPC, HTTP, DynamoDB, logging, timing, plotting, the Java coverage service: input and output.
- Rounding of `double`, NaN, and the widths of `int` and `size_t` beyond the 32-bit hash.
