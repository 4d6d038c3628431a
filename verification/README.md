# Verified models of a SQL++ query engine's algebra

This project models the parts of the query engine whose correctness is not visible from any one
function, and proves what they are for. Each module is named after what it models.

- **Selecting the median** (`Median`). MEDIAN uses a linear-time selection that recurses on the medians
  of groups of five. Its termination, its result and its cost all rest on the pivot being a correct median
  of those medians, so the three are proved together, by one recursion.
- **Window value functions** (`PeerRanking`, `NthValue`, `RankingLaws`). NTH_VALUE, FIRST_VALUE, LAST_VALUE, LAG and LEAD
  keep a list of at most n values that is filled peer group by peer group and stops early. It is shown to
  be the first n values of the full ranking, and the value is found again by counting rows alone.
- **Aggregation in parallel** (`Accumulators`, `MergeTrees`, `Aggregates`, `ParallelAggregation`, `AggregateLaws`,
  `CumulativeObjects`, `Sums`, `Moments`). Rows are aggregated in streams and partial results merged in any
  cascade. For each function modelled, with and without DISTINCT, the outcome is that of one pass, or the
  merge fails, and it is proved exactly when. The variance family is tied to the textbook formula,
  and each function is determined by laws about rows: what one more row changes, and where the result stands among the values.
- **Incremental window frames** (`SlidingFrames`). Rows are added to and removed from a running value as the
  frame moves. Every row of a partition gets the value of a fresh aggregation of the rows in its own frame, with one
  exception for SUM, which is stated exactly.
- **NTILE** (`Ntile`). A step-by-step bucket counter, kept across partitions and replayed for each row, equals a closed form
  for numeric bucket counts; what it gives for other counts is derived from what earlier partitions left.
- **Keyspace paths** (`PathText`, `PathScanner`, `PathValidator`, `PathList`, `PathContexts`, `SystemScope`, and `PathScannerOutcome`,
  `PathValidatorOutcome`, `PathListOutcome`). One printer, a parser, a validator, a list parser and a scope test, each a
  hand-written character scanner. They are proved against each other: when reading undoes printing, with and without a query
  context, and exactly when it does not. The three outcome modules say for any text, printed or not, what is read or refused.
- **Privileges** (`Privileges`). The list of privileges a query needs is the closure of what was asked for.
- **Named windows** (`Windows`), **set-operation signatures** (`Signatures`), **recursive WITH** (`Recursion`),
  **optimizer hints** (`Hints`, `HintNames`, `HintOrder`, `HintPrinting`): resolution equals lookup by name, signatures depend only on the
  leaves, a split is linear, and hints survive printing and reading.
- **Collation** (`Collation`, `CollationLaws`, `Sorting`). The order on values that all of the above sort by is a total preorder,
  and which of two values comes first is stated type by type.

What the source updates in place is modelled in place: `NthValue.ValueFunction`, `Ntile.NtileState`,
`Accumulators.AnnotatedValue`, `CumulativeObjects.ObjectValue`, `SlidingFrames.AggregateInfo`,
`Privileges.PrivilegeList`, `Windows.WindowTerm`, `Recursion.CheckRecursion` and `Recursion.With` are classes, and
loops are loops. Each such method is tied to a function of the old state, and the lemmas are about that function.

Conventions: numbers are reals. Text is a sequence of characters. A missing result, an error return and a slice
out of range are explicit outcomes. What the source obtains from outside becomes a parameter: the order in which Go visits the
fields of an object (`order`, `visit`), the JSON rendering of a value (`render`), the order in which a set lists its
values, and the operand and filter outcome of a row.

Where the code falls short of what its comments promise, the code is modelled as it is, a lemma gives an
instance, and a second lemma gives the exact condition:

| promise | instance | exact condition |
|---|---|---|
| partial aggregates can be merged in any cascade | `EmptyStreamFails` | `MergingIsOnePass` |
| removing rows undoes adding them | `EmptiedSumIsZero` | `ExpectedExactly`, `SlideRows` |
| a path reads back from its text | `DotsAreNotSeen`, `SecondNameIsDropped` | `PathScanner.RoundTripExactly`, `ValidateExactly`, `VariablePathExactly` |
| a path list is read or refused with an error | `SeparatorWithoutElementFaults` | `FaultsExactly` |
| a path list keeps the names it is given | `RepeatedNamespaceIsDropped` | `NamesAreKeptExactly` |
| `_default` is not a system scope | `QuotedDefaultIsMistaken` | `ScopeTargetExactly`, `CollectionScopeExactly` |
| a window keeps its own ORDER BY | `OwnOrderIsLost` | `OwnOrderIsKeptExactly` |
| NTILE of a non-number is NULL | `StaleBuckets` | `NullExactly` |
| NTILE starts afresh with each partition | `StaleBuckets` | `HistoryIsForgottenExactly` |
| a refused NTILE is forgotten | `RefusedCountIsKept` | `RunPartition`, `OnlyRefusalsStumble` |
| a hint does not depend on the order of its fields | `TwoOptionsTell` | `HintIgnoresOrderExactly` |

## Model

| member | source | states |
|---|---|---|
| Collation.CollateIsTotal | value/object.go:824-869 | comparing any two values, nested to any depth, is antisymmetric and transitive, so sorting by it is meaningful |
| Collation.ObjectCollateOver | value/object.go:824-869 | comparing objects over more names than their own changes nothing |
| CollationLaws.ScalarsBySize | value/float.go:150-165 | two numbers are ordered by size, and false comes before true |
| CollationLaws.TypesInOrder | value/value.go:103-113 | MISSING, NULL, booleans, numbers, strings, arrays, objects and binaries come in this order whatever the values |
| CollationLaws.StringsAndBinaries | value/string.go:153-168 | a string or binary comes first exactly if it is a proper prefix of the other or has the smaller unit at the first difference |
| CollationLaws.ArraysByFirstDifference | value/array.go:797-810 | an array comes first exactly if its items are level with the first ones of a longer array, or its item at the first difference comes first |
| CollationLaws.ObjectsByFirstDifference | value/object.go:824-869 | an object with fewer fields comes first; with as many, the smallest name at which they differ decides, the object that has it coming first, or its value if both have it |
| Sorting.SortedIsUnique | algebra/agg_array.go:139-159 | two sorted arrangements of the same values agree position by position up to collation |
| Median.MedianOfMedian | algebra/agg_util.go:183-259 | for every list, duplicates included, returns the k-th smallest number of the sorted list, or the mean of the k-th and the next; terminates; examines at most 40 n elements over the whole recursion |
| Median.MediansOfGroups | algebra/agg_util.go:202-221 | one median per full group of five, each the third of its sorted group |
| Median.Partition | algebra/agg_util.go:224-234 | the two sides are exactly the numbers below and above the pivot, in order |
| Median.PivotIsCentral | algebra/agg_util.go:202-234 | with m groups, at most n - 3(m/2 + 1) numbers lie below the pivot and at most n - 3((m + 1)/2) above it |
| Median.PivotOccurs | algebra/agg_util.go:223-236 | the pivot is one of the numbers, so at least one tie is left out of both sides |
| Median.AscendingAroundPivot | algebra/agg_util.go:228-258 | the sorted list is the sorted lower side, the ties, and the sorted upper side |
| Median.CostOfRound | algebra/agg_util.go:176-259 | the cost bound absorbs one round: grouping, the nested pivot call, partitioning and the side recursed on |
| Median.ComputeFinal | algebra/agg_median.go:139-162 | MEDIAN is the middle of the sorted numbers, the mean of the middle two, or NULL for none |
| Median.MedianIgnoresOrder | algebra/agg_median.go:139-162 | row order, or the order in which a set lists its values, does not change the median |
| Median.MedianBalances | algebra/agg_median.go:139-162 | no more than half of the numbers are below the median and no more than half above it |
| Median.MedianExactly | algebra/agg_median.go:139-162 | the median is half the sum of the two members of ranks (n - 1)/2 and n/2, a rank being fixed by how many positions hold smaller numbers and how many hold no greater ones |
| Median.MedianExists | algebra/agg_median.go:139-162 | members of these ranks exist for every list that is not empty, and for the empty list there is no median |
| PeerRanking.InsertIntoTruncated | algebra/agg_util.go:445-481 | inserting into a list cut to n and cutting again loses nothing that belongs to the first n |
| PeerRanking.OfferKeepsBest | algebra/agg_util.go:445-481 | after one more value of a group the list holds the finalized prefix and the best of the group, as far as there is room |
| PeerRanking.GroupCloses | algebra/agg_nthvalue.go:184-195 | when a group is complete, a full list is already the answer, and otherwise the list becomes the finalized prefix |
| PeerRanking.RankingIgnoresOrderInGroups | algebra/agg_util.go:445-481 | permuting rows inside peer groups changes the ranking only up to collation |
| NthValue.ValueFunction.constructor | algebra/agg_nthvalue.go:33-40 | a new function has an empty list and no finalized prefix |
| NthValue.ValueFunction.Default | algebra/agg_nthvalue.go:100-120 | accepts n exactly when it is a positive whole number, and clears the list and the finalized prefix |
| NthValue.CountExactly | algebra/agg_nthvalue.go:100-120 | the numbers accepted as n are 1, 2, 3 and so on |
| NthValue.ValueFunction.DefaultOfOffset | algebra/agg_lag.go:103-133 | the offset is 1 and the default NULL where they are left out; an offset that is no positive whole number is refused |
| NthValue.ValueFunction.Insert | value/list.go:53-63 | the item stands at its position, later items move up, and what exceeds the capacity is dropped |
| NthValue.ValueFunction.ComputeNthValue | algebra/agg_util.go:445-481 | the in-place update equals the bounded insertion behind the finalized prefix; skipped values change nothing |
| NthValue.ValueFunction.ComputeFinal | algebra/agg_nthvalue.go:158-175 | the n-th value when the list is full and the default when it is not |
| NthValue.ValueFunction.IsCumulateDone | algebra/agg_nthvalue.go:184-195 | done exactly when the list is full; what is in it becomes final |
| NthValue.DuplicatesDirection | execution/window.go:1169-1194 | the maximal run of peers next to a row, in either direction |
| NthValue.EvaluateValueFuncs | execution/window.go:833-896 | the streaming loop with early exit leaves the first n values of the ranking of the whole frame |
| NthValue.EvaluateNthValue | algebra/agg_nthvalue.go:100-195 | NTH_VALUE, and FIRST_VALUE and LAST_VALUE as n = 1, is the n-th of the frame ranked group by group, or NULL |
| NthValue.NthIgnoresOrderInGroups | algebra/agg_nthvalue.go:158-195 | if rows are permuted inside their peer groups, the n-th value from either end changes only up to collation |
| NthValue.GroupsPermute | execution/window.go:833-896 | rows permuted inside runs of equal ORDER BY keys form the same groups with the same values |
| NthValue.EvaluateLagLead | algebra/agg_lag.go:98-189 | accepts an offset exactly when it is left out or a positive whole number, and then gives the value of that counting row before or after the current one, or the default |
| NthValue.SinglesAreKept | execution/window.go:833-896 | without peers the ranking is the rows in order |
| RankingLaws.NthByCounting | algebra/agg_nthvalue.go:158-195 | the n-th value, from either end, is that of any row before which fewer than n rows that count come, but n with those level with it; rows come before by position, and by value where no ORDER BY key changes between them |
| RankingLaws.NthIsARow | algebra/agg_nthvalue.go:158-195 | the value is that of such a row if n rows of the frame count, and NULL otherwise |
| RankingLaws.DifferentKeysKeepOrder | execution/window.go:1169-1194 | where each row differs from the next in some ORDER BY key, the rows are ranked in their own order |
| RankingLaws.OffsetByCounting | algebra/agg_lag.go:98-189 | LAG and LEAD meet a row after exactly the rows that count between it and the current one |
| RankingLaws.OffsetReaches | algebra/agg_lag.go:98-189 | LAG and LEAD meet as many values as rows that count lie on that side, so beyond them the default is given |
| Ntile.StartsMeetTheEnds | algebra/agg_ntile.go:156-192 | the buckets begin at the first row and end at the last, so their sizes sum to the number of rows |
| Ntile.BucketSizes | algebra/agg_ntile.go:156-192 | bucket sizes differ by at most one and the larger ones come first, also with more buckets than rows |
| Ntile.BucketIsAnInterval | algebra/agg_ntile.go:156-192 | a row is in bucket j exactly when it lies between the starts of buckets j and j + 1 |
| Ntile.BucketsAscend | algebra/agg_ntile.go:156-192 | bucket numbers never decrease and stay between 1 and the number asked for |
| Ntile.AdvanceByOne | algebra/agg_ntile.go:183-191 | the running counters keep naming the bucket of the current row and its last row |
| Ntile.TruncatesTowardZero | algebra/agg_ntile.go:169-172 | a bucket count is cut to the whole number nearest to it on the side of zero, and is accepted from one on |
| Ntile.NtileState.CumulatePart | algebra/agg_ntile.go:156-192 | NULL, a refused bucket count that stays behind as the number of buckets, a division by zero, or the next bucket, and the counters after each, for any counters |
| Ntile.RunPartition | execution/window.go:627-650 | from any counters, and though every row replays all rows before it, a partition goes through exactly when a numeric count is at least one, or any other count does not meet zero buckets and a bucket end among its rows; each row then gets the closed-form bucket of a numeric count or what the counters say, and the counters after it are given in every case |
| Ntile.NtileState.Evaluate | execution/window.go:627-650 | replaying the rows up to row c ends, from any counters, at row c of a numeric count, and at the replayed counters of any other count, or divides by zero exactly when there are no buckets and the end of a bucket lies among the replayed rows |
| Ntile.ReplayDrifts | algebra/agg_ntile.go:183-191 | how counters left by accepted partitions move from row to row: each replay passes the stuck end of a partition with fewer rows than buckets, and otherwise only its last row can pass the end |
| Ntile.LeftAnswers | algebra/agg_ntile.go:164-191 | on counters left by accepted partitions a count that is no number never divides by zero, and every row gets the closed form of the moved counters |
| Ntile.OnlyRefusalsStumble | algebra/agg_ntile.go:169-190 | without a refused bucket count no sequence of partitions meets a division by zero |
| Ntile.RefusedCountIsKept | algebra/agg_ntile.go:169-172 | after four rows of NTILE(2) and a refused NTILE(0), NTILE(NULL) divides by zero exactly from five rows on |
| Ntile.ReachedStays | algebra/agg_ntile.go:156-192 | after any partition, refused or not, only a bucket that has begun has an end |
| Ntile.RunPartitions | execution/window.go:204-230 | one execution on an aggregate that earlier executions have used: it ends exactly at the first partition that does not go through, and every partition answers from the counters that all earlier ones left |
| Ntile.NullExactly | algebra/agg_ntile.go:164-168 | with a bucket count that is no number all rows get NULL if and only if there is no second row |
| Ntile.HistoryIsForgottenExactly | algebra/agg_ntile.go:164-191 | a partition does not depend on earlier ones if and only if its count is a number, or it has no second row, or no bucket has begun before |
| Ntile.StaleBuckets | algebra/agg_ntile.go:164-191 | after four rows of NTILE(2), six rows of NTILE(NULL) get NULL, 2, 2, 2, 3, 3 |
| Accumulators.SetAdd | algebra/agg_util.go:41-57 | the attached set gains the item, in place where there is one, and nothing else changes |
| Accumulators.CumulateSets | algebra/agg_util.go:62-92 | whichever set is bigger, and even if both are one object, the attached set becomes the union; fails exactly when a side has no set |
| Accumulators.ListAdd | algebra/agg_util.go:121-136 | the attached list gains the item at its end, in place where there is one |
| Accumulators.CumulateLists | algebra/agg_util.go:161-174 | the cumulative list is followed by the partial one; fails exactly when a side has no list |
| Accumulators.AddStddevVariance | algebra/agg_util.go:265-295 | the value joins the list or set and its sum; a value already in the set changes neither |
| Accumulators.AddNewValues | algebra/agg_util.go:320-325 | only values new to the set enter the sum, in whatever order they are met |
| Accumulators.CumulateStddevVariance | algebra/agg_util.go:301-343 | list or set and sum after a merge, with NULL as neutral element on both sides |
| Accumulators.ComputeVariance | algebra/agg_util.go:350-390 | the squared distances from the stored mean over n - delta; NULL for no value, 0 or NULL for one |
| Moments.SpreadByMoments | algebra/agg_util.go:377-389 | the squared distances from the mean over n - delta are (n * sum(x^2) - sum(x)^2) / (n * (n - delta)) |
| Moments.SpreadIsZeroExactly | algebra/agg_util.go:377-389 | never negative, and zero exactly when all values are equal |
| MergeTrees.MergedIsView | algebra/aggregate.go:22-41 | for any aggregate whose value is a function of its operands, every merge tree ends in that function of all rows, or fails exactly when merging is strict and a stream has no operand |
| ParallelAggregation.MergesViews | algebra/agg_avg.go:222-243 | one intermediate step of each function turns the values of two streams into the value of their concatenation, or fails exactly for a strict function and an empty stream |
| ParallelAggregation.ExtremesMerge | algebra/agg_min.go:138-148 | merging two minima or maxima gives the first extreme of both streams |
| ParallelAggregation.FinalMeans | algebra/agg_sum.go:138-213 | the final step of each function on the value of given operands yields what the function means over them |
| ParallelAggregation.ParallelExactly | algebra/aggregate.go:26-40 | SUM, AVG, COUNT, COUNTN, MIN, MAX, ARRAY_AGG, MEDIAN and the variances, with and without DISTINCT: for every split and every cascade the result is the function of all rows, exactly when the merges can go through |
| ParallelAggregation.MergingIsOnePass | algebra/aggregate.go:26-40 | merging equals one pass if and only if the function is not strict, or there is one stream, or every stream has an operand that counts |
| ParallelAggregation.SplitsAgree | algebra/aggregate.go:26-40 | two splits of the same rows in any order agree, for MIN, MAX and ARRAY_AGG up to collation |
| ParallelAggregation.MeaningIgnoresOrder | algebra/agg_array.go:139-159 | no function depends on the order of its operands |
| ParallelAggregation.EmptyStreamFails | algebra/agg_util.go:62-71 | every strict function, such as MEDIAN and SUM(DISTINCT), fails over an operand in one stream and none in another, though one pass succeeds |
| ParallelAggregation.StoredSumIsSum | algebra/agg_util.go:265-343 | after any mix of additions and merges the stored sum is the sum of the attached list or set |
| ParallelAggregation.VarianceIsZeroExactly | algebra/agg_variance.go:134-145 | VARIANCE, VAR_POP and VAR_SAMP are never negative and zero exactly when all operands are equal |
| AggregateLaws.FilteredRow | algebra/agg_count.go:118-123 | a row that does not pass the filter changes no result |
| AggregateLaws.AbsentValue | algebra/agg_count.go:125-134 | MISSING changes no result but that of COUNT(*), and NULL moreover none but that of ARRAY_AGG |
| AggregateLaws.OtherValue | algebra/agg_sum.go:102-123 | what is no number changes none of SUM, AVG, COUNTN, MEDIAN and the variances, and a binary does not change ARRAY_AGG |
| AggregateLaws.NothingToAggregate | algebra/agg_count.go:105-111 | over no rows a count is 0 and every other function NULL |
| AggregateLaws.CountsOne | algebra/agg_count.go:118-141 | every row raises COUNT(*) by one, every value but NULL and MISSING raises COUNT, and every number COUNTN |
| AggregateLaws.SumsUp | algebra/agg_sum.go:102-134 | a number is added to the sum, which is NULL before the first |
| AggregateLaws.MeanIsQuotient | algebra/agg_avg.go:141-186 | with and without DISTINCT, AVG is SUM over COUNTN, and NULL if nothing was counted |
| AggregateLaws.ExtremeOfRows | algebra/agg_min.go:99-148 | MIN is a value of the rows that comes before all others and MAX one that comes after, and NULL stands exactly for rows with only NULL and MISSING |
| AggregateLaws.ExtremeNumber | algebra/agg_max.go:99-148 | among numbers MIN is at most and MAX at least every number of the rows |
| AggregateLaws.ArrayGains | algebra/agg_array.go:102-134 | ARRAY_AGG gains exactly the value of each row that is neither MISSING nor binary |
| AggregateLaws.ArrayInOrder | algebra/agg_array.go:139-159 | its items are in collation order, numbers ascending; it has exactly the values of the rows, with DISTINCT each once |
| AggregateLaws.RepeatedValue | algebra/agg_util.go:41-57 | with DISTINCT a value that is there already changes no result |
| AggregateLaws.NothingRepeated | algebra/agg_util.go:41-57 | without repeated values DISTINCT makes no difference, for ARRAY_AGG up to collation |
| AggregateLaws.MedianOfRows | algebra/agg_median.go:100-162 | MEDIAN is half the sum of the two numbers in the middle of the rows, found by counting rows with smaller and with no greater numbers |
| AggregateLaws.VarianceOfRows | algebra/agg_varsamp.go:134-145 | VARIANCE, VAR_POP and VAR_SAMP from COUNTN, SUM and the SUM of the squared rows; over one number 0, and NULL for VAR_SAMP |
| CumulativeObjects.AvgCumulatePart | algebra/agg_avg.go:222-243 | sum and count of the part go into the cumulative object in place, NULL being neutral; fails exactly when a field is no number |
| CumulativeObjects.AvgCumulateRemove | algebra/agg_avg.go:190-215 | a number leaves sum and count in place; other values change nothing; fails exactly without a sum and a count |
| CumulativeObjects.ArrayCumulatePart | algebra/agg_array.go:168-191 | the cumulative array is extended in place by the items of the part, NULL being neutral; fails, with nothing changed, exactly when either is no array |
| CumulativeObjects.ComputeDistinctFinal | algebra/agg_sum.go:191-213 | the loop over the set, in any order, yields its sum or mean; NULL for none; fails exactly for a non-number |
| SlidingFrames.HoldsAfterAdding | algebra/agg_avg.go:101-123 | adding a row on the right keeps the running value equal to the frame |
| SlidingFrames.HoldsAfterRemoving | algebra/agg_count.go:185-207 | removing the leftmost row never reaches an error branch and keeps the running value equal to the frame |
| SlidingFrames.AggregateInfo.Evaluate | execution/window.go:570-662 | from the previous frame's value one evaluation reaches this frame's value, for every position of the frame |
| SlidingFrames.FrameSlides | execution/window.go:972-1046 | consecutive frames differ by at most one row on the left and one on the right, and a frame that was empty starts at the first row |
| SlidingFrames.FrameExactly | execution/window.go:1084-1090 | a row is between the first and last position of a frame if and only if its distance from the current row is not below the start and not above the end, where these are bounded |
| SlidingFrames.SlideRows | execution/window.go:1519-1560 | over a whole partition and any ROWS frame, every row gets what one pass over the rows in its frame gives, except that SUM is 0 where the frame has rows but no number and the frame of an earlier row had one |
| SlidingFrames.SlidePeers | execution/window.go:1519-1560 | with peers, every row gets what one pass over all rows up to its last peer gives, though only the first of a group is evaluated |
| SlidingFrames.OwnGroupExactly | execution/window.go:1169-1194 | a row is the last of its peers if and only if no row follows or some ORDER BY key of the next row differs |
| SlidingFrames.ExpectedExactly | algebra/agg_sum.go:146-163 | the value is that of a fresh aggregation if and only if it is not SUM over a frame without numbers after a frame with one |
| SlidingFrames.EmptiedSumIsZero | algebra/agg_sum.go:146-163 | SUM over 1 PRECEDING to CURRENT ROW of a number, NULL, NULL ends in 0 where a fresh aggregation gives NULL |
| PathText.PathFromParts | algebra/path.go:416-452 | the string builder loop produces the recursive printing of a path or query context, quoted or not |
| PathText.ContextPrintsLikePath | algebra/path.go:396-452 | a context of two or more elements prints like the path of these elements |
| PathScanner.ParsePathOrContext | algebra/path.go:475-533 | the scanner equals its state machine and on no string slices out of range |
| PathScanner.ReadPrinted | algebra/path.go:475-533 | what is read back from a printed path whose elements are not cut at a colon |
| PathScanner.RoundTripExactly | algebra/path.go:404-533 | for paths without back ticks, reading undoes printing if and only if there are two or more elements, the last is not empty and no unquoted one has a colon, or the path is the lone empty namespace |
| PathScanner.ContextRoundTripExactly | algebra/path.go:396-473 | reading a printed query context gives all elements but the last if and only if those elements survive |
| PathScannerOutcome.ReadExactly | algebra/path.go:475-533 | for any text: every colon or dot outside back ticks ends an element, which begins after the cut or opening back tick before it; an empty namespace leads unless the first cut is a colon; what is left at the end is the last element, up to its closing back tick |
| PathValidator.ValidatePathOrContext | algebra/path.go:561-623 | the validating loop equals its state machine |
| PathValidator.ValidateExactly | algebra/path.go:561-623 | the verdict on every quoted path: its number of parts exactly when each element has a character other than dot and colon, one less exactly when only the last has none, and an error exactly when another has none |
| PathValidator.ThreePartsHaveTwoNames | algebra/path.go:138-161 | the branch for three parts never indexes beyond the names it has parsed |
| PathValidator.VariablePathExactly | algebra/path.go:138-161 | a variable path rebuilds a 2- or 4-element path, in its own or else the default namespace and under any context, if and only if its elements are countable and it is not a lone name without namespace |
| PathValidator.DotsAreNotSeen | algebra/path.go:561-623 | a keyspace named by a dot is not rebuilt |
| PathValidator.SecondNameIsDropped | algebra/path.go:146-153 | of scope and collection without namespace only the first name is used |
| PathValidatorOutcome.AcceptedExactly | algebra/path.go:561-623 | any text is accepted if and only if its back ticks are closed, none opens inside an element after a cut, no colon comes after a cut, no cut comes later than right after the last closing back tick, and no dot lacks an element before it; its parts are the elements with a character of their own and an implied namespace |
| PathContexts.NameInContext | algebra/path.go:117-135 | a single name under the printed context of the elements before it is the whole path, in the default scope below a bucket and in the default namespace without one |
| PathContexts.VariableNameInContext | algebra/path.go:138-145 | the same for a dynamic keyspace, if the name has no dot, colon or back tick |
| PathList.ParseAndValidatePathList | algebra/path.go:165-301 | the list parser's loop equals its state machine, slices out of range being an explicit outcome |
| PathContexts.CollectionInContext | algebra/path.go:235-264 | a collection under the printed context of its scope, and scope and collection under that of their bucket, resolve to the whole path |
| PathContexts.KeyspaceInContext | algebra/path.go:235-245 | a keyspace under the printed context of its namespace resolves to the whole path, and without a context to the default namespace |
| PathContexts.FullPathIgnoresContext | algebra/path.go:265-270 | bucket, scope and collection are the path under any context, in the default namespace if they name none |
| PathList.ListAcceptsOnlyCompletePaths | algebra/path.go:165-301 | whatever is accepted under a non-empty default namespace has 2 or 4 elements and a non-empty namespace |
| PathList.ListIsNeverInternal | algebra/path.go:165-301 | the error for an impossible number of parts is never returned |
| PathList.ListRoundTrip | algebra/path.go:165-301 | the comma-joined quoted texts of any non-empty list of complete paths without back ticks parse back to exactly that list |
| PathListOutcome.StepTracks | algebra/path.go:189-292 | one character: the reader goes on exactly when the text does not go wrong there, and slices out of range exactly at a separator with no element before it |
| PathListOutcome.AcceptedExactly | algebra/path.go:165-301 | a text is accepted if and only if its back ticks are closed and no character goes wrong: a misplaced back tick or character after an element, a separator with no element, a colon after a dot, or a path that the length of the query context does not complete |
| PathListOutcome.FaultsExactly | algebra/path.go:165-301 | the reader slices out of range if and only if the text does not end in a comma and first goes wrong at a dot, or a colon before any dot, with no element before it |
| PathListOutcome.SeparatorWithoutElementFaults | algebra/path.go:204-220 | a namespace separator before any element leads to a slice out of range |
| PathListOutcome.NamesAreKeptExactly | algebra/path.go:204-230 | an accepted text stands for the paths of its names, and keeps every name if and only if no path has two colons outside back ticks |
| PathListOutcome.RepeatedNamespaceIsDropped | algebra/path.go:204-212 | under any context the text a:b:c is accepted as the path of b and c |
| SystemScope.IsInSystemScope | auth/auth.go:171-216 | the character loop equals its state machine on every target, a slice out of range being an outcome |
| SystemScope.OverrunsExactly | auth/auth.go:183-205 | the test slices out of range if and only if the second dot comes right after a colon that has just set the end of an element, which every other colon of a run does |
| SystemScope.CollectionScopeExactly | auth/auth.go:171-216 | for every printed 4-element path the answer is whether the scope starts with an underscore and is not `_default`, if and only if the scope is not cut at a colon into something else |
| SystemScope.ScopeTargetExactly | auth/auth.go:171-216 | for 3-element paths it is right if and only if, moreover, the scope is not a quoted `_default` |
| SystemScope.QuotedDefaultIsMistaken | auth/auth.go:210-214 | a quoted `_default` scope at the end of the target is taken for a system scope |
| Privileges.PrivilegeList.Add | auth/auth.go:128-148 | nothing if the pair is there, else the pair and, if needed and missing, its companion |
| Privileges.PrivilegeList.AddSystem | auth/auth.go:150-169 | the companion of a data privilege on a system scope is appended unless it is there |
| Privileges.PrivilegeList.AddAll | auth/auth.go:113-120 | the pairs of another list, which may be missing or the list itself, are added in turn |
| Privileges.ListIsClosure | auth/auth.go:113-169 | any sequence of additions gives a list without duplicates that, as a set, is the closure of what was added |
| Privileges.ClosureIsIdempotent | auth/auth.go:113-169 | merging lists adds nothing beyond the closure |
| Privileges.CompanionExactly | auth/auth.go:150-216 | for a printed collection path the companion is present exactly when the scope is a system scope or it was added on its own |
| Privileges.SystemPrivileges | auth/auth.go:150-169 | for a printed collection in a system scope SELECT brings PRIV_SREAD and INSERT, UPDATE and DELETE bring PRIV_SWRITE, and the list has these for no other reason than that they were added |
| Windows.ValidateWindowTerm | algebra/window.go:156-183 | the downward loop with its moving cursor equals the recursive check |
| Windows.ValidateWindowTerms | algebra/window.go:331-347 | the first error of the first offending window, or none |
| Windows.AcceptedExactly | algebra/window.go:331-347 | a WINDOW clause is accepted if and only if names are unique and each window stands alone or refines an earlier one without conflict |
| Windows.AcceptedByClauses | algebra/window.go:156-183 | acceptance of a clause and of a reference, by what the windows have: no PARTITION BY over another window, no two ORDER BY in a row, and no frame below unless the reference is a bare name |
| Windows.ReferencesGoBack | algebra/window.go:331-347 | in an accepted clause every reference names a strictly earlier window |
| Windows.WindowTerm.RewriteToNewWindowTerm | algebra/window.go:120-154 | the error after its loop is unreachable; the term is unchanged or takes over what the scan finds |
| Windows.RewriteIsLookup | algebra/window.go:120-154 | the single downward scan takes over exactly the chain of windows that lookup by name visits |
| Windows.InheritsFromDeepest | algebra/window.go:131-151 | each clause comes from the deepest window of the chain that has it |
| Windows.OwnOrderIsLost | algebra/window.go:120-183 | a window's own ORDER BY is replaced by that of an indirect base |
| Windows.OwnOrderIsKeptExactly | algebra/window.go:120-183 | the own ORDER BY survives if and only if the deepest ORDER BY of the chain, if any, equals it |
| Windows.OrderOverBaseIsKept | algebra/window.go:120-183 | an ORDER BY directly over a base window always survives |
| Windows.OnlyOrderCanBeLost | algebra/window.go:120-183 | of the clauses of its own an accepted term can lose only ORDER BY: it has no partitioning, and its frame survives |
| Signatures.ComputeSignature | algebra/set_op.go:213-245 | the loop over fields equals the merge of the two signatures |
| Signatures.SignatureIsCombined | algebra/set_op.go:213-245 | the signature of any tree of UNION and UNION ALL is a function of the set of leaf signatures |
| Signatures.SameLeavesSameSignature | algebra/set_op.go:213-245 | trees with the same leaves have the same signature |
| Signatures.MergeIsASemilattice | algebra/set_op.go:213-245 | merging is commutative, associative and idempotent, and json absorbs |
| Recursion.CheckRecursion.Visit | algebra/check_recursion.go:36-148 | the visitor with its early exits succeeds exactly without NEST and UNNEST and with at most one reference in all |
| Recursion.CheckRecursive | algebra/check_recursion.go:17-28 | found without error exactly for one reference, not found without error exactly for none |
| Recursion.ReferencesAreMet | algebra/check_recursion.go:36-148 | the references counted are the occurrences of the alias in the flat list of FROM terms that the visitor meets |
| Recursion.NestIsMet | algebra/check_recursion.go:36-148 | a NEST or UNNEST counts exactly if it is in that list |
| Recursion.With.SplitRecursive | algebra/with.go:163-240 | exactly when the term is split, left alone or refused; after a split the anchor has no reference, the recursive arm exactly one, neither nests, the kind of union is kept, and the term had no ORDER BY, LIMIT or OFFSET |
| Hints.ProcessHint | algebra/hints.go:2016-2300 | the loop over fields in the order given, up to the first error, for all kinds of hints |
| Hints.ReadHintExactly | algebra/hints.go:1966-2300 | an object is valid if and only if each field is fine by itself, exactly one names the keyspace, and INDEX_ALL has two indexes |
| Hints.ValidityIgnoresOrder | algebra/hints.go:2302-2329 | whether a value is valid, nested arrays included, does not depend on the order in which fields are visited |
| HintNames.OtherNames | algebra/hints.go:1901-1934 | `index_combine`, `px_join_filter` and `no_px_join_filter` read as `index_all`, `join_filter` and `no_join_filter`, errors included |
| HintNames.AliasForKeyspace | algebra/hints.go:1966-1978 | an object with `alias` in place of `keyspace` reads as the same hint or fails alike |
| HintNames.FieldsByName | algebra/hints.go:1966-2224 | `keyspace`, `indexes` and `option` by name, with `build` and `probe` |
| HintNames.IndexHintNames | algebra/hints.go:1903-1916 | the eight names of index hints |
| HintNames.JoinHintNames | algebra/hints.go:1917-1928 | the six names of nested-loop and hash hints |
| HintNames.FilterHintNames | algebra/hints.go:1929-1934 | the five names of join filter hints |
| HintOrder.HintIgnoresOrderExactly | algebra/hints.go:1966-2300 | a valid object gives the same hint in every order of visits if and only if the index names of any two fields commute and no two fields set different options |
| HintOrder.TwoOptionsTell | algebra/hints.go:2205-2224 | fields option and OPTION with different values make the hint depend on the order of the visit |
| HintPrinting.PrintHints | algebra/hints.go:190-313 | the loop that updates the map equals adding the hints one by one |
| HintPrinting.PrintGroups | algebra/hints.go:237-313 | each key in use holds its hints in order, as an object if there is one and as an array if there are more |
| HintPrinting.HintReadsBackExactly | algebra/hints.go:588-599 | a hint reads back from its printed object, in every order of the fields, if and only if it is well formed |
| HintPrinting.ParsedAreWellFormed | algebra/hints.go:1883-1964 | every hint read from any object is well formed |
| HintPrinting.ParseObjectHints | algebra/hints.go:1883-1964 | the loop over keys, invalid ones becoming invalid hints |
| HintPrinting.RoundTripExactly | algebra/hints.go:1883-1964 | reading the grouped printed object gives back the same multiset of hints, in every order of visits, if and only if all hints are well formed |

## Left out

- Floating point: rounding, NaN, infinities and the split of numbers into integers and floats are not modelled; numbers are reals.
- Integer width: counts and offsets do not wrap around.
- Text units: characters stand for both bytes and runes; unquoted non-ASCII text in the path list parser is outside the model.
- `sort.Sort` is Go's; its outcome is modelled by a stable sort, and the statements about sorted values hold up to collation.
- PathValidator.ValidatePathOrContext: what it accepts and what the parser reads are each stated for any text; that the two agree is proved for fully quoted text only.
- Privileges.PrivilegeList.Add: as the source expects a correct target, data privileges on targets that overrun the scope test are excluded by a precondition, which `OverrunsExactly` makes checkable.
- SlidingFrames.SlideRows: FILTER is left out, because removal does not consult the filter; DISTINCT and EXCLUDE are not evaluated incrementally.
- RANGE and GROUPS frames other than from UNBOUNDED PRECEDING to CURRENT ROW are evaluated afresh for each row and have nothing incremental.
- Errors from evaluating operands, filters and ORDER BY expressions, and memory quota accounting.
- Aliasing between the set of a merged part and the cumulative value is covered within one call; what a caller does with the part afterwards is not.
- STDDEV forms: a square root over the variance. RANK, DENSE_RANK, ROW_NUMBER, PERCENT_RANK, CUME_DIST, RATIO_TO_REPORT: simple counters. AI_COMPUTE and AI_RERANK: external calls.
- Hints: ORDERED, invalid and derived hints, hint states, the sort for display, the JSON text layer and the comment style of hints.
- Privileges: the precompiled form of a pair and the checks made against a user's roles.
- WITH: the flag on a shared recursive subquery is modelled on values, and CYCLE and OPTIONS clauses are not.
- Expressions, formalization, plan building and execution of statements, transactions, users and roles, accounting, auditing, HTTP and storage.
