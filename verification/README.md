# Decimal column statistics aggregation and the ORC split payload

A Dafny model of two pieces of Hive.

**Decimal column statistics aggregator.** The metastore's aggregator
combines the per-partition statistics of a decimal column into one
table-level statistic. The statistics are low value, high value, null count
and number of distinct values (NDV), plus an optional serialised
distinct-value sketch ("bit vectors").

- It first scans the partitions in order, to decide whether the sketches
  can be merged. The scan rejects a partition that does not carry exactly
  one column object. It stops at the first partition whose sketch is
  missing or cannot merge with the first one, and the partitions after
  that one are not checked at all (see "Findings").
- When every partition reported statistics, or fewer than two did, the
  records are merged exactly. This is the direct path.
- Otherwise the missing partitions are extrapolated along the partitions'
  ordinals. When the sketches are usable, adjacent partitions are first
  grouped into pseudo-partitions whose NDV is the merged sketch's estimate.

**ORC split.** This is the input split of the ORC reader:

- its flags byte;
- how the constructor normalises its arguments;
- the order in which the payload writer and reader handle the flags, the
  deltas, the optional file tail, the optional file id and the file length;
- the two questions asked of a split: is it ACID, and can LLAP I/O read it.

Modules:

| file | module | contents |
|---|---|---|
| common.dfy | Common | Option/Result, Java `long`/`int` bounds, Java doubles (finite or not) and their `(long)` cast, Java integer division |
| sketch.dfy | Sketch | the distinct-value estimator as a record of operations, and folding sketches together |
| column_stats.dfy | ColumnStats | the statistics records, the exact merge, sums, maxima and densities |
| runs.dfy | Runs | maximal runs of consecutive ordinals, characterised, and shown unique |
| sorting.dfy | Sorting | `Collections.sort` on one statistic: a stable insertion sort, shown sorted, stable and a permutation |
| extrapolator.dfy | Extrapolator | `extrapolate`: the three sorts, the linear extrapolation of low, high and NDV, the null scaling, the NDV clamp |
| merge_scan.dfy | MergeScan | the object-count and sketch-mergeability scan |
| pseudo_partitions.dfy | PseudoPartitions | the pseudo-partition loop as written, and its run-based reference definition |
| aggregator.dfy | Aggregator | `aggregate`: path choice, the direct merge, the extrapolation path, and the corrected entry point |
| aggregator_properties.dfy | AggregatorProperties | what `aggregate` promises end to end |
| byte_order.dfy | ByteOrder | big-endian and two's-complement bytes of fixed-width integers, read back to the value written |
| orc_split.dfy | OrcSplit | split fields, flags, constructor, `isAcid`, `canUseLlapIo` |
| orc_payload.dfy | OrcPayload | the payload as a token stream: writer, reader, round trip and read errors |

Modelling conventions:

- **Numbers.** Decimals and finite doubles are `real`, and Java `long`s are
  unbounded `int`s. A double is either finite or non-finite: dividing by a
  zero NDV gives a non-finite density, which stays non-finite through the
  density sums. The cast of a double to `long` is written out: it
  truncates toward zero, saturates at the bounds, and sends NaN to 0.
- **Sort ties.** `extrapolate` sorts one list in place three times: by low
  value, then by high value, then by NDV. `Collections.sort` is stable, so
  each sort breaks its ties by the order the previous sort left. The model
  sorts the same way (`Extrapolator.ByLow`, `ByHigh`, `ByNdv`).
- **The estimator.** It is a parameter (`Sketch.SketchOps`): decode,
  canMerge, merge, estimate and emptyLike.
- **Bounds.** In density mode the extrapolation clamps the NDV from below
  by the **largest** contributor NDV, the tail of the ascending NDV sort
  (DecimalColumnStatsAggregator.java:331).
- **Divisors.** In the direct path the density average divides by the
  number of partition names (DecimalColumnStatsAggregator.java:135).
  `AggregatorProperties.DirectDivisorIsRecordCount` shows that with
  non-negative NDVs this equals dividing by the number of records.

## Model

| member | source | states |
|---|---|---|
| Common.LongCast | metastore/src/java/org/apache/hadoop/hive/metastore/hbase/stats/DecimalColumnStatsAggregator.java:336-337 | the `(long)` cast of a finite double truncates toward zero and saturates at the `long` bounds |
| Common.LongOfQuotient | metastore/src/java/org/apache/hadoop/hive/metastore/hbase/stats/DecimalColumnStatsAggregator.java:135-137 | a double quotient cast to `long`; a zero divisor gives LONG_MAX, LONG_MIN or 0 by the numerator's sign |
| Common.JavaDiv | metastore/src/java/org/apache/hadoop/hive/metastore/hbase/stats/DecimalColumnStatsAggregator.java:319 | `long` division rounds toward zero: for a positive divisor the quotient is the floor of a non-negative dividend and the ceiling of a negative one |
| ColumnStats.MergeInto | metastore/src/java/org/apache/hadoop/hive/metastore/hbase/stats/DecimalColumnStatsAggregator.java:107-124 | one merge step keeps the smaller low and the larger high (each taken from one side), adds the null counts, keeps the larger NDV when folding NDVs and the accumulator's otherwise, and keeps the accumulator's bit vectors |
| ColumnStats.MaxNdv | metastore/src/java/org/apache/hadoop/hive/metastore/hbase/stats/DecimalColumnStatsAggregator.java:98 | the running NDV lower bound is non-negative, bounds every NDV, and is 0 or attained |
| ColumnStats.TopNdv | metastore/src/java/org/apache/hadoop/hive/metastore/hbase/stats/DecimalColumnStatsAggregator.java:331 | the largest NDV of a non-empty list bounds every NDV and is attained |
| ColumnStats.Density | metastore/src/java/org/apache/hadoop/hive/metastore/hbase/stats/DecimalColumnStatsAggregator.java:100-101 | a partition's density is finite exactly when its NDV is non-zero |
| ColumnStats.SumDensity | metastore/src/java/org/apache/hadoop/hive/metastore/hbase/stats/DecimalColumnStatsAggregator.java:93-102 | the density sum is non-finite exactly when some partition's NDV is zero |
| ColumnStats.MergeAll | metastore/src/java/org/apache/hadoop/hive/metastore/hbase/stats/DecimalColumnStatsAggregator.java:107-124 | the exact merge: low is the attained minimum, high the attained maximum, nulls the sum, NDV the attained maximum (or the first record's when not folded), and the bit vectors are the first record's |
| ColumnStats.MaxNdvAtMostSum | metastore/src/java/org/apache/hadoop/hive/metastore/hbase/stats/DecimalColumnStatsAggregator.java:98-99 | with non-negative NDVs the density clamp's lower bound never exceeds its higher bound |
| Runs.SplitRuns | metastore/src/java/org/apache/hadoop/hive/metastore/hbase/stats/DecimalColumnStatsAggregator.java:191-216 | runs are non-empty; there are none exactly when there are no partitions, and never more runs than partitions |
| Runs.SplitRunsIsDecomposition | metastore/src/java/org/apache/hadoop/hive/metastore/hbase/stats/DecimalColumnStatsAggregator.java:191-216 | the runs concatenate to the input, each run has consecutive ordinals, and no two neighbouring runs could be joined |
| Runs.SplitRunsUnique | metastore/src/java/org/apache/hadoop/hive/metastore/hbase/stats/DecimalColumnStatsAggregator.java:191-216 | any decomposition with those properties is the one the loop builds |
| Sorting.SortBy | metastore/src/java/org/apache/hadoop/hive/metastore/hbase/stats/DecimalColumnStatsAggregator.java:270-275 | the sort returns a permutation of its input |
| Sorting.Insert | metastore/src/java/org/apache/hadoop/hive/metastore/hbase/stats/DecimalColumnStatsAggregator.java:270-275 | stable insertion adds one entry |
| Sorting.InsertPermutes | metastore/src/java/org/apache/hadoop/hive/metastore/hbase/stats/DecimalColumnStatsAggregator.java:270-275 | insertion adds exactly the inserted entry to the multiset |
| Sorting.SortBySorted | metastore/src/java/org/apache/hadoop/hive/metastore/hbase/stats/DecimalColumnStatsAggregator.java:270-275 | the result is ascending on the compared statistic |
| Sorting.SortByStable | metastore/src/java/org/apache/hadoop/hive/metastore/hbase/stats/DecimalColumnStatsAggregator.java:270-275 | for every value, the entries holding it keep their relative order |
| Sorting.SortedEnds | metastore/src/java/org/apache/hadoop/hive/metastore/hbase/stats/DecimalColumnStatsAggregator.java:276-280 | the head and tail are input entries and bracket every input value |
| Sorting.SortHeadIsFirstLeast | metastore/src/java/org/apache/hadoop/hive/metastore/hbase/stats/DecimalColumnStatsAggregator.java:276 | the head is the first input entry holding the smallest value |
| Sorting.SortTailIsLastGreatest | metastore/src/java/org/apache/hadoop/hive/metastore/hbase/stats/DecimalColumnStatsAggregator.java:277 | the tail is the last input entry holding the largest value |
| Sorting.SortKeepsDistinctPositions | metastore/src/java/org/apache/hadoop/hive/metastore/hbase/stats/DecimalColumnStatsAggregator.java:270-277 | sorting keeps contributors at distinct positions |
| Sorting.SortKeepsNdvSum | metastore/src/java/org/apache/hadoop/hive/metastore/hbase/stats/DecimalColumnStatsAggregator.java:333-335 | sorting keeps the NDV total |
| Extrapolator.ByLow | metastore/src/java/org/apache/hadoop/hive/metastore/hbase/stats/DecimalColumnStatsAggregator.java:267-275 | the low-value sort of the contributor list is a permutation of it |
| Extrapolator.ByHigh | metastore/src/java/org/apache/hadoop/hive/metastore/hbase/stats/DecimalColumnStatsAggregator.java:291-297 | the high-value sort, applied to the list the low sort left, is a permutation of the contributors |
| Extrapolator.ByNdv | metastore/src/java/org/apache/hadoop/hive/metastore/hbase/stats/DecimalColumnStatsAggregator.java:325-330 | the NDV sort, applied to the list the high sort left, is a permutation of the contributors |
| Extrapolator.ExtrapolateDown | metastore/src/java/org/apache/hadoop/hive/metastore/hbase/stats/DecimalColumnStatsAggregator.java:281-289 | the low value: the smaller sample when both positions agree, else the line through both samples read at 0 (rising) or at the right border (falling); with positions inside the range it is at most the smaller sample |
| Extrapolator.ExtrapolateUp | metastore/src/java/org/apache/hadoop/hive/metastore/hbase/stats/DecimalColumnStatsAggregator.java:303-311 | the high value: the smaller sample when both positions agree, else the line read at the right border (rising) or at 0 (falling); with distinct positions inside the range it is at least the larger sample |
| Extrapolator.ExtrapolatedLow | metastore/src/java/org/apache/hadoop/hive/metastore/hbase/stats/DecimalColumnStatsAggregator.java:269-289 | with positions inside the partition range, the extrapolated low is at most every contributor's low |
| Extrapolator.ExtrapolatedHigh | metastore/src/java/org/apache/hadoop/hive/metastore/hbase/stats/DecimalColumnStatsAggregator.java:291-311 | with distinct positions inside the range, the extrapolated high is at least every contributor's high |
| Extrapolator.LinearNdv | metastore/src/java/org/apache/hadoop/hive/metastore/hbase/stats/DecimalColumnStatsAggregator.java:343-356 | with distinct positions inside the range and NDVs that are non-negative longs, the linear NDV is at least every contributor's NDV |
| Extrapolator.Clamp | metastore/src/java/org/apache/hadoop/hive/metastore/hbase/stats/DecimalColumnStatsAggregator.java:338-342 | below the lower bound gives the lower bound, within the bounds keeps the estimate, above the higher bound gives the higher bound; with ordered bounds the result lies between them |
| Extrapolator.NdvSortBounds | metastore/src/java/org/apache/hadoop/hive/metastore/hbase/stats/DecimalColumnStatsAggregator.java:331-335 | the NDV sort's tail holds the largest contributor NDV, and the sorted list keeps the NDV total |
| Extrapolator.TopNdvAtMostSum | metastore/src/java/org/apache/hadoop/hive/metastore/hbase/stats/DecimalColumnStatsAggregator.java:331-335 | with non-negative NDVs the largest NDV is at most the NDV total |
| Extrapolator.EstimatedNdv | metastore/src/java/org/apache/hadoop/hive/metastore/hbase/stats/DecimalColumnStatsAggregator.java:321-357 | in density mode with a non-zero average density, the range over the density cast to `long` and clamped between the largest contributor NDV and the NDV total; otherwise the linear NDV |
| Extrapolator.Extrapolate | metastore/src/java/org/apache/hadoop/hive/metastore/hbase/stats/DecimalColumnStatsAggregator.java:257-365 | low and high are the extrapolated low and high; no bit vectors; nulls are the floor of the contributors' total scaled by numParts/numPartsWithStats; in density mode with a non-zero average density the NDV is the high-low range over that density, clamped between the largest contributor NDV and the NDV total; otherwise it is the linear NDV |
| Extrapolator.ScaleNulls | metastore/src/java/org/apache/hadoop/hive/metastore/hbase/stats/DecimalColumnStatsAggregator.java:313-319 | the scaled null count is the floor of total*numParts/numPartsWithStats |
| Extrapolator.ExtrapolatedNdvDensityBounds | metastore/src/java/org/apache/hadoop/hive/metastore/hbase/stats/DecimalColumnStatsAggregator.java:331-342 | in density mode with a non-zero average density and non-negative NDVs, the NDV is at least every contributor NDV and at most their total |
| Extrapolator.SingleContributorExtrapolation | metastore/src/java/org/apache/hadoop/hive/metastore/hbase/stats/DecimalColumnStatsAggregator.java:281-282 | one contributor is extrapolated to its own low, high and NDV |
| MergeScan.ScanSketches | metastore/src/java/org/apache/hadoop/hive/metastore/hbase/stats/DecimalColumnStatsAggregator.java:52-83 | a failure reports the object count of some partition without exactly one object; a kept estimator is the one adopted from the first partition |
| MergeScan.ScanKeepsFirstIff | metastore/src/java/org/apache/hadoop/hive/metastore/hbase/stats/DecimalColumnStatsAggregator.java:52-83 | once an estimator is adopted, the scan keeps it exactly when every remaining partition has one object and a sketch mergeable with it |
| MergeScan.ScanUsableIff | metastore/src/java/org/apache/hadoop/hive/metastore/hbase/stats/DecimalColumnStatsAggregator.java:52-87 | the scan yields the first partition's estimator exactly when every partition carries one object and a sketch mergeable with the first; otherwise it yields none (or fails) |
| MergeScan.ScanResultShape | metastore/src/java/org/apache/hadoop/hive/metastore/hbase/stats/DecimalColumnStatsAggregator.java:72-80 | after adopting an estimator, the scan ends with it or with none |
| MergeScan.ScanSucceedsOnWellFormed | metastore/src/java/org/apache/hadoop/hive/metastore/hbase/stats/DecimalColumnStatsAggregator.java:52-57 | with one object per partition the scan never throws |
| MergeScan.ScanFailureNamesCount | metastore/src/java/org/apache/hadoop/hive/metastore/hbase/stats/DecimalColumnStatsAggregator.java:53-56 | a scan failure reports the object count of a partition without exactly one object |
| MergeScan.ScanRejectsReachedMalformed | metastore/src/java/org/apache/hadoop/hive/metastore/hbase/stats/DecimalColumnStatsAggregator.java:52-57 | a partition the scan reaches with a wrong object count makes it fail with that count |
| PseudoPartitions.PlainContributors | metastore/src/java/org/apache/hadoop/hive/metastore/hbase/stats/DecimalColumnStatsAggregator.java:166-176 | without usable sketches, each partition contributes its own name, its ordinal as position, and its statistics |
| PseudoPartitions.Emit | metastore/src/java/org/apache/hadoop/hive/metastore/hbase/stats/DecimalColumnStatsAggregator.java:193-209 | closing the open run appends one pseudo-partition, keyed by the concatenated names, at the mean ordinal, with the run's merged statistics and the running estimate as NDV, and resets the run and the estimator |
| PseudoPartitions.RunStep | metastore/src/java/org/apache/hadoop/hive/metastore/hbase/stats/DecimalColumnStatsAggregator.java:185-235 | after each loop iteration the open run is non-empty and has merged statistics |
| PseudoPartitions.RunFold | metastore/src/java/org/apache/hadoop/hive/metastore/hbase/stats/DecimalColumnStatsAggregator.java:185-236 | after a non-empty input the open run is non-empty, and an open run always has merged statistics |
| PseudoPartitions.PseudoContributors | metastore/src/java/org/apache/hadoop/hive/metastore/hbase/stats/DecimalColumnStatsAggregator.java:185-248 | the loop plus the final emission yields pseudo-partitions exactly when there are partitions |
| PseudoPartitions.RunContributor | metastore/src/java/org/apache/hadoop/hive/metastore/hbase/stats/DecimalColumnStatsAggregator.java:217-233 | a pseudo-partition's low/high are its run's attained extremes, its nulls the run's total, its NDV the given estimate |
| PseudoPartitions.RunContributorAt | metastore/src/java/org/apache/hadoop/hive/metastore/hbase/stats/DecimalColumnStatsAggregator.java:193-209 | the k-th pseudo-partition is made from run k with the estimate of the estimator at the end of run k |
| PseudoPartitions.RunFoldSummarises | metastore/src/java/org/apache/hadoop/hive/metastore/hbase/stats/DecimalColumnStatsAggregator.java:185-236 | loop invariant: after every prefix, the emitted pseudo-partitions are those of all runs but the last, and the open state (names, ordinal sum, length, next ordinal, merged statistics, estimator) is the last run's |
| PseudoPartitions.EmitClosesRun | metastore/src/java/org/apache/hadoop/hive/metastore/hbase/stats/DecimalColumnStatsAggregator.java:237-248 | emitting the open run appends its pseudo-partition and leaves an empty estimator of the same kind |
| PseudoPartitions.PseudoContributorsMatchRuns | metastore/src/java/org/apache/hadoop/hive/metastore/hbase/stats/DecimalColumnStatsAggregator.java:180-248 | the loop emits exactly one pseudo-partition per maximal run of consecutive ordinals, in order |
| PseudoPartitions.PseudoContributorsKeepNulls | metastore/src/java/org/apache/hadoop/hive/metastore/hbase/stats/DecimalColumnStatsAggregator.java:232 | grouping into pseudo-partitions keeps the total null count |
| PseudoPartitions.ConsecutiveIndexSum | metastore/src/java/org/apache/hadoop/hive/metastore/hbase/stats/DecimalColumnStatsAggregator.java:212-216 | a consecutive run ends at its first ordinal plus its length minus one, and its ordinal sum is length times the mean of its ends |
| PseudoPartitions.RunPositionIsMidpoint | metastore/src/java/org/apache/hadoop/hive/metastore/hbase/stats/DecimalColumnStatsAggregator.java:195 | a pseudo-partition's position is the midpoint of its run's first and last ordinals |
| PseudoPartitions.RunPositionsAreMidpoints | metastore/src/java/org/apache/hadoop/hive/metastore/hbase/stats/DecimalColumnStatsAggregator.java:193-209 | every pseudo-partition built from the runs sits at the midpoint of two input partitions' ordinals |
| PseudoPartitions.PseudoPositionsAreMidpoints | metastore/src/java/org/apache/hadoop/hive/metastore/hbase/stats/DecimalColumnStatsAggregator.java:239 | every pseudo-partition sits at the midpoint of two input partitions' ordinals |
| PseudoPartitions.PseudoContributorsCoverLows | metastore/src/java/org/apache/hadoop/hive/metastore/hbase/stats/DecimalColumnStatsAggregator.java:220-225 | every partition's low is at least some pseudo-partition's low |
| Aggregator.IndexMap | metastore/src/java/org/apache/hadoop/hive/metastore/hbase/stats/DecimalColumnStatsAggregator.java:154-157 | the ordinal map holds every partition name, maps each to a position holding that name, and keeps the last such position |
| Aggregator.UsesDirectMerge | metastore/src/java/org/apache/hadoop/hive/metastore/hbase/stats/DecimalColumnStatsAggregator.java:89 | no extrapolation when every partition reported statistics or fewer than two did |
| Aggregator.FirstObjects | metastore/src/java/org/apache/hadoop/hive/metastore/hbase/stats/DecimalColumnStatsAggregator.java:94-96 | each partition's statistics are read from its first column object |
| Aggregator.EmptyEstimator | metastore/src/java/org/apache/hadoop/hive/metastore/hbase/stats/DecimalColumnStatsAggregator.java:84-87 | an empty estimator exists exactly when the scan settled on one |
| Aggregator.DensityEstimate | metastore/src/java/org/apache/hadoop/hive/metastore/hbase/stats/DecimalColumnStatsAggregator.java:135-137 | the direct density estimate is the range over the average density, cast to `long`; with no partition names or a non-finite density sum it is 0, and with a zero density sum it is the cast of a division by zero |
| Aggregator.DirectMerge | metastore/src/java/org/apache/hadoop/hive/metastore/hbase/stats/DecimalColumnStatsAggregator.java:89-151 | exact low/high/nulls; the NDV is the merged sketches' estimate; else in density mode the density estimate clamped three ways between the largest NDV and the NDV sum; else the largest NDV |
| Aggregator.Placed | metastore/src/java/org/apache/hadoop/hive/metastore/hbase/stats/DecimalColumnStatsAggregator.java:174-175 | every reporting partition is placed at an ordinal whose name is its own |
| Aggregator.DensityAverage | metastore/src/java/org/apache/hadoop/hive/metastore/hbase/stats/DecimalColumnStatsAggregator.java:250-251 | the contributors' average density is non-finite exactly when densities are used and some contributor's NDV is zero, and otherwise times the count gives the density sum |
| Aggregator.FirstUnplaceable | metastore/src/java/org/apache/hadoop/hive/metastore/hbase/stats/DecimalColumnStatsAggregator.java:166-176 | finds the first record that has no column object or whose name has no ordinal, or reports that there is none |
| Aggregator.ExtrapolationPath | metastore/src/java/org/apache/hadoop/hive/metastore/hbase/stats/DecimalColumnStatsAggregator.java:152-251 | the extrapolation path fails exactly when some record has no object or an unknown name, and then with the error of the first such record |
| Aggregator.Aggregate | metastore/src/java/org/apache/hadoop/hive/metastore/hbase/stats/DecimalColumnStatsAggregator.java:42-255 | no records is an error; a result carries the column name and the first record's column type |
| Aggregator.FirstMalformed | metastore/src/java/org/apache/hadoop/hive/metastore/hbase/stats/DecimalColumnStatsAggregator.java:53-56 | finds the first partition without exactly one object, or reports that there is none |
| Aggregator.AggregateValidated | metastore/src/java/org/apache/hadoop/hive/metastore/hbase/stats/DecimalColumnStatsAggregator.java:53-56 | the corrected entry point succeeds only when every partition carries exactly one object |
| AggregatorProperties.AggregateFailsOnlyOnUnknownName | metastore/src/java/org/apache/hadoop/hive/metastore/hbase/stats/DecimalColumnStatsAggregator.java:152-176 | with one object per partition, aggregation fails exactly on the extrapolation path with a reporting partition not among the names |
| AggregatorProperties.AggregateRejectsReachedMalformed | metastore/src/java/org/apache/hadoop/hive/metastore/hbase/stats/DecimalColumnStatsAggregator.java:52-57 | as written, a reached partition with a wrong object count fails the call with that count |
| AggregatorProperties.AggregateErrorsAfterScan | metastore/src/java/org/apache/hadoop/hive/metastore/hbase/stats/DecimalColumnStatsAggregator.java:89-176 | after a passing scan, the direct path fails exactly when a record has no object, and the extrapolation path exactly on an unplaceable record, with the first such record's error |
| AggregatorProperties.AggregateValidatedRejectsMalformed | metastore/src/java/org/apache/hadoop/hive/metastore/hbase/stats/DecimalColumnStatsAggregator.java:53-56 | the corrected entry point fails with a count exactly when some partition lacks one object, reports the first such count, and otherwise agrees with `aggregate` |
| AggregatorProperties.UncheckedMalformedAccepted | metastore/src/java/org/apache/hadoop/hive/metastore/hbase/stats/DecimalColumnStatsAggregator.java:64-67 | as written, a two-object partition after a sketch-less one is accepted, where the corrected entry point rejects it |
| AggregatorProperties.AggregateDirectMerge | metastore/src/java/org/apache/hadoop/hive/metastore/hbase/stats/DecimalColumnStatsAggregator.java:89-125 | on the direct path the result's low/high are attained extremes and its nulls the exact total |
| AggregatorProperties.AggregateTakesDirect | metastore/src/java/org/apache/hadoop/hive/metastore/hbase/stats/DecimalColumnStatsAggregator.java:84-151 | on the direct path a passing scan hands over to the exact merge with the empty estimator of the scan's kind |
| AggregatorProperties.AggregateDirectWithEstimator | metastore/src/java/org/apache/hadoop/hive/metastore/hbase/stats/DecimalColumnStatsAggregator.java:84-151 | with one object per partition, the direct path's result is the exact merge with an empty estimator exactly when the sketches are usable |
| AggregatorProperties.AggregateDirectSketchNdv | metastore/src/java/org/apache/hadoop/hive/metastore/hbase/stats/DecimalColumnStatsAggregator.java:126-130 | with usable sketches the direct NDV is the estimate of all sketches merged into an empty estimator |
| AggregatorProperties.AggregateDirectDensityNdv | metastore/src/java/org/apache/hadoop/hive/metastore/hbase/stats/DecimalColumnStatsAggregator.java:132-144 | without usable sketches in density mode the direct NDV is the density estimate clamped three ways between the largest NDV and the NDV sum, and with non-negative NDVs lies between them |
| AggregatorProperties.AggregateDirectPlainNdv | metastore/src/java/org/apache/hadoop/hive/metastore/hbase/stats/DecimalColumnStatsAggregator.java:145-149 | without usable sketches outside density mode the direct NDV is the largest record NDV |
| AggregatorProperties.DirectDivisorIsRecordCount | metastore/src/java/org/apache/hadoop/hive/metastore/hbase/stats/DecimalColumnStatsAggregator.java:135 | with non-negative NDVs, dividing the density sum by the number of names or of records gives the same direct result |
| AggregatorProperties.SinglePartitionWithoutSketch | metastore/src/java/org/apache/hadoop/hive/metastore/hbase/stats/DecimalColumnStatsAggregator.java:89-150 | one partition without a sketch is returned with its own statistics |
| AggregatorProperties.SinglePartitionWithSketch | metastore/src/java/org/apache/hadoop/hive/metastore/hbase/stats/DecimalColumnStatsAggregator.java:84-130 | one partition with a sketch gets the estimate of its sketch folded into an empty estimator |
| AggregatorProperties.ScanUsesDecodeAndCanMerge | metastore/src/java/org/apache/hadoop/hive/metastore/hbase/stats/DecimalColumnStatsAggregator.java:64-81 | the scan depends only on decode and canMerge |
| AggregatorProperties.SketchOpsUnusedWithoutUsableSketches | metastore/src/java/org/apache/hadoop/hive/metastore/hbase/stats/DecimalColumnStatsAggregator.java:84-87 | without usable sketches the merge, estimate and emptyLike operations do not affect the result |
| AggregatorProperties.PlacedData | metastore/src/java/org/apache/hadoop/hive/metastore/hbase/stats/DecimalColumnStatsAggregator.java:174-175 | placing partitions keeps their statistics in order |
| AggregatorProperties.ContributorsKeepNulls | metastore/src/java/org/apache/hadoop/hive/metastore/hbase/stats/DecimalColumnStatsAggregator.java:163-248 | the contributors carry together exactly the reported null total |
| AggregatorProperties.ContributorsPositionsWithin | metastore/src/java/org/apache/hadoop/hive/metastore/hbase/stats/DecimalColumnStatsAggregator.java:174 | every contributor's position lies in [0, number of partitions] |
| AggregatorProperties.ContributorsCoverLows | metastore/src/java/org/apache/hadoop/hive/metastore/hbase/stats/DecimalColumnStatsAggregator.java:163-248 | every partition's low is at least some contributor's low |
| AggregatorProperties.ExtrapolationUnfolds | metastore/src/java/org/apache/hadoop/hive/metastore/hbase/stats/DecimalColumnStatsAggregator.java:250-251 | on the extrapolation path the result is `extrapolate` over the contributors with their average density |
| AggregatorProperties.PathSucceeds | metastore/src/java/org/apache/hadoop/hive/metastore/hbase/stats/DecimalColumnStatsAggregator.java:250-251 | with every reporting partition named, the extrapolation path succeeds with `extrapolate` over at least one contributor and their average density |
| AggregatorProperties.ExtrapolatedNullsScaled | metastore/src/java/org/apache/hadoop/hive/metastore/hbase/stats/DecimalColumnStatsAggregator.java:313-319 | extrapolated nulls are the floor of the reported total times partitions over reporting partitions |
| AggregatorProperties.ExtrapolatedLowBelowEveryPartition | metastore/src/java/org/apache/hadoop/hive/metastore/hbase/stats/DecimalColumnStatsAggregator.java:269-289 | the extrapolated low is at most every reported low |
| AggregatorProperties.ExtrapolatedHighAboveEveryPartition | metastore/src/java/org/apache/hadoop/hive/metastore/hbase/stats/DecimalColumnStatsAggregator.java:291-311 | without usable sketches and with distinct names, the extrapolated high is at least every reported high |
| AggregatorProperties.PlainPositionsDistinct | metastore/src/java/org/apache/hadoop/hive/metastore/hbase/stats/DecimalColumnStatsAggregator.java:154-176 | distinct partition names sit at distinct positions |
| OrcSplit.NewSplit | ql/src/java/org/apache/hadoop/hive/ql/io/orc/OrcSplit.java:71-86 | the footer flag is set iff a tail is given; projected size falls back to the length when not positive; file length becomes LONG_MAX when not positive, so it is always positive |
| OrcSplit.IsAcid | ql/src/java/org/apache/hadoop/hive/ql/io/orc/OrcSplit.java:202-204 | a split is for sure ACID when it has a base or deltas; `OrcPayload.ConstructedSplitRoundTrip` shows the answer survives the payload |
| OrcSplit.CanUseLlapIo | ql/src/java/org/apache/hadoop/hive/ql/io/orc/OrcSplit.java:220-222 | LLAP I/O can read an original split without deltas; `OrcPayload.ConstructedSplitRoundTrip` shows the answer survives the payload |
| OrcSplit.FlagsOf | ql/src/java/org/apache/hadoop/hive/ql/io/orc/OrcSplit.java:108-113 | a split's flags never announce both kinds of file id |
| OrcSplit.EncodeFlags | ql/src/java/org/apache/hadoop/hive/ql/io/orc/OrcSplit.java:58-62 | bit 1 is the footer, 2 original, 4 base, 8 a `Long` file id, 16 a writable file id, each set exactly when its fact holds; the byte is at most 31 |
| OrcSplit.DecodeFlags | ql/src/java/org/apache/hadoop/hive/ql/io/orc/OrcSplit.java:139-147 | decoding fails, with the both-ids error, exactly when both file-id bits are set |
| OrcSplit.DecodeEncodeFlags | ql/src/java/org/apache/hadoop/hive/ql/io/orc/OrcSplit.java:107-147 | decoding recovers footer, original, base and the file-id kind from the encoded byte |
| OrcSplit.EncodeDecodeFlags | ql/src/java/org/apache/hadoop/hive/ql/io/orc/OrcSplit.java:139-144 | re-encoding a decoded byte gives its low five bits |
| OrcSplit.SplitFlagsDecode | ql/src/java/org/apache/hadoop/hive/ql/io/orc/OrcSplit.java:108-113 | a split's key is never both a `Long` and a writable, so its flags byte never carries both id bits and always decodes |
| ByteOrder.FromBigEndianInverse | ql/src/java/org/apache/hadoop/hive/ql/io/orc/OrcSplit.java:115 | big-endian bytes read back to the value written |
| ByteOrder.SignedBytesInverse | ql/src/java/org/apache/hadoop/hive/ql/io/orc/OrcSplit.java:131 | two's-complement bytes read back to the signed value written |
| OrcPayload.ReadBytes | ql/src/java/org/apache/hadoop/hive/ql/io/orc/OrcSplit.java:157-159 | a full read returns exactly the requested bytes, in order, and leaves the rest; a stream of bytes fails exactly when too short |
| OrcPayload.ReadBytesOfBytes | ql/src/java/org/apache/hadoop/hive/ql/io/orc/OrcSplit.java:119-124 | the tail bytes written are read back in full |
| OrcPayload.ReadBytesOfShortStream | ql/src/java/org/apache/hadoop/hive/ql/io/orc/OrcSplit.java:159 | too few bytes end the read |
| OrcPayload.ReadIntOfInt | ql/src/java/org/apache/hadoop/hive/ql/io/orc/OrcSplit.java:150 | the delta count written as an `int` is read back |
| OrcPayload.ReadLongOfLong | ql/src/java/org/apache/hadoop/hive/ql/io/orc/OrcSplit.java:170 | a `long` written is read back |
| OrcPayload.ReadVInt | ql/src/java/org/apache/hadoop/hive/ql/io/orc/OrcSplit.java:157 | the tail length reads exactly when a variable-length integer comes next |
| OrcPayload.ReadHeader | ql/src/java/org/apache/hadoop/hive/ql/io/orc/OrcSplit.java:137 | the file split header reads exactly when it comes next |
| OrcPayload.ReadDeltas | ql/src/java/org/apache/hadoop/hive/ql/io/orc/OrcSplit.java:149-155 | the delta loop reads as many records as the count, and none for a count of zero or less |
| OrcPayload.ReadDeltasOfDeltas | ql/src/java/org/apache/hadoop/hive/ql/io/orc/OrcSplit.java:115-118 | the deltas written are read back in order |
| OrcPayload.WritePayload | ql/src/java/org/apache/hadoop/hive/ql/io/orc/OrcSplit.java:107-131 | the payload starts with the split's flags byte, and its length is the flags, the four count bytes, the deltas, the tail when there is a footer, eight or one key tokens, and the eight length bytes |
| OrcPayload.Write | ql/src/java/org/apache/hadoop/hive/ql/io/orc/OrcSplit.java:88-100 | the written stream is the file split header followed by the payload |
| OrcPayload.ReadTail | ql/src/java/org/apache/hadoop/hive/ql/io/orc/OrcSplit.java:156-162 | a negative length fails allocating the buffer; a read tail is as long as its announced length, its bytes follow the length, and the rest follows them |
| OrcPayload.ReadKey | ql/src/java/org/apache/hadoop/hive/ql/io/orc/OrcSplit.java:163-169 | with neither id flag the previous key is kept; with the long flag a `Long` key is read from eight bytes; with the writable flag a synthetic id is read from one token |
| OrcPayload.ReadFields | ql/src/java/org/apache/hadoop/hive/ql/io/orc/OrcSplit.java:134-171 | reading keeps the projected size, and without a footer flag keeps the previous tail |
| OrcPayload.ReadPayload | ql/src/java/org/apache/hadoop/hive/ql/io/orc/OrcSplit.java:139-171 | the payload read leaves the header and projected size alone |
| OrcPayload.ReadAnnounced | ql/src/java/org/apache/hadoop/hive/ql/io/orc/OrcSplit.java:156-170 | the tail, key and file length are the only fields the trailing part changes |
| OrcPayload.ReadKeyAndLength | ql/src/java/org/apache/hadoop/hive/ql/io/orc/OrcSplit.java:163-170 | reading the key and file length changes no other field |
| OrcPayload.ReadTailOfTail | ql/src/java/org/apache/hadoop/hive/ql/io/orc/OrcSplit.java:156-162 | a written tail (length, then bytes) is read back |
| OrcPayload.ReadKeyOfKey | ql/src/java/org/apache/hadoop/hive/ql/io/orc/OrcSplit.java:163-169 | a `Long` or writable key is read back; with neither flag the previous key is kept |
| OrcPayload.PayloadThenRead | ql/src/java/org/apache/hadoop/hive/ql/io/orc/OrcSplit.java:107-132 | the payload read back gives the split's flags, deltas, tail, key and file length |
| OrcPayload.AnnouncedThenRead | ql/src/java/org/apache/hadoop/hive/ql/io/orc/OrcSplit.java:119-131 | the optional tail, optional key and file length read back |
| OrcPayload.KeyAndLengthThenRead | ql/src/java/org/apache/hadoop/hive/ql/io/orc/OrcSplit.java:126-131 | a written key and file length read back; a key of neither kind leaves the previous key |
| OrcPayload.WriteThenRead | ql/src/java/org/apache/hadoop/hive/ql/io/orc/OrcSplit.java:134-171 | write then read gives the split back, except fields the payload does not carry, and leaves what follows untouched |
| OrcPayload.ConstructedSplitRoundTrip | ql/src/java/org/apache/hadoop/hive/ql/io/orc/OrcSplit.java:64-69 | a constructed split read into a fresh one loses only an unserialisable key and the projected size, and keeps its ACID and LLAP answers |
| OrcPayload.BothIdsRejected | ql/src/java/org/apache/hadoop/hive/ql/io/orc/OrcSplit.java:145-147 | a flags byte naming both file-id kinds fails the read right after the byte |
| OrcPayload.NegativeDeltaCountReadsNone | ql/src/java/org/apache/hadoop/hive/ql/io/orc/OrcSplit.java:150-151 | a negative delta count reads no deltas |
| OrcPayload.NegativeTailLengthRejected | ql/src/java/org/apache/hadoop/hive/ql/io/orc/OrcSplit.java:157-158 | a negative tail length fails allocating the buffer |
| OrcPayload.TruncatedFileLength | ql/src/java/org/apache/hadoop/hive/ql/io/orc/OrcSplit.java:170 | a payload cut inside the file length ends the read |

## Left out

- Extrapolate: the source iterates hash maps keyed by partition name, so the list it sorts starts in hash order. The model starts from input order. The order only decides which of several tied entries heads or ends a sort; the bound lemmas hold for any order.
- Extrapolate: `Collections.sort` on 32 or more entries uses TimSort, which may reorder ties or throw when a comparator breaks its contract. The NDV comparator never returns 0, and the model takes every sort as the stable insertion sort.
- Extrapolate: long overflow of the null and NDV sums is not modelled, because counts are unbounded integers.
- Decimal `compareTo`, used by the low and high sorts, is taken as numeric comparison of exact reals.
- Non-finite doubles are one value: positive infinity, negative infinity and NaN are not told apart. A finite range divided by any of them casts to 0, so the results do not depend on which. Negative zero is not modelled; it arises only from a negative NDV.
- Duplicate partition names among the reporting records, and pseudo-partition keys that collide: the source's hash maps would overwrite entries. The model keeps every record in a sequence.
- Aggregate: the first record, in order, with no column object or with a name that has no ordinal decides the error (NoStatsObject or UnknownPartition); the source throws a `NoSuchElementException` or a null-pointer exception there. Empty input is NoPartitionStats; the source dereferences a null result.
- The distinct-value sketch internals (bit-vector format, FM sketch or HyperLogLog) are not modelled: the sketch is a record of abstract operations.
- Double rounding, and decimal-to-double and back conversion (HBaseUtils.getDoubleValue and the thrift decimal), are not modelled: values are exact reals.
- The Hadoop file split's own serialisation (path, start, length) is one token. Its hosts are not serialised by it and are not modelled.
- The variable-length integer coding of the tail length, the delta records, and the synthetic file id's serialisation are one token each. The protobuf file tail is identified with its minimal serialised bytes, so parsing it back is the identity.
- A writable file key of a class other than the synthetic file id would be read back as a synthetic id. The model's writable key is always a synthetic id.
- The trace logging, the byte-array buffering in `write`, `toString`, and the plain getters are not modelled.

## Findings

| source | as written | input that shows it | evidently intended | confidence | as-written member | corrected member |
|---|---|---|---|---|---|---|
| metastore/src/java/org/apache/hadoop/hive/metastore/hbase/stats/DecimalColumnStatsAggregator.java:52-83 | the "exactly one column object" check runs inside the mergeability scan, which stops at the first partition without a usable sketch, so later partitions are never checked; one with two objects is silently reduced to its first | partitions p=0 (one object, no bit vectors) and p=1 (two objects), both among the partition names | every partition with a column-object count other than one is rejected, as the exception message says | medium, not executed | Aggregator.Aggregate, AggregatorProperties.UncheckedMalformedAccepted | Aggregator.AggregateValidated, AggregatorProperties.AggregateValidatedRejectsMalformed |
