# Instance usage log — a Dafny model

This project models the usage-metering core of the cloud controller's instance reporting
(`InstanceUsageLog`). Instances are sampled periodically into snapshots of cumulative disk and
network I/O counters. The core turns those snapshots into per-group usage summaries for a
caller-given reporting period, and purges old samples. It has four parts:

- **Snapshot locator** (`locator.dfy`, module `Locator`): finds the timestamp of a snapshot
  before an instant by querying backward in windows of 2, 4, 16, 256, 65536 hours, and then
  Integer.MAX_VALUE hours, which is where `(int)Math.pow(i, 2)` saturates. It stops at the first
  non-empty window and answers the timestamp of the *last row iterated*, or 0.
- **Per-instance accumulator** (`accumulator.dfy`, module `Accumulator`): the class
  `InstanceDataAccumulator` keeps the first snapshot, which is fixed at construction, and the
  last snapshot, which `Update` replaces. Its value is `AccumulatorState`, which holds the
  formulas: the truncated interval, elapsed seconds with Java's truncating division, and the
  linear extrapolation of a counter delta. The extrapolation is exact over `real`, scaled by
  `1 - gap/duration` for each overhanging side, and truncated toward zero like Java's `(long)`.
- **Row folding and aggregation** (`aggregation.dfy`, module `Aggregation`; `usage_log.dfy`,
  module `UsageLog`): `GetUsageSummaryMap` locates the anchor, computes the fetch bound, runs
  the joined query, folds the rows into one accumulator per uuid (`AccumulateRows`), then folds
  the accumulators into one `UsageSummary` per summary key (`SummarizeAccumulators`). Each loop
  is proved against a specification function (`FoldRows`, `Report`).
- **Purge** (`usage_log.dfy`): `PurgeLog` is the two DELETE statements as filters over the
  snapshot and attribute tables.

`types.dfy` holds the entities and the Java arithmetic. `seqs.dfy` holds a generic order-keeping
filter, which is the in-memory form of a WHERE clause.

The summary key (`InstanceSummaryKey`) is not part of this model. It is a parameter
`keyOf: InstanceAttributes -> K`, so every aggregation property holds for any key function.

Where the code behaves differently from what its names and comments suggest, the model follows
the code. For example, `findLatestAllSnapshotBefore` is documented as finding "the latest snapshot
before timestampMs" (lines 85-88) but does something narrower. The code behaves as follows:

- An instance with a single fetched row never gets a last snapshot. Reading it throws a
  NullPointerException, so the whole report fails (`UsageError.NullLastSnapshot`,
  `SingleRowFailsReport`).
- The locator answers the timestamp of the last row of an unordered query (`LocateNotMaximum`).
  That is the greatest timestamp before the instant only over a time-ordered store
  (`LocateMaxWhenSorted`).
- The locator never looks past its horizon, which is the start of the last window it queries
  (`HorizonIsLastWindow`). A snapshot at or before the horizon is never found
  (`LocateMissesBeyondHorizon`). The answer is 0 exactly when no snapshot lies strictly between
  the horizon and the instant (`LocateZeroIff`).
- The two overhang corrections multiply. Equal overhangs `k` on both sides scale the delta by
  `(d-k)/d` twice (`ExtrapolationCompounds`).
- Extrapolated values are not clamped. A factor `1 - gap/d` is negative when its sample lies
  more than one period outside the period, so an instance can contribute a negative amount
  (`ExtrapolationNegativeAfterPeriod`). When both factors are negative their product is positive
  (`ExtrapolationBothSidesNegativeFactors`). A product between -1 and 0 truncates to 0. An
  instance sampled only after the period can still contribute a positive amount although none
  of its samples lies in the period (`ExtrapolationPositiveAfterPeriod`); a small product
  truncates to 0.
- The main fetch excludes the anchor snapshot. Over a time-ordered store with a non-zero anchor,
  no fetched snapshot predates the period, so the start-side correction never applies
  (`NoEarlyFirstSnapshotWhenSorted`). With no anchor the lower bound is 0, and the strict
  comparison also drops every snapshot at timestamp 0 or earlier (`FetchDropsEpochWithoutAnchor`).

## Model

| member | source | states |
|---|---|---|
| `Types.JavaDiv` | clc/modules/reporting/src/main/java/com/eucalyptus/reporting/instance/InstanceUsageLog.java:259 | Java long division truncates toward zero: quotient bounds for both signs of the dividend |
| `Types.TruncateToLong` | clc/modules/reporting/src/main/java/com/eucalyptus/reporting/instance/InstanceUsageLog.java:287 | the `(long)` cast truncates toward zero: the result is within one of the value, on its side of zero |
| `Locator.NextMultiplier` | clc/modules/reporting/src/main/java/com/eucalyptus/reporting/instance/InstanceUsageLog.java:100 | the multiplier update is the square while the square fits in an int, and Integer.MAX_VALUE once it does not; it grows strictly until it saturates |
| `Locator.Window` | clc/modules/reporting/src/main/java/com/eucalyptus/reporting/instance/InstanceUsageLog.java:104-114 | the query returns exactly the stored snapshots strictly inside (t - 1h·i, t) |
| `Locator.LatestFrom` | clc/modules/reporting/src/main/java/com/eucalyptus/reporting/instance/InstanceUsageLog.java:98-121 | the search as a function: the last row of the first non-empty window, 0 once the loop guard fails; its properties are `LocateZeroIff`, `LocateInRange` and `LocateMaxWhenSorted` |
| `Locator.Horizon` | clc/modules/reporting/src/main/java/com/eucalyptus/reporting/instance/InstanceUsageLog.java:98-100 | when the first window is queried, the horizon is at or after the epoch and at or below that window's start; with no window queried it is t |
| `Locator.HorizonIsLastWindow` | clc/modules/reporting/src/main/java/com/eucalyptus/reporting/instance/InstanceUsageLog.java:98-100 | the horizon is the start of the last window the loop queries: that multiplier is reached through the update chain, the next one fails the loop guard, and no queried window starts below it |
| `Locator.FindLatestAllSnapshotBefore` | clc/modules/reporting/src/main/java/com/eucalyptus/reporting/instance/InstanceUsageLog.java:90-131 | the loop, with its inner pass and its break on a non-zero find, computes `LatestFrom(snaps, t, 2)`; it answers 0 when t <= 2h |
| `Locator.MultiplierSequence` | clc/modules/reporting/src/main/java/com/eucalyptus/reporting/instance/InstanceUsageLog.java:98-100 | the multiplier runs 2, 4, 16, 256, 65536, Integer.MAX_VALUE and then stays there |
| `Locator.WindowsNested` | clc/modules/reporting/src/main/java/com/eucalyptus/reporting/instance/InstanceUsageLog.java:104-114 | each window contains every row of a narrower one |
| `Locator.LocateZeroIff` | clc/modules/reporting/src/main/java/com/eucalyptus/reporting/instance/InstanceUsageLog.java:92-121 | the answer is 0 if and only if no stored snapshot lies strictly between the horizon and t |
| `Locator.LocateInRange` | clc/modules/reporting/src/main/java/com/eucalyptus/reporting/instance/InstanceUsageLog.java:98-120 | a non-zero answer is a stored timestamp strictly between the horizon and t; it is the last row of the window of a multiplier the loop reaches, lies strictly inside that window, and every window queried before it was empty |
| `Locator.LocateMaxWhenSorted` | clc/modules/reporting/src/main/java/com/eucalyptus/reporting/instance/InstanceUsageLog.java:107-118 | over a time-ordered store, a non-zero answer is the greatest stored timestamp before t |
| `Locator.LocateNotMaximum` | clc/modules/reporting/src/main/java/com/eucalyptus/reporting/instance/InstanceUsageLog.java:115-118 | with rows at 9.5h and then 9h before an instant at 10h, the answer is 9h, not the maximum |
| `Locator.LocateMissesBeyondHorizon` | clc/modules/reporting/src/main/java/com/eucalyptus/reporting/instance/InstanceUsageLog.java:98-99 | a snapshot at 0.5h is not found from 3h: the answer is 0 |
| `Accumulator.AccumulatorState.DurationPeriod` | clc/modules/reporting/src/main/java/com/eucalyptus/reporting/instance/InstanceUsageLog.java:262-267 | the truncated interval lies inside both the period and the sampled interval, and each end is one of the two candidates |
| `Accumulator.AccumulatorState.DurationSecs` | clc/modules/reporting/src/main/java/com/eucalyptus/reporting/instance/InstanceUsageLog.java:255-260 | the whole seconds of the truncated interval, truncated toward zero, for either sign of its length |
| `Accumulator.InstanceDataAccumulator.constructor` | clc/modules/reporting/src/main/java/com/eucalyptus/reporting/instance/InstanceUsageLog.java:236-243 | attributes, first snapshot and period are recorded; the last snapshot is left unset |
| `Accumulator.InstanceDataAccumulator.Update` | clc/modules/reporting/src/main/java/com/eucalyptus/reporting/instance/InstanceUsageLog.java:245-248 | the last snapshot is replaced unconditionally and nothing else changes |
| `Accumulator.InstanceDataAccumulator.GetInstanceAttributes` | clc/modules/reporting/src/main/java/com/eucalyptus/reporting/instance/InstanceUsageLog.java:250-253 | getInstanceAttributes returns the attributes fixed at construction; the constructor's contract states what they are |
| `Accumulator.InstanceDataAccumulator.GetDurationSecs` | clc/modules/reporting/src/main/java/com/eucalyptus/reporting/instance/InstanceUsageLog.java:255-260 | the getter equals the whole seconds of `GetDurationPeriod`'s period, and is non-negative when the samples are ordered and overlap the period |
| `Accumulator.InstanceDataAccumulator.GetDurationPeriod` | clc/modules/reporting/src/main/java/com/eucalyptus/reporting/instance/InstanceUsageLog.java:262-267 | the getter's period lies inside the report period and inside the sampled interval |
| `Accumulator.InstanceDataAccumulator.GetDiskIoMegs` | clc/modules/reporting/src/main/java/com/eucalyptus/reporting/instance/InstanceUsageLog.java:269-288 | with both samples inside the period, the getter returns the exact disk counter delta |
| `Accumulator.InstanceDataAccumulator.GetNetIoMegs` | clc/modules/reporting/src/main/java/com/eucalyptus/reporting/instance/InstanceUsageLog.java:290-309 | with both samples inside the period, the getter returns the exact network counter delta |
| `Accumulator.ExtrapolatedDelta` | clc/modules/reporting/src/main/java/com/eucalyptus/reporting/instance/InstanceUsageLog.java:271-286 | the counter delta scaled by `1 - gap/duration` for an early first sample and again for a late last sample, before the cast; its properties are `ExtrapolationFactors`, `ExtrapolationBounded` and `ExtrapolationCompounds` |
| `Accumulator.AccumulatorState.DiskIoMegs` | clc/modules/reporting/src/main/java/com/eucalyptus/reporting/instance/InstanceUsageLog.java:269-288 | getDiskIoMegs on the accumulator's value: the extrapolated disk delta truncated toward zero; its properties are `ExtrapolationExactInside` and `ExtrapolationBounded` |
| `Accumulator.AccumulatorState.NetIoMegs` | clc/modules/reporting/src/main/java/com/eucalyptus/reporting/instance/InstanceUsageLog.java:290-309 | getNetIoMegs on the accumulator's value: the same formula over the network counter |
| `Accumulator.DurationSecsOfDurationPeriod` | clc/modules/reporting/src/main/java/com/eucalyptus/reporting/instance/InstanceUsageLog.java:255-267 | the seconds of getDurationPeriod's period equal getDurationSecs |
| `Accumulator.DurationSecsBounded` | clc/modules/reporting/src/main/java/com/eucalyptus/reporting/instance/InstanceUsageLog.java:255-260 | for ordered samples that overlap the period, the seconds are non-negative and fit in both the period and the sampled interval |
| `Accumulator.ExtrapolationExactInside` | clc/modules/reporting/src/main/java/com/eucalyptus/reporting/instance/InstanceUsageLog.java:269-309 | with both samples inside the period, disk and network results are exactly the counter deltas |
| `Accumulator.ExtrapolationBounded` | clc/modules/reporting/src/main/java/com/eucalyptus/reporting/instance/InstanceUsageLog.java:269-288 | for a non-decreasing counter and overhangs of at most one period, the result lies between 0 and the observed delta |
| `Accumulator.ExtrapolationFactors` | clc/modules/reporting/src/main/java/com/eucalyptus/reporting/instance/InstanceUsageLog.java:279-286 | the extrapolated delta is the observed delta times a start factor and an end factor, each 1 when its sample lies inside the period |
| `Accumulator.ExtrapolationCompounds` | clc/modules/reporting/src/main/java/com/eucalyptus/reporting/instance/InstanceUsageLog.java:279-286 | equal overhangs k on both sides scale the delta by ((d-k)/d) twice |
| `Accumulator.ExtrapolationHalfHourScenario` | clc/modules/reporting/src/main/java/com/eucalyptus/reporting/instance/InstanceUsageLog.java:269-288 | samples at 0 (100) and 1h (150) reported for [0.5h, 1.5h] give 25 megs |
| `Accumulator.ExtrapolationNegativeAfterPeriod` | clc/modules/reporting/src/main/java/com/eucalyptus/reporting/instance/InstanceUsageLog.java:283-287 | samples at 1500 (0) and 3500 (100) reported for [0, 1000] give -150 megs |
| `Accumulator.ExtrapolationPositiveAfterPeriod` | clc/modules/reporting/src/main/java/com/eucalyptus/reporting/instance/InstanceUsageLog.java:283-287 | samples at 1100 (0) and 1500 (100) reported for [0, 1000], both after the period, give 50 megs |
| `Accumulator.ExtrapolationBothSidesNegativeFactors` | clc/modules/reporting/src/main/java/com/eucalyptus/reporting/instance/InstanceUsageLog.java:279-287 | samples at -2000 (0) and 3000 (100) reported for [0, 1000] make both factors -1 and give 100 megs |
| `Aggregation.FoldRows` | clc/modules/reporting/src/main/java/com/eucalyptus/reporting/instance/InstanceUsageLog.java:174-193 | every accumulator built by the fold carries the report period |
| `Aggregation.FoldRowsSpec` | clc/modules/reporting/src/main/java/com/eucalyptus/reporting/instance/InstanceUsageLog.java:182-191 | one accumulator per uuid with rows; attributes and first snapshot from its first row; last snapshot is its last row if it has two or more rows, else unset |
| `Aggregation.AllUpdatedIff` | clc/modules/reporting/src/main/java/com/eucalyptus/reporting/instance/InstanceUsageLog.java:182-191 | every accumulator has a last snapshot if and only if every fetched uuid has at least two rows |
| `Aggregation.UsageSummary.AddDiskIoMegs` | clc/modules/reporting/src/main/java/com/eucalyptus/reporting/instance/InstanceUsageLog.java:205 | `addDiskIoMegs`: adds to the disk total only; its effect on a bucket is stated by `BucketOfAdd` |
| `Aggregation.UsageSummary.AddNetworkIoMegs` | clc/modules/reporting/src/main/java/com/eucalyptus/reporting/instance/InstanceUsageLog.java:206 | `addNetworkIoMegs`: adds to the network total only; its effect on a bucket is stated by `BucketOfAdd` |
| `Aggregation.UsageSummary.SumFromPeriodType` | clc/modules/reporting/src/main/java/com/eucalyptus/reporting/instance/InstanceUsageLog.java:207-208 | `sumFromPeriodType`: adds the period's whole seconds to its instance type's total; its effect on a bucket is stated by `TypeSecsAdd` |
| `Aggregation.SumOverRemove` | clc/modules/reporting/src/main/java/com/eucalyptus/reporting/instance/InstanceUsageLog.java:195-210 | a bucket's total is the same whichever accumulator is taken out first, so HashMap iteration order does not matter |
| `Aggregation.ReportAdd` | clc/modules/reporting/src/main/java/com/eucalyptus/reporting/instance/InstanceUsageLog.java:195-210 | adding one accumulator to the report of the others gives the report of all of them: buckets exist exactly for the keys of some accumulator and hold their members' sums |
| `Aggregation.BucketOfEmpty` | clc/modules/reporting/src/main/java/com/eucalyptus/reporting/instance/InstanceUsageLog.java:201-203 | a newly created bucket is the empty summary |
| `Aggregation.BucketOfAdd` | clc/modules/reporting/src/main/java/com/eucalyptus/reporting/instance/InstanceUsageLog.java:204-208 | a bucket that gains an accumulator grows by its disk, network and per-type seconds |
| `Aggregation.Contribute` | clc/modules/reporting/src/main/java/com/eucalyptus/reporting/instance/InstanceUsageLog.java:205-208 | the three additions of one accumulator to its bucket; `BucketOfAdd` states that they grow a bucket by exactly that accumulator |
| `Aggregation.AddToReport` | clc/modules/reporting/src/main/java/com/eucalyptus/reporting/instance/InstanceUsageLog.java:197-208 | one iteration of the second loop: look up or create the bucket of the accumulator's key and contribute to it; `ReportAdd` states that it extends the report of the accumulators visited so far |
| `Aggregation.Report` | clc/modules/reporting/src/main/java/com/eucalyptus/reporting/instance/InstanceUsageLog.java:195-210 | the reference definition of the second loop's result: one bucket per key that some accumulator maps to, summing those accumulators; `ReportAt` and `ReportAdd` state its properties |
| `Aggregation.TypeSecsAdd` | clc/modules/reporting/src/main/java/com/eucalyptus/reporting/instance/InstanceUsageLog.java:207-208 | per-type seconds grow only for the accumulator's instance type |
| `Aggregation.TypeSecsAt` | clc/modules/reporting/src/main/java/com/eucalyptus/reporting/instance/InstanceUsageLog.java:207-208 | a type has a seconds entry exactly when some accumulator of the bucket has that type, and the entry sums those accumulators |
| `Aggregation.ReportAt` | clc/modules/reporting/src/main/java/com/eucalyptus/reporting/instance/InstanceUsageLog.java:195-210 | a key has a bucket exactly when some accumulator maps to it, and the bucket sums exactly those accumulators |
| `UsageLog.FetchBound` | clc/modules/reporting/src/main/java/com/eucalyptus/reporting/instance/InstanceUsageLog.java:160-161 | the bound reaches past the period's end by twice the anchor's distance from its beginning; it is at least the end when the anchor is not after the beginning |
| `UsageLog.Anchor` | clc/modules/reporting/src/main/java/com/eucalyptus/reporting/instance/InstanceUsageLog.java:158-159 | the anchor is the locator's answer for the period's beginning; `FetchCoversPeriod` states that it is not after the beginning |
| `UsageLog.FetchRows` | clc/modules/reporting/src/main/java/com/eucalyptus/reporting/instance/InstanceUsageLog.java:158-172 | the rows of the main fetch: the join between the anchor and the fetch bound; `FetchExcludesAnchor` and `FetchDropsEpochWithoutAnchor` state what it returns |
| `UsageLog.JoinQuery` | clc/modules/reporting/src/main/java/com/eucalyptus/reporting/instance/InstanceUsageLog.java:165-172 | the rows are exactly the attribute/snapshot pairs of one uuid with the snapshot strictly between the bounds |
| `UsageLog.GetUsageSummaryMap` | clc/modules/reporting/src/main/java/com/eucalyptus/reporting/instance/InstanceUsageLog.java:138-226 | the report succeeds if and only if every fetched instance has a last snapshot; then it is `Report` of the folded rows; otherwise the failure names an instance without one |
| `UsageLog.AccumulateRows` | clc/modules/reporting/src/main/java/com/eucalyptus/reporting/instance/InstanceUsageLog.java:174-193 | the uuid map holds a fresh accumulator per uuid whose state is `FoldRows` of the rows |
| `UsageLog.SummarizeAccumulators` | clc/modules/reporting/src/main/java/com/eucalyptus/reporting/instance/InstanceUsageLog.java:195-210 | visiting the accumulators in any order gives `Report` of all of them, or fails on one without a last snapshot |
| `UsageLog.FetchCoversPeriod` | clc/modules/reporting/src/main/java/com/eucalyptus/reporting/instance/InstanceUsageLog.java:158-161 | for a non-negative beginning the anchor is not after it and the fetch bound reaches the period's end |
| `UsageLog.FetchExcludesAnchor` | clc/modules/reporting/src/main/java/com/eucalyptus/reporting/instance/InstanceUsageLog.java:165-172 | every fetched row lies strictly between the anchor and the fetch bound |
| `UsageLog.FetchDropsEpochWithoutAnchor` | clc/modules/reporting/src/main/java/com/eucalyptus/reporting/instance/InstanceUsageLog.java:165-172 | with no anchor, snapshots at 0, 1h and 2h reported for [0.5h, 1.5h] fetch only the rows at 1h and 2h |
| `UsageLog.NoEarlyFirstSnapshotWhenSorted` | clc/modules/reporting/src/main/java/com/eucalyptus/reporting/instance/InstanceUsageLog.java:158-172 | over a time-ordered store with a non-zero anchor, no accumulator's first snapshot predates the period |
| `UsageLog.SingleRowFailsReport` | clc/modules/reporting/src/main/java/com/eucalyptus/reporting/instance/InstanceUsageLog.java:183-191 | an instance with exactly one fetched row leaves an accumulator without a last snapshot, which fails the report |
| `UsageLog.PurgeLog` | clc/modules/reporting/src/main/java/com/eucalyptus/reporting/instance/InstanceUsageLog.java:52-82 | purgeLog as a function on the two tables: delete the snapshots older than the cutoff, then the attribute records without a snapshot; its properties are `PurgeLogSpec` and `PurgeLogTwice` |
| `UsageLog.PurgeLogSpec` | clc/modules/reporting/src/main/java/com/eucalyptus/reporting/instance/InstanceUsageLog.java:61-75 | no snapshot older than the cutoff survives; every newer one survives with all its copies; an attribute record survives if and only if a surviving snapshot has its uuid |
| `UsageLog.PurgeLogTwice` | clc/modules/reporting/src/main/java/com/eucalyptus/reporting/instance/InstanceUsageLog.java:61-75 | purging at c1 and then at c2 is purging once at max(c1, c2) |
| `UsageLog.PurgeLogIdempotent` | clc/modules/reporting/src/main/java/com/eucalyptus/reporting/instance/InstanceUsageLog.java:52-82 | purging twice with the same cutoff is purging once |

## Left out

- Persistence and transactions: `EntityWrapper`, the Hibernate and SQL queries, `commit`, `rollback`, and the wrapping of store failures in `RuntimeException`. The store is two in-memory sequences, and queries are filters over them. Store errors are not modelled.
- Logging, the `@ConfigurableClass` annotation and the synchronized singleton accessor have no behaviour to state.
- IEEE double rounding in the disk and network extrapolation. The model computes over exact reals. It also leaves out the saturation of `(long)` outside the long range.
- The internals of `Period` are not part of this model, including any check its constructor makes. `Period` is a plain pair of timestamps, so the inverted interval that `getDurationPeriod` can build (line 266) is kept as it is.
- 64-bit wrap-around of timestamp arithmetic is not modelled (loop guard, window start, fetch bound). All integers are unbounded.
- Locator.FindLatestAllSnapshotBefore: requires an instant of at most 1h·Integer.MAX_VALUE. Beyond that, the saturated multiplier stays at Integer.MAX_VALUE and the source loop never ends when nothing is found.
- UsageLog.GetUsageSummaryMap: requires a period of positive duration, and so says nothing about the others. With zero duration the source divides by zero only when a sample lies outside the period; the double result is then infinite or NaN, which the exact-real model cannot represent. With zero duration and both samples inside the period the source returns the exact delta, and a negative duration is computed without any division by zero; the model covers neither case.
- `InstanceSummaryKey` is not part of this model; it is the parameter `keyOf`. `InstanceUsageSummary` is not part of this model either. Its `addDiskIoMegs` and `addNetworkIoMegs` are additions to running totals. `sumFromPeriodType` is modelled as adding the period's whole seconds to its instance type's total.
- Row order of the joined query: the source's query has no ORDER BY. The model returns rows in snapshot store order, then attribute order.
- Iteration order of the accumulator HashMap is an arbitrary choice in `SummarizeAccumulators`. The result does not depend on it, except for which instance the failure names.
