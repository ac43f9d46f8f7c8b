/** InstanceUsageLog: the usage summary of a period, composed of the locator, the fetch, the two
    folds, and the retention purge of the log. */
module UsageLog {
  import opened Types
  import opened Seqs
  import opened Locator
  import opened Accumulator
  import opened Aggregation

  /** The upper bound of the main fetch: the period's end plus twice the distance from the
      anchor to the period's beginning. */
  function FetchBound(period: Period, anchorMs: int): (afterEnd: int)
    ensures anchorMs <= period.beginningMs ==> afterEnd >= period.endingMs
    ensures anchorMs < period.beginningMs ==> afterEnd > period.endingMs
    ensures afterEnd - period.endingMs == 2 * (period.beginningMs - anchorMs)
  {
    period.endingMs + (period.beginningMs - anchorMs) * 2
  }

  /** The attribute records of one snapshot's instance, each paired with the snapshot. */
  function PairWith(instances: seq<InstanceAttributes>, s: Snapshot): (rows: seq<Row>)
    ensures forall r | r in rows :: r.snapshot == s && r.attrs in instances && r.attrs.uuid == s.uuid
    ensures forall a | a in instances && a.uuid == s.uuid :: Row(a, s) in rows
    decreases |instances|
  {
    if instances == [] then []
    else
      var a := instances[|instances| - 1];
      PairWith(instances[..|instances| - 1], s) + (if a.uuid == s.uuid then [Row(a, s)] else [])
  }

  /** The joined query of the main fetch: every (attributes, snapshot) pair of one uuid whose
      snapshot lies strictly between the two bounds, in snapshot store order. */
  function JoinQuery(snaps: seq<Snapshot>, instances: seq<InstanceAttributes>,
                     afterMs: int, beforeMs: int): (rows: seq<Row>)
    ensures forall r | r in rows ::
              r.attrs in instances && r.snapshot in snaps && r.attrs.uuid == r.snapshot.uuid &&
              afterMs < r.snapshot.timestampMs < beforeMs
    ensures forall a, s | a in instances && s in snaps && a.uuid == s.uuid &&
                          afterMs < s.timestampMs < beforeMs :: Row(a, s) in rows
    decreases |snaps|
  {
    if snaps == [] then []
    else
      var s := snaps[|snaps| - 1];
      JoinQuery(snaps[..|snaps| - 1], instances, afterMs, beforeMs) +
        (if afterMs < s.timestampMs < beforeMs then PairWith(instances, s) else [])
  }

  /** The anchor of a report: the locator's answer for the period's beginning. */
  function Anchor(store: Store, period: Period): int
    requires period.beginningMs <= OneHourMs * IntMax
  {
    LatestFrom(store.snapshots, period.beginningMs, 2)
  }

  /** The rows the main fetch of a report returns. */
  function FetchRows(store: Store, period: Period): seq<Row>
    requires period.beginningMs <= OneHourMs * IntMax
  {
    var anchor := Anchor(store, period);
    JoinQuery(store.snapshots, store.instances, anchor, FetchBound(period, anchor))
  }

  /** getUsageSummaryMap: locate the anchor, fetch, fold the rows into one accumulator per uuid,
      then fold the accumulators into one summary per key. The report fails as a whole as soon
      as an accumulator without a last snapshot is read. */
  method GetUsageSummaryMap<K(==)>(store: Store, period: Period, keyOf: InstanceAttributes -> K)
    returns (result: Result<map<K, UsageSummary>>)
    requires Extrapolatable(period)
    requires period.beginningMs <= OneHourMs * IntMax
    ensures var states := FoldRows(FetchRows(store, period), period);
            (result.Success? <==> AllUpdated(states)) &&
            (result.Success? ==> result.value == Report(states, keyOf, states.Keys)) &&
            (result.Failure? ==> result.error.uuid in states && states[result.error.uuid].last.None?)
  {
    var latestSnapshotBeforeMs := FindLatestAllSnapshotBefore(store.snapshots, period.beginningMs);
    var afterEnd := period.endingMs + (period.beginningMs - latestSnapshotBeforeMs) * 2;
    assert afterEnd == FetchBound(period, Anchor(store, period));
    var list := JoinQuery(store.snapshots, store.instances, latestSnapshotBeforeMs, afterEnd);
    assert list == FetchRows(store, period);
    ghost var states := FoldRows(list, period);
    var dataAccumulatorMap := AccumulateRows(list, period);
    result := SummarizeAccumulators(dataAccumulatorMap, keyOf, states);
  }

  /** The first loop: create an accumulator on a uuid's first row, update it on every later one. */
  method AccumulateRows(list: seq<Row>, period: Period)
    returns (dataAccumulatorMap: map<Uuid, InstanceDataAccumulator>)
    ensures dataAccumulatorMap.Keys == FoldRows(list, period).Keys
    ensures forall u | u in dataAccumulatorMap :: fresh(dataAccumulatorMap[u])
    ensures forall u | u in dataAccumulatorMap ::
              dataAccumulatorMap[u].State() == FoldRows(list, period)[u]
  {
    dataAccumulatorMap := map[];
    var n := 0;
    while n < |list|
      invariant 0 <= n <= |list|
      invariant dataAccumulatorMap.Keys == FoldRows(list[..n], period).Keys
      invariant forall u | u in dataAccumulatorMap :: fresh(dataAccumulatorMap[u])
      invariant forall u, v | u in dataAccumulatorMap && v in dataAccumulatorMap && u != v ::
                  dataAccumulatorMap[u] != dataAccumulatorMap[v]
      invariant forall u | u in dataAccumulatorMap ::
                  dataAccumulatorMap[u].State() == FoldRows(list[..n], period)[u]
    {
      assert list[..n + 1][..n] == list[..n];
      var row := list[n];
      var uuid := row.attrs.uuid;
      if uuid !in dataAccumulatorMap {
        var accumulator := new InstanceDataAccumulator(row.attrs, row.snapshot, period);
        dataAccumulatorMap := dataAccumulatorMap[uuid := accumulator];
      } else {
        var accumulator := dataAccumulatorMap[uuid];
        accumulator.Update(row.snapshot);
      }
      n := n + 1;
    }
    assert list[..n] == list;
  }

  /** The second loop: visit the accumulators in any order, look up or create the bucket of each
      one's key and add its disk, network and per-type seconds; reading an accumulator whose last
      snapshot is unset fails the report. */
  method SummarizeAccumulators<K(==)>(dataAccumulatorMap: map<Uuid, InstanceDataAccumulator>,
                                      keyOf: InstanceAttributes -> K,
                                      ghost states: map<Uuid, AccumulatorState>)
    returns (result: Result<map<K, UsageSummary>>)
    requires dataAccumulatorMap.Keys == states.Keys
    requires forall u | u in states :: Extrapolatable(states[u].period)
    requires forall u | u in dataAccumulatorMap :: dataAccumulatorMap[u].State() == states[u]
    ensures (result.Success? <==> AllUpdated(states)) &&
            (result.Success? ==> result.value == Report(states, keyOf, states.Keys)) &&
            (result.Failure? ==> result.error.uuid in states && states[result.error.uuid].last.None?)
  {
    var usageMap: map<K, UsageSummary> := map[];
    var remaining := dataAccumulatorMap.Keys;
    while remaining != {}
      invariant remaining <= dataAccumulatorMap.Keys
      invariant Ready(states, dataAccumulatorMap.Keys - remaining)
      invariant usageMap == Report(states, keyOf, dataAccumulatorMap.Keys - remaining)
      decreases remaining
    {
      var uuid :| uuid in remaining;
      var accumulator := dataAccumulatorMap[uuid];
      var key := keyOf(accumulator.GetInstanceAttributes());
      if accumulator.lastSnapshot.None? {
        return Failure(NullLastSnapshot(uuid));
      }
      ghost var done := dataAccumulatorMap.Keys - remaining;
      ReportAdd(states, keyOf, done, uuid);
      assert done + {uuid} == dataAccumulatorMap.Keys - (remaining - {uuid});
      var ius := if key in usageMap then usageMap[key] else EmptySummary;
      ius := ius.AddDiskIoMegs(accumulator.GetDiskIoMegs());
      ius := ius.AddNetworkIoMegs(accumulator.GetNetIoMegs());
      ius := ius.SumFromPeriodType(accumulator.GetDurationPeriod(),
                                   accumulator.GetInstanceAttributes().instanceType);
      usageMap := usageMap[key := ius];
      remaining := remaining - {uuid};
    }
    assert dataAccumulatorMap.Keys - remaining == states.Keys;
    return Success(usageMap);
  }

  /** A non-negative period beginning is always covered by the fetch: the anchor is 0 or an
      instant before the beginning, so the fetch bound reaches at least the period's end. */
  lemma FetchCoversPeriod(store: Store, period: Period)
    requires 0 <= period.beginningMs <= OneHourMs * IntMax
    ensures Anchor(store, period) <= period.beginningMs
    ensures FetchBound(period, Anchor(store, period)) >= period.endingMs
  {
    LocateInRange(store.snapshots, period.beginningMs, 2);
  }

  /** The anchor snapshot itself is never fetched; every fetched row lies strictly between the
      anchor and the fetch bound. */
  lemma FetchExcludesAnchor(store: Store, period: Period)
    requires period.beginningMs <= OneHourMs * IntMax
    ensures var anchor := Anchor(store, period);
            forall r | r in FetchRows(store, period) ::
              anchor < r.snapshot.timestampMs < FetchBound(period, anchor)
  {
  }

  /** Without an anchor the lower bound is 0 and stays strict: a snapshot at the epoch is not
      fetched. Snapshots at 0, 1h and 2h reported for [0.5h, 1.5h] fetch only the rows at 1h
      and 2h. */
  lemma FetchDropsEpochWithoutAnchor()
    ensures var a := InstanceAttributes("a", "m1.small", []);
            var snaps := [Snapshot("a", 0, 0, 0), Snapshot("a", OneHourMs, 0, 0),
                          Snapshot("a", 2 * OneHourMs, 0, 0)];
            var period := Period(OneHourMs / 2, OneHourMs + OneHourMs / 2);
            Anchor(Store(snaps, [a]), period) == 0 &&
            FetchRows(Store(snaps, [a]), period) == [Row(a, snaps[1]), Row(a, snaps[2])]
  {
    var a := InstanceAttributes("a", "m1.small", []);
    var snaps := [Snapshot("a", 0, 0, 0), Snapshot("a", OneHourMs, 0, 0),
                  Snapshot("a", 2 * OneHourMs, 0, 0)];
    var period := Period(OneHourMs / 2, OneHourMs + OneHourMs / 2);
    assert Anchor(Store(snaps, [a]), period) == 0;
    var bound := FetchBound(period, 0);
    assert bound == 5 * OneHourMs / 2;
    assert PairWith([a], snaps[1]) == [Row(a, snaps[1])];
    assert PairWith([a], snaps[2]) == [Row(a, snaps[2])];
    assert snaps[..2][..1] == [snaps[0]];
    assert snaps[..2] == [snaps[0], snaps[1]];
    assert snaps[..1] == [snaps[0]];
    assert [snaps[0]][..0] == [];
    assert JoinQuery([snaps[0]], [a], 0, bound) == [];
    assert JoinQuery(snaps[..2], [a], 0, bound) == [Row(a, snaps[1])];
    assert JoinQuery(snaps, [a], 0, bound) == [Row(a, snaps[1]), Row(a, snaps[2])];
  }

  /** Over a time-ordered log with a non-zero anchor no fetched snapshot predates the period, so
      no accumulator ever takes the start-side extrapolation. */
  lemma NoEarlyFirstSnapshotWhenSorted(store: Store, period: Period)
    requires period.beginningMs <= OneHourMs * IntMax
    requires SortedByTime(store.snapshots)
    requires Anchor(store, period) != 0
    ensures var states := FoldRows(FetchRows(store, period), period);
            forall uuid | uuid in states :: states[uuid].first.timestampMs >= period.beginningMs
  {
    var rows := FetchRows(store, period);
    var states := FoldRows(rows, period);
    LocateMaxWhenSorted(store.snapshots, period.beginningMs, 2);
    forall uuid | uuid in states ensures states[uuid].first.timestampMs >= period.beginningMs {
      FoldRowsSpec(rows, period, uuid);
      var rs := RowsOf(rows, uuid);
      assert rs[0] in rs;
    }
  }

  /** An instance with a single fetched row aborts the whole report. */
  lemma SingleRowFailsReport(store: Store, period: Period, r: Row)
    requires period.beginningMs <= OneHourMs * IntMax
    requires r in FetchRows(store, period)
    requires |RowsOf(FetchRows(store, period), r.attrs.uuid)| == 1
    ensures !AllUpdated(FoldRows(FetchRows(store, period), period))
  {
    AllUpdatedIff(FetchRows(store, period), period);
  }

  /** The first DELETE keeps the snapshots whose timestamp is not before the cutoff. */
  function NotOlderThan(earlierThanMs: int): Snapshot -> bool
  {
    (s: Snapshot) => s.timestampMs >= earlierThanMs
  }

  /** The second DELETE keeps the attribute records that still join some snapshot. */
  function HasSnapshotIn(snaps: seq<Snapshot>): InstanceAttributes -> bool
  {
    (a: InstanceAttributes) => exists s | s in snaps :: s.uuid == a.uuid
  }

  /** purgeLog: delete the snapshots older than the cutoff, then the attribute records left
      without any snapshot. */
  function PurgeLog(store: Store, earlierThanMs: int): Store
  {
    var snapshots := Filter(store.snapshots, NotOlderThan(earlierThanMs));
    Store(snapshots, Filter(store.instances, HasSnapshotIn(snapshots)))
  }

  /** After a purge no snapshot is older than the cutoff, every newer one survives with all its
      copies, and an attribute record survives exactly when a surviving snapshot has its uuid. */
  lemma PurgeLogSpec(store: Store, earlierThanMs: int)
    ensures var purged := PurgeLog(store, earlierThanMs);
            (forall s | s in purged.snapshots :: s.timestampMs >= earlierThanMs) &&
            (forall s :: multiset(purged.snapshots)[s] ==
                           if s.timestampMs >= earlierThanMs then multiset(store.snapshots)[s] else 0) &&
            (forall a | a in purged.instances :: a in store.instances) &&
            (forall a | a in store.instances ::
               a in purged.instances <==> exists s | s in purged.snapshots :: s.uuid == a.uuid)
  {
    forall s ensures multiset(PurgeLog(store, earlierThanMs).snapshots)[s] ==
                       if s.timestampMs >= earlierThanMs then multiset(store.snapshots)[s] else 0 {
      FilterCount(store.snapshots, NotOlderThan(earlierThanMs), s);
    }
  }

  /** Purging at one cutoff and then another is purging once at the later of the two. */
  lemma PurgeLogTwice(store: Store, c1: int, c2: int)
    ensures PurgeLog(PurgeLog(store, c1), c2) == PurgeLog(store, Max(c1, c2))
  {
    var s1 := Filter(store.snapshots, NotOlderThan(c1));
    var s2 := Filter(s1, NotOlderThan(c2));
    FilterFilter(store.snapshots, NotOlderThan(c1), NotOlderThan(c2), NotOlderThan(Max(c1, c2)));
    FilterFilter(store.instances, HasSnapshotIn(s1), HasSnapshotIn(s2), HasSnapshotIn(s2));
  }

  /** Purging twice with the same cutoff is purging once. */
  lemma PurgeLogIdempotent(store: Store, earlierThanMs: int)
    ensures PurgeLog(PurgeLog(store, earlierThanMs), earlierThanMs) == PurgeLog(store, earlierThanMs)
  {
    PurgeLogTwice(store, earlierThanMs, earlierThanMs);
  }
}
