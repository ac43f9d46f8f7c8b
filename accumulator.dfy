/** The per-instance data accumulator: the first and the last snapshot of one instance within
    the fetched rows, and the truncation and extrapolation of its usage to the report period. */
module Accumulator {
  import opened Types

  /** A period whose duration can serve as the extrapolation denominator. */
  predicate Extrapolatable(period: Period)
  {
    period.beginningMs < period.endingMs
  }

  /** `1 - gap/duration`: the share of the period that an overhang of `gap` ms leaves. */
  function Scale(gap: int, duration: int): real
    requires duration > 0
  {
    1.0 - (gap as real) / (duration as real)
  }

  /** The counter delta between two snapshots, scaled down once for a first sample that
      predates the period and once more for a last sample that postdates it, before truncation. */
  function ExtrapolatedDelta(firstCounter: int, firstTs: int, lastCounter: int, lastTs: int,
                             period: Period): real
    requires Extrapolatable(period)
  {
    var duration := period.endingMs - period.beginningMs;
    var raw := (lastCounter - firstCounter) as real;
    var afterStart :=
      if firstTs < period.beginningMs then raw * Scale(period.beginningMs - firstTs, duration)
      else raw;
    if lastTs > period.endingMs then afterStart * Scale(lastTs - period.endingMs, duration)
    else afterStart
  }

  /** Whole seconds of a period, with Java's truncating long division. */
  function PeriodSecs(p: Period): int
  {
    JavaDiv(p.endingMs - p.beginningMs, 1000)
  }

  /** The value of an accumulator: attributes and first snapshot fixed at construction, the last
      snapshot set by `update` (unset until the instance's second row), and the report period. */
  datatype AccumulatorState = AccumulatorState(
    attrs: InstanceAttributes,
    first: Snapshot,
    last: Option<Snapshot>,
    period: Period)
  {
    /** getDurationPeriod: the overlap of the period with the sampled interval. */
    function DurationPeriod(): (p: Period)
      requires last.Some?
      ensures period.beginningMs <= p.beginningMs && p.endingMs <= period.endingMs
      ensures first.timestampMs <= p.beginningMs && p.endingMs <= last.value.timestampMs
      ensures p.beginningMs == period.beginningMs || p.beginningMs == first.timestampMs
      ensures p.endingMs == period.endingMs || p.endingMs == last.value.timestampMs
    {
      Period(Max(period.beginningMs, first.timestampMs), Min(period.endingMs, last.value.timestampMs))
    }

    /** The samples are in time order and their interval meets the (well-formed) period. */
    predicate SamplesOverlap()
      requires last.Some?
    {
      first.timestampMs <= last.value.timestampMs &&
      first.timestampMs <= period.endingMs &&
      period.beginningMs <= last.value.timestampMs &&
      period.beginningMs <= period.endingMs
    }

    /** getDurationSecs: the length of the truncated interval in whole seconds, truncated toward
        zero (a truncated interval can be inverted, and then the count is negative). */
    function DurationSecs(): (secs: int)
      requires last.Some?
      ensures var p := DurationPeriod();
              var len := p.endingMs - p.beginningMs;
              (len >= 0 ==> 0 <= secs * 1000 <= len < secs * 1000 + 1000) &&
              (len < 0 ==> secs * 1000 - 1000 < len <= secs * 1000 <= 0)
    {
      var truncatedBeginMs := Max(period.beginningMs, first.timestampMs);
      var truncatedEndMs := Min(period.endingMs, last.value.timestampMs);
      JavaDiv(truncatedEndMs - truncatedBeginMs, 1000)
    }

    /** getDiskIoMegs: the extrapolated disk I/O delta, truncated toward zero. */
    function DiskIoMegs(): int
      requires last.Some? && Extrapolatable(period)
    {
      TruncateToLong(ExtrapolatedDelta(first.cumulativeDiskIoMegs, first.timestampMs,
                                       last.value.cumulativeDiskIoMegs, last.value.timestampMs, period))
    }

    /** getNetIoMegs: the same formula over the network I/O counter. */
    function NetIoMegs(): int
      requires last.Some? && Extrapolatable(period)
    {
      TruncateToLong(ExtrapolatedDelta(first.cumulativeNetworkIoMegs, first.timestampMs,
                                       last.value.cumulativeNetworkIoMegs, last.value.timestampMs, period))
    }
  }

  /** The per-instance accumulator object: `lastSnapshot` is the only field that changes. */
  class InstanceDataAccumulator {
    const insAttrs: InstanceAttributes
    const firstSnapshot: Snapshot
    var lastSnapshot: Option<Snapshot>
    const period: Period

    /** The constructor records the first snapshot and leaves the last one unset. */
    constructor (insAttrs: InstanceAttributes, snapshot: Snapshot, period: Period)
      ensures State() == AccumulatorState(insAttrs, snapshot, None, period)
    {
      this.insAttrs := insAttrs;
      this.firstSnapshot := snapshot;
      this.lastSnapshot := None;
      this.period := period;
    }

    function State(): AccumulatorState
      reads this
    {
      AccumulatorState(insAttrs, firstSnapshot, lastSnapshot, period)
    }

    /** update: the given snapshot replaces the last one unconditionally. */
    method Update(snapshot: Snapshot)
      modifies this
      ensures State() == old(State()).(last := Some(snapshot))
    {
      lastSnapshot := Some(snapshot);
    }

    function GetInstanceAttributes(): InstanceAttributes
    {
      insAttrs
    }

    /** getDurationSecs: agrees with the seconds of getDurationPeriod's period, and is
        non-negative when the samples are ordered and overlap the period. */
    function GetDurationSecs(): (secs: int)
      reads this
      requires lastSnapshot.Some?
      ensures secs == PeriodSecs(GetDurationPeriod())
      ensures State().SamplesOverlap() ==> 0 <= secs
    {
      DurationSecsOfDurationPeriod(State());
      if State().SamplesOverlap() then
        DurationSecsBounded(State());
        State().DurationSecs()
      else
        State().DurationSecs()
    }

    /** getDurationPeriod: the part of the report period that the two samples span. */
    function GetDurationPeriod(): (p: Period)
      reads this
      requires lastSnapshot.Some?
      ensures period.beginningMs <= p.beginningMs && p.endingMs <= period.endingMs
      ensures firstSnapshot.timestampMs <= p.beginningMs && p.endingMs <= lastSnapshot.value.timestampMs
    {
      State().DurationPeriod()
    }

    /** getDiskIoMegs: with both samples inside the period, the exact counter delta. */
    function GetDiskIoMegs(): (megs: int)
      reads this
      requires lastSnapshot.Some? && Extrapolatable(period)
      ensures period.beginningMs <= firstSnapshot.timestampMs &&
              lastSnapshot.value.timestampMs <= period.endingMs ==>
                megs == lastSnapshot.value.cumulativeDiskIoMegs - firstSnapshot.cumulativeDiskIoMegs
    {
      if period.beginningMs <= firstSnapshot.timestampMs && lastSnapshot.value.timestampMs <= period.endingMs then
        ExtrapolationExactInside(State());
        State().DiskIoMegs()
      else
        State().DiskIoMegs()
    }

    /** getNetIoMegs: with both samples inside the period, the exact counter delta. */
    function GetNetIoMegs(): (megs: int)
      reads this
      requires lastSnapshot.Some? && Extrapolatable(period)
      ensures period.beginningMs <= firstSnapshot.timestampMs &&
              lastSnapshot.value.timestampMs <= period.endingMs ==>
                megs == lastSnapshot.value.cumulativeNetworkIoMegs - firstSnapshot.cumulativeNetworkIoMegs
    {
      if period.beginningMs <= firstSnapshot.timestampMs && lastSnapshot.value.timestampMs <= period.endingMs then
        ExtrapolationExactInside(State());
        State().NetIoMegs()
      else
        State().NetIoMegs()
    }
  }

  /** The seconds of the truncated interval are the seconds of the period getDurationPeriod
      returns, so summing either gives the same per-type total. */
  lemma DurationSecsOfDurationPeriod(st: AccumulatorState)
    requires st.last.Some?
    ensures st.DurationSecs() == PeriodSecs(st.DurationPeriod())
  {
  }

  /** When the samples overlap the period in order, the counted seconds are non-negative and
      fit both in the period and in the sampled interval. */
  lemma DurationSecsBounded(st: AccumulatorState)
    requires st.last.Some?
    requires st.SamplesOverlap()
    ensures 0 <= st.DurationSecs()
    ensures st.DurationSecs() * 1000 <= st.period.endingMs - st.period.beginningMs
    ensures st.DurationSecs() * 1000 <= st.last.value.timestampMs - st.first.timestampMs
  {
  }

  /** Samples inside the period are not extrapolated: the result is the exact counter delta. */
  lemma ExtrapolationExactInside(st: AccumulatorState)
    requires st.last.Some? && Extrapolatable(st.period)
    requires st.period.beginningMs <= st.first.timestampMs
    requires st.last.value.timestampMs <= st.period.endingMs
    ensures st.DiskIoMegs() == st.last.value.cumulativeDiskIoMegs - st.first.cumulativeDiskIoMegs
    ensures st.NetIoMegs() == st.last.value.cumulativeNetworkIoMegs - st.first.cumulativeNetworkIoMegs
  {
  }

  /** For a non-decreasing counter and overhangs no longer than the period, the extrapolated
      delta lies between zero and the observed delta. */
  lemma ExtrapolationBounded(firstCounter: int, firstTs: int, lastCounter: int, lastTs: int,
                             period: Period)
    requires Extrapolatable(period)
    requires firstCounter <= lastCounter
    requires period.beginningMs - (period.endingMs - period.beginningMs) <= firstTs
    requires lastTs <= period.endingMs + (period.endingMs - period.beginningMs)
    ensures 0.0 <= ExtrapolatedDelta(firstCounter, firstTs, lastCounter, lastTs, period)
                <= (lastCounter - firstCounter) as real
    ensures 0 <= TruncateToLong(ExtrapolatedDelta(firstCounter, firstTs, lastCounter, lastTs, period))
              <= lastCounter - firstCounter
  {
    StartScaleInUnit(firstTs, period);
    EndScaleInUnit(lastTs, period);
    ExtrapolationWithinDelta(firstCounter, firstTs, lastCounter, lastTs, period);
    TruncationBounded(ExtrapolatedDelta(firstCounter, firstTs, lastCounter, lastTs, period),
                      lastCounter - firstCounter);
  }

  /** With both correction factors in [0, 1], the extrapolated delta lies in [0, observed]. */
  lemma ExtrapolationWithinDelta(firstCounter: int, firstTs: int, lastCounter: int, lastTs: int,
                                 period: Period)
    requires Extrapolatable(period)
    requires firstCounter <= lastCounter
    requires 0.0 <= StartScale(firstTs, period) <= 1.0
    requires 0.0 <= EndScale(lastTs, period) <= 1.0
    ensures 0.0 <= ExtrapolatedDelta(firstCounter, firstTs, lastCounter, lastTs, period)
                <= (lastCounter - firstCounter) as real
  {
    var raw := (lastCounter - firstCounter) as real;
    var s1, s2 := StartScale(firstTs, period), EndScale(lastTs, period);
    ExtrapolationFactors(firstCounter, firstTs, lastCounter, lastTs, period);
    ProductInRange(raw, s1, s2, ExtrapolatedDelta(firstCounter, firstTs, lastCounter, lastTs, period));
  }

  /** An early first sample at most one period before the start leaves a factor in [0, 1]. */
  lemma StartScaleInUnit(firstTs: int, period: Period)
    requires Extrapolatable(period)
    requires period.beginningMs - (period.endingMs - period.beginningMs) <= firstTs
    ensures 0.0 <= StartScale(firstTs, period) <= 1.0
  {
    if firstTs < period.beginningMs {
      ScaleInUnit(period.beginningMs - firstTs, period.endingMs - period.beginningMs);
    }
  }

  /** A late last sample at most one period after the end leaves a factor in [0, 1]. */
  lemma EndScaleInUnit(lastTs: int, period: Period)
    requires Extrapolatable(period)
    requires lastTs <= period.endingMs + (period.endingMs - period.beginningMs)
    ensures 0.0 <= EndScale(lastTs, period) <= 1.0
  {
    if lastTs > period.endingMs {
      ScaleInUnit(lastTs - period.endingMs, period.endingMs - period.beginningMs);
    }
  }

  /** Scaling a non-negative value twice by factors in [0, 1] keeps it in [0, value]. */
  lemma ProductInRange(x: real, s1: real, s2: real, y: real)
    requires 0.0 <= x
    requires 0.0 <= s1 <= 1.0 && 0.0 <= s2 <= 1.0
    requires y == x * s1 * s2
    ensures 0.0 <= y <= x
  {
    var once := x * s1;
    ScaledInRange(x, s1, once);
    ScaledInRange(once, s2, y);
  }

  /** The extrapolated delta is the observed delta times both correction factors. */
  lemma ExtrapolationFactors(firstCounter: int, firstTs: int, lastCounter: int, lastTs: int,
                             period: Period)
    requires Extrapolatable(period)
    ensures ExtrapolatedDelta(firstCounter, firstTs, lastCounter, lastTs, period) ==
              (lastCounter - firstCounter) as real * StartScale(firstTs, period) * EndScale(lastTs, period)
  {
  }

  /** Truncation toward zero keeps a value in [0, r] within [0, r]. */
  lemma TruncationBounded(x: real, r: int)
    requires 0.0 <= x <= r as real
    ensures 0 <= TruncateToLong(x) <= r
  {
  }

  /** The factor of the start-side correction, 1 when the first sample is inside the period. */
  function StartScale(firstTs: int, period: Period): real
    requires Extrapolatable(period)
  {
    if firstTs < period.beginningMs then Scale(period.beginningMs - firstTs, period.endingMs - period.beginningMs)
    else 1.0
  }

  /** The factor of the end-side correction, 1 when the last sample is inside the period. */
  function EndScale(lastTs: int, period: Period): real
    requires Extrapolatable(period)
  {
    if lastTs > period.endingMs then Scale(lastTs - period.endingMs, period.endingMs - period.beginningMs)
    else 1.0
  }

  lemma ScaleInUnit(gap: int, duration: int)
    requires 0 < duration
    requires 0 <= gap <= duration
    ensures 0.0 <= Scale(gap, duration) <= 1.0
  {
    var g, d := gap as real, duration as real;
    assert g / d <= 1.0 by {
      assert g <= d;
    }
  }

  lemma ScaledInRange(x: real, s: real, y: real)
    requires 0.0 <= x
    requires 0.0 <= s <= 1.0
    requires y == x * s
    ensures 0.0 <= y <= x
  {
  }

  /** Samples overhanging both ends by the same `k` ms are scaled twice, by (d - k)/d each time:
      the corrections compound rather than add up to (d - 2k)/d. */
  lemma ExtrapolationCompounds(raw: int, k: int, period: Period)
    requires Extrapolatable(period)
    requires 0 < k
    ensures var d := (period.endingMs - period.beginningMs) as real;
            ExtrapolatedDelta(0, period.beginningMs - k, raw, period.endingMs + k, period) ==
              raw as real * ((d - k as real) / d) * ((d - k as real) / d)
  {
    var d := (period.endingMs - period.beginningMs) as real;
    assert Scale(k, period.endingMs - period.beginningMs) == (d - k as real) / d;
  }

  /** An instance sampled at 0 (disk 100) and at one hour (disk 150), reported for the hour that
      starts at the half-hour mark, is charged half of the 50 megs it used. */
  lemma ExtrapolationHalfHourScenario()
    ensures AccumulatorState(InstanceAttributes("x", "m1.small", []),
                             Snapshot("x", 0, 100, 0),
                             Some(Snapshot("x", 3600000, 150, 0)),
                             Period(1800000, 5400000)).DiskIoMegs() == 25
  {
    var st := AccumulatorState(InstanceAttributes("x", "m1.small", []),
                               Snapshot("x", 0, 100, 0),
                               Some(Snapshot("x", 3600000, 150, 0)),
                               Period(1800000, 5400000));
    assert Scale(1800000, 3600000) == 0.5;
    assert ExtrapolatedDelta(100, 0, 150, 3600000, Period(1800000, 5400000)) == 25.0;
  }

  /** An instance first seen after the period has ended still contributes, and with a negative
      amount: the end-side scale factor goes below zero once the overhang exceeds the period. */
  lemma ExtrapolationNegativeAfterPeriod()
    ensures AccumulatorState(InstanceAttributes("y", "m1.small", []),
                             Snapshot("y", 1500, 0, 0),
                             Some(Snapshot("y", 3500, 100, 0)),
                             Period(0, 1000)).DiskIoMegs() == -150
  {
    assert Scale(2500, 1000) == -1.5;
    assert ExtrapolatedDelta(0, 1500, 100, 3500, Period(0, 1000)) == -150.0;
  }

  /** An instance sampled only after the period has ended, less than one period past its end,
      still contributes a positive amount: samples at 1100 (disk 0) and 1500 (disk 100) reported
      for [0, 1000] give 50 megs. */
  lemma ExtrapolationPositiveAfterPeriod()
    ensures AccumulatorState(InstanceAttributes("z", "m1.small", []),
                             Snapshot("z", 1100, 0, 0),
                             Some(Snapshot("z", 1500, 100, 0)),
                             Period(0, 1000)).DiskIoMegs() == 50
  {
    assert Scale(500, 1000) == 0.5;
    assert ExtrapolatedDelta(0, 1100, 100, 1500, Period(0, 1000)) == 50.0;
  }

  /** Overhangs of two periods on both sides make both factors negative, and their product is
      positive: samples at -2000 (disk 0) and 3000 (disk 100) reported for [0, 1000] give 100. */
  lemma ExtrapolationBothSidesNegativeFactors()
    ensures AccumulatorState(InstanceAttributes("w", "m1.small", []),
                             Snapshot("w", -2000, 0, 0),
                             Some(Snapshot("w", 3000, 100, 0)),
                             Period(0, 1000)).DiskIoMegs() == 100
  {
    assert Scale(2000, 1000) == -1.0;
    assert ExtrapolatedDelta(0, -2000, 100, 3000, Period(0, 1000)) == 100.0;
  }
}
