/** The two folds of getUsageSummaryMap, as specifications: fetched rows into one accumulator
    per instance uuid, and accumulators into one usage summary per summary key. */
module Aggregation {
  import opened Types
  import opened Seqs
  import opened Accumulator

  /** The rows of one instance, in fetch order. */
  function RowsOf(rows: seq<Row>, uuid: Uuid): seq<Row>
  {
    Filter(rows, HasUuid(uuid))
  }

  function HasUuid(uuid: Uuid): Row -> bool
  {
    (r: Row) => r.attrs.uuid == uuid
  }

  /** The uuid-keyed accumulator map after folding `rows` in order: the first row of a uuid
      creates its accumulator, every later row replaces its last snapshot. */
  function FoldRows(rows: seq<Row>, period: Period): (accs: map<Uuid, AccumulatorState>)
    ensures forall uuid | uuid in accs :: accs[uuid].period == period
    decreases |rows|
  {
    if rows == [] then map[]
    else
      var accs := FoldRows(rows[..|rows| - 1], period);
      var row := rows[|rows| - 1];
      var uuid := row.attrs.uuid;
      if uuid !in accs then accs[uuid := AccumulatorState(row.attrs, row.snapshot, None, period)]
      else accs[uuid := accs[uuid].(last := Some(row.snapshot))]
  }

  /** Exactly one accumulator per uuid that has rows; its attributes and first snapshot come from
      the uuid's first row, its last snapshot is the uuid's last row when there are at least two
      and unset when there is only one. */
  lemma {:induction false} FoldRowsSpec(rows: seq<Row>, period: Period, uuid: Uuid)
    ensures var rs := RowsOf(rows, uuid);
            var accs := FoldRows(rows, period);
            (uuid in accs <==> rs != []) &&
            (uuid in accs ==>
               accs[uuid].attrs == rs[0].attrs &&
               accs[uuid].first == rs[0].snapshot &&
               accs[uuid].period == period &&
               accs[uuid].last == if |rs| >= 2 then Some(rs[|rs| - 1].snapshot) else None)
    decreases |rows|
  {
    if rows != [] {
      var init := rows[..|rows| - 1];
      FoldRowsSpec(init, period, uuid);
      var rs0 := RowsOf(init, uuid);
      if rows[|rows| - 1].attrs.uuid == uuid {
        assert RowsOf(rows, uuid) == rs0 + [rows[|rows| - 1]];
      } else {
        assert RowsOf(rows, uuid) == rs0;
      }
    }
  }

  /** Every accumulator has its last snapshot set. */
  predicate AllUpdated(accs: map<Uuid, AccumulatorState>)
  {
    forall uuid | uuid in accs :: accs[uuid].last.Some?
  }

  /** The getters can run for every accumulator exactly when every fetched instance has at
      least two rows; a single row leaves the last snapshot unset. */
  lemma AllUpdatedIff(rows: seq<Row>, period: Period)
    ensures AllUpdated(FoldRows(rows, period)) <==>
              forall r | r in rows :: |RowsOf(rows, r.attrs.uuid)| >= 2
  {
    var accs := FoldRows(rows, period);
    if AllUpdated(accs) {
      forall r | r in rows ensures |RowsOf(rows, r.attrs.uuid)| >= 2 {
        FoldRowsSpec(rows, period, r.attrs.uuid);
      }
    }
    if forall r | r in rows :: |RowsOf(rows, r.attrs.uuid)| >= 2 {
      forall uuid | uuid in accs ensures accs[uuid].last.Some? {
        FoldRowsSpec(rows, period, uuid);
        var rs := RowsOf(rows, uuid);
        assert rs[0] in rs;
      }
    }
  }

  /** An InstanceUsageSummary: disk and network totals and elapsed seconds per instance type. */
  datatype UsageSummary = UsageSummary(diskIoMegs: int, networkIoMegs: int, typeSecs: map<string, int>)
  {
    function AddDiskIoMegs(megs: int): UsageSummary
    {
      this.(diskIoMegs := diskIoMegs + megs)
    }

    function AddNetworkIoMegs(megs: int): UsageSummary
    {
      this.(networkIoMegs := networkIoMegs + megs)
    }

    /** Adds the whole seconds of `p` to the total of `instanceType`. */
    function SumFromPeriodType(p: Period, instanceType: string): UsageSummary
    {
      var before := if instanceType in typeSecs then typeSecs[instanceType] else 0;
      this.(typeSecs := typeSecs[instanceType := before + PeriodSecs(p)])
    }
  }

  const EmptySummary := UsageSummary(0, 0, map[])

  /** The accumulators of `uuids` can all be read: last snapshot set, period extrapolatable. */
  predicate Ready(accs: map<Uuid, AccumulatorState>, uuids: set<Uuid>)
  {
    uuids <= accs.Keys &&
    forall uuid | uuid in uuids :: accs[uuid].last.Some? && Extrapolatable(accs[uuid].period)
  }

  /** What an accumulator adds to its bucket: extrapolated disk, network, or elapsed seconds. */
  datatype Measure = Disk | Network | Seconds

  function Amount(st: AccumulatorState, measure: Measure): int
    requires st.last.Some? && Extrapolatable(st.period)
  {
    match measure
    case Disk => st.DiskIoMegs()
    case Network => st.NetIoMegs()
    case Seconds => PeriodSecs(st.DurationPeriod())
  }

  /** The sum of one measure over a set of accumulators. */
  ghost function SumOver(uuids: set<Uuid>, accs: map<Uuid, AccumulatorState>, measure: Measure): int
    requires Ready(accs, uuids)
    decreases uuids
  {
    if uuids == {} then 0
    else
      var uuid :| uuid in uuids;
      Amount(accs[uuid], measure) + SumOver(uuids - {uuid}, accs, measure)
  }

  /** The sum does not depend on the order the set is taken apart in. */
  lemma {:induction false} SumOverRemove(uuids: set<Uuid>, accs: map<Uuid, AccumulatorState>,
                                         measure: Measure, x: Uuid)
    requires Ready(accs, uuids)
    requires x in uuids
    ensures SumOver(uuids, accs, measure) == Amount(accs[x], measure) + SumOver(uuids - {x}, accs, measure)
    decreases uuids
  {
    var y :| y in uuids && SumOver(uuids, accs, measure) ==
                           Amount(accs[y], measure) + SumOver(uuids - {y}, accs, measure);
    if y != x {
      SumOverRemove(uuids - {y}, accs, measure, x);
      SumOverRemove(uuids - {x}, accs, measure, y);
      assert uuids - {y} - {x} == uuids - {x} - {y};
    }
  }

  /** The accumulators among `uuids` whose attributes map to `key`. */
  ghost function Members<K>(accs: map<Uuid, AccumulatorState>, keyOf: InstanceAttributes -> K,
                            uuids: set<Uuid>, key: K): set<Uuid>
    requires uuids <= accs.Keys
  {
    set uuid | uuid in uuids && keyOf(accs[uuid].attrs) == key
  }

  /** The accumulators among `uuids` of one instance type. */
  function OfType(accs: map<Uuid, AccumulatorState>, uuids: set<Uuid>, instanceType: string): set<Uuid>
    requires uuids <= accs.Keys
  {
    set uuid | uuid in uuids && accs[uuid].attrs.instanceType == instanceType
  }

  /** Seconds per instance type over a set of accumulators. */
  ghost function TypeSecs(accs: map<Uuid, AccumulatorState>, members: set<Uuid>): map<string, int>
    requires Ready(accs, members)
  {
    map t | t in (set uuid | uuid in members :: accs[uuid].attrs.instanceType) ::
      SumOver(OfType(accs, members, t), accs, Seconds)
  }

  /** The summary of a set of accumulators: the sums of their contributions. */
  ghost function BucketOf(accs: map<Uuid, AccumulatorState>, members: set<Uuid>): UsageSummary
    requires Ready(accs, members)
  {
    UsageSummary(SumOver(members, accs, Disk), SumOver(members, accs, Network), TypeSecs(accs, members))
  }

  /** The report over the accumulators `uuids`: a bucket for every key some accumulator maps to,
      summing exactly the accumulators that map to it. */
  ghost function Report<K>(accs: map<Uuid, AccumulatorState>, keyOf: InstanceAttributes -> K,
                           uuids: set<Uuid>): map<K, UsageSummary>
    requires Ready(accs, uuids)
  {
    map key | key in (set uuid | uuid in uuids :: keyOf(accs[uuid].attrs)) ::
      BucketOf(accs, Members(accs, keyOf, uuids, key))
  }

  /** The additions of lines 205-208: an accumulator's disk, network and per-type seconds. */
  function Contribute(ius: UsageSummary, st: AccumulatorState): UsageSummary
    requires st.last.Some? && Extrapolatable(st.period)
  {
    ius.AddDiskIoMegs(Amount(st, Disk))
       .AddNetworkIoMegs(Amount(st, Network))
       .SumFromPeriodType(st.DurationPeriod(), st.attrs.instanceType)
  }

  /** One iteration of the second loop: look up or create the accumulator's bucket and add the
      accumulator's contribution to it. */
  function AddToReport<K>(usage: map<K, UsageSummary>, key: K, st: AccumulatorState): map<K, UsageSummary>
    requires st.last.Some? && Extrapolatable(st.period)
  {
    var ius := if key in usage then usage[key] else EmptySummary;
    usage[key := Contribute(ius, st)]
  }

  /** Folding one more accumulator into the report of the ones before it yields the report of all
      of them, whatever order the accumulators are visited in. */
  lemma ReportAdd<K>(accs: map<Uuid, AccumulatorState>, keyOf: InstanceAttributes -> K,
                     uuids: set<Uuid>, uuid: Uuid)
    requires Ready(accs, uuids + {uuid})
    requires uuid !in uuids
    ensures Report(accs, keyOf, uuids + {uuid}) ==
              AddToReport(Report(accs, keyOf, uuids), keyOf(accs[uuid].attrs), accs[uuid])
  {
    var st := accs[uuid];
    var key0 := keyOf(st.attrs);
    var all := uuids + {uuid};
    var before := Report(accs, keyOf, uuids);
    var after := Report(accs, keyOf, all);
    var expected := AddToReport(before, key0, st);
    forall key | key in after ensures key in expected && after[key] == expected[key] {
      ReportAt(accs, keyOf, uuids, key);
      ReportAt(accs, keyOf, all, key);
      MembersAdd(accs, keyOf, uuids, uuid, key);
      if key == key0 {
        var m0 := Members(accs, keyOf, uuids, key0);
        if key0 !in before {
          BucketOfEmpty(accs);
        }
        BucketOfAdd(accs, m0, uuid);
      }
    }
    forall key | key in expected ensures key in after {
      ReportAt(accs, keyOf, uuids, key);
      ReportAt(accs, keyOf, all, key);
      MembersAdd(accs, keyOf, uuids, uuid, key);
    }
    assert after == expected;
  }

  /** A key has a bucket in the report exactly when some accumulator maps to it, and the bucket
      sums those accumulators. */
  lemma ReportAt<K>(accs: map<Uuid, AccumulatorState>, keyOf: InstanceAttributes -> K,
                    uuids: set<Uuid>, key: K)
    requires Ready(accs, uuids)
    ensures key in Report(accs, keyOf, uuids) <==> Members(accs, keyOf, uuids, key) != {}
    ensures key in Report(accs, keyOf, uuids) ==>
              Report(accs, keyOf, uuids)[key] == BucketOf(accs, Members(accs, keyOf, uuids, key))
  {
    if Members(accs, keyOf, uuids, key) != {} {
      var u :| u in Members(accs, keyOf, uuids, key);
      assert keyOf(accs[u].attrs) == key;
    }
    if key in Report(accs, keyOf, uuids) {
      var u :| u in uuids && keyOf(accs[u].attrs) == key;
      assert u in Members(accs, keyOf, uuids, key);
    }
  }

  /** The accumulators of one key after adding an accumulator. */
  lemma MembersAdd<K>(accs: map<Uuid, AccumulatorState>, keyOf: InstanceAttributes -> K,
                      uuids: set<Uuid>, uuid: Uuid, key: K)
    requires Ready(accs, uuids + {uuid})
    ensures Members(accs, keyOf, uuids + {uuid}, key) ==
              if keyOf(accs[uuid].attrs) == key then Members(accs, keyOf, uuids, key) + {uuid}
              else Members(accs, keyOf, uuids, key)
  {
  }

  /** No accumulators, no usage. */
  lemma BucketOfEmpty(accs: map<Uuid, AccumulatorState>)
    ensures BucketOf(accs, {}) == EmptySummary
  {
    assert TypeSecs(accs, {}) == map[];
  }

  /** A bucket that gains one accumulator grows by exactly that accumulator's contribution. */
  lemma BucketOfAdd(accs: map<Uuid, AccumulatorState>, members: set<Uuid>, uuid: Uuid)
    requires Ready(accs, members + {uuid})
    requires uuid !in members
    ensures BucketOf(accs, members + {uuid}) == Contribute(BucketOf(accs, members), accs[uuid])
  {
    var st := accs[uuid];
    var b0 := BucketOf(accs, members);
    var b1 := BucketOf(accs, members + {uuid});
    SumOverAdd(members, accs, Disk, uuid);
    SumOverAdd(members, accs, Network, uuid);
    TypeSecsAdd(accs, members, uuid);
    assert b0.typeSecs == TypeSecs(accs, members);
    assert b1.typeSecs == TypeSecs(accs, members + {uuid});
    ContributeFields(b0, st, b1);
  }

  /** Adding an accumulator to a set adds its amount to the sum. */
  lemma SumOverAdd(members: set<Uuid>, accs: map<Uuid, AccumulatorState>, measure: Measure, uuid: Uuid)
    requires Ready(accs, members + {uuid})
    requires uuid !in members
    ensures SumOver(members + {uuid}, accs, measure) == Amount(accs[uuid], measure) + SumOver(members, accs, measure)
  {
    assert members + {uuid} - {uuid} == members;
    SumOverRemove(members + {uuid}, accs, measure, uuid);
  }

  /** A summary that exceeds another by an accumulator's amounts, field by field, is that other
      summary with the accumulator contributed. */
  lemma ContributeFields(ius: UsageSummary, st: AccumulatorState, grown: UsageSummary)
    requires st.last.Some? && Extrapolatable(st.period)
    requires grown.diskIoMegs == ius.diskIoMegs + Amount(st, Disk)
    requires grown.networkIoMegs == ius.networkIoMegs + Amount(st, Network)
    requires var t := st.attrs.instanceType;
             grown.typeSecs == ius.typeSecs[t := (if t in ius.typeSecs then ius.typeSecs[t] else 0) +
                                                 Amount(st, Seconds)]
    ensures grown == Contribute(ius, st)
  {
  }

  /** The per-type seconds of a bucket that gains one accumulator grow only for its type. */
  lemma TypeSecsAdd(accs: map<Uuid, AccumulatorState>, members: set<Uuid>, uuid: Uuid)
    requires Ready(accs, members + {uuid})
    requires uuid !in members
    ensures var before := TypeSecs(accs, members);
            var t0 := accs[uuid].attrs.instanceType;
            TypeSecs(accs, members + {uuid}) ==
              before[t0 := (if t0 in before then before[t0] else 0) + Amount(accs[uuid], Seconds)]
  {
    var t0 := accs[uuid].attrs.instanceType;
    var before := TypeSecs(accs, members);
    var after := TypeSecs(accs, members + {uuid});
    var expected := before[t0 := (if t0 in before then before[t0] else 0) + Amount(accs[uuid], Seconds)];
    forall t ensures (t in after <==> t in expected) && (t in after ==> after[t] == expected[t]) {
      TypeSecsAddAt(accs, members, uuid, t);
    }
    assert after == expected;
  }

  /** TypeSecsAdd at one instance type. */
  lemma TypeSecsAddAt(accs: map<Uuid, AccumulatorState>, members: set<Uuid>, uuid: Uuid, t: string)
    requires Ready(accs, members + {uuid})
    requires uuid !in members
    ensures var before := TypeSecs(accs, members);
            var after := TypeSecs(accs, members + {uuid});
            var t0 := accs[uuid].attrs.instanceType;
            var expected := before[t0 := (if t0 in before then before[t0] else 0) + Amount(accs[uuid], Seconds)];
            (t in after <==> t in expected) && (t in after ==> after[t] == expected[t])
  {
    var m1 := members + {uuid};
    var t0 := accs[uuid].attrs.instanceType;
    TypeSecsAt(accs, members, t);
    TypeSecsAt(accs, m1, t);
    OfTypeAdd(accs, members, uuid, t);
    if t == t0 {
      assert OfType(accs, m1, t0) - {uuid} == OfType(accs, members, t0);
      SumOverRemove(OfType(accs, m1, t0), accs, Seconds, uuid);
    }
  }

  /** A type has an entry in the per-type seconds exactly when some member is of that type, and
      the entry is the sum over those members. */
  lemma TypeSecsAt(accs: map<Uuid, AccumulatorState>, members: set<Uuid>, t: string)
    requires Ready(accs, members)
    ensures t in TypeSecs(accs, members) <==> OfType(accs, members, t) != {}
    ensures t in TypeSecs(accs, members) ==>
              TypeSecs(accs, members)[t] == SumOver(OfType(accs, members, t), accs, Seconds)
  {
    if OfType(accs, members, t) != {} {
      var u :| u in OfType(accs, members, t);
      assert accs[u].attrs.instanceType == t;
    }
    if t in TypeSecs(accs, members) {
      var u :| u in members && accs[u].attrs.instanceType == t;
      assert u in OfType(accs, members, t);
    }
  }

  /** The members of one type after adding an accumulator. */
  lemma OfTypeAdd(accs: map<Uuid, AccumulatorState>, members: set<Uuid>, uuid: Uuid, t: string)
    requires Ready(accs, members + {uuid})
    ensures OfType(accs, members + {uuid}, t) ==
              if accs[uuid].attrs.instanceType == t then OfType(accs, members, t) + {uuid}
              else OfType(accs, members, t)
  {
  }
}
