/** Entities of the instance usage log and the Java arithmetic the reporting code relies on. */
module Types {

  datatype Option<T> = None | Some(value: T)

  /** Outcome of a report: the summary map, or the failure that aborts the whole report. */
  datatype Result<T> = Success(value: T) | Failure(error: UsageError)

  /** A report fails as a whole; the only failure inside the core is an accumulator whose
      last snapshot was never set (a NullPointerException in the getters), rethrown
      as a RuntimeException after rollback. */
  datatype UsageError = NullLastSnapshot(uuid: Uuid)

  type Uuid = string

  /** One row of instance_usage_snapshot: cumulative counters of one instance at one instant. */
  datatype Snapshot = Snapshot(
    uuid: Uuid,
    timestampMs: int,
    cumulativeDiskIoMegs: int,
    cumulativeNetworkIoMegs: int)

  /** One row of reporting_instance. The descriptive fields other than the uuid and the
      instance type are only read by the summary key, so they are kept opaque. */
  datatype InstanceAttributes = InstanceAttributes(
    uuid: Uuid,
    instanceType: string,
    dimensions: seq<string>)

  /** A reporting period in milliseconds. */
  datatype Period = Period(beginningMs: int, endingMs: int)

  /** One row of the joined attributes/snapshot query. */
  datatype Row = Row(attrs: InstanceAttributes, snapshot: Snapshot)

  /** The two tables of the usage log, in the order the store returns them. */
  datatype Store = Store(snapshots: seq<Snapshot>, instances: seq<InstanceAttributes>)

  /** Java's `/` on longs, which truncates toward zero (Dafny's `/` is Euclidean). */
  function JavaDiv(a: int, b: int): (q: int)
    requires b > 0
    ensures a >= 0 ==> 0 <= q && q * b <= a < q * b + b
    ensures a < 0 ==> q <= 0 && q * b - b < a <= q * b
  {
    if a >= 0 then
      DivBounds(a, b);
      a / b
    else
      DivBounds(-a, b);
      NegatedProduct((-a) / b, b);
      -((-a) / b)
  }

  /** Euclidean division of a non-negative dividend leaves a remainder in [0, b). */
  lemma DivBounds(a: int, b: int)
    requires 0 <= a && 0 < b
    ensures 0 <= a / b && (a / b) * b <= a < (a / b) * b + b
  {
    var q, r := a / b, a % b;
    assert a == q * b + r && 0 <= r < b;
  }

  /** Negating a factor negates the product. */
  lemma NegatedProduct(q: int, b: int)
    ensures (-q) * b == -(q * b)
  {
  }

  /** Java's `(long)` cast of a double: truncation toward zero (range saturation left out). */
  function TruncateToLong(x: real): (n: int)
    ensures x >= 0.0 ==> 0 <= n && n as real <= x < n as real + 1.0
    ensures x < 0.0 ==> n <= 0 && n as real - 1.0 < x <= n as real
  {
    if x >= 0.0 then x.Floor else -((-x).Floor)
  }

  function Max(a: int, b: int): int { if a >= b then a else b }

  function Min(a: int, b: int): int { if a <= b then a else b }
}
