/**
 * The usage-sync job's aggregation: byte counts of all rows accumulated in a
 * loop, then converted to kilobytes. The calls that report the totals are
 * not part of this model.
 */
module SyncUsage {
  import opened Wrappers

  const BYTES_PER_KB: real := 1000.0

  /** A usage row; a column may be missing (`null`), which counts as 0. */
  datatype ServiceUsageRow = ServiceUsageRow(
    totalLogSizeBytes: Option<int>,
    totalTraceSizeBytes: Option<int>,
    totalSumMetricSizeBytes: Option<int>,
    totalGaugeMetricSizeBytes: Option<int>,
    totalHistogramMetricSizeBytes: Option<int>,
    totalExpHistogramMetricSizeBytes: Option<int>)

  datatype Usage = Usage(logsKB: real, tracesKB: real, metricsKB: real)

  /** `Number(x ?? 0)`. */
  function Bytes(o: Option<int>): int {
    if o.Some? then o.value else 0
  }

  function LogOf(row: ServiceUsageRow): int { Bytes(row.totalLogSizeBytes) }

  function TraceOf(row: ServiceUsageRow): int { Bytes(row.totalTraceSizeBytes) }

  /** The four metric columns of a row, added. */
  function MetricOf(row: ServiceUsageRow): int {
    Bytes(row.totalSumMetricSizeBytes) + Bytes(row.totalGaugeMetricSizeBytes) +
    Bytes(row.totalHistogramMetricSizeBytes) + Bytes(row.totalExpHistogramMetricSizeBytes)
  }

  /** The sum of `f` over the rows. */
  function Total(rows: seq<ServiceUsageRow>, f: ServiceUsageRow -> int): int {
    if rows == [] then 0 else Total(rows[..|rows| - 1], f) + f(rows[|rows| - 1])
  }

  function UsageOf(rows: seq<ServiceUsageRow>): Usage {
    Usage(Total(rows, LogOf) as real / BYTES_PER_KB, Total(rows, TraceOf) as real / BYTES_PER_KB,
          Total(rows, MetricOf) as real / BYTES_PER_KB)
  }

  /** `aggregateUsage`: three accumulators over the rows, then the division. */
  method AggregateUsage(rows: seq<ServiceUsageRow>) returns (usage: Usage)
    ensures usage == UsageOf(rows)
  {
    var logBytes, traceBytes, metricBytes := 0, 0, 0;
    for i := 0 to |rows|
      invariant logBytes == Total(rows[..i], LogOf)
      invariant traceBytes == Total(rows[..i], TraceOf)
      invariant metricBytes == Total(rows[..i], MetricOf)
    {
      var row := rows[i];
      assert rows[..i + 1][..i] == rows[..i];
      logBytes := logBytes + Bytes(row.totalLogSizeBytes);
      traceBytes := traceBytes + Bytes(row.totalTraceSizeBytes);
      metricBytes := metricBytes +
        (Bytes(row.totalSumMetricSizeBytes) + Bytes(row.totalGaugeMetricSizeBytes) +
         Bytes(row.totalHistogramMetricSizeBytes) + Bytes(row.totalExpHistogramMetricSizeBytes));
    }
    assert rows[..|rows|] == rows;
    usage := Usage(logBytes as real / BYTES_PER_KB, traceBytes as real / BYTES_PER_KB, metricBytes as real / BYTES_PER_KB);
  }

  /** No rows give zero usage. */
  lemma EmptyIsZero()
    ensures UsageOf([]) == Usage(0.0, 0.0, 0.0)
  {
  }

  lemma {:induction false} TotalAppend(a: seq<ServiceUsageRow>, b: seq<ServiceUsageRow>, f: ServiceUsageRow -> int)
    ensures Total(a + b, f) == Total(a, f) + Total(b, f)
    decreases |b|
  {
    if b == [] {
      assert a + b == a;
    } else {
      assert (a + b)[..|a + b| - 1] == a + b[..|b| - 1];
      TotalAppend(a, b[..|b| - 1], f);
    }
  }

  /** The sum does not depend on the order of the rows. */
  lemma {:induction false} TotalPermutation(a: seq<ServiceUsageRow>, b: seq<ServiceUsageRow>, f: ServiceUsageRow -> int)
    requires multiset(a) == multiset(b)
    ensures Total(a, f) == Total(b, f)
    decreases |a|
  {
    if a != [] {
      var n := |a| - 1;
      var x := a[n];
      assert x in multiset(b);
      var j :| 0 <= j < |b| && b[j] == x;
      var rest := b[..j] + b[j + 1..];
      assert b == b[..j] + [x] + b[j + 1..];
      assert a == a[..n] + [x];
      assert multiset(b) == multiset(b[..j]) + multiset([x]) + multiset(b[j + 1..]);
      assert multiset(a) == multiset(a[..n]) + multiset([x]);
      assert multiset(rest) == multiset(b[..j]) + multiset(b[j + 1..]);
      var mx := multiset([x]);
      assert multiset(a[..n]) + mx == multiset(rest) + mx;
      assert multiset(a[..n]) == multiset(a[..n]) + mx - mx;
      assert multiset(rest) == multiset(rest) + mx - mx;
      TotalPermutation(a[..n], rest, f);
      TotalAppend(b[..j] + [x], b[j + 1..], f);
      TotalAppend(b[..j], [x], f);
      TotalAppend(b[..j], b[j + 1..], f);
      assert [x][..0] == [];
    }
  }

  /** Reordering the rows does not change the usage. */
  lemma UsageIgnoresOrder(a: seq<ServiceUsageRow>, b: seq<ServiceUsageRow>)
    requires multiset(a) == multiset(b)
    ensures UsageOf(a) == UsageOf(b)
  {
    TotalPermutation(a, b, LogOf);
    TotalPermutation(a, b, TraceOf);
    TotalPermutation(a, b, MetricOf);
  }

  predicate NonNegative(row: ServiceUsageRow) {
    Bytes(row.totalLogSizeBytes) >= 0 && Bytes(row.totalTraceSizeBytes) >= 0 &&
    Bytes(row.totalSumMetricSizeBytes) >= 0 && Bytes(row.totalGaugeMetricSizeBytes) >= 0 &&
    Bytes(row.totalHistogramMetricSizeBytes) >= 0 && Bytes(row.totalExpHistogramMetricSizeBytes) >= 0
  }

  lemma {:induction false} TotalNonNegative(rows: seq<ServiceUsageRow>, f: ServiceUsageRow -> int)
    requires forall i :: 0 <= i < |rows| ==> f(rows[i]) >= 0
    ensures Total(rows, f) >= 0
  {
    if rows != [] {
      TotalNonNegative(rows[..|rows| - 1], f);
    }
  }

  /** Non-negative byte counts give non-negative usage. */
  lemma UsageNonNegative(rows: seq<ServiceUsageRow>)
    requires forall i :: 0 <= i < |rows| ==> NonNegative(rows[i])
    ensures UsageOf(rows).logsKB >= 0.0 && UsageOf(rows).tracesKB >= 0.0 && UsageOf(rows).metricsKB >= 0.0
  {
    TotalNonNegative(rows, LogOf);
    TotalNonNegative(rows, TraceOf);
    TotalNonNegative(rows, MetricOf);
  }
}
