/**
 * The billing page's usage arithmetic: per-service byte sizes summed into
 * kilobytes, used/limit as a percentage, and the unit `formatUsage` picks.
 * Numbers are exact reals here.
 */
module BillingUsage {

  const BYTES_PER_KB: real := 1000.0

  /** The fields of a service's usage row that the arithmetic reads. */
  datatype ServiceUsage = ServiceUsage(logSizeBytes: real, traceSizeBytes: real, metricSizeBytes: real)

  datatype AggregatedUsage = AggregatedUsage(logsKB: real, tracesKB: real, metricsKB: real)

  const ZERO_USAGE: AggregatedUsage := AggregatedUsage(0.0, 0.0, 0.0)

  /** One step of the `reduce`: each byte size converted to kilobytes and added. */
  function AddService(acc: AggregatedUsage, s: ServiceUsage): AggregatedUsage {
    AggregatedUsage(
      acc.logsKB + s.logSizeBytes / BYTES_PER_KB,
      acc.tracesKB + s.traceSizeBytes / BYTES_PER_KB,
      acc.metricsKB + s.metricSizeBytes / BYTES_PER_KB)
  }

  /** `services.reduce(AddService, acc)`, left to right. */
  function Reduce(acc: AggregatedUsage, services: seq<ServiceUsage>): AggregatedUsage
    decreases |services|
  {
    if services == [] then acc else Reduce(AddService(acc, services[0]), services[1..])
  }

  function AggregateUsage(services: seq<ServiceUsage>): AggregatedUsage {
    Reduce(ZERO_USAGE, services)
  }

  /** The byte totals, an independent reference for the fold. */
  function LogBytes(services: seq<ServiceUsage>): real {
    if services == [] then 0.0 else services[0].logSizeBytes + LogBytes(services[1..])
  }

  function TraceBytes(services: seq<ServiceUsage>): real {
    if services == [] then 0.0 else services[0].traceSizeBytes + TraceBytes(services[1..])
  }

  function MetricBytes(services: seq<ServiceUsage>): real {
    if services == [] then 0.0 else services[0].metricSizeBytes + MetricBytes(services[1..])
  }

  function Plus(a: AggregatedUsage, b: AggregatedUsage): AggregatedUsage {
    AggregatedUsage(a.logsKB + b.logsKB, a.tracesKB + b.tracesKB, a.metricsKB + b.metricsKB)
  }

  lemma {:induction false} ReduceShifts(acc: AggregatedUsage, services: seq<ServiceUsage>)
    ensures Reduce(acc, services) == Plus(acc, Reduce(ZERO_USAGE, services))
    decreases |services|
  {
    if services != [] {
      var s := services[0];
      ReduceShifts(AddService(acc, s), services[1..]);
      ReduceShifts(AddService(ZERO_USAGE, s), services[1..]);
    }
  }

  /** Each total is the field's byte sum divided by 1000; no services give zeros. */
  lemma {:induction false} AggregateIsSum(services: seq<ServiceUsage>)
    ensures AggregateUsage(services) ==
            AggregatedUsage(LogBytes(services) / BYTES_PER_KB, TraceBytes(services) / BYTES_PER_KB,
                            MetricBytes(services) / BYTES_PER_KB)
    ensures services == [] ==> AggregateUsage(services) == ZERO_USAGE
  {
    if services != [] {
      var s := services[0];
      AggregateIsSum(services[1..]);
      ReduceShifts(AddService(ZERO_USAGE, s), services[1..]);
    }
  }

  lemma {:induction false} ReduceAppend(acc: AggregatedUsage, a: seq<ServiceUsage>, b: seq<ServiceUsage>)
    ensures Reduce(acc, a + b) == Reduce(Reduce(acc, a), b)
    decreases |a|
  {
    if a == [] {
      assert a + b == b;
    } else {
      assert (a + b)[1..] == a[1..] + b;
      ReduceAppend(AddService(acc, a[0]), a[1..], b);
    }
  }

  /** Aggregating a concatenation adds the two aggregates. */
  lemma AggregateAdditive(a: seq<ServiceUsage>, b: seq<ServiceUsage>)
    ensures AggregateUsage(a + b) == Plus(AggregateUsage(a), AggregateUsage(b))
  {
    ReduceAppend(ZERO_USAGE, a, b);
    ReduceShifts(AggregateUsage(a), b);
  }

  /** A quota: unlimited (`Infinity`), or a number of kilobytes. */
  datatype Limit = Unlimited | LimitKB(kb: real)

  /** `usagePercentage`. */
  function UsagePercentage(usedKB: real, limit: Limit): real {
    match limit
    case Unlimited => 0.0
    case LimitKB(kb) => if kb == 0.0 then 100.0 else usedKB / kb * 100.0
  }

  /**
   * Unlimited quotas are always at 0%, a zero quota at 100% whatever the use;
   * otherwise used/limit as a percentage, rising with use and reaching 100
   * when the use equals the quota.
   */
  lemma UsagePercentageCases(usedKB: real, other: real, kb: real)
    ensures UsagePercentage(usedKB, Unlimited) == 0.0
    ensures UsagePercentage(usedKB, LimitKB(0.0)) == 100.0
    ensures kb != 0.0 ==> UsagePercentage(usedKB, LimitKB(kb)) * kb == usedKB * 100.0
    ensures kb != 0.0 ==> UsagePercentage(kb, LimitKB(kb)) == 100.0
    ensures kb > 0.0 && usedKB <= other ==> UsagePercentage(usedKB, LimitKB(kb)) <= UsagePercentage(other, LimitKB(kb))
  {
    if kb != 0.0 {
      var q := usedKB / kb;
      assert q * kb == usedKB;
      assert q * 100.0 * kb == q * kb * 100.0;
      assert kb / kb == 1.0;
    }
    if kb > 0.0 && usedKB <= other {
      DivideMonotone(usedKB, other, kb);
    }
  }

  lemma DivideMonotone(x: real, y: real, d: real)
    requires d > 0.0 && x <= y
    ensures x / d * 100.0 <= y / d * 100.0
  {
    var p, q := x / d, y / d;
    assert p * d == x && q * d == y;
    assert (q - p) * d == y - x;
  }

  /** What `formatUsage` prints, before `toFixed`: the unit and the number in that unit. */
  datatype UsageText = ZeroKB | Kilobytes(amount: real) | Megabytes(amount: real) | Gigabytes(amount: real)

  function FormatUsage(kb: real): UsageText {
    if kb < 1.0 then ZeroKB
    else if kb < 1000.0 then Kilobytes(kb)
    else if kb < 1000000.0 then Megabytes(kb / 1000.0)
    else Gigabytes(kb / 1000000.0)
  }

  /**
   * The unit is the largest one in which the amount is at least 1: below 1 KB
   * prints "0 KB", and kilobytes and megabytes stay below 1000.
   */
  lemma FormatUsageUnits(kb: real)
    ensures FormatUsage(kb).ZeroKB? <==> kb < 1.0
    ensures FormatUsage(kb).Kilobytes? <==> 1.0 <= kb < 1000.0
    ensures FormatUsage(kb).Megabytes? <==> 1000.0 <= kb < 1000000.0
    ensures FormatUsage(kb).Gigabytes? <==> 1000000.0 <= kb
    ensures !FormatUsage(kb).ZeroKB? ==> 1.0 <= FormatUsage(kb).amount
    ensures FormatUsage(kb).Kilobytes? || FormatUsage(kb).Megabytes? ==> FormatUsage(kb).amount < 1000.0
    ensures FormatUsage(kb).Megabytes? ==> FormatUsage(kb).amount * 1000.0 == kb
    ensures FormatUsage(kb).Gigabytes? ==> FormatUsage(kb).amount * 1000000.0 == kb
  {
  }
}
