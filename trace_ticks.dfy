/** Time-axis ticks: a "nice" interval for the visible duration, and its multiples inside the window. */
module TraceTicks {
  import opened TraceTypes

  const NICE_INTERVALS: seq<real> := [
    0.001, 0.002, 0.005,
    0.01, 0.02, 0.05,
    0.1, 0.2, 0.5,
    1.0, 2.0, 5.0,
    10.0, 20.0, 50.0,
    100.0, 200.0, 500.0,
    1000.0, 2000.0, 5000.0,
    10000.0, 20000.0, 60000.0
  ]

  /** The interval used when no entry is large enough: the last one, 60000 ms. */
  const FALLBACK: real := 60000.0

  /** The first entry of `ns` that is at least `raw`, else `fallback`. */
  function FirstAtLeast(ns: seq<real>, raw: real, fallback: real): real {
    if ns == [] then fallback else if ns[0] >= raw then ns[0] else FirstAtLeast(ns[1..], raw, fallback)
  }

  function NiceInterval(raw: real): real {
    FirstAtLeast(NICE_INTERVALS, raw, FALLBACK)
  }

  lemma NiceIntervalsIncreasing()
    ensures |NICE_INTERVALS| == 24 && NICE_INTERVALS[23] == FALLBACK
    ensures forall i, j :: 0 <= i < j < |NICE_INTERVALS| ==> NICE_INTERVALS[i] < NICE_INTERVALS[j]
  {
  }

  predicate Increasing(ns: seq<real>) {
    forall i, j :: 0 <= i < j < |ns| ==> ns[i] < ns[j]
  }

  /** On an increasing table the first entry at least `raw` is the smallest such entry. */
  lemma {:induction false} FirstAtLeastIsSmallest(ns: seq<real>, raw: real, fallback: real)
    requires Increasing(ns)
    ensures var r := FirstAtLeast(ns, raw, fallback);
            (r == fallback && forall i :: 0 <= i < |ns| ==> ns[i] < raw) ||
            (r in ns && raw <= r && forall i :: 0 <= i < |ns| && raw <= ns[i] ==> r <= ns[i])
  {
    if ns != [] {
      if ns[0] >= raw {
        assert forall i :: 0 < i < |ns| ==> ns[0] < ns[i];
      } else {
        FirstAtLeastIsSmallest(ns[1..], raw, fallback);
        assert forall i :: 0 < i < |ns| ==> ns[i] == ns[1..][i - 1];
      }
    }
  }

  /**
   * The nice interval is a table entry; when the raw interval is at most 60000 it
   * is the smallest entry at least the raw interval, otherwise it is 60000.
   */
  lemma NiceIntervalIsSmallestCover(raw: real)
    ensures NiceInterval(raw) in NICE_INTERVALS && NiceInterval(raw) > 0.0
    ensures raw <= FALLBACK ==>
              raw <= NiceInterval(raw) && forall n :: n in NICE_INTERVALS && raw <= n ==> NiceInterval(raw) <= n
    ensures raw > FALLBACK ==> NiceInterval(raw) == FALLBACK
  {
    NiceIntervalsIncreasing();
    FirstAtLeastIsSmallest(NICE_INTERVALS, raw, FALLBACK);
    assert NICE_INTERVALS[23] == FALLBACK;
    assert forall n :: n in NICE_INTERVALS ==> 0.0 < n <= FALLBACK;
  }

  lemma NiceIntervalCovers(raw: real)
    ensures raw <= FALLBACK ==> raw <= NiceInterval(raw)
  {
    NiceIntervalIsSmallestCover(raw);
  }

  lemma FirstAtLeastStep(ns: seq<real>, i: int, raw: real, fallback: real)
    requires 0 <= i < |ns|
    ensures FirstAtLeast(ns[i..], raw, fallback) ==
              if ns[i] >= raw then ns[i] else FirstAtLeast(ns[i + 1..], raw, fallback)
  {
    assert ns[i..][1..] == ns[i + 1..];
  }

  /** The loop over the table that stops at the first entry at least `raw`. */
  method PickInterval(raw: real) returns (interval: real)
    ensures interval == NiceInterval(raw)
  {
    interval := NICE_INTERVALS[|NICE_INTERVALS| - 1];
    var i := 0;
    while i < |NICE_INTERVALS|
      invariant 0 <= i <= |NICE_INTERVALS|
      invariant interval == FALLBACK
      invariant FirstAtLeast(NICE_INTERVALS[i..], raw, FALLBACK) == NiceInterval(raw)
    {
      FirstAtLeastStep(NICE_INTERVALS, i, raw, FALLBACK);
      if NICE_INTERVALS[i] >= raw {
        interval := NICE_INTERVALS[i];
        return;
      }
      i := i + 1;
    }
  }

  /** The number of integers `m >= lo` with `m * interval <= limit`. */
  function TickCount(lo: int, limit: real, interval: real): nat
    requires interval > 0.0
  {
    var hi := (limit / interval).Floor;
    if hi >= lo then hi - lo + 1 else 0
  }

  /** The first multiple index: `ceil(offset / interval)`. */
  function FirstIndex(offset: real, interval: real): int
    requires interval > 0.0
  {
    Ceil(offset / interval)
  }

  /** The multiples of `interval` from `ceil(offset / interval) * interval` up to `limit`. */
  function TicksFor(offset: real, limit: real, interval: real): seq<real>
    requires interval > 0.0
  {
    var first := FirstIndex(offset, interval);
    seq(TickCount(first, limit, interval), k => (first + k) as real * interval)
  }

  /** The interval `computeTimeAxisTicks` uses. */
  function TickInterval(vp: Viewport, targetTickCount: real): (r: real)
    requires targetTickCount > 0.0
    ensures r > 0.0
  {
    NiceIntervalIsSmallestCover((vp.endMs - vp.startMs) / targetTickCount);
    NiceInterval((vp.endMs - vp.startMs) / targetTickCount)
  }

  /** The ticks, as offsets from the trace start. */
  function Ticks(vp: Viewport, traceStartMs: real, targetTickCount: real): seq<real>
    requires targetTickCount > 0.0
  {
    TicksFor(vp.startMs - traceStartMs, vp.endMs - traceStartMs, TickInterval(vp, targetTickCount))
  }

  lemma MulLeIffLeDiv(x: real, interval: real, limit: real)
    requires interval > 0.0
    ensures x * interval <= limit <==> x <= limit / interval
  {
    assert (limit / interval) * interval == limit;
    if x * interval <= limit {
      assert (x - limit / interval) * interval <= 0.0;
    } else {
      assert (x - limit / interval) * interval > 0.0;
    }
  }

  lemma DivLeIffLeMul(x: real, interval: real, offset: real)
    requires interval > 0.0
    ensures offset / interval <= x <==> offset <= x * interval
  {
    MulLeIffLeDiv(-x, interval, -offset);
    assert (-offset) / interval == -(offset / interval);
  }

  /** The stepping loop of `computeTimeAxisTicks`, from the first multiple while inside the window. */
  method StepTicks(offset: real, limit: real, interval: real) returns (ticks: seq<real>)
    requires interval > 0.0
    ensures ticks == TicksFor(offset, limit, interval)
  {
    ticks := [];
    var first := FirstIndex(offset, interval);
    var t := first as real * interval;
    ghost var k := 0;
    ghost var count := TickCount(first, limit, interval);
    while t <= limit
      invariant 0 <= k <= count
      invariant t == (first + k) as real * interval
      invariant |ticks| == k
      invariant forall j :: 0 <= j < k ==> ticks[j] == (first + j) as real * interval
      decreases (limit / interval).Floor - (first + k)
    {
      MulLeIffLeDiv((first + k) as real, interval, limit);
      assert (first + k + 1) as real * interval == (first + k) as real * interval + interval;
      ticks := ticks + [t];
      t := t + interval;
      k := k + 1;
    }
    MulLeIffLeDiv((first + k) as real, interval, limit);
    ghost var spec := TicksFor(offset, limit, interval);
    assert |spec| == count == |ticks|;
    assert forall j :: 0 <= j < count ==> spec[j] == ticks[j];
  }

  /** `computeTimeAxisTicks`: pick the interval for the visible duration, then step through its multiples. */
  method ComputeTimeAxisTicks(vp: Viewport, traceStartMs: real, targetTickCount: real) returns (ticks: seq<real>)
    requires targetTickCount > 0.0
    ensures ticks == Ticks(vp, traceStartMs, targetTickCount)
  {
    var visibleDuration := vp.endMs - vp.startMs;
    var rawInterval := visibleDuration / targetTickCount;
    var interval := PickInterval(rawInterval);
    NiceIntervalIsSmallestCover(rawInterval);
    ticks := StepTicks(vp.startMs - traceStartMs, vp.endMs - traceStartMs, interval);
  }

  /** The ticks for any positive interval are strictly increasing multiples of it inside [offset, limit]. */
  lemma TicksForInWindow(offset: real, limit: real, interval: real)
    requires interval > 0.0
    ensures var ticks := TicksFor(offset, limit, interval);
            (forall i :: 0 <= i < |ticks| ==>
               ticks[i] == (FirstIndex(offset, interval) + i) as real * interval && offset <= ticks[i] <= limit) &&
            (forall i :: 0 <= i < |ticks| - 1 ==> ticks[i + 1] == ticks[i] + interval)
  {
    var first := FirstIndex(offset, interval);
    var ticks := TicksFor(offset, limit, interval);
    forall i | 0 <= i < |ticks|
      ensures ticks[i] == (first + i) as real * interval && offset <= ticks[i] <= limit
    {
      TickInWindow(offset, limit, interval, i);
    }
    forall i | 0 <= i < |ticks| - 1
      ensures ticks[i + 1] == ticks[i] + interval
    {
      TickInWindow(offset, limit, interval, i);
      TickInWindow(offset, limit, interval, i + 1);
      NextMultiple((first + i) as real, interval);
    }
  }

  /** The `i`-th tick is the `(first + i)`-th multiple and lies inside the window. */
  lemma TickInWindow(offset: real, limit: real, interval: real, i: int)
    requires interval > 0.0 && 0 <= i < |TicksFor(offset, limit, interval)|
    ensures TicksFor(offset, limit, interval)[i] == (FirstIndex(offset, interval) + i) as real * interval
    ensures offset <= TicksFor(offset, limit, interval)[i] <= limit
  {
    var x := (FirstIndex(offset, interval) + i) as real;
    DivLeIffLeMul(x, interval, offset);
    MulLeIffLeDiv(x, interval, limit);
  }

  lemma NextMultiple(x: real, interval: real)
    ensures (x + 1.0) * interval == x * interval + interval
  {
  }

  /** Every multiple of the interval inside [offset, limit] is one of the ticks. */
  lemma TicksForComplete(offset: real, limit: real, interval: real, m: int)
    requires interval > 0.0
    requires offset <= m as real * interval <= limit
    ensures m as real * interval in TicksFor(offset, limit, interval)
  {
    var first := FirstIndex(offset, interval);
    DivLeIffLeMul(m as real, interval, offset);
    MulLeIffLeDiv(m as real, interval, limit);
    assert TicksFor(offset, limit, interval)[m - first] == m as real * interval;
  }

  /** At most `(limit - offset) / interval + 1` ticks fit in the window. */
  lemma TicksForCount(offset: real, limit: real, interval: real)
    requires interval > 0.0
    ensures (|TicksFor(offset, limit, interval)| - 1) as real * interval <= Max0(limit - offset)
  {
    var ticks := TicksFor(offset, limit, interval);
    var n := |ticks|;
    TicksForInWindow(offset, limit, interval);
    if n >= 2 {
      var first := FirstIndex(offset, interval);
      assert ticks[n - 1] - ticks[0] == ((first + n - 1) as real - (first as real)) * interval;
    }
  }

  function Max0(x: real): real { if x >= 0.0 then x else 0.0 }

  /**
   * The ticks of `computeTimeAxisTicks` are strictly increasing multiples of the
   * interval, all within [start - traceStart, end - traceStart].
   */
  lemma TicksAreMultiplesInWindow(vp: Viewport, traceStartMs: real, targetTickCount: real)
    requires targetTickCount > 0.0
    ensures var ticks := Ticks(vp, traceStartMs, targetTickCount);
            var interval := TickInterval(vp, targetTickCount);
            var first := FirstIndex(vp.startMs - traceStartMs, interval);
            (forall i :: 0 <= i < |ticks| ==>
               ticks[i] == (first + i) as real * interval &&
               vp.startMs - traceStartMs <= ticks[i] <= vp.endMs - traceStartMs) &&
            (forall i :: 0 <= i < |ticks| - 1 ==> ticks[i] < ticks[i + 1])
  {
    TicksForInWindow(vp.startMs - traceStartMs, vp.endMs - traceStartMs, TickInterval(vp, targetTickCount));
  }

  /** Every multiple of the interval within the window is a tick. */
  lemma TicksComplete(vp: Viewport, traceStartMs: real, targetTickCount: real, interval: real, m: int)
    requires targetTickCount > 0.0 && interval == TickInterval(vp, targetTickCount)
    requires vp.startMs - traceStartMs <= m as real * interval <= vp.endMs - traceStartMs
    ensures m as real * interval in Ticks(vp, traceStartMs, targetTickCount)
  {
    TicksForComplete(vp.startMs - traceStartMs, vp.endMs - traceStartMs, interval, m);
  }

  /** When the table has an entry covering the raw interval, there are at most target + 1 ticks. */
  lemma TickCountBound(vp: Viewport, traceStartMs: real, targetTickCount: real)
    requires targetTickCount > 0.0
    requires (vp.endMs - vp.startMs) / targetTickCount <= FALLBACK
    ensures |Ticks(vp, traceStartMs, targetTickCount)| as real <= targetTickCount + 1.0
  {
    var raw := (vp.endMs - vp.startMs) / targetTickCount;
    var interval := TickInterval(vp, targetTickCount);
    NiceIntervalCovers(raw);
    TicksForCount(vp.startMs - traceStartMs, vp.endMs - traceStartMs, interval);
    BoundFromInterval(|Ticks(vp, traceStartMs, targetTickCount)|, interval, vp.endMs - vp.startMs, targetTickCount, raw);
  }

  lemma BoundFromInterval(n: nat, interval: real, width: real, target: real, raw: real)
    requires interval > 0.0 && target > 0.0
    requires raw == width / target && raw <= interval
    requires (n - 1) as real * interval <= Max0(width)
    ensures n as real <= target + 1.0
  {
    if n >= 1 && width >= 0.0 {
      assert width == raw * target;
      MulMono(raw, interval, target);
      assert ((n - 1) as real - target) * interval <= 0.0;
      PosMul((n - 1) as real - target, interval);
    }
  }

  lemma MulMono(a: real, b: real, c: real)
    requires a <= b && c > 0.0
    ensures a * c <= b * c
  {
    assert b * c - a * c == (b - a) * c;
  }

  lemma PosMul(x: real, y: real)
    ensures x > 0.0 && y > 0.0 ==> x * y > 0.0
  {
  }
}
