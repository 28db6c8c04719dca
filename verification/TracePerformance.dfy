/** Rows of the performance report of trace/backend/internal/store/store.go, over exact
    numbers. */
module TracePerformance {
  import opened Collections
  import opened TraceStores
  import opened Latencies

  datatype PerformanceEdge = PerformanceEdge(
    source: string, target: string, leg: string, requests: nat,
    p50: real, p95: real, p99: real, min: real, max: real, avg: real,
    bytesIn: int, bytesOut: int, errorRate: real, lastSeen: int
  )

  /** The statistics of a row are ordered as their names promise. */
  predicate Ordered(p: PerformanceEdge) {
    p.min <= p.p50 <= p.p95 <= p.p99 <= p.max && p.min <= p.avg <= p.max
  }

  /** Performance, for one edge. */
  method Report(e: Edge) returns (p: PerformanceEdge)
    ensures Ordered(p)
    ensures p.source == e.source && p.target == e.target && p.leg == e.leg && p.requests == e.requests
    ensures p.bytesIn == e.bytesIn && p.bytesOut == e.bytesOut && p.lastSeen == e.lastSeen
    ensures p.p50 == PercentileOf(e.latencies, 0.50) && p.p95 == PercentileOf(e.latencies, 0.95)
            && p.p99 == PercentileOf(e.latencies, 0.99)
    ensures e.latencies == [] ==> p.min == p.avg == p.max == 0.0
    ensures e.latencies != [] ==> p.min in e.latencies && p.max in e.latencies
    ensures p.avg * |e.latencies| as real == Sum(e.latencies)
    ensures e.requests == 0 ==> p.errorRate == 0.0
    ensures e.requests > 0 ==>
              p.errorRate * e.requests as real == (e.denyCount + e.tlsRejects + e.errorCount) as real * 100.0
  {
    hide PercentileOf, Sum;
    var errorRate := ErrorRate(e);
    var p50 := Percentile(e.latencies, 0.50);
    var p95 := Percentile(e.latencies, 0.95);
    var p99 := Percentile(e.latencies, 0.99);
    var min := MinSlice(e.latencies);
    var max := MaxSlice(e.latencies);
    var avg := AvgSlice(e.latencies);
    StatisticsAreOrdered(e.latencies, min, max, avg);
    p := PerformanceEdge(e.source, e.target, e.leg, e.requests, p50, p95, p99, min, max, avg,
                         e.bytesIn, e.bytesOut, errorRate, e.lastSeen);
  }

  /** Bounds of the samples bound the percentiles. */
  lemma PercentileWithin(values: seq<real>, pct: real, min: real, max: real)
    requires 0.0 <= pct <= 1.0 && Bounds(values, min, max)
    ensures min <= PercentileOf(values, pct) <= max
  {
    if values != [] {
      PercentileRank(values, pct);
    }
  }

  /** Every sample lies between the two; without samples both are zero. */
  ghost predicate Bounds(values: seq<real>, min: real, max: real) {
    if values == [] then min == max == 0.0 else forall v :: v in values ==> min <= v <= max
  }

  lemma MeanWithin(values: seq<real>, min: real, max: real, avg: real)
    requires Bounds(values, min, max) && avg * |values| as real == Sum(values) && (values == [] ==> avg == 0.0)
    ensures min <= avg <= max
  {
    if values != [] {
      hide Sum;
      forall i | 0 <= i < |values| ensures min <= values[i] <= max {
        assert values[i] in values;
      }
      AverageWithin(values, min, max, avg);
    }
  }

  lemma StatisticsAreOrdered(values: seq<real>, min: real, max: real, avg: real)
    requires Bounds(values, min, max) && avg * |values| as real == Sum(values) && (values == [] ==> avg == 0.0)
    ensures min <= PercentileOf(values, 0.50) <= PercentileOf(values, 0.95)
    ensures PercentileOf(values, 0.95) <= PercentileOf(values, 0.99) <= max
    ensures min <= avg <= max
  {
    hide PercentileOf, Sum, Bounds;
    PercentileWithin(values, 0.50, min, max);
    PercentileWithin(values, 0.99, min, max);
    PercentileMonotone(values, 0.50, 0.95);
    PercentileMonotone(values, 0.95, 0.99);
    MeanWithin(values, min, max, avg);
  }

  /** The share of requests that were not allowed, in percent. */
  method ErrorRate(e: Edge) returns (rate: real)
    ensures e.requests == 0 ==> rate == 0.0
    ensures e.requests > 0 ==> rate * e.requests as real == (e.denyCount + e.tlsRejects + e.errorCount) as real * 100.0
  {
    var issues := e.denyCount + e.tlsRejects + e.errorCount;
    rate := 0.0;
    if e.requests > 0 {
      rate := issues as real / e.requests as real * 100.0;
      RateTimesRequests(issues as real, e.requests as real);
    }
  }

  lemma RateTimesRequests(issues: real, requests: real)
    requires requests > 0.0
    ensures issues / requests * 100.0 * requests == issues * 100.0
  {
    assert issues / requests * requests == issues;
  }
}
