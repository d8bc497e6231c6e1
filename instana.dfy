/**
  The Instana side of the correlation: the query for a host's infrastructure
  metrics over a time window, the choice of rollup (the sampling interval, in
  seconds) that keeps the answer under the API's limit of data points, and the
  reduction of every returned series to its minimum, maximum and average.
*/
module Instana {
  import opened GoLib

  // ---------------------------------------------------------------------------
  // computeRollupValue
  // ---------------------------------------------------------------------------

  /** The most data points the API returns per metric. */
  const MaxDataPoints := 600

  /** Rollups offered for data from the last 24 hours, finest first. */
  const RecentRollups: seq<int> := [1, 5, 60, 300, 3600]

  /** Rollups offered for older data: one minute at the finest. */
  const OldRollups: seq<int> := [60, 300, 3600]

  /** The value returned when no candidate keeps the window under the limit. */
  const FallbackRollup := 1

  /** Whole hours from the window start until `now` (both in Unix seconds),
      rounded down; negative when the start lies in the future. */
  function HoursSince(now: int, windowStartTimeUnix: int): (h: int)
    ensures 3600 * h <= now - windowStartTimeUnix < 3600 * h + 3600
  {
    (now - windowStartTimeUnix) / 3600
  }

  function RollupCandidates(hoursSince: int): seq<int> {
    if hoursSince < 24 then RecentRollups else OldRollups
  }

  predicate StrictlyIncreasingPositive(s: seq<int>) {
    (forall i :: 0 <= i < |s| ==> s[i] > 0) && (forall i, j :: 0 <= i < j < |s| ==> s[i] < s[j])
  }

  lemma CandidatesIncreasing(hoursSince: int)
    ensures StrictlyIncreasingPositive(RollupCandidates(hoursSince))
  {
  }

  /** The index of the first candidate, from `i` on, at which the window splits
      into fewer than MaxDataPoints intervals (Go's truncating division). */
  function FirstFit(windowSizeSeconds: int, candidates: seq<int>, i: nat): (r: Option<nat>)
    requires i <= |candidates|
    requires forall k :: 0 <= k < |candidates| ==> candidates[k] > 0
    ensures r.Some? ==> (i <= r.value < |candidates| &&
                         TruncDiv(windowSizeSeconds, candidates[r.value]) < MaxDataPoints)
    ensures r.Some? ==> forall k :: i <= k < r.value ==> TruncDiv(windowSizeSeconds, candidates[k]) >= MaxDataPoints
    ensures r.None? ==> forall k :: i <= k < |candidates| ==> TruncDiv(windowSizeSeconds, candidates[k]) >= MaxDataPoints
    decreases |candidates| - i
  {
    if i == |candidates| then None
    else if TruncDiv(windowSizeSeconds, candidates[i]) < MaxDataPoints then Some(i)
    else FirstFit(windowSizeSeconds, candidates, i + 1)
  }

  /** The window's length in whole seconds, truncated toward zero. */
  function WindowSizeSeconds(windowSizeMs: int): int {
    TruncDiv(windowSizeMs, 1000)
  }

  /** The candidate the loop of computeRollupValue returns from, or None when it
      falls through to the final `return 1`. */
  function RollupSearch(windowStartTimeUnix: int, windowSizeMs: int, now: int): Option<int> {
    var candidates := RollupCandidates(HoursSince(now, windowStartTimeUnix));
    match FirstFit(WindowSizeSeconds(windowSizeMs), candidates, 0)
    case None => None
    case Some(i) => Some(candidates[i])
  }

  /** computeRollupValue, with the clock reading `now` (Unix seconds) passed in. */
  function ComputeRollupValue(windowStartTimeUnix: int, windowSizeMs: int, now: int): (r: int)
    ensures r in {1, 5, 60, 300, 3600}
  {
    match RollupSearch(windowStartTimeUnix, windowSizeMs, now)
    case Some(c) => c
    case None => FallbackRollup
  }

  /** First fit: a found rollup keeps the window under MaxDataPoints intervals
      and every finer candidate does not; when nothing is found every candidate
      fails and the result is the fallback 1. */
  lemma RollupIsFirstFit(windowStartTimeUnix: int, windowSizeMs: int, now: int)
    ensures var candidates := RollupCandidates(HoursSince(now, windowStartTimeUnix));
      var secs := WindowSizeSeconds(windowSizeMs);
      var r := RollupSearch(windowStartTimeUnix, windowSizeMs, now);
      (r.Some? ==> (r.value in candidates && TruncDiv(secs, r.value) < MaxDataPoints &&
                    ComputeRollupValue(windowStartTimeUnix, windowSizeMs, now) == r.value &&
                    forall c :: c in candidates && c < r.value ==> TruncDiv(secs, c) >= MaxDataPoints)) &&
      (r.None? ==> (ComputeRollupValue(windowStartTimeUnix, windowSizeMs, now) == FallbackRollup &&
                    forall c :: c in candidates ==> TruncDiv(secs, c) >= MaxDataPoints))
  {
    var candidates := RollupCandidates(HoursSince(now, windowStartTimeUnix));
    var secs := WindowSizeSeconds(windowSizeMs);
    CandidatesIncreasing(HoursSince(now, windowStartTimeUnix));
    var f := FirstFit(secs, candidates, 0);
    if f.Some? {
      forall c | c in candidates && c < candidates[f.value] ensures TruncDiv(secs, c) >= MaxDataPoints {
        var k :| 0 <= k < |candidates| && candidates[k] == c;
        assert k < f.value;
      }
    } else {
      forall c | c in candidates ensures TruncDiv(secs, c) >= MaxDataPoints {
        var k :| 0 <= k < |candidates| && candidates[k] == c;
      }
    }
  }

  /** For a window that does not extend backwards, "fewer than MaxDataPoints
      intervals" means the window is shorter than MaxDataPoints rollups. */
  lemma UnderLimitMeansShortWindow(windowSizeSeconds: int, rollup: int)
    requires windowSizeSeconds >= 0 && rollup > 0
    ensures TruncDiv(windowSizeSeconds, rollup) < MaxDataPoints <==> windowSizeSeconds < MaxDataPoints * rollup
  {
    var q := TruncDiv(windowSizeSeconds, rollup);
    if q < MaxDataPoints {
      MulMonotone(q + 1, MaxDataPoints, rollup);
    } else {
      MulMonotone(MaxDataPoints, q, rollup);
    }
  }

  /** Data 24 or more hours old never gets a rollup finer than one minute:
      a found rollup is at least 60. */
  lemma OldDataAtLeastOneMinute(windowStartTimeUnix: int, windowSizeMs: int, now: int)
    requires now - windowStartTimeUnix >= 24 * 3600
    ensures var r := RollupSearch(windowStartTimeUnix, windowSizeMs, now); r.Some? ==> r.value >= 60
    ensures ComputeRollupValue(windowStartTimeUnix, windowSizeMs, now) in {1, 60, 300, 3600}
  {
    assert HoursSince(now, windowStartTimeUnix) >= 24;
  }

  /** A window too long even for hourly data gets the fallback 1, whatever its age. */
  lemma TooLongWindowFallsBack(windowStartTimeUnix: int, windowSizeMs: int, now: int)
    requires TruncDiv(WindowSizeSeconds(windowSizeMs), 3600) >= MaxDataPoints
    ensures ComputeRollupValue(windowStartTimeUnix, windowSizeMs, now) == FallbackRollup
  {
    var secs := WindowSizeSeconds(windowSizeMs);
    var candidates := RollupCandidates(HoursSince(now, windowStartTimeUnix));
    forall k | 0 <= k < |candidates| ensures TruncDiv(secs, candidates[k]) >= MaxDataPoints {
      TruncDivAntitone(secs, candidates[k], 3600);
    }
    assert FirstFit(secs, candidates, 0).None?;
  }

  /** Dividing a non-negative dividend by a larger divisor gives no more. */
  lemma TruncDivAntitone(a: int, b1: int, b2: int)
    requires 0 < b1 <= b2
    requires TruncDiv(a, b2) >= MaxDataPoints
    ensures TruncDiv(a, b1) >= MaxDataPoints
  {
    var q2 := TruncDiv(a, b2);
    assert a >= 0;
    var q1 := TruncDiv(a, b1);
    MulMonotone(MaxDataPoints, q2, b2);
    MulMonotone(b1, b2, MaxDataPoints);
    if q1 < MaxDataPoints {
      MulMonotone(q1 + 1, MaxDataPoints, b1);
      assert false;
    }
  }

  /** A one-hour window that started within the last day gets one-minute data:
      3600 one-second and 720 five-second points are both too many. */
  lemma RecentHourGetsOneMinute(windowStartTimeUnix: int, now: int)
    requires now - windowStartTimeUnix < 24 * 3600
    ensures ComputeRollupValue(windowStartTimeUnix, 3600000, now) == 60
  {
    assert HoursSince(now, windowStartTimeUnix) < 24;
    assert WindowSizeSeconds(3600000) == 3600;
    assert TruncDiv(3600, 1) == 3600 && TruncDiv(3600, 5) == 720 && TruncDiv(3600, 60) == 60;
    assert FirstFit(3600, RecentRollups, 2) == Some(2);
    assert FirstFit(3600, RecentRollups, 0) == Some(2);
  }

  /** For a fixed age, a longer window never gets a finer rollup, as long as
      the longer one still finds a candidate. */
  lemma RollupMonotone(windowStartTimeUnix: int, now: int, sizeMs1: int, sizeMs2: int)
    requires sizeMs1 <= sizeMs2
    requires RollupSearch(windowStartTimeUnix, sizeMs2, now).Some?
    ensures RollupSearch(windowStartTimeUnix, sizeMs1, now).Some?
    ensures RollupSearch(windowStartTimeUnix, sizeMs1, now).value <= RollupSearch(windowStartTimeUnix, sizeMs2, now).value
  {
    var candidates := RollupCandidates(HoursSince(now, windowStartTimeUnix));
    CandidatesIncreasing(HoursSince(now, windowStartTimeUnix));
    var secs1, secs2 := WindowSizeSeconds(sizeMs1), WindowSizeSeconds(sizeMs2);
    TruncDivMonotone(sizeMs1, sizeMs2, 1000);
    var i2 := FirstFit(secs2, candidates, 0).value;
    TruncDivMonotone(secs1, secs2, candidates[i2]);
    var f1 := FirstFit(secs1, candidates, 0);
    assert f1.Some? && f1.value <= i2;
  }

  // ---------------------------------------------------------------------------
  // The metrics query of GetHostMetrics
  // ---------------------------------------------------------------------------

  /** The body of a combined-metrics request. */
  datatype MetricsQuery = MetricsQuery(
    metrics: seq<string>, plugin: string, query: string, to: int, windowSize: int, rollup: int)

  const HostQueryPrefix := "entity.host.name:"

  /** The request GetHostMetrics sends for a host and a window. */
  function HostMetricsQuery(hostname: string, windowStartTimeUnix: int, windowSizeMs: int,
                            metricIds: seq<string>, now: int): MetricsQuery
  {
    MetricsQuery(metricIds, "host", HostQueryPrefix + hostname, windowStartTimeUnix * 1000, windowSizeMs,
                 ComputeRollupValue(windowStartTimeUnix, windowSizeMs, now))
  }

  /** The window's end is sent in milliseconds, the window size unchanged, the
      filter names the host, and the rollup keeps the answer under the limit
      whenever a candidate fits. */
  lemma HostMetricsQueryMeaning(hostname: string, windowStartTimeUnix: int, windowSizeMs: int,
                                metricIds: seq<string>, now: int)
    ensures var q := HostMetricsQuery(hostname, windowStartTimeUnix, windowSizeMs, metricIds, now);
      q.to / 1000 == windowStartTimeUnix && q.to % 1000 == 0 &&
      q.windowSize == windowSizeMs && q.metrics == metricIds && q.plugin == "host" &&
      q.query[..|HostQueryPrefix|] == HostQueryPrefix && q.query[|HostQueryPrefix|..] == hostname &&
      (RollupSearch(windowStartTimeUnix, windowSizeMs, now).Some? ==>
         TruncDiv(WindowSizeSeconds(windowSizeMs), q.rollup) < MaxDataPoints)
  {
    RollupIsFirstFit(windowStartTimeUnix, windowSizeMs, now);
  }

  // ---------------------------------------------------------------------------
  // Series aggregation
  // ---------------------------------------------------------------------------

  /** One data point: a timestamp and a value (the API's pair `[t, v]`). */
  datatype Sample = Sample(timestamp: real, value: real)

  /** One item of the answer: its metrics, as (metric name, series) entries in
      the order Go's `range` over the map visits them. */
  datatype MetricItem = MetricItem(metrics: seq<(string, seq<Sample>)>)

  /** A float average; NaN is what 0/0 gives for an empty series. */
  datatype Average = Mean(value: real) | NaN

  datatype HostMetricResult = HostMetricResult(
    name: string, min: real, max: real, average: Average, data: seq<Sample>)

  function SumValues(v: seq<Sample>): real
    decreases |v|
  {
    if v == [] then 0.0 else SumValues(v[..|v| - 1]) + v[|v| - 1].value
  }

  /** The running minimum, seeded with `seed`, updated with `if d < min { min = d }`. */
  function MinFold(seed: real, v: seq<Sample>): (r: real)
    ensures r <= seed
    ensures forall j :: 0 <= j < |v| ==> r <= v[j].value
    ensures r == seed || exists j :: 0 <= j < |v| && r == v[j].value
    decreases |v|
  {
    if v == [] then seed
    else
      var m := MinFold(seed, v[..|v| - 1]);
      var d := v[|v| - 1].value;
      if d < m then d else m
  }

  /** The running maximum, seeded with `seed`, updated with `if d > max { max = d }`. */
  function MaxFold(seed: real, v: seq<Sample>): (r: real)
    ensures r >= seed
    ensures forall j :: 0 <= j < |v| ==> r >= v[j].value
    ensures r == seed || exists j :: 0 <= j < |v| && r == v[j].value
    decreases |v|
  {
    if v == [] then seed
    else
      var m := MaxFold(seed, v[..|v| - 1]);
      var d := v[|v| - 1].value;
      if d > m then d else m
  }

  /** `sum / float32(len(v)) * 100`. */
  function SeriesAverage(v: seq<Sample>): Average {
    if |v| == 0 then NaN else Mean(SumValues(v) / (|v| as real) * 100.0)
  }

  /** The result the loop appends for one metric. */
  function Summarize(name: string, v: seq<Sample>, minSeed: real, maxSeed: real): HostMetricResult {
    HostMetricResult(name, MinFold(minSeed, v), MaxFold(maxSeed, v), SeriesAverage(v), v)
  }

  /** One result per entry, in entry order. */
  function SummarizeEntries(entries: seq<(string, seq<Sample>)>, minSeed: real, maxSeed: real): (r: seq<HostMetricResult>)
    ensures |r| == |entries|
    ensures forall k :: 0 <= k < |r| ==> r[k] == Summarize(entries[k].0, entries[k].1, minSeed, maxSeed)
    decreases |entries|
  {
    if entries == [] then []
    else
      var last := entries[|entries| - 1];
      SummarizeEntries(entries[..|entries| - 1], minSeed, maxSeed) + [Summarize(last.0, last.1, minSeed, maxSeed)]
  }

  /** The results of all items, item after item. */
  function SummarizeItems(items: seq<MetricItem>, minSeed: real, maxSeed: real): seq<HostMetricResult>
    decreases |items|
  {
    if items == [] then []
    else SummarizeItems(items[..|items| - 1], minSeed, maxSeed) + SummarizeEntries(items[|items| - 1].metrics, minSeed, maxSeed)
  }

  /** The innermost loop of GetHostMetrics: one pass over a series keeping the
      running sum, maximum and minimum. */
  method SummarizeSeries(name: string, v: seq<Sample>, minSeed: real, maxSeed: real)
    returns (result: HostMetricResult)
    ensures result == Summarize(name, v, minSeed, maxSeed)
  {
    var sum := 0.0;
    var min := minSeed;
    var max := maxSeed;
    for n := 0 to |v|
      invariant sum == SumValues(v[..n])
      invariant min == MinFold(minSeed, v[..n])
      invariant max == MaxFold(maxSeed, v[..n])
    {
      FoldStep(v, n, minSeed, maxSeed);
      var d := v[n].value;
      sum := sum + d;
      if d > max {
        max := d;
      }
      if d < min {
        min := d;
      }
    }
    TakeAll(v);
    var average := if |v| == 0 then NaN else Mean(sum / (|v| as real) * 100.0);
    result := HostMetricResult(name, min, max, average, v);
  }

  /** One more sample extends the sum and both folds by that sample. */
  lemma FoldStep(v: seq<Sample>, n: nat, minSeed: real, maxSeed: real)
    requires n < |v|
    ensures SumValues(v[..n + 1]) == SumValues(v[..n]) + v[n].value
    ensures MinFold(minSeed, v[..n + 1]) ==
            (var m := MinFold(minSeed, v[..n]); if v[n].value < m then v[n].value else m)
    ensures MaxFold(maxSeed, v[..n + 1]) ==
            (var m := MaxFold(maxSeed, v[..n]); if v[n].value > m then v[n].value else m)
  {
    TakeOneMore(v, n);
  }

  /** The nested loops of GetHostMetrics that reduce the answer. */
  method AggregateHostMetrics(items: seq<MetricItem>, minSeed: real, maxSeed: real)
    returns (results: seq<HostMetricResult>)
    ensures results == SummarizeItems(items, minSeed, maxSeed)
  {
    results := [];
    for i := 0 to |items|
      invariant results == SummarizeItems(items[..i], minSeed, maxSeed)
    {
      var entries := items[i].metrics;
      ItemsStep(items, i, minSeed, maxSeed);
      ghost var before := results;
      for k := 0 to |entries|
        invariant results == before + SummarizeEntries(entries[..k], minSeed, maxSeed)
      {
        var summary := SummarizeSeries(entries[k].0, entries[k].1, minSeed, maxSeed);
        EntriesStep(entries, k, minSeed, maxSeed);
        AppendAssoc(before, SummarizeEntries(entries[..k], minSeed, maxSeed), summary);
        results := results + [summary];
      }
      TakeAll(entries);
    }
    TakeAll(items);
  }

  lemma ItemsStep(items: seq<MetricItem>, i: nat, minSeed: real, maxSeed: real)
    requires i < |items|
    ensures SummarizeItems(items[..i + 1], minSeed, maxSeed) ==
            SummarizeItems(items[..i], minSeed, maxSeed) + SummarizeEntries(items[i].metrics, minSeed, maxSeed)
  {
    TakeOneMore(items, i);
  }

  lemma EntriesStep(entries: seq<(string, seq<Sample>)>, k: nat, minSeed: real, maxSeed: real)
    requires k < |entries|
    ensures SummarizeEntries(entries[..k + 1], minSeed, maxSeed) ==
            SummarizeEntries(entries[..k], minSeed, maxSeed) + [Summarize(entries[k].0, entries[k].1, minSeed, maxSeed)]
  {
    TakeOneMore(entries, k);
  }

  lemma AppendAssoc<T>(a: seq<T>, b: seq<T>, x: T)
    ensures a + b + [x] == a + (b + [x])
  {
  }

  /** GetHostMetrics. `fetch` stands for the Instana client's infrastructure
      metrics call; the reduction runs on whatever it answers. */
  method GetHostMetrics(hostname: string, windowStartTimeUnix: int, windowSizeMs: int, metricIds: seq<string>,
                        now: int, minSeed: real, maxSeed: real,
                        fetch: MetricsQuery -> Result<seq<MetricItem>, string>)
    returns (r: Result<seq<HostMetricResult>, string>)
    ensures var answer := fetch(HostMetricsQuery(hostname, windowStartTimeUnix, windowSizeMs, metricIds, now));
      (answer.Err? ==> r == Err("Error retrieving host metrics: " + answer.error)) &&
      (answer.Ok? ==> r == Ok(SummarizeItems(answer.value, minSeed, maxSeed)))
  {
    var query := HostMetricsQuery(hostname, windowStartTimeUnix, windowSizeMs, metricIds, now);
    var answer := fetch(query);
    if answer.Err? {
      return Err("Error retrieving host metrics: " + answer.error);
    }
    var results := AggregateHostMetrics(answer.value, minSeed, maxSeed);
    return Ok(results);
  }

  // ---------------------------------------------------------------------------
  // What the reduction promises
  // ---------------------------------------------------------------------------

  /** Min is a lower bound and Max an upper bound of every value; the name and
      the series are passed through unchanged. */
  lemma SummaryBounds(name: string, v: seq<Sample>, minSeed: real, maxSeed: real, j: int)
    requires 0 <= j < |v|
    ensures var s := Summarize(name, v, minSeed, maxSeed);
      s.min <= v[j].value <= s.max && s.name == name && s.data == v
  {
  }

  /** The average is the mean scaled by 100, and so lies between 100 * Min and
      100 * Max. (Min and Max themselves are not scaled.) */
  lemma {:induction false} AverageBetweenScaledBounds(v: seq<Sample>, minSeed: real, maxSeed: real)
    requires |v| > 0
    ensures SeriesAverage(v).Mean?
    ensures 100.0 * MinFold(minSeed, v) <= SeriesAverage(v).value <= 100.0 * MaxFold(maxSeed, v)
  {
    var lo, hi := MinFold(minSeed, v), MaxFold(maxSeed, v);
    var n := |v| as real;
    SumBounds(v, lo, hi);
    QuotientBounds(SumValues(v), n, lo, hi);
  }

  lemma QuotientBounds(s: real, n: real, lo: real, hi: real)
    requires n > 0.0 && n * lo <= s <= n * hi
    ensures lo <= s / n <= hi
  {
    assert s / n - lo == (s - n * lo) / n;
    assert hi - s / n == (n * hi - s) / n;
  }

  lemma {:induction false} SumBounds(v: seq<Sample>, lo: real, hi: real)
    requires forall j :: 0 <= j < |v| ==> lo <= v[j].value <= hi
    ensures (|v| as real) * lo <= SumValues(v) <= (|v| as real) * hi
    decreases |v|
  {
    if v != [] {
      SumBounds(v[..|v| - 1], lo, hi);
    }
  }

  /** Two series with the same values, sample by sample. */
  predicate SameValues(v: seq<Sample>, w: seq<Sample>) {
    |v| == |w| && forall j :: 0 <= j < |v| ==> v[j].value == w[j].value
  }

  /** The timestamps play no part: series with the same values give the same
      minimum, maximum and average. */
  lemma TimestampsIgnored(v: seq<Sample>, w: seq<Sample>, minSeed: real, maxSeed: real)
    requires SameValues(v, w)
    ensures MinFold(minSeed, v) == MinFold(minSeed, w)
    ensures MaxFold(maxSeed, v) == MaxFold(maxSeed, w)
    ensures SumValues(v) == SumValues(w) && SeriesAverage(v) == SeriesAverage(w)
  {
    MinIgnoresTimestamps(v, w, minSeed);
    MaxIgnoresTimestamps(v, w, maxSeed);
    SumIgnoresTimestamps(v, w);
  }

  lemma {:induction false} MinIgnoresTimestamps(v: seq<Sample>, w: seq<Sample>, seed: real)
    requires SameValues(v, w)
    ensures MinFold(seed, v) == MinFold(seed, w)
    decreases |v|
  {
    if v != [] {
      DropLastSameValues(v, w);
      MinIgnoresTimestamps(v[..|v| - 1], w[..|w| - 1], seed);
    }
  }

  lemma {:induction false} MaxIgnoresTimestamps(v: seq<Sample>, w: seq<Sample>, seed: real)
    requires SameValues(v, w)
    ensures MaxFold(seed, v) == MaxFold(seed, w)
    decreases |v|
  {
    if v != [] {
      DropLastSameValues(v, w);
      MaxIgnoresTimestamps(v[..|v| - 1], w[..|w| - 1], seed);
    }
  }

  lemma {:induction false} SumIgnoresTimestamps(v: seq<Sample>, w: seq<Sample>)
    requires SameValues(v, w)
    ensures SumValues(v) == SumValues(w)
    decreases |v|
  {
    if v != [] {
      DropLastSameValues(v, w);
      SumIgnoresTimestamps(v[..|v| - 1], w[..|w| - 1]);
    }
  }

  lemma DropLastSameValues(v: seq<Sample>, w: seq<Sample>)
    requires SameValues(v, w) && v != []
    ensures SameValues(v[..|v| - 1], w[..|w| - 1])
  {
  }

  /** Min is an actual value of the series as soon as some value does not
      exceed the seed, and then it is the least value; likewise for Max. */
  lemma {:induction false} FoldsFindExtremes(v: seq<Sample>, minSeed: real, maxSeed: real)
    ensures (exists j :: 0 <= j < |v| && v[j].value <= minSeed) ==>
      exists j :: 0 <= j < |v| && MinFold(minSeed, v) == v[j].value
    ensures (exists j :: 0 <= j < |v| && v[j].value >= maxSeed) ==>
      exists j :: 0 <= j < |v| && MaxFold(maxSeed, v) == v[j].value
  {
    if exists j :: 0 <= j < |v| && v[j].value <= minSeed {
      var j :| 0 <= j < |v| && v[j].value <= minSeed;
      if MinFold(minSeed, v) == minSeed {
        assert MinFold(minSeed, v) <= v[j].value;
      }
    }
    if exists j :: 0 <= j < |v| && v[j].value >= maxSeed {
      var j :| 0 <= j < |v| && v[j].value >= maxSeed;
      if MaxFold(maxSeed, v) == maxSeed {
        assert MaxFold(maxSeed, v) >= v[j].value;
      }
    }
  }

  /** When no value gets past a seed, the seed itself is reported: with a
      positive maximum seed, a series of negative values reports that seed as
      its maximum, which is none of its values. */
  lemma {:induction false} SeedsWinUnlessPassed(v: seq<Sample>, minSeed: real, maxSeed: real)
    ensures (forall j :: 0 <= j < |v| ==> v[j].value >= minSeed) ==> MinFold(minSeed, v) == minSeed
    ensures (forall j :: 0 <= j < |v| ==> v[j].value <= maxSeed) ==> MaxFold(maxSeed, v) == maxSeed
    decreases |v|
  {
    if v != [] {
      SeedsWinUnlessPassed(v[..|v| - 1], minSeed, maxSeed);
    }
  }

  /** An empty series reports the seeds and a NaN average. */
  lemma EmptySeries(name: string, minSeed: real, maxSeed: real)
    ensures Summarize(name, [], minSeed, maxSeed) == HostMetricResult(name, minSeed, maxSeed, NaN, [])
  {
  }

  /** A single sample inside the seeds is its own minimum and maximum, and its
      value times 100 is the average. */
  lemma SingleSample(name: string, s: Sample, minSeed: real, maxSeed: real)
    requires maxSeed <= s.value <= minSeed
    ensures var r := Summarize(name, [s], minSeed, maxSeed);
      r.min == r.max == s.value && r.average == Mean(100.0 * s.value)
  {
    assert [s][..0] == [];
    assert MinFold(minSeed, [s]) == s.value;
    assert MaxFold(maxSeed, [s]) == s.value;
    assert SumValues([s]) == s.value;
  }

  /** Values 10, 20, 30: minimum 10, maximum 30, average 20 scaled to 2000. */
  lemma ThreeSampleExample(minSeed: real, maxSeed: real)
    requires minSeed >= 10.0 && maxSeed <= 30.0
    ensures var r := Summarize("m", [Sample(0.0, 10.0), Sample(1.0, 20.0), Sample(2.0, 30.0)], minSeed, maxSeed);
      r.min == 10.0 && r.max == 30.0 && r.average == Mean(2000.0)
  {
    var v := [Sample(0.0, 10.0), Sample(1.0, 20.0), Sample(2.0, 30.0)];
    assert v[..2] == [Sample(0.0, 10.0), Sample(1.0, 20.0)];
    assert v[..2][..1] == [Sample(0.0, 10.0)];
    assert v[..2][..1][..0] == [];
    assert SumValues(v[..2][..1]) == 10.0;
    assert SumValues(v[..2]) == 30.0;
    assert SumValues(v) == 60.0;
    assert MinFold(minSeed, v[..2][..1]) == 10.0;
    assert MinFold(minSeed, v[..2]) == 10.0;
    assert MaxFold(maxSeed, v[..2][..1]) >= 10.0;
  }
}
