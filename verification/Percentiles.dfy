/** Percentiles and medians of performance samples. */
module Percentiles {
  import opened Wrappers
  import opened Sorting
  import opened OrderStatistics
  import opened TrendStats

  function Self(x: real): real {
    x
  }

  /** At most the given percentage of the samples lie below `v`, and more than it at or below `v`. */
  predicate Percentile<T>(s: seq<T>, key: T -> real, percent: nat, v: real) {
    100 * Count(s, key, v, false) <= percent * |s| < 100 * Count(s, key, v, true)
  }

  /** An index that is the percentage of the length, rounded down, selects the percentile. */
  lemma PercentileAt<T>(s: seq<T>, key: T -> real, percent: nat, i: nat, v: real)
    requires i < |s| && i == percent * |s| / 100
    ensures key(SortByKey(s, key)[i]) == v <==> Percentile(s, key, percent, v)
  {
    OrderStatistic(s, key, i, v);
  }

  /** `r` is the percentile, and no other value is. */
  ghost predicate IsThePercentile<T>(s: seq<T>, key: T -> real, percent: nat, r: real) {
    forall v :: Percentile(s, key, percent, v) <==> v == r
  }

  method CalculatePercentiles(values: seq<real>) returns (p50: real, p99: real)
    ensures values == [] ==> p50 == 0.0 && p99 == 0.0
    ensures values != [] ==> IsThePercentile(values, Self, 50, p50)
    ensures values != [] ==> IsThePercentile(values, Self, 99, p99)
  {
    if values == [] {
      return 0.0, 0.0;
    }
    var sorted := SortByKey(values, Self);
    var p50Index := |sorted| / 2;
    var p99Index := |sorted| * 99 / 100;
    p50 := sorted[p50Index];
    p99 := sorted[if p99Index < |sorted| - 1 then p99Index else |sorted| - 1];
    forall v: real
      ensures Percentile(values, Self, 50, v) <==> v == p50
      ensures Percentile(values, Self, 99, v) <==> v == p99
    {
      PercentileAt(values, Self, 50, p50Index, v);
      PercentileAt(values, Self, 99, p99Index, v);
    }
  }

  method CalculateP99(values: seq<real>) returns (p99: real)
    ensures values == [] ==> p99 == 0.0
    ensures values != [] ==> IsThePercentile(values, Self, 99, p99)
  {
    if values == [] {
      return 0.0;
    }
    var sorted := SortByKey(values, Self);
    var p99Index := |sorted| * 99 / 100;
    p99 := sorted[if p99Index < |sorted| - 1 then p99Index else |sorted| - 1];
    forall v: real
      ensures Percentile(values, Self, 99, v) <==> v == p99
    {
      PercentileAt(values, Self, 99, p99Index, v);
    }
  }

  function Recent(metrics: seq<PerfMetrics>): seq<PerfMetrics> {
    if |metrics| < 10 then metrics else metrics[|metrics| - 10..]
  }

  /** The last ten samples, or all if there are fewer. */
  lemma RecentAreLast(metrics: seq<PerfMetrics>)
    ensures |Recent(metrics)| == if |metrics| < 10 then |metrics| else 10
    ensures metrics == metrics[..|metrics| - |Recent(metrics)|] + Recent(metrics)
  {
  }

  /** None stands for the error "no historical data". */
  method CalculateBaselineFromHistory(metrics: seq<PerfMetrics>) returns (baseline: Option<PerfMetrics>)
    ensures baseline.None? <==> metrics == []
    ensures baseline.Some? ==>
      IsThePercentile(Jitter(Recent(metrics)), Self, 50, baseline.value.jitterP99)
    ensures baseline.Some? ==>
      IsThePercentile(Hid(Recent(metrics)), Self, 50, baseline.value.hidP99)
  {
    if metrics == [] {
      return None;
    }
    var recentCount := if |metrics| < 10 then |metrics| else 10;
    var recent := metrics[|metrics| - recentCount..];
    assert recent == Recent(metrics);
    var jitter := SortByKey(Jitter(recent), Self);
    var hid := SortByKey(Hid(recent), Self);
    baseline := Some(PerfMetrics(jitter[|jitter| / 2], hid[|hid| / 2]));
    forall v: real
      ensures Percentile(Jitter(recent), Self, 50, v) <==> v == baseline.value.jitterP99
      ensures Percentile(Hid(recent), Self, 50, v) <==> v == baseline.value.hidP99
    {
      PercentileAt(Jitter(recent), Self, 50, |jitter| / 2, v);
      PercentileAt(Hid(recent), Self, 50, |hid| / 2, v);
    }
  }

  // ---- What every percentile is ----

  lemma IndexInRange(percent: nat, n: nat)
    requires percent < 100 && n > 0
    ensures 0 <= percent * n / 100 < n
  {
    assert percent * n <= 99 * n;
  }

  /** For any percentage below 100, exactly one value is the percentile, and it is a sample. */
  lemma PercentileIsSample<T>(s: seq<T>, key: T -> real, percent: nat) returns (i: nat)
    requires s != [] && percent < 100
    ensures i < |s| && IsThePercentile(s, key, percent, key(s[i]))
  {
    IndexInRange(percent, |s|);
    SortSorts(s, key);
    var x := SortByKey(s, key)[percent * |s| / 100];
    assert x in multiset(s);
    i :| 0 <= i < |s| && s[i] == x;
    forall v: real
      ensures Percentile(s, key, percent, v) <==> v == key(x)
    {
      PercentileAt(s, key, percent, percent * |s| / 100, v);
    }
  }

  /** Percentiles of the same samples grow with the percentage. */
  lemma PercentilesOrdered<T>(s: seq<T>, key: T -> real, percent: nat, percent': nat, v: real, v': real)
    requires percent <= percent' < 100
    requires Percentile(s, key, percent, v) && Percentile(s, key, percent', v')
    ensures v <= v'
  {
    if s != [] {
      SelectsPercentile(s, key, percent, v);
      SelectsPercentile(s, key, percent', v');
      IndicesOrdered(percent, percent', |s|);
      IndexInRange(percent', |s|);
      SortSorts(s, key);
    }
  }

  lemma SelectsPercentile<T>(s: seq<T>, key: T -> real, percent: nat, v: real)
    requires s != [] && percent < 100 && Percentile(s, key, percent, v)
    ensures percent * |s| / 100 < |s| && key(SortByKey(s, key)[percent * |s| / 100]) == v
  {
    IndexInRange(percent, |s|);
    PercentileAt(s, key, percent, percent * |s| / 100, v);
  }

  lemma IndicesOrdered(percent: nat, percent': nat, n: nat)
    requires percent <= percent'
    ensures percent * n / 100 <= percent' * n / 100
  {
    assert percent * n <= percent' * n;
  }

  /** Percentiles do not depend on the order of the samples. */
  lemma PercentileOfPermuted<T>(a: seq<T>, b: seq<T>, key: T -> real, percent: nat, v: real)
    requires multiset(a) == multiset(b)
    ensures Percentile(a, key, percent, v) <==> Percentile(b, key, percent, v)
  {
    assert |multiset(a)| == |a| && |multiset(b)| == |b|;
    CountOfPermuted(a, b, key, v, false);
    CountOfPermuted(a, b, key, v, true);
  }
}
