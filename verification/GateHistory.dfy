/** The history of gate runs: loading the saved files, retention, and the 95th percentile. */
module GateHistory {
  import opened Wrappers
  import opened Lists
  import opened Text
  import opened GateMetrics
  import opened GateRoundTrip
  import opened Sorting
  import opened OrderStatistics
  import opened Percentiles

  function Time(g: GateMetric): real {
    g.timestamp as real
  }

  function MetricsIn(content: string): seq<GateMetric> {
    ReadLines(START, Lines(content)).metrics
  }

  /** All that the reader finds in the files, file by file. */
  function AllMetrics(contents: seq<string>): seq<GateMetric> {
    Collect(MetricsIn, contents)
  }

  /** What retention drops, oldest first. */
  function Dropped(all: seq<GateMetric>): seq<GateMetric> {
    SortByKey(all, Time)[..if |all| > 50 then |all| - 50 else 0]
  }

  /** What retention keeps, oldest first. */
  function Latest(all: seq<GateMetric>): seq<GateMetric> {
    SortByKey(all, Time)[if |all| > 50 then |all| - 50 else 0..]
  }

  /** `contents` are the files that could be read, in the order of the directory. */
  method LoadHistoricalMetrics(contents: seq<string>) returns (historical: seq<GateMetric>)
    ensures historical == Latest(AllMetrics(contents))
  {
    historical := [];
    for i := 0 to |contents|
      invariant historical == AllMetrics(contents[..i])
    {
      assert contents[..i + 1][..i] == contents[..i];
      var metrics := ParseMetrics(contents[i]);
      historical := historical + metrics;
    }
    assert contents[..|contents|] == contents;
    historical := SortByKey(historical, Time);
    if |historical| > 50 {
      historical := historical[|historical| - 50..];
    }
  }

  lemma SplitSorted(sorted: seq<GateMetric>, a: seq<GateMetric>, b: seq<GateMetric>)
    requires Sorted(sorted, Time) && sorted == a + b
    ensures forall i, j :: 0 <= i < |a| && 0 <= j < |b| ==> a[i].timestamp <= b[j].timestamp
    ensures Sorted(b, Time)
  {
    forall i, j | 0 <= i < |a| && 0 <= j < |b|
      ensures a[i].timestamp <= b[j].timestamp
    {
      assert Time(sorted[i]) <= Time(sorted[|a| + j]);
    }
    forall i, j | 0 <= i < j < |b|
      ensures Time(b[i]) <= Time(b[j])
    {
      assert Time(sorted[|a| + i]) <= Time(sorted[|a| + j]);
    }
  }

  lemma DroppedAndLatest(all: seq<GateMetric>)
    ensures SortByKey(all, Time) == Dropped(all) + Latest(all)
    ensures |Latest(all)| == if |all| < 50 then |all| else 50
  {
  }

  /** Retention keeps 50 gate records, or all if there are fewer, in ascending order, and none that
      it drops is later than one that it keeps. Records of the same second stay in the order they
      were found, so it is decided which of them are kept. */
  lemma RetentionKeepsLatest(all: seq<GateMetric>)
    ensures |Latest(all)| == if |all| < 50 then |all| else 50
    ensures multiset(Dropped(all)) + multiset(Latest(all)) == multiset(all)
    ensures forall i, j :: 0 <= i < |Dropped(all)| && 0 <= j < |Latest(all)| ==>
      Dropped(all)[i].timestamp <= Latest(all)[j].timestamp
    ensures Sorted(Latest(all), Time)
    ensures SameWithKey(Dropped(all) + Latest(all), all, Time)
  {
    var sorted := SortByKey(all, Time);
    DroppedAndLatest(all);
    SortSorts(all, Time);
    SortExactly(all, sorted, Time);
    SplitSorted(sorted, Dropped(all), Latest(all));
  }

  lemma TimesOfPermuted(a: seq<GateMetric>, b: seq<GateMetric>, i: nat)
    requires multiset(a) == multiset(b) && i < |Latest(a)|
    ensures |Latest(b)| == |Latest(a)| && Latest(a)[i].timestamp == Latest(b)[i].timestamp
  {
    var k := |a| - |Latest(a)| + i;
    SortedKeysOfPermuted(a, b, Time, k);
    assert Latest(a)[i] == SortByKey(a, Time)[k];
    assert Latest(b)[i] == SortByKey(b, Time)[k];
  }

  /** The order of the files in the directory decides nothing but the order, and at the limit of
      retention the choice, of records of the same second. */
  lemma DirectoryOrder(contents: seq<string>, contents': seq<string>)
    requires multiset(contents) == multiset(contents')
    ensures var a, b := AllMetrics(contents), AllMetrics(contents');
      && multiset(a) == multiset(b) && |Latest(a)| == |Latest(b)|
      && forall i :: 0 <= i < |Latest(a)| ==> Latest(a)[i].timestamp == Latest(b)[i].timestamp
  {
    var a, b := AllMetrics(contents), AllMetrics(contents');
    CollectPermuted(MetricsIn, contents, contents');
    assert |multiset(a)| == |a| && |multiset(b)| == |b|;
    forall i | 0 <= i < |Latest(a)|
      ensures Latest(a)[i].timestamp == Latest(b)[i].timestamp
    {
      TimesOfPermuted(a, b, i);
    }
  }

  // ---- From saving to history ----

  datatype SavedRun = SavedRun(gates: seq<GateMetric>, total: u64, now: u64, audit: Audit)

  function Texts(runs: seq<SavedRun>): (texts: seq<string>)
    ensures |texts| == |runs|
    ensures forall i :: 0 <= i < |runs| ==>
      texts[i] == FileText(runs[i].gates, runs[i].total, runs[i].now, runs[i].audit)
  {
    seq(|runs|, i requires 0 <= i < |runs| =>
      FileText(runs[i].gates, runs[i].total, runs[i].now, runs[i].audit))
  }

  predicate ReadsBack(text: string, gates: seq<GateMetric>) {
    ReadLines(START, Lines(text)).metrics == gates
  }

  lemma {:induction false} AllReadBack(texts: seq<string>, runs: seq<SavedRun>)
    requires |texts| == |runs| && forall i :: 0 <= i < |runs| ==> ReadsBack(texts[i], runs[i].gates)
    ensures AllMetrics(texts) == AllGates(runs)
  {
    if runs != [] {
      AllReadBack(texts[..|runs| - 1], runs[..|runs| - 1]);
    }
  }

  function AllGates(runs: seq<SavedRun>): seq<GateMetric> {
    if runs == [] then [] else AllGates(runs[..|runs| - 1]) + runs[|runs| - 1].gates
  }

  /** The loaded files hold exactly the gates that the runs saved, in order. */
  lemma RunsReadBack(runs: seq<SavedRun>)
    requires forall i :: 0 <= i < |runs| ==> forall g :: g in runs[i].gates ==> PlainName(g.gateName)
    ensures AllMetrics(Texts(runs)) == AllGates(runs)
  {
    var texts := Texts(runs);
    forall i | 0 <= i < |runs|
      ensures ReadsBack(texts[i], runs[i].gates)
    {
      RoundTripExactlyWhen(runs[i].gates, runs[i].total, runs[i].now, runs[i].audit);
    }
    AllReadBack(texts, runs);
  }

  // ---- The 95th percentile ----

  function Duration(d: u64): real {
    d as real
  }

  function DurationsOf(history: seq<GateMetric>, gateName: string): seq<u64> {
    if history == [] then []
    else
      DurationsOf(history[..|history| - 1], gateName)
      + if history[|history| - 1].gateName == gateName then [history[|history| - 1].durationMs] else []
  }

  /** The gates of one name, those of them that took less than `v`, and those that took at most `v`. */
  function CountNamed(gates: seq<GateMetric>, name: string): nat {
    if gates == [] then 0
    else CountNamed(gates[..|gates| - 1], name) + if gates[|gates| - 1].gateName == name then 1 else 0
  }

  function CountBelow(gates: seq<GateMetric>, name: string, v: nat): nat {
    if gates == [] then 0
    else
      var g := gates[|gates| - 1];
      CountBelow(gates[..|gates| - 1], name, v) + if g.gateName == name && g.durationMs < v then 1 else 0
  }

  function CountAtMost(gates: seq<GateMetric>, name: string, v: nat): nat {
    if gates == [] then 0
    else
      var g := gates[|gates| - 1];
      CountAtMost(gates[..|gates| - 1], name, v) + if g.gateName == name && g.durationMs <= v then 1 else 0
  }

  lemma {:induction false} NamedDurations(gates: seq<GateMetric>, name: string)
    ensures forall d :: d in DurationsOf(gates, name) <==>
      exists g :: g in gates && g.gateName == name && g.durationMs == d
    ensures DurationsOf(gates, name) == [] <==> forall g :: g in gates ==> g.gateName != name
  {
    if gates != [] {
      var init, last := gates[..|gates| - 1], gates[|gates| - 1];
      NamedDurations(init, name);
      assert gates == init + [last];
    }
  }

  lemma {:induction false} NamedCounts(gates: seq<GateMetric>, name: string, v: u64)
    ensures |DurationsOf(gates, name)| == CountNamed(gates, name)
    ensures Count(DurationsOf(gates, name), Duration, v as real, false) == CountBelow(gates, name, v)
    ensures Count(DurationsOf(gates, name), Duration, v as real, true) == CountAtMost(gates, name, v)
  {
    if gates != [] {
      var init, last := gates[..|gates| - 1], gates[|gates| - 1];
      NamedCounts(init, name, v);
      var tail: seq<u64> := if last.gateName == name then [last.durationMs] else [];
      CountOfConcat(DurationsOf(init, name), tail, Duration, v as real, false);
      CountOfConcat(DurationsOf(init, name), tail, Duration, v as real, true);
      assert tail != [] ==> tail[..0] == [] && Duration(tail[0]) == last.durationMs as real;
    }
  }

  method CalculateP95Duration(contents: seq<string>, gateName: string) returns (p95: Option<u64>)
    ensures var durations := DurationsOf(Latest(AllMetrics(contents)), gateName);
      && (p95.None? <==> durations == [])
      && (p95.Some? ==> p95.value in durations && IsThePercentile(durations, Duration, 95, p95.value as real))
    ensures var kept := Latest(AllMetrics(contents));
      && (p95.None? <==> forall g :: g in kept ==> g.gateName != gateName)
      && (p95.Some? ==>
            && (exists g :: g in kept && g.gateName == gateName && g.durationMs == p95.value)
            && 100 * CountBelow(kept, gateName, p95.value) <= 95 * CountNamed(kept, gateName)
            && 95 * CountNamed(kept, gateName) < 100 * CountAtMost(kept, gateName, p95.value))
  {
    var historical := LoadHistoricalMetrics(contents);
    NamedDurations(historical, gateName);
    var durations: seq<u64> := [];
    for i := 0 to |historical|
      invariant durations == DurationsOf(historical[..i], gateName)
    {
      assert historical[..i + 1][..i] == historical[..i];
      if historical[i].gateName == gateName {
        durations := durations + [historical[i].durationMs];
      }
    }
    assert historical[..|historical|] == historical;
    if durations == [] {
      return None;
    }
    ghost var found := durations;
    durations := SortByKey(durations, Duration);
    var p95Index := 95 * |durations| / 100;
    var longest := durations[|durations| - 1];
    p95 := Some(if p95Index < |durations| then durations[p95Index] else longest);
    SortSorts(found, Duration);
    assert p95.value in multiset(durations);
    forall v: real
      ensures Percentile(found, Duration, 95, v) <==> v == p95.value as real
    {
      PercentileAt(found, Duration, 95, p95Index, v);
    }
    NamedCounts(historical, gateName, p95.value);
    assert Percentile(found, Duration, 95, p95.value as real);
  }
}
