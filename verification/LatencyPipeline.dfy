/**
  The latency pipeline end to end: the merged, baselined buckets of a scrape
  are the histogram of exactly the observations made since the baseline, so
  what was observed during warmup cannot be told from any reading of them.
*/
module LatencyPipeline {
  import opened Basics
  import opened Histogram
  import opened Observations
  import opened Prometheus
  import opened LabelSeries
  import opened Warmup

  /** An engine that keeps running: its series only gain observations, and new
      series may appear. */
  ghost predicate Grows(w0: seq<Series>, w1: seq<Series>) {
    && |w0| <= |w1|
    && (forall i :: 0 <= i < |w0| ==>
         && w0[i].metric == w1[i].metric && w0[i].bounds == w1[i].bounds
         && w0[i].obs <= w1[i].obs)
  }

  /** The series of `w1` with only the observations made since `w0`. */
  function Since(w0: seq<Series>, w1: seq<Series>): seq<Series> {
    seq(|w1|, i requires 0 <= i < |w1| =>
      if i < |w0| && |w0[i].obs| <= |w1[i].obs| then w1[i].(obs := w1[i].obs[|w0[i].obs|..]) else w1[i])
  }

  ghost predicate NonNegative(w: seq<Series>) {
    forall s :: s in w ==> forall v :: v in s.obs ==> v >= 0.0
  }

  ghost predicate SharesBounds(w: seq<Series>, name: string, bounds: seq<Bound>) {
    forall s :: s in w && s.metric == name ==> s.bounds == bounds
  }

  /** What the last series adds to the observations of `name`. */
  lemma LastSeries(w: seq<Series>, name: string, le: Bound)
    requires |w| > 0
    ensures var front, s := w[..|w| - 1], w[|w| - 1];
      && CountLe(ObsOf(w, name), le)
         == CountLe(ObsOf(front, name), le) + (if s.metric == name then CountLe(s.obs, le) else 0)
      && Sum(ObsOf(w, name)) == Sum(ObsOf(front, name)) + (if s.metric == name then Sum(s.obs) else 0.0)
      && |ObsOf(w, name)| == |ObsOf(front, name)| + if s.metric == name then |s.obs| else 0
  {
    var front, s := w[..|w| - 1], w[|w| - 1];
    CountAppend(ObsOf(front, name), if s.metric == name then s.obs else [], le);
    SumAppend(ObsOf(front, name), if s.metric == name then s.obs else []);
  }

  ghost function WithoutSeries(w0: seq<Series>, n: nat): seq<Series> {
    if |w0| <= n then w0 else w0[..n]
  }

  lemma SinceOfLast(w0: seq<Series>, w1: seq<Series>)
    requires Grows(w0, w1) && |w1| > 0
    ensures var n := |w1| - 1;
      var late := Since(w0, w1);
      && |late| == n + 1
      && Grows(WithoutSeries(w0, n), w1[..n])
      && late[..n] == Since(WithoutSeries(w0, n), w1[..n])
      && late[n].metric == w1[n].metric
      && (if |w0| > n
          then |w0| == n + 1 && w0[n].metric == w1[n].metric && w1[n].obs == w0[n].obs + late[n].obs
          else late[n] == w1[n])
  {
  }

  lemma {:induction false} ObsSplit(w0: seq<Series>, w1: seq<Series>, name: string, le: Bound)
    requires Grows(w0, w1)
    ensures var before, after, all := ObsOf(w0, name), ObsOf(Since(w0, w1), name), ObsOf(w1, name);
      && CountLe(all, le) == CountLe(before, le) + CountLe(after, le)
      && Sum(all) == Sum(before) + Sum(after)
      && |all| == |before| + |after|
    decreases |w1|
  {
    if |w1| > 0 {
      var n := |w1| - 1;
      SinceOfLast(w0, w1);
      var late := Since(w0, w1);
      hide ObsOf, CountLe, Sum, Since, Grows;
      ObsSplit(WithoutSeries(w0, n), w1[..n], name, le);
      LastSeries(w1, name, le);
      LastSeries(late, name, le);
      if |w0| > n {
        LastSeries(w0, name, le);
        CountAppend(w0[n].obs, late[n].obs, le);
        SumAppend(w0[n].obs, late[n].obs);
      }
    } else {
      assert w0 == [] && Since(w0, w1) == [];
    }
  }

  lemma {:induction false} SinceIsNonNegative(w: seq<Series>, name: string)
    requires NonNegative(w)
    ensures forall v :: v in ObsOf(w, name) ==> v >= 0.0
  {
    if |w| > 0 {
      assert w[|w| - 1] in w;
      SinceIsNonNegative(w[..|w| - 1], name);
    }
  }

  lemma {:induction false} NoSeriesNoObs(w: seq<Series>, name: string)
    requires forall s :: s in w ==> s.metric != name
    ensures ObsOf(w, name) == []
  {
    if |w| > 0 {
      assert w[|w| - 1] in w;
      NoSeriesNoObs(w[..|w| - 1], name);
    }
  }

  /** A scrape of the engine, merged. */
  datatype Scrape = Scrape(samples: seq<Sample>, series: seq<Series>, others: seq<Sample>, parsed: ParsedMetrics)

  ghost predicate ValidScrape(s: Scrape, name: string) {
    IsScrapeOf(s.samples, s.series, s.others, name) && IsMergeOf(s.samples, s.parsed)
  }

  /** What the baselined scrape holds under `name` is the histogram, the sum
      and the count of the observations made since the baseline. */
  ghost predicate ReportsExactly(adjusted: ParsedMetrics, name: string, bounds: seq<Bound>, obs: seq<real>) {
    && name in adjusted.histograms && adjusted.histograms[name] == HistogramOf(bounds, obs)
    && name + "_sum" in adjusted.counters && adjusted.counters[name + "_sum"] == Sum(obs)
    && name + "_count" in adjusted.counters && adjusted.counters[name + "_count"] == |obs| as real
  }

  lemma ScrapeReports(s: Scrape, name: string, bounds: seq<Bound>)
    requires ValidScrape(s, name) && name in s.parsed.histograms && SharesBounds(s.series, name, bounds)
    ensures ReportsExactly(s.parsed, name, bounds, ObsOf(s.series, name))
  {
    ScrapeTotals(s.samples, s.series, s.others, name, s.parsed);
    SharedBoundsMergeToUnion(s.samples, s.series, s.others, name, s.parsed, bounds);
  }

  /** The baseline's own report, or nothing when it had no such series. */
  lemma BaselineReports(b: Scrape, s: Scrape, name: string, bounds: seq<Bound>)
    requires ValidScrape(b, name) && Grows(b.series, s.series) && SharesBounds(s.series, name, bounds)
    ensures name in b.parsed.histograms ==> ReportsExactly(b.parsed, name, bounds, ObsOf(b.series, name))
    ensures name !in b.parsed.histograms ==>
      && ObsOf(b.series, name) == []
      && name + "_sum" !in b.parsed.counters && name + "_count" !in b.parsed.counters
  {
    hide ValidScrape, ReportsExactly, ObsOf;
    assert IsScrapeOf(b.samples, b.series, b.others, name) && IsMergeOf(b.samples, b.parsed) by {
      ValidScrapeIs(b, name);
    }
    ScrapeTotals(b.samples, b.series, b.others, name, b.parsed);
    if name in b.parsed.histograms {
      forall x | x in b.series && x.metric == name ensures x.bounds == bounds {
        var i :| 0 <= i < |b.series| && b.series[i] == x;
        assert s.series[i] in s.series;
      }
      ScrapeReports(b, name, bounds);
    } else {
      NoSeriesNoObs(b.series, name);
    }
  }

  lemma ValidScrapeIs(s: Scrape, name: string)
    requires ValidScrape(s, name)
    ensures IsScrapeOf(s.samples, s.series, s.others, name) && IsMergeOf(s.samples, s.parsed)
  {
  }

  lemma HistogramsSplit(w0: seq<Series>, w1: seq<Series>, name: string, bounds: seq<Bound>)
    requires Grows(w0, w1)
    ensures var before, after, all := ObsOf(w0, name), ObsOf(Since(w0, w1), name), ObsOf(w1, name);
      && BucketDeltas(HistogramOf(bounds, all), HistogramOf(bounds, before)) == HistogramOf(bounds, after)
      && (before == [] ==> HistogramOf(bounds, all) == HistogramOf(bounds, after))
  {
    hide ObsOf;
    forall le ensures CountLe(ObsOf(w1, name), le) == CountLe(ObsOf(w0, name), le) + CountLe(ObsOf(Since(w0, w1), name), le) {
      ObsSplit(w0, w1, name, le);
    }
  }

  /** The scrape `s`, less the baseline scrape `b`, reports exactly the
      observations made in between, whether or not `b` had the histogram yet. */
  lemma BaselinedIsSince(b: Scrape, s: Scrape, name: string, bounds: seq<Bound>)
    requires ValidScrape(b, name) && ValidScrape(s, name) && Grows(b.series, s.series)
    requires NonNegative(Since(b.series, s.series))
    requires name in s.parsed.histograms && SharesBounds(s.series, name, bounds)
    ensures ReportsExactly(Subtracted(s.parsed, BaselineOf(b.parsed)), name, bounds,
                           ObsOf(Since(b.series, s.series), name))
  {
    hide ValidScrape, ObsOf, CountLe, Sum, Since, Grows;
    ScrapeReports(s, name, bounds);
    BaselineReports(b, s, name, bounds);
    ObsSplit(b.series, s.series, name, Inf);
    HistogramsSplit(b.series, s.series, name, bounds);
    SinceIsNonNegative(Since(b.series, s.series), name);
    SumNonNegative(ObsOf(Since(b.series, s.series), name));
    assert |HistogramOf(bounds, ObsOf(b.series, name))| == |bounds|;
    hide BucketDeltas;
    assert Sum([]) == 0.0 by { EmptySum(); }
  }

  // ---- Whole runs ----

  ghost function ParsedOf(run: seq<Scrape>): seq<ParsedMetrics> {
    seq(|run|, i requires 0 <= i < |run| => run[i].parsed)
  }

  /** A run of scrapes whose tracker stands at scrape `n` on the baseline of
      scrape `k`, whatever came before that, and whose engine keeps its series
      and the bounds of `name` from then on. */
  ghost predicate SteadyRun(skip: nat, key: string, run: seq<Scrape>, k: nat, n: nat, name: string, bounds: seq<Bound>) {
    && k <= n < |run|
    && IsBaselineAt(skip, key, ParsedOf(run), k, n)
    && ValidScrape(run[k], name) && ValidScrape(run[n], name)
    && Grows(run[k].series, run[n].series)
    && NonNegative(Since(run[k].series, run[n].series))
    && name in run[n].parsed.histograms && SharesBounds(run[n].series, name, bounds)
  }

  /** Once warm, the tracker's answer to a scrape reports exactly the
      observations made since the scrape at which warmup ended. */
  lemma RunReportsSinceWarmup(
    skip: nat, key: string, run: seq<Scrape>, k: nat, n: nat, name: string, bounds: seq<Bound>)
    requires SteadyRun(skip, key, run, k, n, name, bounds)
    ensures var out := OutputAt(skip, key, ParsedOf(run), n);
      !out.warmingUp && ReportsExactly(out.adjusted, name, bounds, ObsOf(Since(run[k].series, run[n].series), name))
  {
    hide ReportsExactly, Subtracted, Regressed, TotalRequests, ValidScrape, Since, Grows, StateAfter, Step;
    RunIsBaselined(skip, key, ParsedOf(run), k, n);
    BaselinedIsSince(run[k], run[n], name, bounds);
  }

  /** Warmup does not show: two engines that warmed up on anything at all, and
      have observed the same since, have the same buckets, percentiles, goodput
      and mean. */
  lemma WarmupDoesNotShow(
    skip: nat, key: string, name: string, bounds: seq<Bound>,
    run: seq<Scrape>, k: nat, n: nat, run': seq<Scrape>, k': nat, n': nat)
    requires SteadyRun(skip, key, run, k, n, name, bounds)
    requires SteadyRun(skip, key, run', k', n', name, bounds)
    requires multiset(ObsOf(Since(run[k].series, run[n].series), name))
          == multiset(ObsOf(Since(run'[k'].series, run'[n'].series), name))
    ensures var a := OutputAt(skip, key, ParsedOf(run), n).adjusted;
      var a' := OutputAt(skip, key, ParsedOf(run'), n').adjusted;
      && name in a.histograms && name in a'.histograms
      && a.histograms[name] == a'.histograms[name]
      && (forall q :: Percentile(a.histograms[name], q) == Percentile(a'.histograms[name], q))
      && (forall t :: FractionLe(a.histograms[name], t) == FractionLe(a'.histograms[name], t))
      && MeanLatencyMs(a, name) == MeanLatencyMs(a', name)
  {
    RunReportsSinceWarmup(skip, key, run, k, n, name, bounds);
    RunReportsSinceWarmup(skip, key, run', k', n', name, bounds);
    var o := ObsOf(Since(run[k].series, run[n].series), name);
    var o' := ObsOf(Since(run'[k'].series, run'[n'].series), name);
    forall i | 0 <= i < |bounds| ensures CountLe(o, bounds[i]) == CountLe(o', bounds[i]) {
      OrderDoesNotMatter(o, o', bounds[i]);
    }
    OrderDoesNotMatter(o, o', Inf);
    assert HistogramOf(bounds, o) == HistogramOf(bounds, o');
  }

  /** A histogram's mean in milliseconds, from its sum and count in seconds. */
  function MeanMs(sum: Option<real>, count: Option<real>): Option<real> {
    if sum.Some? && count.Some? && count.value > 0.0 then Some(sum.value / count.value * 1000.0) else None
  }

  function MeanLatencyMs(p: ParsedMetrics, name: string): Option<real> {
    MeanMs(p.CounterOf(name + "_sum"), p.CounterOf(name + "_count"))
  }

  /** The percentile a warm engine reports is within one bucket of the true
      quantile of what it observed since warmup. */
  lemma WarmPercentileIsAccurate(
    skip: nat, key: string, run: seq<Scrape>, k: nat, n: nat, name: string, bounds: seq<Bound>,
    sorted: seq<real>, q: real, rank: int)
    requires SteadyRun(skip, key, run, k, n, name, bounds)
    requires WellFormedBounds(bounds) && bounds[|bounds| - 1].Inf? && 0.0 < q <= 1.0
    requires Observations.Sorted(sorted)
    requires multiset(sorted) == multiset(ObsOf(Since(run[k].series, run[n].series), name))
    requires |sorted| > 0 && IsRank(rank, q, |sorted|)
    ensures 0 < rank <= |sorted|
    ensures var a := OutputAt(skip, key, ParsedOf(run), n).adjusted;
      && name in a.histograms && WellFormed(a.histograms[name])
      && var b, truth := a.histograms[name], sorted[rank - 1];
      && Percentile(b, q).Some?
      && var p, i := Percentile(b, q).value, Reached(b, q);
      if i < Finite(b) then
        Lo(b, i) <= truth <= b[i].le.value && Lo(b, i) < p <= b[i].le.value
      else
        p == b[Finite(b) - 1].le.value < truth
  {
    hide Percentile, Line, Times;
    RunReportsSinceWarmup(skip, key, run, k, n, name, bounds);
    var obs := ObsOf(Since(run[k].series, run[n].series), name);
    SinceIsNonNegative(Since(run[k].series, run[n].series), name);
    OrderDoesNotMatter(sorted, obs, Inf);
    PercentileIsAccurate(bounds, obs, sorted, q, rank);
  }

  /** And its goodput is within one bucket of the true share of what it observed
      since warmup. */
  lemma WarmGoodputIsAccurate(
    skip: nat, key: string, run: seq<Scrape>, k: nat, n: nat, name: string, bounds: seq<Bound>, t: real)
    requires SteadyRun(skip, key, run, k, n, name, bounds)
    requires WellFormedBounds(bounds) && bounds[|bounds| - 1].Inf?
    requires ObsOf(Since(run[k].series, run[n].series), name) != []
    ensures var a := OutputAt(skip, key, ParsedOf(run), n).adjusted;
      && name in a.histograms && WellFormed(a.histograms[name])
      && GoodputFits(a.histograms[name], ObsOf(Since(run[k].series, run[n].series), name), t)
  {
    hide GoodputFits;
    RunReportsSinceWarmup(skip, key, run, k, n, name, bounds);
    GoodputIsAccurate(bounds, ObsOf(Since(run[k].series, run[n].series), name), t);
  }

  /** A warm engine has readings exactly once something was observed since
      warmup; its mean is then that of the observations, in milliseconds. */
  lemma WarmReadingsExistExactly(
    skip: nat, key: string, run: seq<Scrape>, k: nat, n: nat, name: string, bounds: seq<Bound>, q: real, t: real)
    requires SteadyRun(skip, key, run, k, n, name, bounds)
    requires WellFormedBounds(bounds) && bounds[|bounds| - 1].Inf?
    ensures var a := OutputAt(skip, key, ParsedOf(run), n).adjusted;
      var obs := ObsOf(Since(run[k].series, run[n].series), name);
      && name in a.histograms
      && (Percentile(a.histograms[name], q).None? <==> obs == [] || !(0.0 <= q <= 1.0))
      && (FractionLe(a.histograms[name], t).None? <==> obs == [])
      && MeanLatencyMs(a, name) == if obs == [] then None else Some(1000.0 * (Sum(obs) / |obs| as real))
  {
    hide Percentile, FractionLe, HistogramOf, Sum, MeanLatencyMs, OutputAt, IsBaselineAt, ValidScrape, Grows, ObsOf, Since;
    hide NonNegative, SharesBounds, CountLe, BaselineOf;
    RunReportsSinceWarmup(skip, key, run, k, n, name, bounds);
    var obs := ObsOf(Since(run[k].series, run[n].series), name);
    ReadingsAreNoneExactly(bounds, obs, q, t);
    ReportedMean(OutputAt(skip, key, ParsedOf(run), n).adjusted, name, bounds, obs);
    assert (forall v :: v in obs ==> !Within(v, Inf)) <==> obs == [] by {
      assert obs != [] ==> obs[0] in obs && Within(obs[0], Inf);
    }
  }

  lemma ReportedMean(a: ParsedMetrics, name: string, bounds: seq<Bound>, obs: seq<real>)
    requires ReportsExactly(a, name, bounds, obs)
    ensures MeanLatencyMs(a, name) == if obs == [] then None else Some(1000.0 * (Sum(obs) / |obs| as real))
  {
    hide Sum, HistogramOf;
  }
}
