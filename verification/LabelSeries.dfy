/**
  What the merged label series mean: nothing of the exposition order, and, for
  series that share their bounds, the histogram of all observations together.
*/
module LabelSeries {
  import opened Basics
  import opened Histogram
  import opened Observations
  import opened Prometheus

  // ---- The merge does not see the order of the samples ----

  lemma {:induction false} TotalsAppend(a: seq<Sample>, b: seq<Sample>, name: string, le: Bound)
    ensures CounterTotal(a + b, name) == CounterTotal(a, name) + CounterTotal(b, name)
    ensures MergedCount(a + b, name, le) == MergedCount(a, name, le) + MergedCount(b, name, le)
    ensures GaugesOf(a + b, name) == GaugesOf(a, name) + GaugesOf(b, name)
  {
    if |b| == 0 {
      assert a + b == a;
    } else {
      assert (a + b)[..|a + b| - 1] == a + b[..|b| - 1];
      TotalsAppend(a, b[..|b| - 1], name, le);
    }
  }

  lemma {:induction false} ValuesAppend(a: seq<GaugeSeries>, b: seq<GaugeSeries>)
    ensures SumOfValues(a + b) == SumOfValues(a) + SumOfValues(b)
  {
    if |b| == 0 {
      assert a + b == a;
    } else {
      assert (a + b)[..|a + b| - 1] == a + b[..|b| - 1];
      ValuesAppend(a, b[..|b| - 1]);
    }
  }

  lemma {:induction false} TotalsOfPermutation(a: seq<Sample>, b: seq<Sample>, name: string, le: Bound)
    requires multiset(a) == multiset(b)
    ensures CounterTotal(a, name) == CounterTotal(b, name)
    ensures MergedCount(a, name, le) == MergedCount(b, name, le)
  {
    if |a| == 0 {
      assert |multiset(b)| == 0;
    } else {
      hide CounterTotal, MergedCount, GaugesOf;
      var i := HeadOfPermutation(a, b);
      TotalsOfPermutation(a[1..], Without(b, i), name, le);
      assert a == [a[0]] + a[1..];
      TotalsAppend([a[0]], a[1..], name, le);
      TotalsAppend(b[..i], b[i + 1..], name, le);
      TotalsAppend([b[i]], b[i + 1..], name, le);
      TotalsAppend(b[..i], [b[i]] + b[i + 1..], name, le);
    }
  }

  lemma GaugesAppend(a: seq<Sample>, b: seq<Sample>, name: string)
    ensures SumOfValues(GaugesOf(a + b, name)) == SumOfValues(GaugesOf(a, name)) + SumOfValues(GaugesOf(b, name))
    ensures |GaugesOf(a + b, name)| == |GaugesOf(a, name)| + |GaugesOf(b, name)|
  {
    TotalsAppend(a, b, name, Inf);
    ValuesAppend(GaugesOf(a, name), GaugesOf(b, name));
  }

  lemma {:induction false} GaugesOfPermutation(a: seq<Sample>, b: seq<Sample>, name: string)
    requires multiset(a) == multiset(b)
    ensures SumOfValues(GaugesOf(a, name)) == SumOfValues(GaugesOf(b, name))
    ensures |GaugesOf(a, name)| == |GaugesOf(b, name)|
  {
    if |a| == 0 {
      assert |multiset(b)| == 0;
    } else {
      hide GaugesOf, SumOfValues;
      var i := HeadOfPermutation(a, b);
      GaugesOfPermutation(a[1..], Without(b, i), name);
      assert a == [a[0]] + a[1..];
      GaugesAppend([a[0]], a[1..], name);
      GaugesAppend(b[..i], b[i + 1..], name);
      GaugesAppend([b[i]], b[i + 1..], name);
      GaugesAppend(b[..i], [b[i]] + b[i + 1..], name);
    }
  }

  lemma PresenceOfPermutation(a: seq<Sample>, b: seq<Sample>, name: string)
    requires multiset(a) == multiset(b)
    ensures HasCounter(a, name) ==> HasCounter(b, name)
    ensures HasGauge(a, name) ==> HasGauge(b, name)
    ensures HasHistogram(a, name) ==> HasHistogram(b, name)
    ensures forall le :: Mentions(a, name, le) ==> Mentions(b, name, le)
  {
    forall i | 0 <= i < |a| ensures exists j :: 0 <= j < |b| && b[j] == a[i] {
      assert a[i] in multiset(b);
    }
  }

  lemma WithoutTop(a: seq<Bucket>)
    requires AscendingBuckets(a) && |a| > 0
    ensures var top, rest := a[|a| - 1], a[..|a| - 1];
      && AscendingBuckets(rest)
      && CountAt(a, top.le) == top.count
      && (forall le :: HasBound(rest, le) <==> HasBound(a, le) && le != top.le)
      && (forall le :: CountAt(rest, le) == if le == top.le then 0.0 else CountAt(a, le))
  {
    var top, rest := a[|a| - 1], a[..|a| - 1];
    assert a == rest + [top];
    HasBoundAppend(rest, top);
    CountAtFound(a, |a| - 1);
    assert !HasBound(rest, top.le);
    CountAtMissing(rest, top.le);
  }

  lemma {:induction false} AscendingIsUnique(a: seq<Bucket>, b: seq<Bucket>)
    requires AscendingBuckets(a) && AscendingBuckets(b)
    requires forall le :: HasBound(a, le) <==> HasBound(b, le)
    requires forall le :: CountAt(a, le) == CountAt(b, le)
    ensures a == b
  {
    if |a| == 0 || |b| == 0 {
      assert |a| > 0 ==> HasBound(a, a[0].le);
      assert |b| > 0 ==> HasBound(b, b[0].le);
    } else {
      var x, y := a[|a| - 1], b[|b| - 1];
      assert HasBound(a, x.le) && HasBound(b, y.le);
      assert x.le == y.le;
      hide CountAt;
      WithoutTop(a);
      WithoutTop(b);
      AscendingIsUnique(a[..|a| - 1], b[..|b| - 1]);
      assert a == a[..|a| - 1] + [x] && b == b[..|b| - 1] + [y];
    }
  }

  /** Any order of the samples gives the same counters and histograms, and the
      same reading of every gauge. */
  lemma MergeIgnoresOrder(a: seq<Sample>, b: seq<Sample>, p: ParsedMetrics, p': ParsedMetrics, name: string)
    requires multiset(a) == multiset(b) && IsMergeOf(a, p) && IsMergeOf(b, p')
    ensures p.counters == p'.counters && p.histograms == p'.histograms
    ensures p.GaugeSum(name) == p'.GaugeSum(name) && p.GaugeMean(name) == p'.GaugeMean(name)
  {
    hide CounterTotal, MergedCount, GaugesOf, SumOfValues, HasCounter, HasGauge, HasHistogram, Mentions;
    hide HasBound, CountAt;
    forall n: string
      ensures n in p.counters <==> n in p'.counters
      ensures n in p.gauges <==> n in p'.gauges
      ensures n in p.histograms <==> n in p'.histograms
      ensures CounterTotal(a, n) == CounterTotal(b, n)
    {
      PresenceOfPermutation(a, b, n);
      PresenceOfPermutation(b, a, n);
      TotalsOfPermutation(a, b, n, Inf);
    }
    GaugesOfPermutation(a, b, name);
    assert p.counters == p'.counters by {
      assert p.counters.Keys == p'.counters.Keys;
    }
    assert p.histograms.Keys == p'.histograms.Keys;
    forall n | n in p.histograms ensures p.histograms[n] == p'.histograms[n] {
      PresenceOfPermutation(a, b, n);
      PresenceOfPermutation(b, a, n);
      forall le ensures MergedCount(a, n, le) == MergedCount(b, n, le) {
        TotalsOfPermutation(a, b, n, le);
      }
      AscendingIsUnique(p.histograms[n], p'.histograms[n]);
    }
  }

  // ---- What an engine exposes ----

  /** One label series of a histogram, with every observation made in it. */
  datatype Series = Series(metric: string, labels: map<string, string>, bounds: seq<Bound>, obs: seq<real>)

  /** A series as it is exposed: its buckets, their sum and their count. */
  function Lines(s: Series): seq<Sample> {
    [Sample(s.metric, s.labels, Buckets(HistogramOf(s.bounds, s.obs))),
     Sample(s.metric + "_sum", s.labels, Untyped(Sum(s.obs))),
     Sample(s.metric + "_count", s.labels, Untyped(|s.obs| as real))]
  }

  function Exposition(w: seq<Series>): seq<Sample> {
    if |w| == 0 then [] else Exposition(w[..|w| - 1]) + Lines(w[|w| - 1])
  }

  /** The observations of all the series of one metric together. */
  function ObsOf(w: seq<Series>, name: string): seq<real> {
    if |w| == 0 then []
    else ObsOf(w[..|w| - 1], name) + if w[|w| - 1].metric == name then w[|w| - 1].obs else []
  }

  /** A scrape of `w`, in any order and among other metrics that are not the
      histogram `name` or its sum or count. */
  ghost predicate IsScrapeOf(samples: seq<Sample>, w: seq<Series>, others: seq<Sample>, name: string) {
    && multiset(samples) == multiset(Exposition(w) + others)
    && (forall s :: s in w ==> Ascending(s.bounds))
    && (forall o :: o in others ==>
         !o.value.Buckets? && o.metric != name + "_sum" && o.metric != name + "_count")
  }

  ghost predicate Covers(s: Series, name: string, le: Bound) {
    s.metric == name && le in s.bounds
  }

  /** The observations counted at `le` by the series that have that bound. */
  ghost function CoveredCount(w: seq<Series>, name: string, le: Bound): nat {
    if |w| == 0 then 0
    else CoveredCount(w[..|w| - 1], name, le)
         + if Covers(w[|w| - 1], name, le) then CountLe(w[|w| - 1].obs, le) else 0
  }

  lemma {:induction false} CountAtHistogram(bounds: seq<Bound>, obs: seq<real>, le: Bound)
    requires Ascending(bounds)
    ensures HasBound(HistogramOf(bounds, obs), le) <==> le in bounds
    ensures CountAt(HistogramOf(bounds, obs), le) == if le in bounds then CountLe(obs, le) as real else 0.0
  {
    var h := HistogramOf(bounds, obs);
    if le in bounds {
      var i :| 0 <= i < |bounds| && bounds[i] == le;
      assert h[i].le == le;
      CountAtFound(h, i);
    } else {
      CountAtMissing(h, le);
    }
  }

  lemma SuffixesTellApart(m: string, name: string)
    ensures m + "_sum" == name + "_sum" <==> m == name
    ensures m + "_count" == name + "_count" <==> m == name
    ensures m + "_sum" != name + "_count"
    ensures EndsWith(m + "_sum", "_sum") && EndsWith(m + "_count", "_count")
  {
    assert (m + "_sum")[..|m + "_sum"| - 4] == m && (name + "_sum")[..|name + "_sum"| - 4] == name;
    assert (m + "_count")[..|m + "_count"| - 6] == m && (name + "_count")[..|name + "_count"| - 6] == name;
    assert (m + "_sum")[|m + "_sum"| - 1] == 'm' && (name + "_count")[|name + "_count"| - 1] == 't';
  }

  lemma LineBuckets(s: Series, name: string, le: Bound)
    requires Ascending(s.bounds)
    ensures MergedCount(Lines(s), name, le) == if Covers(s, name, le) then CountLe(s.obs, le) as real else 0.0
    ensures Mentions(Lines(s), name, le) <==> Covers(s, name, le)
    ensures HasHistogram(Lines(s), name) <==> s.metric == name
  {
    var l := Lines(s);
    CountAtHistogram(s.bounds, s.obs, le);
    hide CountAt, CountLe, HistogramOf, HasBound;
    assert l == ([l[0]] + [l[1]]) + [l[2]];
    TotalsAppend([l[0]], [l[1]], name, le);
    TotalsAppend([l[0]] + [l[1]], [l[2]], name, le);
    forall x: Sample
      ensures MergedCount([x], name, le) == if x.value.Buckets? && Named(x, name) then CountAt(x.value.buckets, le) else 0.0
    {
      assert [x][..0] == [];
    }
    hide MergedCount;
  }

  lemma LineCounters(s: Series, name: string)
    ensures CounterTotal(Lines(s), name + "_sum") == if s.metric == name then Sum(s.obs) else 0.0
    ensures CounterTotal(Lines(s), name + "_count") == if s.metric == name then |s.obs| as real else 0.0
    ensures HasCounter(Lines(s), name + "_sum") <==> s.metric == name
    ensures HasCounter(Lines(s), name + "_count") <==> s.metric == name
  {
    var l := Lines(s);
    SuffixesTellApart(s.metric, name);
    SuffixesTellApart(name, s.metric);
    assert l == ([l[0]] + [l[1]]) + [l[2]];
    forall x: Sample, key: string
      ensures CounterTotal([x], key) == if IsCounter(x) && Named(x, key) then x.value.v else 0.0
    {
      assert [x][..0] == [];
    }
    hide CounterTotal, Sum, EndsWith;
    forall key: string
      ensures CounterTotal(l, key) == CounterTotal([l[0]], key) + CounterTotal([l[1]], key) + CounterTotal([l[2]], key)
    {
      TotalsAppend([l[0]], [l[1]], key, Inf);
      TotalsAppend([l[0]] + [l[1]], [l[2]], key, Inf);
    }
  }

  lemma {:induction false} ExpositionBuckets(w: seq<Series>, name: string, le: Bound)
    requires forall s :: s in w ==> Ascending(s.bounds)
    ensures MergedCount(Exposition(w), name, le) == CoveredCount(w, name, le) as real
  {
    if |w| > 0 {
      hide CounterTotal, MergedCount, CountLe, Lines, GaugesOf;
      var s, front := w[|w| - 1], w[..|w| - 1];
      assert s in w && forall x :: x in front ==> x in w;
      ExpositionBuckets(front, name, le);
      LineBuckets(s, name, le);
      TotalsAppend(Exposition(front), Lines(s), name, le);
    }
  }

  lemma {:induction false} ExpositionCounters(w: seq<Series>, name: string)
    ensures CounterTotal(Exposition(w), name + "_sum") == Sum(ObsOf(w, name))
    ensures CounterTotal(Exposition(w), name + "_count") == |ObsOf(w, name)| as real
  {
    if |w| > 0 {
      hide CounterTotal, MergedCount, Sum, Lines, GaugesOf;
      var s, front := w[|w| - 1], w[..|w| - 1];
      ExpositionCounters(front, name);
      LineCounters(s, name);
      TotalsAppend(Exposition(front), Lines(s), name + "_sum", Inf);
      TotalsAppend(Exposition(front), Lines(s), name + "_count", Inf);
      SumAppend(ObsOf(front, name), if s.metric == name then s.obs else []);
      assert Sum([]) == 0.0 by { EmptySum(); }
    }
  }

  lemma {:induction false} ExpositionPresence(w: seq<Series>, name: string, le: Bound)
    requires forall s :: s in w ==> Ascending(s.bounds)
    ensures Mentions(Exposition(w), name, le) <==> exists s :: s in w && Covers(s, name, le)
    ensures HasHistogram(Exposition(w), name) <==> exists s :: s in w && s.metric == name
    ensures HasCounter(Exposition(w), name + "_sum") <==> exists s :: s in w && s.metric == name
    ensures HasCounter(Exposition(w), name + "_count") <==> exists s :: s in w && s.metric == name
  {
    if |w| > 0 {
      var s, front := w[|w| - 1], w[..|w| - 1];
      assert w == front + [s];
      assert forall x :: x in w <==> x in front || x == s;
      ExpositionPresence(front, name, le);
      LineBuckets(s, name, le);
      LineCounters(s, name);
      PresenceAppend(Exposition(front), Lines(s), name, le);
      PresenceAppend(Exposition(front), Lines(s), name + "_sum", le);
      PresenceAppend(Exposition(front), Lines(s), name + "_count", le);
    }
  }

  lemma PresenceAppend(a: seq<Sample>, b: seq<Sample>, name: string, le: Bound)
    ensures Mentions(a + b, name, le) <==> Mentions(a, name, le) || Mentions(b, name, le)
    ensures HasHistogram(a + b, name) <==> HasHistogram(a, name) || HasHistogram(b, name)
    ensures HasCounter(a + b, name) <==> HasCounter(a, name) || HasCounter(b, name)
  {
    var c := a + b;
    assert forall i :: 0 <= i < |a| ==> c[i] == a[i];
    assert forall i :: 0 <= i < |b| ==> c[|a| + i] == b[i];
  }

  lemma {:induction false} OthersAddNothing(others: seq<Sample>, name: string, le: Bound)
    requires forall o :: o in others ==> !o.value.Buckets? && o.metric != name
    ensures CounterTotal(others, name) == 0.0 && !HasCounter(others, name)
  {
    if |others| > 0 {
      assert others[|others| - 1] in others;
      OthersAddNothing(others[..|others| - 1], name, le);
    }
  }

  lemma {:induction false} OthersHaveNoBuckets(others: seq<Sample>, name: string, le: Bound)
    requires forall o :: o in others ==> !o.value.Buckets?
    ensures MergedCount(others, name, le) == 0.0
    ensures !HasHistogram(others, name) && !Mentions(others, name, le)
  {
    if |others| > 0 {
      assert others[|others| - 1] in others;
      OthersHaveNoBuckets(others[..|others| - 1], name, le);
    }
  }

  lemma CounterOfScrape(samples: seq<Sample>, e: seq<Sample>, w: seq<Series>, others: seq<Sample>, key: string)
    requires multiset(samples) == multiset(e) && e == Exposition(w) + others
    requires forall o :: o in others ==> !o.value.Buckets? && o.metric != key
    ensures CounterTotal(samples, key) == CounterTotal(Exposition(w), key)
    ensures HasCounter(samples, key) <==> HasCounter(Exposition(w), key)
  {
    hide CounterTotal, MergedCount, HasCounter, GaugesOf, Exposition;
    OthersAddNothing(others, key, Inf);
    TotalsOfPermutation(samples, e, key, Inf);
    TotalsAppend(Exposition(w), others, key, Inf);
    PresenceAppend(Exposition(w), others, key, Inf);
    PresenceOfPermutation(samples, e, key);
    PresenceOfPermutation(e, samples, key);
  }

  lemma BucketsOfScrape(samples: seq<Sample>, w: seq<Series>, others: seq<Sample>, name: string, le: Bound)
    requires IsScrapeOf(samples, w, others, name)
    ensures MergedCount(samples, name, le) == CoveredCount(w, name, le) as real
    ensures Mentions(samples, name, le) <==> exists s :: s in w && Covers(s, name, le)
    ensures HasHistogram(samples, name) <==> exists s :: s in w && s.metric == name
  {
    hide CountLe, CoveredCount, MergedCount, GaugesOf, Mentions, HasHistogram, HasCounter, Lines, Exposition, CounterTotal;
    var e := Exposition(w) + others;
    TotalsOfPermutation(samples, e, name, le);
    TotalsAppend(Exposition(w), others, name, le);
    ExpositionBuckets(w, name, le);
    ExpositionPresence(w, name, le);
    OthersHaveNoBuckets(others, name, le);
    PresenceAppend(Exposition(w), others, name, le);
    PresenceOfPermutation(samples, e, name);
    PresenceOfPermutation(e, samples, name);
  }

  /** A scrape's merged bucket holds the observations its own series count
      there; sum and count are those of all the observations. */
  lemma ScrapeTotals(samples: seq<Sample>, w: seq<Series>, others: seq<Sample>, name: string, p: ParsedMetrics)
    requires IsScrapeOf(samples, w, others, name) && IsMergeOf(samples, p)
    ensures name in p.histograms <==> exists s :: s in w && s.metric == name
    ensures name in p.histograms ==>
      && AscendingBuckets(p.histograms[name])
      && (forall le :: HasBound(p.histograms[name], le) <==> exists s :: s in w && Covers(s, name, le))
      && (forall le :: CountAt(p.histograms[name], le) == CoveredCount(w, name, le) as real)
      && name + "_sum" in p.counters && p.counters[name + "_sum"] == Sum(ObsOf(w, name))
      && name + "_count" in p.counters && p.counters[name + "_count"] == |ObsOf(w, name)| as real
    ensures name !in p.histograms ==> name + "_sum" !in p.counters && name + "_count" !in p.counters
  {
    hide CountLe, CoveredCount, MergedCount, GaugesOf, Mentions, HasHistogram, HasCounter, Lines, Exposition, ObsOf;
    hide HasBound, CountAt, CounterTotal, IsScrapeOf;
    BucketsOfScrape(samples, w, others, name, Inf);
    assert name in p.histograms <==> HasHistogram(samples, name);
    forall le
      ensures MergedCount(samples, name, le) == CoveredCount(w, name, le) as real
      ensures Mentions(samples, name, le) <==> exists s :: s in w && Covers(s, name, le)
    {
      BucketsOfScrape(samples, w, others, name, le);
    }
    CountersOfScrape(samples, w, others, name);
  }

  lemma CountersOfScrape(samples: seq<Sample>, w: seq<Series>, others: seq<Sample>, name: string)
    requires IsScrapeOf(samples, w, others, name)
    ensures CounterTotal(samples, name + "_sum") == Sum(ObsOf(w, name))
    ensures CounterTotal(samples, name + "_count") == |ObsOf(w, name)| as real
    ensures HasCounter(samples, name + "_sum") <==> exists s :: s in w && s.metric == name
    ensures HasCounter(samples, name + "_count") <==> exists s :: s in w && s.metric == name
  {
    hide HasCounter, CounterTotal, Sum, ObsOf;
    var e := Exposition(w) + others;
    ExpositionPresence(w, name, Inf);
    ExpositionCounters(w, name);
    CounterOfScrape(samples, e, w, others, name + "_sum");
    CounterOfScrape(samples, e, w, others, name + "_count");
  }

  lemma {:induction false} CoveredAgainstAll(w: seq<Series>, name: string, le: Bound)
    ensures CoveredCount(w, name, le) <= CountLe(ObsOf(w, name), le)
    ensures CoveredCount(w, name, le) == CountLe(ObsOf(w, name), le) <==>
      forall s :: s in w && s.metric == name ==> le in s.bounds || CountLe(s.obs, le) == 0
  {
    if |w| > 0 {
      var s, front := w[|w| - 1], w[..|w| - 1];
      assert w == front + [s];
      assert forall x :: x in w <==> x in front || x == s;
      CoveredAgainstAll(front, name, le);
      CountAppend(ObsOf(front, name), if s.metric == name then s.obs else [], le);
    }
  }

  /** When the merged buckets are the cumulative histogram of all the series'
      observations: exactly when no series that lacks a merged bound has
      observations under it. */
  lemma MergeIsUnionExactly(samples: seq<Sample>, w: seq<Series>, others: seq<Sample>, name: string, p: ParsedMetrics)
    requires IsScrapeOf(samples, w, others, name) && IsMergeOf(samples, p) && name in p.histograms
    ensures var h := p.histograms[name];
      (forall i :: 0 <= i < |h| ==> h[i].count == CountLe(ObsOf(w, name), h[i].le) as real)
      <==> (forall i, s :: 0 <= i < |h| && s in w && s.metric == name ==>
              h[i].le in s.bounds || CountLe(s.obs, h[i].le) == 0)
  {
    ScrapeTotals(samples, w, others, name, p);
    var h := p.histograms[name];
    forall i | 0 <= i < |h|
      ensures h[i].count == CountLe(ObsOf(w, name), h[i].le) as real <==>
        forall s :: s in w && s.metric == name ==> h[i].le in s.bounds || CountLe(s.obs, h[i].le) == 0
    {
      CountAtFound(h, i);
      CoveredAgainstAll(w, name, h[i].le);
    }
  }

  /** Series that share their bounds merge into the cumulative histogram of all
      their observations. */
  lemma SharedBoundsMergeToUnion(
    samples: seq<Sample>, w: seq<Series>, others: seq<Sample>, name: string, p: ParsedMetrics, bounds: seq<Bound>)
    requires IsScrapeOf(samples, w, others, name) && IsMergeOf(samples, p) && name in p.histograms
    requires forall s :: s in w && s.metric == name ==> s.bounds == bounds
    ensures p.histograms[name] == HistogramOf(bounds, ObsOf(w, name))
  {
    ScrapeTotals(samples, w, others, name, p);
    var h, u := p.histograms[name], HistogramOf(bounds, ObsOf(w, name));
    var some :| some in w && some.metric == name;
    forall le
      ensures HasBound(h, le) <==> HasBound(u, le)
      ensures CountAt(h, le) == CountAt(u, le)
    {
      CountAtHistogram(bounds, ObsOf(w, name), le);
      CoveredAgainstAll(w, name, le);
      if le in bounds {
        assert Covers(some, name, le);
      } else {
        CountAtMissing(h, le);
      }
    }
    AscendingIsUnique(h, u);
  }

  // ---- A scrape whose merge is no histogram ----

  /** Two series of one metric that disagree on a bound: five observations of
      0.5 under the bounds 1 and `+Inf`, none under 2 and `+Inf`. */
  function Disagreeing(): seq<Series> {
    [Series("m", map["rank" := "0"], [Fin(1.0), Inf], [0.5, 0.5, 0.5, 0.5, 0.5]),
     Series("m", map["rank" := "1"], [Fin(2.0), Inf], [])]
  }

  lemma CountsOfFive(le: Bound)
    ensures CountLe([], le) == 0
    ensures CountLe([0.5, 0.5, 0.5, 0.5, 0.5], le) == if Within(0.5, le) then 5 else 0
  {
    var five := [0.5, 0.5, 0.5, 0.5, 0.5];
    if Within(0.5, le) {
      AllWithin(five, le);
    } else {
      NoneWithin(five, le);
    }
  }

  lemma CoveredOfDisagreeing(le: Bound)
    ensures var w := Disagreeing();
      && CoveredCount(w, "m", le) == (if le in [Fin(1.0), Inf] then CountLe(w[0].obs, le) else 0)
      && ((exists s :: s in w && Covers(s, "m", le)) <==> le in [Fin(1.0), Fin(2.0), Inf])
  {
    var w := Disagreeing();
    CountsOfFive(le);
    hide CountLe;
    var one := w[..1];
    assert one == [w[0]] && one[..0] == [];
    assert CoveredCount(one, "m", le) == if le in [Fin(1.0), Inf] then CountLe(w[0].obs, le) else 0;
    assert w[0] in w && w[1] in w;
  }

  /** Merged, these are 5 observations up to 1, none up to 2 and 5 in all: the
      counts drop, so what holds of well-formed buckets does not apply, and at
      the bound 2 they miss all five observations made. */
  lemma DisagreeingSeriesMiscount(samples: seq<Sample>, p: ParsedMetrics)
    requires multiset(samples) == multiset(Exposition(Disagreeing())) && IsMergeOf(samples, p)
    ensures "m" in p.histograms
    ensures p.histograms["m"] == [Bucket(Fin(1.0), 5.0), Bucket(Fin(2.0), 0.0), Bucket(Inf, 5.0)]
    ensures !WellFormed(p.histograms["m"]) && CountLe(ObsOf(Disagreeing(), "m"), Fin(2.0)) == 5
  {
    hide CountLe, CoveredCount, IsMergeOf, Exposition;
    var w := Disagreeing();
    var expected := [Bucket(Fin(1.0), 5.0), Bucket(Fin(2.0), 0.0), Bucket(Inf, 5.0)];
    assert Exposition(w) + [] == Exposition(w);
    ScrapeTotals(samples, w, [], "m", p);
    assert w[0] in w && w[0].metric == "m";
    var h := p.histograms["m"];
    forall le
      ensures HasBound(h, le) <==> HasBound(expected, le)
      ensures CountAt(h, le) == CountAt(expected, le)
    {
      CoveredOfDisagreeing(le);
      CountsOfFive(le);
      ExpectedCounts(le);
    }
    AscendingIsUnique(h, expected);
    assert h[0].count > h[1].count;
    CountsOfFive(Fin(2.0));
    var one := w[..1];
    assert one == [w[0]] && one[..0] == [];
    assert ObsOf(one, "m") == [] + w[0].obs == w[0].obs;
    assert ObsOf(w, "m") == w[0].obs + [] == w[0].obs;
  }

  lemma ExpectedCounts(le: Bound)
    ensures var expected := [Bucket(Fin(1.0), 5.0), Bucket(Fin(2.0), 0.0), Bucket(Inf, 5.0)];
      && (HasBound(expected, le) <==> le in [Fin(1.0), Fin(2.0), Inf])
      && CountAt(expected, le) == (if le in [Fin(1.0), Inf] then 5.0 else 0.0)
  {
    var expected := [Bucket(Fin(1.0), 5.0), Bucket(Fin(2.0), 0.0), Bucket(Inf, 5.0)];
    assert expected[0].le == Fin(1.0) && expected[1].le == Fin(2.0) && expected[2].le == Inf;
    var two, one := expected[..2], expected[..1];
    assert two == [expected[0], expected[1]] && one == [expected[0]];
    assert two[..1] == one && one[..0] == [];
    assert CountAt(one, le) == if le == Fin(1.0) then 5.0 else 0.0;
    assert CountAt(two, le) == CountAt(one, le);
  }
}
