/**
  Merging the label series of a scrape (src/engines/prometheus.rs).  The text
  itself is parsed by a library; the model starts from its samples.
*/
module Prometheus {
  import opened Basics
  import opened Histogram
  import opened Observations

  datatype GaugeSeries = GaugeSeries(labels: map<string, string>, value: real)

  datatype Value =
    | Gauge(v: real)
    | Counter(v: real)
    | Buckets(buckets: seq<Bucket>)
    | Summary
    | Untyped(v: real)

  datatype Sample = Sample(metric: string, labels: map<string, string>, value: Value)

  datatype ParsedMetrics = ParsedMetrics(
    gauges: map<string, seq<GaugeSeries>>,
    counters: map<string, real>,
    histograms: map<string, seq<Bucket>>)
  {
    function CounterOf(name: string): Option<real> {
      if name in counters then Some(counters[name]) else None
    }

    function GaugeSum(name: string): Option<real> {
      if name in gauges && |gauges[name]| > 0 then Some(SumOfValues(gauges[name])) else None
    }

    function GaugeMean(name: string): Option<real> {
      if name in gauges && |gauges[name]| > 0
      then Some(SumOfValues(gauges[name]) / |gauges[name]| as real) else None
    }
  }

  function SumOfValues(series: seq<GaugeSeries>): real {
    if |series| == 0 then 0.0 else SumOfValues(series[..|series| - 1]) + series[|series| - 1].value
  }

  predicate EndsWith(s: string, suffix: string) {
    |suffix| <= |s| && s[|s| - |suffix|..] == suffix
  }

  /** A sample summed into the counters: a counter, or an untyped line named
      like a histogram's sum or count. */
  predicate IsCounter(s: Sample) {
    s.value.Counter? ||
    (s.value.Untyped? &&
     (EndsWith(s.metric, "_sum") || EndsWith(s.metric, "_count") || EndsWith(s.metric, "_total")))
  }

  predicate IsGauge(s: Sample) {
    s.value.Gauge? || (s.value.Untyped? && !IsCounter(s))
  }

  // ---- What a merge is ----

  ghost predicate HasBound(b: seq<Bucket>, le: Bound) {
    exists i :: 0 <= i < |b| && b[i].le == le
  }

  /** The counts that `b` holds at `le`, added up. */
  ghost function CountAt(b: seq<Bucket>, le: Bound): real {
    if |b| == 0 then 0.0
    else CountAt(b[..|b| - 1], le) + if b[|b| - 1].le == le then b[|b| - 1].count else 0.0
  }

  ghost predicate Named(s: Sample, name: string) {
    s.metric == name
  }

  ghost function CounterTotal(samples: seq<Sample>, name: string): real {
    if |samples| == 0 then 0.0 else
    var s := samples[|samples| - 1];
    CounterTotal(samples[..|samples| - 1], name) + if IsCounter(s) && Named(s, name) then s.value.v else 0.0
  }

  ghost function MergedCount(samples: seq<Sample>, name: string, le: Bound): real {
    if |samples| == 0 then 0.0 else
    var s := samples[|samples| - 1];
    MergedCount(samples[..|samples| - 1], name, le)
    + if s.value.Buckets? && Named(s, name) then CountAt(s.value.buckets, le) else 0.0
  }

  ghost function GaugesOf(samples: seq<Sample>, name: string): seq<GaugeSeries> {
    if |samples| == 0 then [] else
    var s := samples[|samples| - 1];
    GaugesOf(samples[..|samples| - 1], name)
    + if IsGauge(s) && Named(s, name) then [GaugeSeries(s.labels, s.value.v)] else []
  }

  ghost predicate HasCounter(samples: seq<Sample>, name: string) {
    exists i :: 0 <= i < |samples| && IsCounter(samples[i]) && Named(samples[i], name)
  }

  ghost predicate HasGauge(samples: seq<Sample>, name: string) {
    exists i :: 0 <= i < |samples| && IsGauge(samples[i]) && Named(samples[i], name)
  }

  ghost predicate HasHistogram(samples: seq<Sample>, name: string) {
    exists i :: 0 <= i < |samples| && samples[i].value.Buckets? && Named(samples[i], name)
  }

  ghost predicate Mentions(samples: seq<Sample>, name: string, le: Bound) {
    exists i :: 0 <= i < |samples| && samples[i].value.Buckets? && Named(samples[i], name)
      && HasBound(samples[i].value.buckets, le)
  }

  ghost predicate Distinct(b: seq<Bucket>) {
    forall i, j :: 0 <= i < j < |b| ==> b[i].le != b[j].le
  }

  ghost predicate AscendingBuckets(b: seq<Bucket>) {
    forall i, j :: 0 <= i < j < |b| ==> b[i].le.Less(b[j].le)
  }

  /** `b` has the bounds and, bound for bound, the summed counts that the
      samples named `name` hold. */
  ghost predicate Merges(samples: seq<Sample>, name: string, b: seq<Bucket>) {
    && Distinct(b)
    && (forall le :: HasBound(b, le) <==> Mentions(samples, name, le))
    && (forall le :: CountAt(b, le) == MergedCount(samples, name, le))
  }

  ghost predicate MergesGauges(samples: seq<Sample>, gauges: map<string, seq<GaugeSeries>>) {
    && (forall name :: name in gauges <==> HasGauge(samples, name))
    && (forall name :: name in gauges ==> gauges[name] == GaugesOf(samples, name))
  }

  ghost predicate MergesCounters(samples: seq<Sample>, counters: map<string, real>) {
    && (forall name :: name in counters <==> HasCounter(samples, name))
    && (forall name :: name in counters ==> counters[name] == CounterTotal(samples, name))
  }

  ghost predicate MergesHistograms(samples: seq<Sample>, histograms: map<string, seq<Bucket>>) {
    && (forall name :: name in histograms <==> HasHistogram(samples, name))
    && (forall name :: name in histograms ==> Merges(samples, name, histograms[name]))
  }

  ghost predicate IsMergeOf(samples: seq<Sample>, p: ParsedMetrics) {
    && MergesGauges(samples, p.gauges)
    && MergesCounters(samples, p.counters)
    && MergesHistograms(samples, p.histograms)
    && (forall name :: name in p.histograms ==> AscendingBuckets(p.histograms[name]))
  }

  // ---- Merging, as the code does it ----

  function FindBound(b: seq<Bucket>, le: Bound, i: nat): (r: Option<nat>)
    requires i <= |b|
    ensures r.Some? ==> i <= r.value < |b| && b[r.value].le == le
    ensures r.None? ==> forall j :: i <= j < |b| ==> b[j].le != le
    decreases |b| - i
  {
    if i == |b| then None else if b[i].le == le then Some(i) else FindBound(b, le, i + 1)
  }

  lemma {:induction false} CountAtUpdate(b: seq<Bucket>, i: nat, count: real, le: Bound)
    requires i < |b|
    ensures CountAt(b[i := Bucket(b[i].le, b[i].count + count)], le)
         == CountAt(b, le) + if b[i].le == le then count else 0.0
  {
    var u := b[i := Bucket(b[i].le, b[i].count + count)];
    if i == |b| - 1 {
      assert u[..i] == b[..i];
    } else {
      assert u[..|b| - 1] == b[..|b| - 1][i := Bucket(b[i].le, b[i].count + count)];
      CountAtUpdate(b[..|b| - 1], i, count, le);
    }
  }

  lemma {:induction false} CountAtMissing(b: seq<Bucket>, le: Bound)
    requires !HasBound(b, le)
    ensures CountAt(b, le) == 0.0
  {
    if |b| > 0 {
      CountAtMissing(b[..|b| - 1], le);
    }
  }

  lemma {:induction false} CountAtFound(b: seq<Bucket>, i: nat)
    requires i < |b| && Distinct(b)
    ensures CountAt(b, b[i].le) == b[i].count
  {
    if i == |b| - 1 {
      CountAtMissing(b[..i], b[i].le);
    } else {
      CountAtFound(b[..|b| - 1], i);
    }
  }

  lemma HasBoundAppend(b: seq<Bucket>, x: Bucket)
    ensures forall le :: HasBound(b + [x], le) <==> HasBound(b, le) || x.le == le
  {
    var c := b + [x];
    assert c[|b|] == x;
    forall le | HasBound(b, le) ensures HasBound(c, le) {
      var i :| 0 <= i < |b| && b[i].le == le;
      assert c[i].le == le;
    }
  }

  /** One label series' buckets added into the histogram merged so far. */
  method MergeBuckets(soFar: seq<Bucket>, buckets: seq<Bucket>) returns (merged: seq<Bucket>)
    requires Distinct(soFar)
    ensures Distinct(merged)
    ensures forall le :: HasBound(merged, le) <==> HasBound(soFar, le) || HasBound(buckets, le)
    ensures forall le :: CountAt(merged, le) == CountAt(soFar, le) + CountAt(buckets, le)
  {
    merged := soFar;
    for n := 0 to |buckets|
      invariant Distinct(merged)
      invariant forall le :: HasBound(merged, le) <==> HasBound(soFar, le) || HasBound(buckets[..n], le)
      invariant forall le :: CountAt(merged, le) == CountAt(soFar, le) + CountAt(buckets[..n], le)
    {
      var b := buckets[n];
      ghost var was := merged;
      match FindBound(merged, b.le, 0) {
        case Some(i) =>
          merged := merged[i := Bucket(merged[i].le, merged[i].count + b.count)];
          forall le ensures CountAt(merged, le) == CountAt(was, le) + if b.le == le then b.count else 0.0 {
            CountAtUpdate(was, i, b.count, le);
          }
          assert forall le :: HasBound(merged, le) <==> HasBound(was, le) || b.le == le by {
            assert forall j :: 0 <= j < |was| ==> merged[j].le == was[j].le;
          }
        case None =>
          merged := merged + [b];
          assert merged[..|was|] == was;
          HasBoundAppend(was, b);
      }
      assert buckets[..n + 1][..n] == buckets[..n];
      assert buckets[..n + 1] == buckets[..n] + [b];
      HasBoundAppend(buckets[..n], b);
    }
    assert buckets[..|buckets|] == buckets;
  }

  // ---- Sorting ----

  ghost predicate SortedBuckets(s: seq<Bucket>) {
    forall i, j :: 0 <= i < j < |s| ==> !s[j].le.Less(s[i].le)
  }

  function InsertBucket(x: Bucket, s: seq<Bucket>): (r: seq<Bucket>)
    ensures multiset(r) == multiset(s) + multiset{x}
  {
    if |s| == 0 || !x.le.Less(s[|s| - 1].le) then s + [x]
    else
      assert s == s[..|s| - 1] + [s[|s| - 1]];
      InsertBucket(x, s[..|s| - 1]) + [s[|s| - 1]]
  }

  lemma {:induction false} InsertSorted(x: Bucket, s: seq<Bucket>)
    requires SortedBuckets(s)
    ensures SortedBuckets(InsertBucket(x, s))
  {
    var r := InsertBucket(x, s);
    if !(|s| == 0 || !x.le.Less(s[|s| - 1].le)) {
      var front := InsertBucket(x, s[..|s| - 1]);
      InsertSorted(x, s[..|s| - 1]);
      forall i | 0 <= i < |front| ensures !s[|s| - 1].le.Less(front[i].le) {
        assert front[i] in multiset(front);
        assert front[i] in s[..|s| - 1] || front[i] == x;
      }
    }
  }

  /** The buckets sorted by bound, ties in their original order. */
  function SortBuckets(s: seq<Bucket>): (r: seq<Bucket>)
    ensures multiset(r) == multiset(s)
    ensures SortedBuckets(r)
  {
    if |s| == 0 then []
    else
      assert s == s[..|s| - 1] + [s[|s| - 1]];
      InsertSorted(s[|s| - 1], SortBuckets(s[..|s| - 1]));
      InsertBucket(s[|s| - 1], SortBuckets(s[..|s| - 1]))
  }

  lemma {:induction false} CountAtAppend(a: seq<Bucket>, b: seq<Bucket>, le: Bound)
    ensures CountAt(a + b, le) == CountAt(a, le) + CountAt(b, le)
  {
    if |b| == 0 {
      assert a + b == a;
    } else {
      assert (a + b)[..|a + b| - 1] == a + b[..|b| - 1];
      CountAtAppend(a, b[..|b| - 1], le);
    }
  }

  lemma {:induction false} CountAtPermutation(a: seq<Bucket>, b: seq<Bucket>, le: Bound)
    requires multiset(a) == multiset(b)
    ensures CountAt(a, le) == CountAt(b, le)
  {
    if |a| == 0 {
      assert |multiset(b)| == 0;
    } else {
      var i := HeadOfPermutation(a, b);
      CountAtPermutation(a[1..], Without(b, i), le);
      assert a == [a[0]] + a[1..];
      CountAtAppend([a[0]], a[1..], le);
      CountAtAppend(b[..i], b[i + 1..], le);
      CountAtAppend([b[i]], b[i + 1..], le);
      CountAtAppend(b[..i], [b[i]] + b[i + 1..], le);
    }
  }

  lemma SortedMerge(samples: seq<Sample>, name: string, b: seq<Bucket>)
    requires Merges(samples, name, b)
    ensures Merges(samples, name, SortBuckets(b)) && AscendingBuckets(SortBuckets(b))
  {
    var r := SortBuckets(b);
    assert |r| == |multiset(r)| == |b|;
    forall le ensures CountAt(r, le) == CountAt(b, le) {
      CountAtPermutation(r, b, le);
    }
    SameBounds(r, b);
    SameBounds(b, r);
    DistinctPermutation(b, r);
  }

  lemma SameBounds(a: seq<Bucket>, b: seq<Bucket>)
    requires multiset(a) == multiset(b)
    ensures forall le :: HasBound(a, le) ==> HasBound(b, le)
  {
    forall le | HasBound(a, le) ensures HasBound(b, le) {
      var i :| 0 <= i < |a| && a[i].le == le;
      assert a[i] in multiset(b);
    }
  }

  lemma {:induction false} DistinctPermutation(a: seq<Bucket>, b: seq<Bucket>)
    requires multiset(a) == multiset(b) && Distinct(a)
    ensures Distinct(b)
  {
    forall i, j | 0 <= i < j < |b| ensures b[i].le != b[j].le {
      if b[i].le == b[j].le {
        assert b[i] in multiset(a) && b[j] in multiset(a);
        assert b[i] == b[j];
        assert b == b[..i] + [b[i]] + b[i + 1..j] + [b[j]] + b[j + 1..];
        assert multiset(b)[b[i]] >= 2;
        OnceOnly(a, b[i]);
        assert false;
      }
    }
  }

  lemma {:induction false} OnceOnly(a: seq<Bucket>, x: Bucket)
    requires Distinct(a)
    ensures multiset(a)[x] <= 1
  {
    if |a| > 0 {
      assert a == [a[0]] + a[1..];
      OnceOnly(a[1..], x);
      if x == a[0] {
        assert x !in a[1..];
      }
    }
  }

  // ---- The scrape ----

  lemma GaugeStep(
    samples: seq<Sample>, s: Sample, gauges: map<string, seq<GaugeSeries>>, gauges': map<string, seq<GaugeSeries>>)
    requires MergesGauges(samples, gauges)
    requires gauges' ==
      if IsGauge(s) then gauges[s.metric :=
        (if s.metric in gauges then gauges[s.metric] else []) + [GaugeSeries(s.labels, s.value.v)]]
      else gauges
    ensures MergesGauges(samples + [s], gauges')
  {
    var t := samples + [s];
    assert t[..|t| - 1] == samples && t[|samples|] == s;
    forall name
      ensures name in gauges' <==> HasGauge(t, name)
      ensures name in gauges' ==> gauges'[name] == GaugesOf(t, name)
    {
      HasAppend(samples, s, name);
      NoneNamed(samples, name);
    }
  }

  lemma CounterStep(samples: seq<Sample>, s: Sample, counters: map<string, real>, counters': map<string, real>)
    requires MergesCounters(samples, counters)
    requires counters' ==
      if IsCounter(s) then counters[s.metric := (if s.metric in counters then counters[s.metric] else 0.0) + s.value.v]
      else counters
    ensures MergesCounters(samples + [s], counters')
  {
    var t := samples + [s];
    assert t[..|t| - 1] == samples && t[|samples|] == s;
    forall name
      ensures name in counters' <==> HasCounter(t, name)
      ensures name in counters' ==> counters'[name] == CounterTotal(t, name)
    {
      HasAppend(samples, s, name);
      NoneNamed(samples, name);
    }
  }

  lemma HasAppend(samples: seq<Sample>, s: Sample, name: string)
    ensures HasCounter(samples + [s], name) <==> HasCounter(samples, name) || (IsCounter(s) && Named(s, name))
    ensures HasGauge(samples + [s], name) <==> HasGauge(samples, name) || (IsGauge(s) && Named(s, name))
    ensures HasHistogram(samples + [s], name) <==> HasHistogram(samples, name) || (s.value.Buckets? && Named(s, name))
  {
    var t := samples + [s];
    assert t[|samples|] == s && forall i :: 0 <= i < |samples| ==> t[i] == samples[i];
  }

  lemma {:induction false} NoneNamed(samples: seq<Sample>, name: string)
    ensures !HasCounter(samples, name) ==> CounterTotal(samples, name) == 0.0
    ensures !HasGauge(samples, name) ==> GaugesOf(samples, name) == []
  {
    if |samples| > 0 {
      var front := samples[..|samples| - 1];
      assert samples == front + [samples[|samples| - 1]];
      HasAppend(front, samples[|samples| - 1], name);
      NoneNamed(front, name);
    }
  }

  lemma {:induction false} NoneMerged(samples: seq<Sample>, name: string, le: Bound)
    requires !Mentions(samples, name, le)
    ensures MergedCount(samples, name, le) == 0.0
  {
    if |samples| > 0 {
      var n := |samples| - 1;
      assert forall i :: 0 <= i < n ==> samples[..n][i] == samples[i];
      NoneMerged(samples[..n], name, le);
      if samples[n].value.Buckets? && Named(samples[n], name) {
        CountAtMissing(samples[n].value.buckets, le);
      }
    }
  }

  lemma MentionsAppend(samples: seq<Sample>, s: Sample, name: string, le: Bound)
    ensures Mentions(samples + [s], name, le) <==>
      Mentions(samples, name, le) || (s.value.Buckets? && Named(s, name) && HasBound(s.value.buckets, le))
  {
    var t := samples + [s];
    assert t[|samples|] == s && forall i :: 0 <= i < |samples| ==> t[i] == samples[i];
  }

  lemma HistogramStep(
    samples: seq<Sample>, s: Sample,
    histograms: map<string, seq<Bucket>>, histograms': map<string, seq<Bucket>>)
    requires MergesHistograms(samples, histograms)
    requires !s.value.Buckets? ==> histograms' == histograms
    requires s.value.Buckets? ==>
      && s.metric in histograms' && histograms' == histograms[s.metric := histograms'[s.metric]]
      && var was := if s.metric in histograms then histograms[s.metric] else [];
      && Distinct(histograms'[s.metric])
      && (forall le :: HasBound(histograms'[s.metric], le) <==> HasBound(was, le) || HasBound(s.value.buckets, le))
      && (forall le :: CountAt(histograms'[s.metric], le) == CountAt(was, le) + CountAt(s.value.buckets, le))
    ensures MergesHistograms(samples + [s], histograms')
  {
    var t := samples + [s];
    assert t[..|t| - 1] == samples && t[|samples|] == s;
    forall name ensures name in histograms' <==> HasHistogram(t, name) {
      HasAppend(samples, s, name);
    }
    forall name | name in histograms' ensures Merges(t, name, histograms'[name]) {
      forall le
        ensures HasBound(histograms'[name], le) <==> Mentions(t, name, le)
        ensures CountAt(histograms'[name], le) == MergedCount(t, name, le)
      {
        MentionsAppend(samples, s, name, le);
        if name !in histograms {
          assert !Mentions(samples, name, le);
          NoneMerged(samples, name, le);
        }
      }
    }
  }

  /** One sample folded into the metrics gathered so far. */
  method AddSample(
    ghost before: seq<Sample>, s: Sample, gauges: map<string, seq<GaugeSeries>>, counters: map<string, real>,
    histograms: map<string, seq<Bucket>>)
    returns (gauges': map<string, seq<GaugeSeries>>, counters': map<string, real>, histograms': map<string, seq<Bucket>>)
    requires MergesGauges(before, gauges) && MergesCounters(before, counters) && MergesHistograms(before, histograms)
    ensures MergesGauges(before + [s], gauges')
    ensures MergesCounters(before + [s], counters')
    ensures MergesHistograms(before + [s], histograms')
  {
    hide MergesGauges, MergesCounters, MergesHistograms, HasBound, CountAt, Distinct;
    gauges', counters', histograms' := gauges, counters, histograms;
    match s.value {
      case Gauge(v) =>
        gauges' := gauges[s.metric := (if s.metric in gauges then gauges[s.metric] else []) + [GaugeSeries(s.labels, v)]];
      case Counter(v) =>
        counters' := counters[s.metric := (if s.metric in counters then counters[s.metric] else 0.0) + v];
      case Buckets(buckets) =>
        assert s.metric in histograms ==> Distinct(histograms[s.metric]) by { MergedIsDistinct(before, histograms, s.metric); }
        var merged := MergeBuckets(if s.metric in histograms then histograms[s.metric] else [], buckets);
        histograms' := histograms[s.metric := merged];
      case Summary =>
      case Untyped(v) =>
        if EndsWith(s.metric, "_sum") || EndsWith(s.metric, "_count") || EndsWith(s.metric, "_total") {
          counters' := counters[s.metric := (if s.metric in counters then counters[s.metric] else 0.0) + v];
        } else {
          gauges' := gauges[s.metric := (if s.metric in gauges then gauges[s.metric] else []) + [GaugeSeries(s.labels, v)]];
        }
    }
    GaugeStep(before, s, gauges, gauges');
    CounterStep(before, s, counters, counters');
    if s.value.Buckets? {
      HistogramStep(before, s, histograms, histograms');
    } else {
      NoHistogramStep(before, s, histograms);
    }
  }

  lemma NoHistogramStep(samples: seq<Sample>, s: Sample, histograms: map<string, seq<Bucket>>)
    requires MergesHistograms(samples, histograms) && !s.value.Buckets?
    ensures MergesHistograms(samples + [s], histograms)
  {
    HistogramStep(samples, s, histograms, histograms);
  }

  lemma MergedIsDistinct(samples: seq<Sample>, histograms: map<string, seq<Bucket>>, name: string)
    requires MergesHistograms(samples, histograms)
    ensures name in histograms ==> Distinct(histograms[name])
  {
  }

  /** The scrape's samples as typed metrics, every name's label series merged. */
  method Parse(samples: seq<Sample>) returns (p: ParsedMetrics)
    ensures IsMergeOf(samples, p)
  {
    var gauges: map<string, seq<GaugeSeries>> := map[];
    var counters: map<string, real> := map[];
    var histograms: map<string, seq<Bucket>> := map[];
    for n := 0 to |samples|
      invariant MergesGauges(samples[..n], gauges)
      invariant MergesCounters(samples[..n], counters)
      invariant MergesHistograms(samples[..n], histograms)
    {
      hide *;
      gauges, counters, histograms := AddSample(samples[..n], samples[n], gauges, counters, histograms);
      assert samples[..n + 1] == samples[..n] + [samples[n]];
    }
    assert samples[..|samples|] == samples;
    p := ParsedMetrics(gauges, counters, SortedByBound(histograms));
    hide MergesGauges, MergesCounters, MergesHistograms, AscendingBuckets, SortedByBound;
    SortedIsMerge(samples, histograms);
  }

  function SortedByBound(histograms: map<string, seq<Bucket>>): map<string, seq<Bucket>> {
    map name | name in histograms :: SortBuckets(histograms[name])
  }

  lemma SortedIsMerge(samples: seq<Sample>, histograms: map<string, seq<Bucket>>)
    requires MergesHistograms(samples, histograms)
    ensures MergesHistograms(samples, SortedByBound(histograms))
    ensures forall name :: name in SortedByBound(histograms) ==> AscendingBuckets(SortedByBound(histograms)[name])
  {
    hide Merges, AscendingBuckets, SortBuckets;
    forall name | name in histograms
      ensures Merges(samples, name, SortedByBound(histograms)[name]) && AscendingBuckets(SortedByBound(histograms)[name])
    {
      SortedMerge(samples, name, histograms[name]);
    }
  }

  // ---- Which samples are which ----

  /** An untyped sample is summed into the counters exactly when it is named like
      the sum, the count or the total of something; otherwise it is a gauge. */
  lemma UntypedExactly(s: Sample)
    requires s.value.Untyped?
    ensures IsCounter(s) <==>
      exists m: string :: s.metric == m + "_sum" || s.metric == m + "_count" || s.metric == m + "_total"
    ensures IsGauge(s) <==> !IsCounter(s)
  {
    SuffixExactly(s.metric, "_sum");
    SuffixExactly(s.metric, "_count");
    SuffixExactly(s.metric, "_total");
    hide EndsWith;
  }

  lemma SuffixExactly(s: string, suffix: string)
    ensures EndsWith(s, suffix) <==> exists m: string :: s == m + suffix
  {
    if EndsWith(s, suffix) {
      assert s == s[..|s| - |suffix|] + suffix;
    }
  }

  /** Typed samples go where their type says, and summaries nowhere. */
  lemma TypedExactly(s: Sample)
    ensures s.value.Gauge? ==> IsGauge(s) && !IsCounter(s)
    ensures s.value.Counter? ==> IsCounter(s) && !IsGauge(s)
    ensures s.value.Buckets? || s.value.Summary? ==> !IsGauge(s) && !IsCounter(s)
  {
  }

  // ---- Reading a gauge ----

  /** The values of the gauge samples named `name`, added up, and their number. */
  ghost function GaugeTotal(samples: seq<Sample>, name: string): real {
    if |samples| == 0 then 0.0 else
    var s := samples[|samples| - 1];
    GaugeTotal(samples[..|samples| - 1], name) + if IsGauge(s) && Named(s, name) then s.value.v else 0.0
  }

  ghost function GaugeCount(samples: seq<Sample>, name: string): nat {
    if |samples| == 0 then 0 else
    var s := samples[|samples| - 1];
    GaugeCount(samples[..|samples| - 1], name) + if IsGauge(s) && Named(s, name) then 1 else 0
  }

  lemma {:induction false} GaugesAddUp(samples: seq<Sample>, name: string)
    ensures SumOfValues(GaugesOf(samples, name)) == GaugeTotal(samples, name)
    ensures |GaugesOf(samples, name)| == GaugeCount(samples, name)
    ensures GaugeCount(samples, name) > 0 <==> HasGauge(samples, name)
  {
    if |samples| > 0 {
      var front, s := samples[..|samples| - 1], samples[|samples| - 1];
      GaugesAddUp(front, name);
      assert samples == front + [s];
      HasAppend(front, s, name);
      if IsGauge(s) && Named(s, name) {
        var g := GaugesOf(samples, name);
        assert g == GaugesOf(front, name) + [GaugeSeries(s.labels, s.value.v)];
        assert g[..|g| - 1] == GaugesOf(front, name);
      } else {
        assert GaugesOf(front, name) + [] == GaugesOf(front, name);
      }
    }
  }

  /** A gauge reads as the sum, or the mean, of its label series, and not at all
      where it has none. */
  lemma GaugeReadings(samples: seq<Sample>, p: ParsedMetrics, name: string)
    requires IsMergeOf(samples, p)
    ensures var n := GaugeCount(samples, name);
      && (p.GaugeSum(name).None? <==> n == 0) && (p.GaugeMean(name).None? <==> n == 0)
      && (n > 0 ==>
           && p.GaugeSum(name).value == GaugeTotal(samples, name)
           && p.GaugeMean(name).value == GaugeTotal(samples, name) / n as real)
  {
    GaugesAddUp(samples, name);
    hide SumOfValues, GaugesOf, GaugeTotal, GaugeCount, HasGauge, MergesHistograms, MergesCounters;
  }
}
