/**
  The warmup tracker (src/engines/warmup.rs): the first requests of an engine
  are kept out of its counters and histograms by subtracting a baseline scrape.
*/
module Warmup {
  import opened Basics
  import opened Histogram
  import opened Prometheus

  datatype Baseline = Baseline(counters: map<string, real>, histograms: map<string, seq<Bucket>>)

  datatype WarmupState =
    | Warming(initialTotal: Option<nat>)
    | Active(baseline: Baseline)

  datatype WarmupOutput = WarmupOutput(warmingUp: bool, justTransitioned: bool, adjusted: ParsedMetrics)

  const U64_MAX: nat := 0xFFFF_FFFF_FFFF_FFFF

  /** Rust's `as u64` of a float: truncated, and saturated at both ends. */
  function AsU64(v: real): nat {
    if v <= 0.0 then 0 else if v.Floor > U64_MAX then U64_MAX else v.Floor
  }

  /** The requests the engine has handled, read off its trigger counter. */
  function TotalRequests(parsed: ParsedMetrics, key: string): nat {
    if key in parsed.counters then AsU64(parsed.counters[key]) else 0
  }

  function Max0(x: real): real {
    if x < 0.0 then 0.0 else x
  }

  predicate SameSchema(a: seq<Bucket>, b: seq<Bucket>) {
    |a| == |b| && forall i :: 0 <= i < |a| ==> a[i].le == b[i].le
  }

  /** Whether a baselined counter has dropped below its baseline. */
  ghost predicate Regressed(parsed: ParsedMetrics, baseline: Baseline) {
    exists key :: key in baseline.counters && key in parsed.counters
      && parsed.counters[key] < baseline.counters[key]
  }

  function CounterDelta(key: string, current: real, baseline: Baseline): real {
    if key in baseline.counters then Max0(current - baseline.counters[key]) else current
  }

  function BucketDeltas(current: seq<Bucket>, was: seq<Bucket>): seq<Bucket>
    requires |current| == |was|
  {
    seq(|current|, i requires 0 <= i < |current| => Bucket(current[i].le, Max0(current[i].count - was[i].count)))
  }

  predicate Drifted(key: string, current: seq<Bucket>, baseline: Baseline) {
    key in baseline.histograms && !SameSchema(current, baseline.histograms[key])
  }

  function HistogramDelta(key: string, current: seq<Bucket>, baseline: Baseline): seq<Bucket>
    requires !Drifted(key, current, baseline)
  {
    if key in baseline.histograms then BucketDeltas(current, baseline.histograms[key]) else current
  }

  /** `parsed` less the baseline; a histogram whose bounds changed is dropped,
      one the baseline lacks passes through. */
  function Subtracted(parsed: ParsedMetrics, baseline: Baseline): ParsedMetrics {
    ParsedMetrics(
      parsed.gauges,
      map key | key in parsed.counters :: CounterDelta(key, parsed.counters[key], baseline),
      map key | key in parsed.histograms && !Drifted(key, parsed.histograms[key], baseline) ::
        HistogramDelta(key, parsed.histograms[key], baseline))
  }

  function BaselineOf(parsed: ParsedMetrics): Baseline {
    Baseline(parsed.counters, parsed.histograms)
  }

  /** One scrape, as a step of the tracker's state. */
  ghost function Step(skip: nat, key: string, state: WarmupState, parsed: ParsedMetrics): (WarmupState, WarmupOutput) {
    var total := TotalRequests(parsed, key);
    match state
    case Warming(initialTotal) =>
      var initial := if initialTotal.Some? then initialTotal.value else total;
      if total < initial then
        (Warming(Some(total)), WarmupOutput(true, false, parsed))
      else if total - initial >= skip then
        (Active(BaselineOf(parsed)), WarmupOutput(false, true, Subtracted(parsed, BaselineOf(parsed))))
      else
        (Warming(Some(initial)), WarmupOutput(true, false, parsed))
    case Active(baseline) =>
      if Regressed(parsed, baseline) then
        (Warming(Some(total)), WarmupOutput(true, false, parsed))
      else
        (state, WarmupOutput(false, false, Subtracted(parsed, baseline)))
  }

  method CounterRegression(parsed: ParsedMetrics, baseline: Baseline) returns (r: bool)
    ensures r == Regressed(parsed, baseline)
    ensures r <==> exists c :: c in baseline.counters && c in parsed.counters
                     && parsed.counters[c] < baseline.counters[c]
  {
    var todo := baseline.counters.Keys;
    while todo != {}
      invariant todo <= baseline.counters.Keys
      invariant forall key :: key in baseline.counters && key !in todo && key in parsed.counters ==>
        parsed.counters[key] >= baseline.counters[key]
      decreases |todo|
    {
      var key :| key in todo;
      todo := todo - {key};
      if key in parsed.counters && parsed.counters[key] < baseline.counters[key] {
        return true;
      }
    }
    return false;
  }

  method SubtractCounters(parsed: ParsedMetrics, baseline: Baseline) returns (counters: map<string, real>)
    ensures counters == Subtracted(parsed, baseline).counters
  {
    counters := map[];
    var todo := parsed.counters.Keys;
    while todo != {}
      invariant todo <= parsed.counters.Keys && counters.Keys == parsed.counters.Keys - todo
      invariant forall key :: key in counters ==> counters[key] == CounterDelta(key, parsed.counters[key], baseline)
      decreases |todo|
    {
      var key :| key in todo;
      todo := todo - {key};
      var delta := if key in baseline.counters
        then Max0(parsed.counters[key] - baseline.counters[key]) else parsed.counters[key];
      counters := counters[key := delta];
    }
  }

  method SubtractHistograms(parsed: ParsedMetrics, baseline: Baseline) returns (histograms: map<string, seq<Bucket>>)
    ensures histograms == Subtracted(parsed, baseline).histograms
  {
    hide BucketDeltas;
    histograms := map[];
    var todo := parsed.histograms.Keys;
    while todo != {}
      invariant todo <= parsed.histograms.Keys
      invariant forall key :: key in histograms <==>
        key in parsed.histograms && key !in todo && !Drifted(key, parsed.histograms[key], baseline)
      invariant forall key :: key in histograms ==>
        histograms[key] == HistogramDelta(key, parsed.histograms[key], baseline)
      decreases |todo|
    {
      var key :| key in todo;
      todo := todo - {key};
      var current := parsed.histograms[key];
      if key in baseline.histograms {
        if SameSchema(current, baseline.histograms[key]) {
          histograms := histograms[key := BucketDeltas(current, baseline.histograms[key])];
        }
      } else {
        histograms := histograms[key := current];
      }
    }
  }

  method SubtractBaseline(parsed: ParsedMetrics, baseline: Baseline) returns (adjusted: ParsedMetrics)
    ensures adjusted == Subtracted(parsed, baseline)
  {
    var counters := SubtractCounters(parsed, baseline);
    var histograms := SubtractHistograms(parsed, baseline);
    adjusted := ParsedMetrics(parsed.gauges, counters, histograms);
  }

  class WarmupTracker {
    const skipRequests: nat
    const triggerKey: string
    var state: WarmupState

    constructor (skipRequests: nat, triggerKey: string)
      ensures this.skipRequests == skipRequests && this.triggerKey == triggerKey
      ensures state == Warming(None)
    {
      this.skipRequests := skipRequests;
      this.triggerKey := triggerKey;
      state := Warming(None);
    }

    method Observe(parsed: ParsedMetrics) returns (out: WarmupOutput)
      modifies this
      ensures (state, out) == Step(skipRequests, triggerKey, old(state), parsed)
    {
      var currentTotal := TotalRequests(parsed, triggerKey);
      match state {
        case Warming(initialTotal) =>
          var initial;
          if initialTotal.Some? {
            initial := initialTotal.value;
          } else {
            state := Warming(Some(currentTotal));
            initial := currentTotal;
          }
          if currentTotal < initial {
            state := Warming(Some(currentTotal));
            return WarmupOutput(true, false, parsed);
          }
          if currentTotal - initial >= skipRequests {
            var baseline := Baseline(parsed.counters, parsed.histograms);
            var adjusted := SubtractBaseline(parsed, baseline);
            state := Active(baseline);
            return WarmupOutput(false, true, adjusted);
          }
          return WarmupOutput(true, false, parsed);
        case Active(baseline) =>
          var regressed := CounterRegression(parsed, baseline);
          if regressed {
            state := Warming(Some(currentTotal));
            return WarmupOutput(true, false, parsed);
          }
          var adjusted := SubtractBaseline(parsed, baseline);
          return WarmupOutput(false, false, adjusted);
      }
    }
  }

  // ---- Whole runs ----

  /** The state after the scrapes `ps`, from a new tracker. */
  ghost function StateAfter(skip: nat, key: string, ps: seq<ParsedMetrics>): WarmupState {
    if |ps| == 0 then Warming(None)
    else Step(skip, key, StateAfter(skip, key, ps[..|ps| - 1]), ps[|ps| - 1]).0
  }

  /** What the tracker answers to scrape `n` of a run. */
  ghost function OutputAt(skip: nat, key: string, ps: seq<ParsedMetrics>, n: nat): WarmupOutput
    requires n < |ps|
  {
    Step(skip, key, StateAfter(skip, key, ps[..n]), ps[n]).1
  }

  /** No counter of the scrape is below what the earlier scrape had of it. */
  ghost predicate IsAbove(parsed: ParsedMetrics, was: ParsedMetrics) {
    forall c :: c in was.counters && c in parsed.counters ==> was.counters[c] <= parsed.counters[c]
  }

  lemma AboveExactly(parsed: ParsedMetrics, was: ParsedMetrics)
    ensures IsAbove(parsed, was) <==> !Regressed(parsed, BaselineOf(was))
  {
  }

  /** At scrape `n` the tracker stands on the baseline of scrape `k`: warmup
      ended there, and no counter has dropped below it since. */
  ghost predicate IsBaselineAt(skip: nat, key: string, ps: seq<ParsedMetrics>, k: nat, n: nat) {
    && k <= n < |ps|
    && OutputAt(skip, key, ps, k).justTransitioned
    && forall i :: k < i <= n ==> IsAbove(ps[i], ps[k])
  }

  lemma StateStep(skip: nat, key: string, ps: seq<ParsedMetrics>, n: nat)
    requires n < |ps|
    ensures StateAfter(skip, key, ps[..n + 1]) == Step(skip, key, StateAfter(skip, key, ps[..n]), ps[n]).0
  {
    assert ps[..n + 1][..n] == ps[..n];
  }

  /** From the scrape at which a warmup ended, every scrape is reported less
      that one baseline while no counter drops below it, whatever restarts and
      warmups the run held before. */
  lemma {:induction false} RunIsBaselined(skip: nat, key: string, ps: seq<ParsedMetrics>, k: nat, n: nat)
    requires IsBaselineAt(skip, key, ps, k, n)
    ensures StateAfter(skip, key, ps[..n + 1]) == Active(BaselineOf(ps[k]))
    ensures OutputAt(skip, key, ps, n) == WarmupOutput(false, n == k, Subtracted(ps[n], BaselineOf(ps[k])))
    decreases n
  {
    hide Subtracted, AsU64, TotalRequests, Regressed, IsAbove;
    StateStep(skip, key, ps, n);
    AboveExactly(ps[n], ps[k]);
    if k < n {
      RunIsBaselined(skip, key, ps, k, n - 1);
    }
  }

  /** A tracker that is active stands on the baseline of some scrape. */
  lemma {:induction false} ActiveHasBaseline(skip: nat, key: string, ps: seq<ParsedMetrics>, n: nat) returns (k: nat)
    requires n < |ps| && StateAfter(skip, key, ps[..n + 1]).Active?
    ensures IsBaselineAt(skip, key, ps, k, n)
    decreases n
  {
    hide Subtracted, AsU64, TotalRequests, Regressed, IsAbove;
    StateStep(skip, key, ps, n);
    if OutputAt(skip, key, ps, n).justTransitioned {
      k := n;
    } else {
      assert StateAfter(skip, key, ps[..n]).Active?;
      assert n > 0;
      k := ActiveHasBaseline(skip, key, ps, n - 1);
      RunIsBaselined(skip, key, ps, k, n - 1);
      AboveExactly(ps[n], ps[k]);
    }
  }

  /** Over any run at all, a scrape is passed through as it is while warming up,
      and otherwise reported less the baseline that the tracker stands on. */
  lemma AnswersExactly(skip: nat, key: string, ps: seq<ParsedMetrics>, n: nat)
    requires n < |ps|
    ensures OutputAt(skip, key, ps, n).warmingUp <==> forall k: nat :: !IsBaselineAt(skip, key, ps, k, n)
    ensures OutputAt(skip, key, ps, n).warmingUp ==> OutputAt(skip, key, ps, n) == WarmupOutput(true, false, ps[n])
    ensures forall k: nat :: IsBaselineAt(skip, key, ps, k, n) ==>
      OutputAt(skip, key, ps, n) == WarmupOutput(false, n == k, Subtracted(ps[n], BaselineOf(ps[k])))
  {
    forall k: nat | IsBaselineAt(skip, key, ps, k, n)
      ensures OutputAt(skip, key, ps, n) == WarmupOutput(false, n == k, Subtracted(ps[n], BaselineOf(ps[k])))
    {
      RunIsBaselined(skip, key, ps, k, n);
    }
    hide Subtracted, AsU64, TotalRequests, Regressed, IsBaselineAt;
    if !OutputAt(skip, key, ps, n).warmingUp {
      StateStep(skip, key, ps, n);
      var k := ActiveHasBaseline(skip, key, ps, n);
    }
  }

  // ---- Where a warmup begins and ends ----

  /** Scrape `n` shows an active tracker that the engine has restarted. */
  ghost predicate RestartsAt(skip: nat, key: string, ps: seq<ParsedMetrics>, n: nat) {
    && n < |ps|
    && var state := StateAfter(skip, key, ps[..n]);
    state.Active? && Regressed(ps[n], state.baseline)
  }

  /** The tracker has been warming up since scrape `s`, through scrape `n - 1`. */
  ghost predicate WarmsUp(skip: nat, key: string, ps: seq<ParsedMetrics>, s: nat, n: nat) {
    && s < n <= |ps|
    && (s == 0 || RestartsAt(skip, key, ps, s))
    && forall i :: s < i <= n ==> StateAfter(skip, key, ps[..i]).Warming?
  }

  /** A tracker that is warming up has been since the first scrape or a restart. */
  lemma {:induction false} WarmingHasStart(skip: nat, key: string, ps: seq<ParsedMetrics>, n: nat) returns (s: nat)
    requires 0 < n <= |ps| && StateAfter(skip, key, ps[..n]).Warming?
    ensures WarmsUp(skip, key, ps, s, n)
  {
    hide Subtracted, TotalRequests, Regressed;
    if n == 1 || StateAfter(skip, key, ps[..n - 1]).Active? {
      s := n - 1;
      StateStep(skip, key, ps, s);
    } else {
      s := WarmingHasStart(skip, key, ps, n - 1);
    }
  }

  /** Its cursor is the least request count of the warmup so far: restarts while
      warming up lower it. */
  lemma {:induction false} CursorIsLeast(skip: nat, key: string, ps: seq<ParsedMetrics>, s: nat, n: nat) returns (c: nat)
    requires WarmsUp(skip, key, ps, s, n)
    ensures StateAfter(skip, key, ps[..n]) == Warming(Some(c))
    ensures exists i :: s <= i < n && c == TotalRequests(ps[i], key)
    ensures forall i :: s <= i < n ==> c <= TotalRequests(ps[i], key)
    decreases n
  {
    hide Subtracted, AsU64, TotalRequests, Regressed;
    StateStep(skip, key, ps, n - 1);
    c := TotalRequests(ps[n - 1], key);
    if s < n - 1 {
      var before := CursorIsLeast(skip, key, ps, s, n - 1);
      c := if c < before then c else before;
    } else {
      assert ps[..0] == [];
    }
  }

  /** A warmup ends at exactly the scrape that has seen `skip` requests more than
      some earlier scrape of that warmup. */
  lemma WarmupEndsExactly(skip: nat, key: string, ps: seq<ParsedMetrics>, s: nat, n: nat)
    requires WarmsUp(skip, key, ps, s, n) && n < |ps|
    ensures OutputAt(skip, key, ps, n).justTransitioned <==>
      exists i :: s <= i < n && TotalRequests(ps[n], key) >= TotalRequests(ps[i], key) + skip
  {
    hide Subtracted, AsU64, TotalRequests, Regressed;
    var c := CursorIsLeast(skip, key, ps, s, n);
  }

  /** Nothing to skip ends the warmup at the first scrape, and only that. */
  lemma FirstScrapeEndsExactly(skip: nat, key: string, ps: seq<ParsedMetrics>)
    requires ps != []
    ensures OutputAt(skip, key, ps, 0).justTransitioned <==> skip == 0
  {
    hide Subtracted;
  }

  // ---- In terms of the trigger counter ----

  /** The cast truncates, and saturates at both ends. */
  lemma AsU64Truncates(v: real)
    ensures 0.0 <= v < 18446744073709551616.0 ==> AsU64(v) as real <= v < AsU64(v) as real + 1.0
    ensures v < 0.0 ==> AsU64(v) == 0
    ensures v >= 18446744073709551616.0 ==> AsU64(v) == 18446744073709551615
  {
  }

  /** The trigger counter of a scrape, 0 where it is missing. */
  function Trigger(parsed: ParsedMetrics, key: string): real {
    if key in parsed.counters then parsed.counters[key] else 0.0
  }

  ghost predicate IsCount(v: real) {
    0.0 <= v < 18446744073709551616.0 && v == v.Floor as real
  }

  lemma TotalIsTrigger(parsed: ParsedMetrics, key: string)
    requires IsCount(Trigger(parsed, key))
    ensures TotalRequests(parsed, key) as real == Trigger(parsed, key)
  {
    AsU64Truncates(Trigger(parsed, key));
  }

  /** While warming up the cursor is the least value the trigger counter has had. */
  lemma CursorIsLeastTrigger(skip: nat, key: string, ps: seq<ParsedMetrics>, s: nat, n: nat) returns (c: nat)
    requires WarmsUp(skip, key, ps, s, n)
    requires forall i :: s <= i < n ==> IsCount(Trigger(ps[i], key))
    ensures StateAfter(skip, key, ps[..n]) == Warming(Some(c))
    ensures exists i :: s <= i < n && c as real == Trigger(ps[i], key)
    ensures forall i :: s <= i < n ==> c as real <= Trigger(ps[i], key)
  {
    hide TotalRequests, Trigger, IsCount, StateAfter;
    c := CursorIsLeast(skip, key, ps, s, n);
    forall i | s <= i < n ensures TotalRequests(ps[i], key) as real == Trigger(ps[i], key) {
      TotalIsTrigger(ps[i], key);
    }
  }

  /** A warmup ends at exactly the scrape whose trigger counter is `skip` above
      that of some earlier scrape of that warmup. */
  lemma WarmupEndsByTrigger(skip: nat, key: string, ps: seq<ParsedMetrics>, s: nat, n: nat)
    requires WarmsUp(skip, key, ps, s, n) && n < |ps|
    requires forall i :: s <= i <= n ==> IsCount(Trigger(ps[i], key))
    ensures OutputAt(skip, key, ps, n).justTransitioned <==>
      exists i :: s <= i < n && Trigger(ps[n], key) >= Trigger(ps[i], key) + skip as real
  {
    hide TotalRequests, Trigger, IsCount, OutputAt, WarmsUp;
    WarmupEndsExactly(skip, key, ps, s, n);
    forall i | s <= i <= n ensures TotalRequests(ps[i], key) as real == Trigger(ps[i], key) {
      TotalIsTrigger(ps[i], key);
    }
  }

  // ---- What the baseline takes away ----

  /** Key by key: gauges and counters stay, no baselined value goes below zero,
      and a histogram is dropped exactly when the baseline has it with other bounds. */
  lemma SubtractedExactly(parsed: ParsedMetrics, baseline: Baseline, key: string)
    ensures var a := Subtracted(parsed, baseline);
      && a.gauges == parsed.gauges
      && (key in a.counters <==> key in parsed.counters)
      && (key in a.counters && key !in baseline.counters ==> a.counters[key] == parsed.counters[key])
      && (key in a.counters && key in baseline.counters ==>
           && a.counters[key] >= 0.0
           && (parsed.counters[key] >= baseline.counters[key] ==>
                a.counters[key] + baseline.counters[key] == parsed.counters[key])
           && (parsed.counters[key] < baseline.counters[key] ==> a.counters[key] == 0.0))
    ensures var a := Subtracted(parsed, baseline);
      && (key in a.histograms <==> (
           && key in parsed.histograms
           && (key in baseline.histograms ==> Bounds(parsed.histograms[key]) == Bounds(baseline.histograms[key]))))
      && (key in a.histograms ==> Bounds(a.histograms[key]) == Bounds(parsed.histograms[key]))
      && (key in a.histograms && key !in baseline.histograms ==> a.histograms[key] == parsed.histograms[key])
  {
    if key in parsed.histograms && key in baseline.histograms {
      SchemaIsBounds(parsed.histograms[key], baseline.histograms[key]);
    }
  }

  function Bounds(b: seq<Bucket>): seq<Bound> {
    seq(|b|, i requires 0 <= i < |b| => b[i].le)
  }

  lemma SchemaIsBounds(a: seq<Bucket>, b: seq<Bucket>)
    ensures SameSchema(a, b) <==> Bounds(a) == Bounds(b)
  {
    if Bounds(a) == Bounds(b) {
      assert |Bounds(a)| == |a| && |Bounds(b)| == |b|;
      forall i | 0 <= i < |a| ensures a[i].le == b[i].le {
        assert Bounds(a)[i] == Bounds(b)[i];
      }
    }
  }

  lemma BucketsSubtract(parsed: ParsedMetrics, baseline: Baseline, key: string, i: nat)
    requires key in Subtracted(parsed, baseline).histograms && key in baseline.histograms
    requires i < |parsed.histograms[key]| == |baseline.histograms[key]|
    ensures var a, now, was := Subtracted(parsed, baseline).histograms[key], parsed.histograms[key][i].count,
                               baseline.histograms[key][i].count;
      |a| == |parsed.histograms[key]| && a[i].count == if now < was then 0.0 else now - was
  {
  }

  /** In every state of the tracker the gauges of a scrape pass through. */
  lemma GaugesPassThrough(skip: nat, key: string, state: WarmupState, parsed: ParsedMetrics)
    ensures Step(skip, key, state, parsed).1.adjusted.gauges == parsed.gauges
  {
    hide TotalRequests, Regressed;
  }
}
