/**
  Token counters as rates (src/engines/common.rs, `CounterRate`) and the
  generation rate of llama.cpp (src/engines/llamacpp.rs, `get_metrics`), which
  must not go negative though its counter restarts with the server.
*/
module TokenRates {
  import opened Basics
  import opened Histogram
  import opened Observations
  import opened Prometheus
  import opened Warmup

  datatype Reading = Reading(value: real, at: Instant)

  /** The previous reading, and the sum and number of the positive rates. */
  datatype Rate = Rate(prev: Option<Reading>, sum: real, count: nat)

  const NO_RATE: Rate := Rate(None, 0.0, 0)

  /** Seconds from `since` to `now`, none when the clock reads earlier. */
  function Elapsed(since: Instant, now: Instant): real {
    if now <= since then 0.0 else (now - since) as real / SECOND as real
  }

  function RateAt(r: Rate, current: Option<real>, now: Instant): Option<real> {
    if current.Some? && r.prev.Some? && Elapsed(r.prev.value.at, now) > 0.0
    then Some((current.value - r.prev.value.value) / Elapsed(r.prev.value.at, now))
    else None
  }

  function Observed(r: Rate, current: Option<real>, now: Instant): Rate {
    var rate := RateAt(r, current, now);
    Rate(
      if current.Some? then Some(Reading(current.value, now)) else r.prev,
      if rate.Some? && rate.value > 0.0 then r.sum + rate.value else r.sum,
      if rate.Some? && rate.value > 0.0 then r.count + 1 else r.count)
  }

  function Mean(r: Rate): Option<real> {
    if r.count > 0 then Some(r.sum / r.count as real) else None
  }

  class CounterRate {
    var prev: Option<Reading>
    var sum: real
    var count: nat

    function Value(): Rate
      reads this
    {
      Rate(prev, sum, count)
    }

    constructor ()
      ensures Value() == NO_RATE
    {
      prev, sum, count := None, 0.0, 0;
    }

    method Observe(current: Option<real>, now: Instant) returns (rate: Option<real>, mean: Option<real>)
      modifies this
      ensures Value() == Observed(old(Value()), current, now)
      ensures rate == RateAt(old(Value()), current, now) && mean == Mean(Value())
    {
      rate := None;
      if current.Some? && prev.Some? {
        var elapsed := Elapsed(prev.value.at, now);
        if elapsed > 0.0 {
          rate := Some((current.value - prev.value.value) / elapsed);
        }
      }
      if current.Some? {
        prev := Some(Reading(current.value, now));
      }
      if rate.Some? {
        if rate.value > 0.0 {
          sum := sum + rate.value;
          count := count + 1;
        }
      }
      mean := if count > 0 then Some(sum / count as real) else None;
    }

    method Reset()
      modifies this
      ensures Value() == NO_RATE
    {
      prev, sum, count := None, 0.0, 0;
    }
  }

  lemma Ratio(x: real, e: real)
    requires e > 0.0
    ensures x / e >= 0.0 <==> x >= 0.0
    ensures x / e * e == x
  {
    if x < 0.0 {
      assert x / e * e == x;
    }
  }

  /** One rate is negative exactly when the reading dropped. */
  lemma RateIsNegativeExactly(r: Rate, current: real, now: Instant)
    requires r.prev.Some? && Elapsed(r.prev.value.at, now) > 0.0
    ensures RateAt(r, Some(current), now).Some?
    ensures RateAt(r, Some(current), now).value < 0.0 <==> current < r.prev.value.value
  {
    Ratio(current - r.prev.value.value, Elapsed(r.prev.value.at, now));
  }

  // ---- llama.cpp ----

  const GENERATED_KEY: string := "llamacpp_tokens_predicted_total"
  const PROMPT_KEY: string := "llamacpp_prompt_tokens_total"

  /** The counter plus what is in flight, never below the last count. */
  function LiveGenerated(counted: Option<real>, inFlight: Option<nat>, prev: Option<real>): Option<real> {
    if counted.None? then None else
    var now := counted.value + (if inFlight.Some? then inFlight.value as real else 0.0);
    Some(if prev.Some? && prev.value > now then prev.value else now)
  }

  datatype Adapter = Adapter(warmup: WarmupState, generated: Option<real>, genRate: Rate, promptRate: Rate)

  const NEW_ADAPTER: Adapter := Adapter(Warming(None), None, NO_RATE, NO_RATE)

  /** One poll: an answered scrape, with what `/slots` said if it was asked, or
      no answer to use. */
  datatype Event = Scrape(parsed: ParsedMetrics, inFlight: Option<nat>, at: Instant) | NoScrape

  datatype Rates = Rates(
    tokensPerSec: Option<real>,
    avgTokensPerSec: Option<real>,
    promptTokensPerSec: Option<real>,
    avgPromptTokensPerSec: Option<real>,
    warmingUp: bool)

  ghost function Transitions(a: Adapter, e: Event): bool {
    e.Scrape? && Step(0, GENERATED_KEY, a.warmup, e.parsed).1.justTransitioned
  }

  /** The adapter as the rates of this poll are taken: cleared if warmup just ended. */
  ghost function Cleared(a: Adapter, e: Event): Adapter
    requires e.Scrape?
  {
    var warmup := Step(0, GENERATED_KEY, a.warmup, e.parsed).0;
    if Transitions(a, e) then Adapter(warmup, None, NO_RATE, NO_RATE) else a.(warmup := warmup)
  }

  ghost function Live(a: Adapter, e: Event): Option<real>
    requires e.Scrape?
  {
    LiveGenerated(e.parsed.CounterOf(GENERATED_KEY), e.inFlight, Cleared(a, e).generated)
  }

  ghost function AfterPoll(a: Adapter, e: Event): Adapter {
    match e
    case NoScrape => a
    case Scrape(parsed, _, at) =>
      var c, live := Cleared(a, e), Live(a, e);
      Adapter(
        c.warmup,
        if live.Some? then live else c.generated,
        Observed(c.genRate, live, at),
        Observed(c.promptRate, parsed.CounterOf(PROMPT_KEY), at))
  }

  ghost function RatesOf(a: Adapter, e: Event): Rates
    requires e.Scrape?
  {
    var c, prompt := Cleared(a, e), e.parsed.CounterOf(PROMPT_KEY);
    Rates(
      RateAt(c.genRate, Live(a, e), e.at),
      Mean(AfterPoll(a, e).genRate),
      RateAt(c.promptRate, prompt, e.at),
      Mean(AfterPoll(a, e).promptRate),
      Step(0, GENERATED_KEY, a.warmup, e.parsed).1.warmingUp)
  }

  /** What the dashboard is told of the rates: nothing while warming up. */
  function Shown(r: Rates): Rates {
    if r.warmingUp then Rates(None, None, None, None, true) else r
  }

  class LlamaCppAdapter {
    const warmup: WarmupTracker
    const genRate: CounterRate
    const promptRate: CounterRate
    var generated: Option<real>

    ghost predicate Valid()
      reads this
    {
      genRate != promptRate && warmup.skipRequests == 0 && warmup.triggerKey == GENERATED_KEY
    }

    ghost function Value(): Adapter
      reads this, warmup, genRate, promptRate
    {
      Adapter(warmup.state, generated, genRate.Value(), promptRate.Value())
    }

    constructor ()
      ensures Valid() && Value() == NEW_ADAPTER
      ensures fresh(warmup) && fresh(genRate) && fresh(promptRate)
    {
      warmup := new WarmupTracker(0, GENERATED_KEY);
      genRate := new CounterRate();
      promptRate := new CounterRate();
      generated := None;
    }

    /** The rates shown for an answered scrape. */
    method GetMetrics(parsed: ParsedMetrics, inFlight: Option<nat>, now: Instant) returns (r: Rates)
      requires Valid()
      modifies this, warmup, genRate, promptRate
      ensures Valid()
      ensures Value() == AfterPoll(old(Value()), Scrape(parsed, inFlight, now))
      ensures r == Shown(RatesOf(old(Value()), Scrape(parsed, inFlight, now)))
    {
      hide Step, RateAt, Mean, Observed;
      var out := warmup.Observe(parsed);
      if out.justTransitioned {
        genRate.Reset();
        promptRate.Reset();
        generated := None;
      }
      var live := LiveGenerated(parsed.CounterOf(GENERATED_KEY), inFlight, generated);
      if live.Some? {
        generated := live;
      }
      var tokensPerSec, avg := genRate.Observe(live, now);
      var promptPerSec, promptAvg := promptRate.Observe(parsed.CounterOf(PROMPT_KEY), now);
      r := Shown(Rates(tokensPerSec, avg, promptPerSec, promptAvg, out.warmingUp));
    }
  }

  // ---- Whole runs ----

  ghost function AfterPolls(events: seq<Event>): Adapter {
    if |events| == 0 then NEW_ADAPTER else AfterPoll(AfterPolls(events[..|events| - 1]), events[|events| - 1])
  }

  ghost predicate FloorIsLastReading(a: Adapter) {
    match a.genRate.prev
    case None => a.generated == None
    case Some(r) => a.generated == Some(r.value)
  }

  /** Over any run, restarts and missing counters included, the floor of the
      live count and the rate's previous reading are one value. */
  lemma {:induction false} FloorAndReadingAgree(events: seq<Event>)
    ensures FloorIsLastReading(AfterPolls(events))
  {
    if |events| > 0 {
      hide Step, RateAt;
      FloorAndReadingAgree(events[..|events| - 1]);
    }
  }

  /** So no generation rate is ever negative. */
  lemma {:induction false} GenerationRateIsNeverNegative(events: seq<Event>, e: Event)
    requires e.Scrape?
    ensures var rate := RatesOf(AfterPolls(events), e).tokensPerSec;
      rate.Some? ==> rate.value >= 0.0
  {
    FloorAndReadingAgree(events);
    var a := AfterPolls(events);
    hide Step, Elapsed, Mean;
    var c, live := Cleared(a, e), Live(a, e);
    if live.Some? && c.genRate.prev.Some? && Elapsed(c.genRate.prev.value.at, e.at) > 0.0 {
      Ratio(live.value - c.genRate.prev.value.value, Elapsed(c.genRate.prev.value.at, e.at));
    }
  }

  // ---- The prompt rate, which has no floor ----

  /** The last reading of the prompt counter since the rates were last cleared. */
  ghost function LastPrompt(events: seq<Event>): Option<Reading> {
    if |events| == 0 then None else
    var front, e := events[..|events| - 1], events[|events| - 1];
    if e.NoScrape? then LastPrompt(front)
    else if e.parsed.CounterOf(PROMPT_KEY).Some? then Some(Reading(e.parsed.CounterOf(PROMPT_KEY).value, e.at))
    else if Transitions(AfterPolls(front), e) then None
    else LastPrompt(front)
  }

  lemma {:induction false} PromptReadingIsLast(events: seq<Event>)
    ensures AfterPolls(events).promptRate.prev == LastPrompt(events)
  {
    if |events| > 0 {
      hide Step, RateAt;
      PromptReadingIsLast(events[..|events| - 1]);
    }
  }

  /** The tracker stands on a baseline that no counter of the scrape is below. */
  ghost predicate HoldsBaseline(warmup: WarmupState, parsed: ParsedMetrics) {
    warmup.Active? && !Regressed(parsed, warmup.baseline)
  }

  ghost predicate IsNegative(rate: Option<real>) {
    rate.Some? && rate.value < 0.0
  }

  /** Over any run of polls, a negative prompt rate is shown exactly when the
      counter is below the reading last taken of it, earlier and since the rates
      were cleared, and yet no counter is below the baseline: a restart that the
      tracker does not see. */
  lemma {:induction false} NegativePromptRateIsShownExactly(events: seq<Event>, e: Event)
    requires e.Scrape?
    ensures var a, last := AfterPolls(events), LastPrompt(events);
      IsNegative(Shown(RatesOf(a, e)).promptTokensPerSec) <==>
        && HoldsBaseline(a.warmup, e.parsed)
        && e.parsed.CounterOf(PROMPT_KEY).Some? && last.Some? && last.value.at < e.at
        && e.parsed.CounterOf(PROMPT_KEY).value < last.value.value
  {
    var a, last, current := AfterPolls(events), LastPrompt(events), e.parsed.CounterOf(PROMPT_KEY);
    PromptReadingIsLast(events);
    ShownExactly(a, e);
    hide Step, AfterPolls, LastPrompt, HoldsBaseline, Mean;
    if !Transitions(a, e) && current.Some? && last.Some? && last.value.at < e.at {
      ElapsedIsPositive(last.value.at, e.at);
      RateIsNegativeExactly(a.promptRate, current.value, e.at);
    }
  }

  /** Rates are shown when warmup ends, which clears them, and while the
      baseline holds. */
  lemma ShownExactly(a: Adapter, e: Event)
    requires e.Scrape?
    ensures !RatesOf(a, e).warmingUp <==> Transitions(a, e) || HoldsBaseline(a.warmup, e.parsed)
    ensures Transitions(a, e) ==> !HoldsBaseline(a.warmup, e.parsed)
  {
    hide Subtracted, TotalRequests, Regressed, RateAt, Mean;
  }

  /** A server at work: both token counters read `n` at second `second`. */
  function TokensAt(n: real, second: nat): Event {
    Scrape(ParsedMetrics(map[], map[GENERATED_KEY := n, PROMPT_KEY := n], map[]), None, second * SECOND)
  }

  /** Such a run: the counters read 0, then 100, and after a restart 5, which is
      no less than the baseline; minus 95 tokens a second are shown. */
  lemma RestartShowsNegativePromptRate() returns (events: seq<Event>, e: Event)
    ensures events == [TokensAt(0.0, 0), TokensAt(100.0, 1)] && e == TokensAt(5.0, 2)
    ensures Shown(RatesOf(AfterPolls(events), e)).promptTokensPerSec == Some(-95.0)
  {
    events, e := [TokensAt(0.0, 0), TokensAt(100.0, 1)], TokensAt(5.0, 2);
    hide *;
    SecondPoll();
    PromptReadingIsLast(events);
    TokensHoldBaseline();
    ShownPromptRate(AfterPolls(events), e, Reading(100.0, SECOND), 5.0);
    MinusNinetyFive();
  }

  lemma MinusNinetyFive()
    ensures Elapsed(SECOND, 2 * SECOND) > 0.0 && (5.0 - 100.0) / Elapsed(SECOND, 2 * SECOND) == -95.0
    ensures TokensAt(5.0, 2).Scrape? && TokensAt(5.0, 2).at == 2 * SECOND
  {
  }

  lemma TokensHoldBaseline()
    ensures HoldsBaseline(Active(BaselineOf(TokensAt(0.0, 0).parsed)), TokensAt(5.0, 2).parsed)
    ensures TokensAt(5.0, 2).Scrape? && TokensAt(5.0, 2).parsed.CounterOf(PROMPT_KEY) == Some(5.0)
    ensures TokensAt(5.0, 2).at == 2 * SECOND
  {
    hide PROMPT_KEY, GENERATED_KEY;
    KeysDiffer();
  }

  /** While the baseline holds, the prompt rate shown is that since the last reading. */
  lemma ShownPromptRate(a: Adapter, e: Event, last: Reading, current: real)
    requires e.Scrape? && HoldsBaseline(a.warmup, e.parsed) && a.promptRate.prev == Some(last)
    requires e.parsed.CounterOf(PROMPT_KEY) == Some(current) && Elapsed(last.at, e.at) > 0.0
    ensures Shown(RatesOf(a, e)).promptTokensPerSec == Some((current - last.value) / Elapsed(last.at, e.at))
  {
    hide Step, HoldsBaseline, Mean, Elapsed, PROMPT_KEY, GENERATED_KEY;
    ShownExactly(a, e);
  }

  lemma KeysDiffer()
    ensures PROMPT_KEY != GENERATED_KEY
  {
    assert |PROMPT_KEY| != |GENERATED_KEY|;
  }

  lemma FirstPoll()
    ensures AfterPolls([TokensAt(0.0, 0)]).warmup == Active(BaselineOf(TokensAt(0.0, 0).parsed))
  {
    hide Subtracted, Mean, RateAt, PROMPT_KEY, GENERATED_KEY;
    KeysDiffer();
    assert [TokensAt(0.0, 0)][..0] == [];
  }

  lemma SecondPoll()
    ensures var events := [TokensAt(0.0, 0), TokensAt(100.0, 1)];
      && AfterPolls(events).warmup == Active(BaselineOf(TokensAt(0.0, 0).parsed))
      && LastPrompt(events) == Some(Reading(100.0, SECOND))
  {
    hide Subtracted, Mean, RateAt, PROMPT_KEY, GENERATED_KEY;
    var events := [TokensAt(0.0, 0), TokensAt(100.0, 1)];
    KeysDiffer();
    FirstPoll();
    assert events[..1] == [TokensAt(0.0, 0)];
  }

  /** The positive generation rates since the rates were last cleared. */
  ghost function PositiveRates(events: seq<Event>): seq<real> {
    if |events| == 0 then [] else
    var front, e := events[..|events| - 1], events[|events| - 1];
    var a := AfterPolls(front);
    if e.NoScrape? then PositiveRates(front) else
    var rate := RateAt(Cleared(a, e).genRate, Live(a, e), e.at);
    (if Transitions(a, e) then [] else PositiveRates(front))
    + if rate.Some? && rate.value > 0.0 then [rate.value] else []
  }

  lemma {:induction false} AccumulatesPositiveRates(events: seq<Event>)
    ensures AfterPolls(events).genRate.sum == Sum(PositiveRates(events))
    ensures AfterPolls(events).genRate.count == |PositiveRates(events)|
  {
    if |events| > 0 {
      var front, e := events[..|events| - 1], events[|events| - 1];
      AccumulatesPositiveRates(front);
      if e.Scrape? {
        hide Step, RateAt, Live, Transitions;
        var a := AfterPolls(front);
        var rate := RateAt(Cleared(a, e).genRate, Live(a, e), e.at);
        var kept := if Transitions(a, e) then [] else PositiveRates(front);
        SumAppend(kept, if rate.Some? && rate.value > 0.0 then [rate.value] else []);
      }
    }
  }

  lemma TimesCount(x: real, y: real, n: real)
    requires x <= y && n >= 0.0
    ensures Times(x, n) <= Times(y, n) && Times(x, n + 1.0) == Times(x, n) + x
    ensures Times(x, 1.0) == x
  {
    assert (y - x) * n >= 0.0;
  }

  lemma QuotientBetween(lo: real, s: real, hi: real, n: real)
    requires n > 0.0 && Times(lo, n) <= s <= Times(hi, n)
    ensures lo <= s / n <= hi
  {
    Ratio(s - lo * n, n);
    Ratio(hi * n - s, n);
    assert (s - lo * n) / n == s / n - lo;
    assert (hi * n - s) / n == hi - s / n;
  }

  lemma {:induction false} SumIsBetween(xs: seq<real>) returns (lo: real, hi: real)
    requires |xs| > 0
    ensures lo in xs && hi in xs && forall x :: x in xs ==> lo <= x <= hi
    ensures Times(lo, |xs| as real) <= Sum(xs) <= Times(hi, |xs| as real)
  {
    hide Times;
    if |xs| == 1 {
      lo, hi := xs[0], xs[0];
      TimesCount(lo, lo, 1.0);
      assert Sum(xs[1..]) == 0.0;
    } else {
      var lo', hi' := SumIsBetween(xs[1..]);
      assert forall x :: x in xs <==> x == xs[0] || x in xs[1..];
      lo := if xs[0] < lo' then xs[0] else lo';
      hi := if xs[0] > hi' then xs[0] else hi';
      var n := |xs[1..]| as real;
      TimesCount(lo, lo', n);
      TimesCount(hi', hi, n);
      TimesCount(hi, hi, n);
      assert |xs| as real == n + 1.0;
    }
  }

  /** The running mean lies between the least and the greatest positive rate
      since the rates were last cleared. */
  lemma MeanIsBetween(events: seq<Event>) returns (lo: real, hi: real)
    requires Mean(AfterPolls(events).genRate).Some?
    ensures lo in PositiveRates(events) && hi in PositiveRates(events)
    ensures forall r :: r in PositiveRates(events) ==> lo <= r <= hi
    ensures lo <= Mean(AfterPolls(events).genRate).value <= hi
  {
    AccumulatesPositiveRates(events);
    hide PositiveRates, AfterPolls, Sum;
    var xs := PositiveRates(events);
    lo, hi := SumIsBetween(xs);
    QuotientBetween(lo, Sum(xs), hi, |xs| as real);
  }

  /** The tokens counted and in flight at each scrape since the rates were last
      cleared. */
  ghost function LiveCounts(events: seq<Event>): seq<real> {
    if |events| == 0 then [] else
    var front, e := events[..|events| - 1], events[|events| - 1];
    if e.NoScrape? then LiveCounts(front) else
    var counted := e.parsed.CounterOf(GENERATED_KEY);
    (if Transitions(AfterPolls(front), e) then [] else LiveCounts(front))
    + if counted.None? then []
      else if e.inFlight.None? then [counted.value] else [counted.value + e.inFlight.value as real]
  }

  /** The count the rate is taken from is the greatest live count since the
      rates were last cleared. */
  lemma {:induction false} FloorIsGreatestCount(events: seq<Event>)
    ensures var counts, floor := LiveCounts(events), AfterPolls(events).generated;
      && (floor.None? <==> counts == [])
      && (floor.Some? ==> floor.value in counts && forall c :: c in counts ==> c <= floor.value)
  {
    if |events| > 0 {
      FloorIsGreatestCount(events[..|events| - 1]);
      hide Step, Observed;
    }
  }

  /** Tokens counted by the rates: each rate times the time it stands for. */
  ghost function TokensByRates(a: Adapter, events: seq<Event>): real
    decreases |events|
  {
    if |events| == 0 then 0.0 else
    var e := events[0];
    (if e.Scrape? && RatesOf(a, e).tokensPerSec.Some? && Cleared(a, e).genRate.prev.Some?
     then RatesOf(a, e).tokensPerSec.value * Elapsed(Cleared(a, e).genRate.prev.value.at, e.at) else 0.0)
    + TokensByRates(AfterPoll(a, e), events[1..])
  }

  ghost function Through(a: Adapter, events: seq<Event>): Adapter
    decreases |events|
  {
    if |events| == 0 then a else Through(AfterPoll(a, events[0]), events[1..])
  }

  /** A stretch of polls in clock order, without the end of a warmup. */
  ghost predicate Steady(a: Adapter, events: seq<Event>)
    decreases |events|
  {
    |events| == 0 ||
    (&& !Transitions(a, events[0])
     && (events[0].Scrape? && a.genRate.prev.Some? ==> a.genRate.prev.value.at < events[0].at)
     && Steady(AfterPoll(a, events[0]), events[1..]))
  }

  /** The rates account for every token: over any such stretch they add up to
      exactly what the live count has grown by. */
  lemma {:induction false} RatesAccountForTokens(a: Adapter, events: seq<Event>)
    requires FloorIsLastReading(a) && a.generated.Some? && Steady(a, events)
    ensures Through(a, events).generated.Some?
    ensures TokensByRates(a, events) == Through(a, events).generated.value - a.generated.value
    decreases |events|
  {
    if |events| > 0 {
      var e, a' := events[0], AfterPoll(a, events[0]);
      hide Step;
      RatesAccountForTokens(a', events[1..]);
      if e.Scrape? && Live(a, e).Some? {
        var elapsed := Elapsed(a.genRate.prev.value.at, e.at);
        ElapsedIsPositive(a.genRate.prev.value.at, e.at);
        Ratio(Live(a, e).value - a.genRate.prev.value.value, elapsed);
      }
    }
  }

  lemma ElapsedIsPositive(since: Instant, now: Instant)
    requires since < now
    ensures Elapsed(since, now) > 0.0
  {
  }

  // ---- What is shown ----

  /** The positive prompt rates since the rates were last cleared. */
  ghost function PositivePromptRates(events: seq<Event>): seq<real> {
    if |events| == 0 then [] else
    var front, e := events[..|events| - 1], events[|events| - 1];
    var a := AfterPolls(front);
    if e.NoScrape? then PositivePromptRates(front) else
    var rate := RateAt(Cleared(a, e).promptRate, e.parsed.CounterOf(PROMPT_KEY), e.at);
    (if Transitions(a, e) then [] else PositivePromptRates(front))
    + if rate.Some? && rate.value > 0.0 then [rate.value] else []
  }

  lemma {:induction false} AccumulatesPositivePromptRates(events: seq<Event>)
    ensures AfterPolls(events).promptRate.sum == Sum(PositivePromptRates(events))
    ensures AfterPolls(events).promptRate.count == |PositivePromptRates(events)|
  {
    if |events| > 0 {
      var front, e := events[..|events| - 1], events[|events| - 1];
      AccumulatesPositivePromptRates(front);
      if e.Scrape? {
        hide Step, RateAt, Live, Transitions;
        var a := AfterPolls(front);
        var rate := RateAt(Cleared(a, e).promptRate, e.parsed.CounterOf(PROMPT_KEY), e.at);
        var kept := if Transitions(a, e) then [] else PositivePromptRates(front);
        SumAppend(kept, if rate.Some? && rate.value > 0.0 then [rate.value] else []);
      }
    }
  }

  function MeanOf(xs: seq<real>): Option<real> {
    if xs == [] then None else Some(Sum(xs) / |xs| as real)
  }

  /** While warming up nothing at all is shown; otherwise the means are those of
      the positive generation and of the positive prompt rates, this scrape's
      among them, since the rates were cleared. */
  lemma ShownMeansExactly(events: seq<Event>, e: Event)
    requires e.Scrape?
    ensures var r, raw, all := Shown(RatesOf(AfterPolls(events), e)), RatesOf(AfterPolls(events), e), events + [e];
      && r.warmingUp == raw.warmingUp
      && (r.warmingUp ==> r.tokensPerSec.None? && r.promptTokensPerSec.None?)
      && (r.warmingUp ==> r.avgTokensPerSec.None? && r.avgPromptTokensPerSec.None?)
      && (!r.warmingUp ==>
           && r.tokensPerSec == raw.tokensPerSec && r.promptTokensPerSec == raw.promptTokensPerSec
           && r.avgTokensPerSec == MeanOf(PositiveRates(all))
           && r.avgPromptTokensPerSec == MeanOf(PositivePromptRates(all)))
  {
    var all := events + [e];
    assert all[..|all| - 1] == events && all[|all| - 1] == e;
    assert AfterPolls(all) == AfterPoll(AfterPolls(events), e);
    AccumulatesPositiveRates(all);
    AccumulatesPositivePromptRates(all);
    hide PositiveRates, PositivePromptRates, Sum, Step, RateAt, AfterPoll, AfterPolls;
  }

  /** The rate since the last reading, whose reading and clock it is that of. */
  lemma RateAtExactly(r: Rate, current: real, now: Instant)
    ensures RateAt(r, Some(current), now).Some? <==> r.prev.Some? && r.prev.value.at < now
    ensures RateAt(r, Some(current), now).Some? ==>
      RateAt(r, Some(current), now).value * ((now - r.prev.value.at) as real / 1000000000.0) == current - r.prev.value.value
  {
    if r.prev.Some? && r.prev.value.at < now {
      ElapsedIsPositive(r.prev.value.at, now);
      Ratio(current - r.prev.value.value, Elapsed(r.prev.value.at, now));
    }
  }
}
