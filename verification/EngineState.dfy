/**
  The state of one polled engine (src/engines/mod.rs, `EngineState`): its grace
  period and its cached model.  An instant is a number of nanoseconds, read at
  each call that reads the clock; what the engine answers is an input.
*/
module EngineState {
  import opened Basics

  const MODEL_REFRESH_INTERVAL: int := 600 * SECOND
  const MODEL_UNRESOLVED_RETRY: int := 30 * SECOND
  const GRACE_PERIOD: int := 30 * SECOND

  datatype Status = Running | Loading | Stopped | Error(message: string)

  datatype MetadataError = AuthRequired | Unavailable

  datatype Resolution = Resolution(model: Option<string>, error: Option<MetadataError>)

  /** What the probes and the model answers leave behind. */
  datatype Vitals = Vitals(
    failures: nat,
    lastSeen: Instant,
    status: Status,
    stoppedAt: Option<Instant>,
    cache: ModelCache)

  datatype ModelCache = ModelCache(
    model: Option<string>,
    error: Option<MetadataError>,
    fetchedAt: Option<Instant>,
    attemptedAt: Option<Instant>)

  const NO_MODEL: ModelCache := ModelCache(None, None, None, None)

  function New(now: Instant): Vitals {
    Vitals(0, now, Running, None, NO_MODEL)
  }

  predicate ShouldFetchModel(c: ModelCache, now: Instant) {
    if c.error.Some? then c.attemptedAt.None? || now - c.attemptedAt.value >= MODEL_UNRESOLVED_RETRY
    else if c.model.Some? then c.fetchedAt.None? || now - c.fetchedAt.value >= MODEL_REFRESH_INTERVAL
    else c.attemptedAt.None? || now - c.attemptedAt.value >= MODEL_UNRESOLVED_RETRY
  }

  function CacheModel(c: ModelCache, r: Resolution, now: Instant): ModelCache {
    ModelCache(
      if r.model.Some? then r.model else c.model,
      r.error,
      if r.model.Some? then Some(now) else c.fetchedAt,
      Some(now))
  }

  function RecordProbe(v: Vitals, success: bool, now: Instant): Vitals {
    if success then Vitals(0, now, Running, None, v.cache)
    else if v.failures + 1 < 3 then v.(failures := v.failures + 1)
    else if v.stoppedAt.None? then
      v.(failures := v.failures + 1, status := Stopped, stoppedAt := Some(now), cache := NO_MODEL)
    else v.(failures := v.failures + 1, status := Stopped)
  }

  predicate ShouldRemove(v: Vitals, now: Instant) {
    v.stoppedAt.Some? && v.status.Stopped? && now - v.stoppedAt.value > GRACE_PERIOD
  }

  /** One poll: when the probe was answered and what, when the model clock was
      read, and what the engine would answer about its model, and when. */
  datatype Poll = Poll(health: Status, probedAt: Instant, askedAt: Instant, answer: Resolution, answeredAt: Instant)

  predicate Succeeds(p: Poll) {
    p.health.Running? || p.health.Loading?
  }

  /** Whether a poll asks for the model: on a failed probe too, as long as the
      engine is not yet stopped. */
  predicate Asks(v: Vitals, p: Poll) {
    var probed := RecordProbe(v, Succeeds(p), p.probedAt);
    (if Succeeds(p) then p.health else probed.status) == Running && ShouldFetchModel(probed.cache, p.askedAt)
  }

  function Polled(v: Vitals, p: Poll): Vitals {
    var probed := RecordProbe(v, Succeeds(p), p.probedAt);
    if Asks(v, p) then probed.(cache := CacheModel(probed.cache, p.answer, p.answeredAt)) else probed
  }

  // ---- The object ----

  class EngineState {
    var consecutiveFailures: nat
    var lastSeen: Instant
    var status: Status
    var stoppedAt: Option<Instant>
    var cachedModel: Option<string>
    var modelMetadataError: Option<MetadataError>
    var modelFetchedAt: Option<Instant>
    var modelAttemptedAt: Option<Instant>

    function Cache(): ModelCache
      reads this
    {
      ModelCache(cachedModel, modelMetadataError, modelFetchedAt, modelAttemptedAt)
    }

    function Value(): Vitals
      reads this
    {
      Vitals(consecutiveFailures, lastSeen, status, stoppedAt, Cache())
    }

    constructor (now: Instant)
      ensures Value() == New(now)
    {
      consecutiveFailures, lastSeen, status, stoppedAt := 0, now, Running, None;
      cachedModel, modelMetadataError, modelFetchedAt, modelAttemptedAt := None, None, None, None;
    }

    method CacheResolution(resolution: Resolution, now: Instant)
      modifies this
      ensures Value() == old(Value()).(cache := CacheModel(old(Cache()), resolution, now))
    {
      modelAttemptedAt := Some(now);
      modelMetadataError := resolution.error;
      if resolution.model.Some? {
        cachedModel := resolution.model;
        modelFetchedAt := Some(now);
      }
    }

    method InvalidateModelCache()
      modifies this
      ensures Value() == old(Value()).(cache := NO_MODEL)
    {
      cachedModel, modelMetadataError, modelFetchedAt, modelAttemptedAt := None, None, None, None;
    }

    method RecordProbeResult(success: bool, now: Instant)
      modifies this
      ensures Value() == RecordProbe(old(Value()), success, now)
    {
      if success {
        consecutiveFailures := 0;
        lastSeen := now;
        status := Running;
        stoppedAt := None;
      } else {
        consecutiveFailures := consecutiveFailures + 1;
        if consecutiveFailures >= 3 {
          if stoppedAt.None? {
            stoppedAt := Some(now);
            InvalidateModelCache();
          }
          status := Stopped;
        }
      }
    }

    /** One poll tick; answers whether the model was asked for. */
    method PollOnce(p: Poll) returns (asked: bool)
      modifies this
      ensures Value() == Polled(old(Value()), p) && asked == Asks(old(Value()), p)
    {
      var success := p.health.Running? || p.health.Loading?;
      RecordProbeResult(success, p.probedAt);
      var shown := if success then p.health else status;
      asked := shown == Running && ShouldFetchModel(Cache(), p.askedAt);
      if asked {
        CacheResolution(p.answer, p.answeredAt);
      }
    }
  }

  // ---- Whole runs ----

  /** Polls in the order of the clock, from an engine new at `born`. */
  ghost predicate ClockOrdered(born: Instant, polls: seq<Poll>) {
    && (forall i :: 0 <= i < |polls| ==> born <= polls[i].probedAt <= polls[i].askedAt <= polls[i].answeredAt)
    && (forall i, j :: 0 <= i < j < |polls| ==> polls[i].answeredAt <= polls[j].probedAt)
  }

  ghost function After(born: Instant, polls: seq<Poll>): Vitals {
    if |polls| == 0 then New(born) else Polled(After(born, polls[..|polls| - 1]), polls[|polls| - 1])
  }

  /** The failed probes since the last that succeeded. */
  ghost function TrailingFailures(polls: seq<Poll>): (n: nat)
    ensures n <= |polls|
    ensures forall i :: |polls| - n <= i < |polls| ==> !Succeeds(polls[i])
    ensures n < |polls| ==> Succeeds(polls[|polls| - n - 1])
  {
    if |polls| == 0 || Succeeds(polls[|polls| - 1]) then 0 else TrailingFailures(polls[..|polls| - 1]) + 1
  }

  /** When the third of them came. */
  ghost function ThirdFailure(polls: seq<Poll>): Instant
    requires TrailingFailures(polls) >= 3
  {
    polls[|polls| - TrailingFailures(polls) + 2].probedAt
  }

  /** Stopped, having a stopping time and three failures in a row are one
      thing, and the time is that of the third failure. */
  lemma {:induction false} StoppedIsThreeFailures(born: Instant, polls: seq<Poll>)
    ensures var v, n := After(born, polls), TrailingFailures(polls);
      && v.failures == n
      && (v.status == Stopped <==> n >= 3)
      && (v.status == Running <==> n < 3)
      && v.stoppedAt == if n >= 3 then Some(ThirdFailure(polls)) else None
  {
    if |polls| > 0 {
      StoppedIsThreeFailures(born, polls[..|polls| - 1]);
    }
  }

  /** An engine is to be removed exactly when its last three or more probes
      failed and more than the grace period has passed since the third. */
  lemma RemovedExactly(born: Instant, polls: seq<Poll>, now: Instant)
    ensures ShouldRemove(After(born, polls), now) <==>
      TrailingFailures(polls) >= 3 && now - ThirdFailure(polls) > 30 * SECOND
  {
    StoppedIsThreeFailures(born, polls);
  }

  ghost predicate AsksAt(born: Instant, polls: seq<Poll>, i: nat)
    requires i < |polls|
  {
    Asks(After(born, polls[..i]), polls[i])
  }

  ghost predicate StopsAt(born: Instant, polls: seq<Poll>, i: nat)
    requires i < |polls|
  {
    After(born, polls[..i]).stoppedAt.None? && After(born, polls[..i + 1]).stoppedAt.Some?
  }

  lemma AfterStep(born: Instant, polls: seq<Poll>, i: nat)
    requires i < |polls|
    ensures After(born, polls[..i + 1]) == Polled(After(born, polls[..i]), polls[i])
  {
    assert polls[..i + 1][..i] == polls[..i];
  }

  /** The cache only changes when the model is asked for or the engine stops,
      and a stop clears all of it. */
  lemma CacheChangesOnly(born: Instant, polls: seq<Poll>, i: nat)
    requires i < |polls|
    ensures var c, c' := After(born, polls[..i]).cache, After(born, polls[..i + 1]).cache;
      && (StopsAt(born, polls, i) ==> c' == NO_MODEL && !AsksAt(born, polls, i))
      && (!StopsAt(born, polls, i) && AsksAt(born, polls, i) ==>
           c' == CacheModel(c, polls[i].answer, polls[i].answeredAt) && ShouldFetchModel(c, polls[i].askedAt))
      && (!StopsAt(born, polls, i) && !AsksAt(born, polls, i) ==> c' == c)
  {
    AfterStep(born, polls, i);
    StoppedIsThreeFailures(born, polls[..i]);
    hide After, ShouldFetchModel, CacheModel;
  }

  lemma {:induction false} CacheStays(born: Instant, polls: seq<Poll>, i: nat, j: nat)
    requires i <= j <= |polls|
    requires forall k :: i <= k < j ==> !StopsAt(born, polls, k) && !AsksAt(born, polls, k)
    ensures After(born, polls[..j]).cache == After(born, polls[..i]).cache
    decreases j
  {
    if i < j {
      CacheChangesOnly(born, polls, j - 1);
      CacheStays(born, polls, i, j - 1);
    }
  }

  lemma {:induction false} NextAsk(born: Instant, polls: seq<Poll>, i: nat, j: nat) returns (k: nat)
    requires i < j < |polls| && AsksAt(born, polls, j)
    ensures i < k <= j && AsksAt(born, polls, k) && forall m :: i < m < k ==> !AsksAt(born, polls, m)
    decreases j - i
  {
    if AsksAt(born, polls, i + 1) {
      k := i + 1;
    } else {
      k := NextAsk(born, polls, i + 1, j);
    }
  }

  /** An answer that names no model and no error while a model is cached. */
  ghost predicate IsBlank(c: ModelCache, r: Resolution) {
    r.model.None? && r.error.None? && c.model.Some?
  }

  /** A blank answer leaves the refresh clock as it was: once the model is due
      for a refresh within the retry time, it will be asked for again too soon. */
  ghost predicate IsDueAgain(c: ModelCache, r: Resolution, t: Instant) {
    && IsBlank(c, r)
    && (c.fetchedAt.None? || t - c.fetchedAt.value > MODEL_REFRESH_INTERVAL - MODEL_UNRESOLVED_RETRY)
  }

  /** Two asks with no stop in between: the later one waits out the retry time,
      and after an answer with a model and no error the refresh interval.  Only
      a blank answer to a model due for its refresh is not waited for. */
  lemma AsksAreSpaced(born: Instant, polls: seq<Poll>, i: nat, j: nat)
    requires ClockOrdered(born, polls) && i < j < |polls|
    requires AsksAt(born, polls, i) && AsksAt(born, polls, j)
    requires forall k :: i < k <= j ==> !StopsAt(born, polls, k)
    ensures !IsDueAgain(After(born, polls[..i]).cache, polls[i].answer, polls[i].answeredAt) ==>
      polls[j].askedAt - polls[i].answeredAt >= 30 * SECOND
    ensures polls[i].answer.model.Some? && polls[i].answer.error.None? ==>
      polls[j].askedAt - polls[i].answeredAt >= 600 * SECOND
  {
    var k := NextAsk(born, polls, i, j);
    CacheChangesOnly(born, polls, i);
    CacheStays(born, polls, i + 1, k);
    CacheChangesOnly(born, polls, k);
    hide After, AsksAt, StopsAt;
    assert polls[k].askedAt <= polls[j].askedAt;
  }

  /** Exactly when the next ask may come sooner than the retry time. */
  lemma SpacingFailsExactly(c: ModelCache, r: Resolution, t: Instant)
    ensures (exists now :: t <= now < t + MODEL_UNRESOLVED_RETRY && ShouldFetchModel(CacheModel(c, r, t), now))
      <==> IsDueAgain(c, r, t)
  {
    if IsDueAgain(c, r, t) {
      var now := if c.fetchedAt.None? || c.fetchedAt.value + MODEL_REFRESH_INTERVAL <= t then t
                 else c.fetchedAt.value + MODEL_REFRESH_INTERVAL;
      assert ShouldFetchModel(CacheModel(c, r, t), now);
    }
  }

  /** A run in which it happens: an engine that once named its model answers
      blank, as a router does, and is asked on every poll from then on. */
  lemma BlankAnswersAreAskedAgainAtOnce() returns (polls: seq<Poll>)
    ensures ClockOrdered(0, polls) && |polls| == 3
    ensures AsksAt(0, polls, 0) && AsksAt(0, polls, 1) && AsksAt(0, polls, 2)
    ensures polls[2].askedAt - polls[1].answeredAt == SECOND
  {
    var blank := Resolution(None, None);
    var t := MODEL_REFRESH_INTERVAL;
    polls := [
      Poll(Running, 0, 0, Resolution(Some("m"), None), 0),
      Poll(Running, t, t, blank, t),
      Poll(Running, t + SECOND, t + SECOND, blank, t + SECOND)];
    assert After(0, polls[..0]) == New(0);
    AfterStep(0, polls, 0);
    AfterStep(0, polls, 1);
    assert After(0, polls[..1]).cache == ModelCache(Some("m"), None, Some(0), Some(0));
    assert After(0, polls[..2]).cache == ModelCache(Some("m"), None, Some(0), Some(t));
  }

  // ---- Asking while the probes fail ----

  /** A failed probe does not keep the model from being asked for: exactly the
      first and the second failure in a row leave it to the cache's clocks. */
  lemma {:induction false} FailedProbeAsksExactly(born: Instant, polls: seq<Poll>, p: Poll)
    requires !Succeeds(p)
    ensures Asks(After(born, polls), p) <==>
      TrailingFailures(polls) < 2 && ShouldFetchModel(After(born, polls).cache, p.askedAt)
  {
    StoppedIsThreeFailures(born, polls);
    hide ShouldFetchModel;
  }

  /** So an engine that is still starting may be asked too early, and then not at
      its first success: its first probe fails, and so does the ask. */
  lemma FirstSuccessIsNotAsked() returns (polls: seq<Poll>)
    ensures ClockOrdered(0, polls) && |polls| == 2
    ensures !Succeeds(polls[0]) && polls[1].health == Running
    ensures AsksAt(0, polls, 0) && !AsksAt(0, polls, 1)
  {
    var refused := Resolution(None, Some(Unavailable));
    polls := [
      Poll(Error("refused"), 0, 0, refused, 0),
      Poll(Running, SECOND, SECOND, Resolution(Some("m"), None), SECOND)];
    assert After(0, polls[..0]) == New(0);
    AfterStep(0, polls, 0);
    assert After(0, polls[..1]).cache == ModelCache(None, Some(Unavailable), None, Some(0));
  }

  /** While an engine is stopped nothing is cached. */
  lemma {:induction false} StoppedHasNoModel(born: Instant, polls: seq<Poll>)
    requires TrailingFailures(polls) >= 3
    ensures After(born, polls).cache == NO_MODEL
  {
    var front := polls[..|polls| - 1];
    StoppedIsThreeFailures(born, front);
    if TrailingFailures(front) >= 3 {
      StoppedHasNoModel(born, front);
    }
  }

  /** After a stop, the first poll that finds the engine running asks at once. */
  lemma RestartIsAskedAtOnce(born: Instant, polls: seq<Poll>, p: Poll)
    requires TrailingFailures(polls) >= 3 && p.health == Running
    ensures Asks(After(born, polls), p)
  {
    StoppedHasNoModel(born, polls);
  }

  // ---- Exactly when the model is asked for ----

  /** An engine that is loading is never asked; one that runs is whenever its
      cache's clocks allow it, and a failing one only before it is stopped. */
  lemma AsksExactly(born: Instant, polls: seq<Poll>, p: Poll)
    ensures p.health == Loading ==> !Asks(After(born, polls), p)
    ensures p.health == Running ==> (Asks(After(born, polls), p) <==> ShouldFetchModel(After(born, polls).cache, p.askedAt))
    ensures p.health != Loading && p.health != Running ==>
      (Asks(After(born, polls), p) <==>
        TrailingFailures(polls) < 2 && ShouldFetchModel(After(born, polls).cache, p.askedAt))
  {
    if !Succeeds(p) {
      FailedProbeAsksExactly(born, polls, p);
    }
    hide ShouldFetchModel, After;
  }

  /** When the model is asked for next: an engine that still runs at poll `j` is
      asked there exactly when, since its last ask at poll `i`, 600 s have passed
      after a model without error, 30 s after an error or with no model known,
      and otherwise when its last model is 600 s old. */
  lemma AskedAgainExactly(born: Instant, polls: seq<Poll>, i: nat, j: nat)
    requires i < j < |polls| && AsksAt(born, polls, i) && polls[j].health == Running
    requires forall k :: i < k < j ==> !AsksAt(born, polls, k) && !StopsAt(born, polls, k)
    ensures var c, a, since := After(born, polls[..i]).cache, polls[i].answer, polls[j].askedAt - polls[i].answeredAt;
      && (a.error.Some? ==> (AsksAt(born, polls, j) <==> since >= 30 * SECOND))
      && (a.error.None? && a.model.Some? ==> (AsksAt(born, polls, j) <==> since >= 600 * SECOND))
      && (a.error.None? && a.model.None? && c.model.None? ==> (AsksAt(born, polls, j) <==> since >= 30 * SECOND))
      && (IsBlank(c, a) && c.fetchedAt.Some? ==>
           (AsksAt(born, polls, j) <==> polls[j].askedAt - c.fetchedAt.value >= 600 * SECOND))
  {
    CacheChangesOnly(born, polls, i);
    CacheStays(born, polls, i + 1, j);
    AsksExactly(born, polls[..j], polls[j]);
    hide After, Asks, StopsAt;
  }

  /** The engine was last seen at its last probe that succeeded, or when it was
      first found. */
  lemma {:induction false} LastSeenIs(born: Instant, polls: seq<Poll>)
    ensures var n := TrailingFailures(polls);
      After(born, polls).lastSeen == if n < |polls| then polls[|polls| - n - 1].probedAt else born
  {
    if polls != [] {
      LastSeenIs(born, polls[..|polls| - 1]);
    }
  }
}
