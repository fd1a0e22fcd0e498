/**
  The engine map and the two arms of the collector loop (src/engines/mod.rs,
  `engine_collector_loop`): detection adds engines and refreshes what it knows of
  them, polling probes every engine and drops those past their grace period.
*/
module Collector {
  import opened Basics
  import opened Engines
  import opened EngineState

  datatype Engine = Engine(vitals: Vitals, mode: DeploymentMode, pids: seq<nat>, containerId: Option<string>)

  /** A newly found container is adopted by an engine that had none. */
  function Adopted(e: Engine, containerId: Option<string>): Engine {
    if e.containerId.Some? || containerId.None? then e
    else e.(containerId := containerId, mode := Docker)
  }

  function Detected(e: Engine, d: DetectedEngine): Engine {
    Adopted(e.(pids := d.pids), d.containerId)
  }

  function Inserted(d: DetectedEngine, now: Instant): Engine {
    Engine(New(now), d.mode, [], d.containerId)
  }

  predicate Found(detected: seq<DetectedEngine>, key: Key) {
    exists i :: 0 <= i < |detected| && detected[i].Key() == key
  }

  type EngineMap = map<Key, Engine>

  function WithDetected(m: EngineMap, d: DetectedEngine, now: Instant): EngineMap {
    m[d.Key() := Detected(if d.Key() in m then m[d.Key()] else Inserted(d, now), d)]
  }

  function DetectAll(m: EngineMap, ds: seq<DetectedEngine>, now: Instant): EngineMap {
    if |ds| == 0 then m else WithDetected(DetectAll(m, ds[..|ds| - 1], now), ds[|ds| - 1], now)
  }

  function StalePidsCleared(m: EngineMap, detected: seq<DetectedEngine>): EngineMap {
    map key | key in m :: if Found(detected, key) then m[key] else m[key].(pids := [])
  }

  /** What a whole detection pass makes of the map: every engine found is in it
      with the PIDs of this pass, and every other engine stays with none; a
      container, once known, is kept, a first one makes the engine a Docker one,
      and what the polls left behind stays. */
  lemma {:induction false} DetectionPass(m: EngineMap, ds: seq<DetectedEngine>, now: Instant, key: Key)
    requires UniqueKeys(ds)
    ensures key in DetectAll(m, ds, now) <==> key in m || Found(ds, key)
    ensures !Found(ds, key) && key in m ==> DetectAll(m, ds, now)[key] == m[key]
    ensures forall i :: 0 <= i < |ds| && ds[i].Key() == key ==>
      var e := DetectAll(m, ds, now)[key];
      && e.pids == ds[i].pids
      && (if key in m && m[key].containerId.Some? then e.containerId == m[key].containerId && e.mode == m[key].mode
          else
            && e.containerId == ds[i].containerId
            && e.mode == if key !in m then ds[i].mode else if ds[i].containerId.Some? then Docker else m[key].mode)
      && e.vitals == if key in m then m[key].vitals else New(now)
  {
    if |ds| > 0 {
      DetectionPass(m, ds[..|ds| - 1], now, key);
      assert Found(ds, key) <==> Found(ds[..|ds| - 1], key) || ds[|ds| - 1].Key() == key by {
        assert ds == ds[..|ds| - 1] + [ds[|ds| - 1]];
      }
    }
  }

  /** What a detection tick makes of an engine that the pass has found. */
  ghost predicate IsRefreshed(m: EngineMap, d: DetectedEngine, now: Instant, e: Engine) {
    && e.pids == d.pids
    && e.vitals == (if d.Key() in m then m[d.Key()].vitals else New(now))
    && (d.Key() !in m ==> e.mode == d.mode && e.containerId == d.containerId)
    && (d.Key() in m && m[d.Key()].containerId.Some? ==>
         e.mode == m[d.Key()].mode && e.containerId == m[d.Key()].containerId)
    && (d.Key() in m && m[d.Key()].containerId.None? ==>
         && e.containerId == d.containerId
         && e.mode == if d.containerId.Some? then Docker else m[d.Key()].mode)
  }

  /** The map that a detection tick leaves: exactly the engines found have PIDs,
      those of this pass, and nothing else of the others has changed. */
  ghost predicate IsTick(m: EngineMap, ds: seq<DetectedEngine>, now: Instant, m': EngineMap) {
    && (forall key :: key in m' <==> key in m || exists d :: d in ds && d.Key() == key)
    && (forall d :: d in ds && d.Key() in m' ==> IsRefreshed(m, d, now, m'[d.Key()]))
    && (forall key :: key in m && key in m' && (forall d :: d in ds ==> d.Key() != key) ==>
         && m'[key].pids == [] && m'[key].vitals == m[key].vitals
         && m'[key].mode == m[key].mode && m'[key].containerId == m[key].containerId)
  }

  lemma FoundExactly(ds: seq<DetectedEngine>, key: Key)
    ensures Found(ds, key) <==> exists d :: d in ds && d.Key() == key
  {
    if d :| d in ds && d.Key() == key {
      var i :| 0 <= i < |ds| && ds[i] == d;
    }
    if Found(ds, key) {
      var i :| 0 <= i < |ds| && ds[i].Key() == key;
      assert ds[i] in ds;
    }
  }

  lemma DetectionIsTick(m: EngineMap, ds: seq<DetectedEngine>, now: Instant)
    requires UniqueKeys(ds)
    ensures IsTick(m, ds, now, StalePidsCleared(DetectAll(m, ds, now), ds))
  {
    hide DetectAll, Found;
    forall key ensures Found(ds, key) <==> exists d :: d in ds && d.Key() == key {
      FoundExactly(ds, key);
    }
    forall key
      ensures key in DetectAll(m, ds, now) <==> key in m || Found(ds, key)
      ensures !Found(ds, key) && key in m ==> DetectAll(m, ds, now)[key] == m[key]
    {
      DetectionPass(m, ds, now, key);
    }
    forall d | d in ds ensures d.Key() in DetectAll(m, ds, now) && IsRefreshed(m, d, now, DetectAll(m, ds, now)[d.Key()]) {
      var i :| 0 <= i < |ds| && ds[i] == d;
      DetectionPass(m, ds, now, d.Key());
    }
    hide IsRefreshed;
  }

  function PolledEngine(e: Engine, p: Poll): Engine {
    e.(vitals := Polled(e.vitals, p))
  }

  /** When an engine came into the map, and its polls since. */
  datatype Life = Life(born: Instant, polls: seq<Poll>)

  ghost predicate PastGrace(polls: seq<Poll>, now: Instant) {
    TrailingFailures(polls) >= 3 && now - ThirdFailure(polls) > 30 * SECOND
  }

  ghost predicate Lived(engines: EngineMap, lives: map<Key, Life>) {
    && engines.Keys == lives.Keys
    && forall key :: key in engines ==> engines[key].vitals == After(lives[key].born, lives[key].polls)
  }

  class Collector {
    var engines: EngineMap
    ghost var lives: map<Key, Life>

    ghost predicate Valid()
      reads this
    {
      Lived(engines, lives)
    }

    /** The map at startup: the engines configured by hand. */
    constructor (overrides: set<Key>, now: Instant)
      ensures Valid() && engines.Keys == overrides
      ensures forall key :: key in overrides ==> engines[key] == Engine(New(now), Native, [], None)
    {
      engines := map key | key in overrides :: Engine(New(now), Native, [], None);
      lives := map key | key in overrides :: Life(now, []);
    }

    method ClearStalePids(detected: seq<DetectedEngine>)
      modifies this`engines
      ensures engines == StalePidsCleared(old(engines), detected)
      ensures engines.Keys == old(engines).Keys
      ensures forall key :: key in engines ==>
        engines[key] == if exists d :: d in detected && d.Key() == key then old(engines)[key]
                        else old(engines)[key].(pids := [])
    {
      forall key ensures Found(detected, key) <==> exists d :: d in detected && d.Key() == key {
        FoundExactly(detected, key);
      }
      hide Found;
      var was, todo := engines, engines.Keys;
      while todo != {}
        invariant todo <= was.Keys
        invariant engines == map key | key in was ::
          if key in todo || Found(detected, key) then was[key] else was[key].(pids := [])
        decreases |todo|
      {
        var key :| key in todo;
        todo := todo - {key};
        if !Found(detected, key) {
          engines := engines[key := engines[key].(pids := [])];
        }
      }
    }

    method DetectionTick(detected: seq<DetectedEngine>, now: Instant)
      requires Valid() && UniqueKeys(detected)
      modifies this
      ensures Valid()
      ensures engines == StalePidsCleared(DetectAll(old(engines), detected, now), detected)
      ensures IsTick(old(engines), detected, now, engines)
      ensures lives == map key | key in engines :: if key in old(lives) then old(lives)[key] else Life(now, [])
    {
      hide IsTick, UniqueKeys, Found, Lived;
      ghost var was := engines;
      for i := 0 to |detected|
        invariant engines == DetectAll(was, detected[..i], now)
        modifies this`engines
      {
        var d := detected[i];
        var key := d.Key();
        assert detected[..i + 1][..i] == detected[..i];
        if key !in engines {
          engines := engines[key := Inserted(d, now)];
        }
        var state := engines[key].(pids := d.pids);
        if state.containerId.None? && d.containerId.Some? {
          state := state.(containerId := d.containerId, mode := Docker);
        }
        engines := engines[key := state];
      }
      assert detected[..|detected|] == detected;
      ClearStalePids(detected);
      lives := map key | key in engines :: if key in lives then lives[key] else Life(now, []);
      DetectionKeepsLives(was, old(lives), detected, now);
      DetectionIsTick(was, detected, now);
    }

    method PollAll(polls: map<Key, Poll>)
      requires polls.Keys == engines.Keys
      modifies this`engines
      ensures engines == AllPolled(old(engines), polls)
    {
      hide PolledEngine;
      var was, todo := engines, engines.Keys;
      while todo != {}
        invariant todo <= was.Keys
        invariant engines == map key | key in was :: if key in todo then was[key] else PolledEngine(was[key], polls[key])
        decreases |todo|
      {
        var key :| key in todo;
        todo := todo - {key};
        engines := engines[key := PolledEngine(engines[key], polls[key])];
      }
    }

    /** A poll tick: every engine is polled, and leaves the map exactly when its
        probes have failed three times or more in a row up to now and more than
        the grace period has passed since the third failure. */
    method PollTick(polls: map<Key, Poll>, sweptAt: Instant)
      requires Valid() && polls.Keys == engines.Keys
      modifies this
      ensures Valid()
      ensures engines == Swept(AllPolled(old(engines), polls), sweptAt)
      ensures engines.Keys ==
        set key | key in old(engines) && !PastGrace(old(lives)[key].polls + [polls[key]], sweptAt)
      ensures lives == map key | key in engines :: Lengthened(old(lives)[key], polls[key])
      ensures forall key :: key in engines ==> engines[key] == old(engines)[key].(vitals := engines[key].vitals)
    {
      hide Swept, AllPolled, PastGrace, Lengthened, Lived;
      ghost var was, lived := engines, lives;
      assert was.Keys == lived.Keys by {
        LivedKeys(was, lived);
      }
      PollAll(polls);
      engines := Swept(engines, sweptAt);
      lives := map key | key in engines :: Lengthened(lives[key], polls[key]);
      SweepIsExact(was, lived, polls, sweptAt);
      SweptKeepsRest(was, polls, sweptAt);
    }
  }

  function AllPolled(m: EngineMap, polls: map<Key, Poll>): (r: EngineMap)
    requires m.Keys == polls.Keys
    ensures r.Keys == m.Keys
  {
    map key | key in m :: PolledEngine(m[key], polls[key])
  }

  function Lengthened(life: Life, p: Poll): Life {
    life.(polls := life.polls + [p])
  }

  lemma PollsLengthenLives(m: EngineMap, lives: map<Key, Life>, polls: map<Key, Poll>, now: Instant)
    requires Lived(m, lives) && polls.Keys == m.Keys
    ensures forall key :: key in m ==>
      var e, life := AllPolled(m, polls)[key], Lengthened(lives[key], polls[key]);
      && e.vitals == After(life.born, life.polls)
      && (ShouldRemove(e.vitals, now) <==> PastGrace(lives[key].polls + [polls[key]], now))
  {
    forall key | key in m
      ensures var e, life := AllPolled(m, polls)[key], Lengthened(lives[key], polls[key]);
        && e.vitals == After(life.born, life.polls)
        && (ShouldRemove(e.vitals, now) <==> PastGrace(lives[key].polls + [polls[key]], now))
    {
      PollLengthensLife(lives[key], polls[key], now);
      hide After, ShouldRemove, PastGrace, Polled;
    }
  }

  lemma LivedKeys(m: EngineMap, lives: map<Key, Life>)
    requires Lived(m, lives)
    ensures m.Keys == lives.Keys
  {
  }

  function Swept(m: EngineMap, now: Instant): (r: EngineMap)
    ensures r.Keys <= m.Keys
  {
    map key | key in m && !ShouldRemove(m[key].vitals, now) :: m[key]
  }

  lemma SweepIsExact(m: EngineMap, lives: map<Key, Life>, polls: map<Key, Poll>, now: Instant)
    requires Lived(m, lives) && polls.Keys == m.Keys
    ensures var m' := Swept(AllPolled(m, polls), now);
      && m'.Keys == (set key | key in m && !PastGrace(lives[key].polls + [polls[key]], now))
      && Lived(m', map key | key in m' :: Lengthened(lives[key], polls[key]))
  {
    hide ShouldRemove, PastGrace, After, AllPolled, Lengthened;
    PollsLengthenLives(m, lives, polls, now);
  }

  /** A poll tick changes nothing of an engine but what the polls leave behind. */
  lemma SweptKeepsRest(m: EngineMap, polls: map<Key, Poll>, now: Instant)
    requires polls.Keys == m.Keys
    ensures var m' := Swept(AllPolled(m, polls), now);
      forall key :: key in m' ==> key in m && m'[key] == m[key].(vitals := m'[key].vitals)
  {
    hide ShouldRemove;
  }

  lemma PollLengthensLife(life: Life, p: Poll, now: Instant)
    ensures After(life.born, life.polls + [p]) == Polled(After(life.born, life.polls), p)
    ensures ShouldRemove(After(life.born, life.polls + [p]), now) <==> PastGrace(life.polls + [p], now)
  {
    assert (life.polls + [p])[..|life.polls|] == life.polls;
    RemovedExactly(life.born, life.polls + [p], now);
  }

  lemma DetectionKeepsLives(m: EngineMap, lives: map<Key, Life>, ds: seq<DetectedEngine>, now: Instant)
    requires Lived(m, lives) && UniqueKeys(ds)
    ensures var m' := StalePidsCleared(DetectAll(m, ds, now), ds);
      Lived(m', map key | key in m' :: if key in lives then lives[key] else Life(now, []))
  {
    forall key
      ensures key in DetectAll(m, ds, now) <==> key in m || Found(ds, key)
      ensures key in DetectAll(m, ds, now) ==>
        DetectAll(m, ds, now)[key].vitals == if key in m then m[key].vitals else New(now)
    {
      DetectionPass(m, ds, now, key);
    }
  }
}
