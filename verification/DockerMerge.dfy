/**
  Joining what the detection layers found (src/engines/detector.rs): containers
  claim their processes, candidates on one endpoint become one engine, and the
  probe settles which endpoint that is.
*/
module DockerMerge {
  import opened Basics
  import opened Engines
  import opened PidTree

  // ---- Joining on an endpoint ----

  function FindKey(cs: seq<DetectedEngine>, key: Key, i: nat): (r: Option<nat>)
    requires i <= |cs|
    ensures r.Some? ==> i <= r.value < |cs| && cs[r.value].Key() == key
    ensures r.None? ==> forall j :: i <= j < |cs| ==> cs[j].Key() != key
    decreases |cs| - i
  {
    if i == |cs| then None else if cs[i].Key() == key then Some(i) else FindKey(cs, key, i + 1)
  }

  /** `xs` and, in order, what `ys` adds to it. */
  function United(xs: seq<nat>, ys: seq<nat>): (r: seq<nat>)
    ensures forall v :: v in r <==> v in xs || v in ys
    ensures NoDuplicates(xs) ==> NoDuplicates(r)
  {
    if |ys| == 0 then xs
    else
      var r := United(xs, ys[..|ys| - 1]);
      assert forall v :: v in ys <==> v in ys[..|ys| - 1] || v == ys[|ys| - 1];
      if ys[|ys| - 1] in r then r else r + [ys[|ys| - 1]]
  }

  /** `xs` and what `ys` adds to it, save `endpoint` itself. */
  function UnitedFallbacks(xs: seq<string>, ys: seq<string>, endpoint: string): (r: seq<string>)
    ensures forall v :: v in r <==> v in xs || (v in ys && v != endpoint)
  {
    if |ys| == 0 then xs
    else
      var r, y := UnitedFallbacks(xs, ys[..|ys| - 1], endpoint), ys[|ys| - 1];
      assert forall v :: v in ys <==> v in ys[..|ys| - 1] || v == y;
      if y == endpoint || y in r then r else r + [y]
  }

  predicate ContainerNamesModel(c: DetectedEngine) {
    c.mode.Docker? && c.servedModel.Some?
  }

  function JoinInto(existing: DetectedEngine, c: DetectedEngine): DetectedEngine {
    existing.(
      servedModel := if ContainerNamesModel(c) || existing.servedModel.None? then c.servedModel else existing.servedModel,
      mode := if c.mode.Docker? then Docker else existing.mode,
      pids := SortPids(United(existing.pids, c.pids)),
      containerId := if existing.containerId.None? then c.containerId else existing.containerId,
      fallbacks := UnitedFallbacks(existing.fallbacks, c.fallbacks, existing.endpoint))
  }

  function Join(cs: seq<DetectedEngine>, c: DetectedEngine): seq<DetectedEngine> {
    match FindKey(cs, c.Key(), 0)
    case Some(i) => cs[i := JoinInto(cs[i], c)]
    case None => cs + [c]
  }

  method UnitePids(xs: seq<nat>, ys: seq<nat>) returns (r: seq<nat>)
    ensures r == United(xs, ys)
  {
    r := xs;
    for i := 0 to |ys|
      invariant r == United(xs, ys[..i])
    {
      assert ys[..i + 1][..i] == ys[..i];
      if ys[i] !in r {
        r := r + [ys[i]];
      }
    }
    assert ys[..|ys|] == ys;
  }

  method UniteFallbacks(xs: seq<string>, ys: seq<string>, endpoint: string) returns (r: seq<string>)
    ensures r == UnitedFallbacks(xs, ys, endpoint)
  {
    r := xs;
    for i := 0 to |ys|
      invariant r == UnitedFallbacks(xs, ys[..i], endpoint)
    {
      assert ys[..i + 1][..i] == ys[..i];
      if ys[i] != endpoint && ys[i] !in r {
        r := r + [ys[i]];
      }
    }
    assert ys[..|ys|] == ys;
  }

  method JoinOnEndpoint(candidates: seq<DetectedEngine>, candidate: DetectedEngine)
    returns (joined: seq<DetectedEngine>)
    ensures joined == Join(candidates, candidate)
  {
    hide SortPids, United, UnitedFallbacks;
    match FindKey(candidates, candidate.Key(), 0) {
      case None =>
        return candidates + [candidate];
      case Some(at) =>
        var existing := candidates[at];
        if ContainerNamesModel(candidate) || existing.servedModel.None? {
          existing := existing.(servedModel := candidate.servedModel);
        }
        if candidate.mode == Docker {
          existing := existing.(mode := Docker);
        }
        var pids := UnitePids(existing.pids, candidate.pids);
        existing := existing.(pids := SortPids(pids));
        if existing.containerId.None? {
          existing := existing.(containerId := candidate.containerId);
        }
        var fallbacks := UniteFallbacks(existing.fallbacks, candidate.fallbacks, existing.endpoint);
        existing := existing.(fallbacks := fallbacks);
        joined := candidates[at := existing];
    }
  }

  /** All of `ds` joined into `cs`, one after the other. */
  function JoinAll(cs: seq<DetectedEngine>, ds: seq<DetectedEngine>): seq<DetectedEngine> {
    if |ds| == 0 then cs else Join(JoinAll(cs, ds[..|ds| - 1]), ds[|ds| - 1])
  }

  // ---- What a list of candidates says of a PID and of a key ----

  ghost predicate Holds(cs: seq<DetectedEngine>, key: Key, pid: nat) {
    exists c :: c in cs && c.Key() == key && pid in c.pids
  }

  ghost predicate HasKey(cs: seq<DetectedEngine>, key: Key) {
    exists c :: c in cs && c.Key() == key
  }

  ghost predicate HasDocker(cs: seq<DetectedEngine>, key: Key) {
    exists c :: c in cs && c.Key() == key && c.mode.Docker?
  }

  ghost predicate Listed(cs: seq<DetectedEngine>, pid: nat) {
    exists c :: c in cs && pid in c.pids
  }

  predicate IsPlaceOf(c: DetectedEngine, endpoint: string) {
    endpoint == c.endpoint || endpoint in c.fallbacks
  }

  /** `endpoint` is a place to probe for the engine under `key`. */
  ghost predicate Offers(cs: seq<DetectedEngine>, key: Key, endpoint: string) {
    exists c :: c in cs && c.Key() == key && IsPlaceOf(c, endpoint)
  }

  lemma JoinedPlaces(existing: DetectedEngine, c: DetectedEngine, endpoint: string)
    requires existing.Key() == c.Key()
    ensures IsPlaceOf(JoinInto(existing, c), endpoint) <==> IsPlaceOf(existing, endpoint) || IsPlaceOf(c, endpoint)
  {
    hide SortPids, United;
  }

  /** A join loses no place to probe and makes up none. */
  lemma JoinKeepsPlaces(cs: seq<DetectedEngine>, c: DetectedEngine, key: Key, endpoint: string)
    requires UniqueKeys(cs)
    ensures Offers(Join(cs, c), key, endpoint) <==>
      Offers(cs, key, endpoint) || (c.Key() == key && IsPlaceOf(c, endpoint))
  {
    hide JoinInto, IsPlaceOf;
    var j := Join(cs, c);
    match FindKey(cs, c.Key(), 0) {
      case None =>
        assert forall x :: x in j <==> x in cs || x == c;
      case Some(i) =>
        JoinedPlaces(cs[i], c, endpoint);
        JoinedKey(cs[i], c);
        assert j[i] in j && cs[i] in cs;
        forall x | x in cs && x != cs[i] ensures x in j && x.Key() != c.Key() {
          var k :| 0 <= k < |cs| && cs[k] == x;
          assert j[k] == x;
        }
        assert forall x :: x in j ==> x == j[i] || x in cs;
        forall x | x in j && x != j[i] ensures x in cs && x.Key() != c.Key() {
          var k :| 0 <= k < |j| && j[k] == x;
          assert cs[k] == x;
        }
    }
  }

  lemma JoinedKey(existing: DetectedEngine, c: DetectedEngine)
    ensures JoinInto(existing, c).Key() == existing.Key()
  {
  }

  /** A join keeps one candidate a key, and unites what was held. */
  lemma JoinUnites(cs: seq<DetectedEngine>, c: DetectedEngine)
    requires UniqueKeys(cs)
    ensures UniqueKeys(Join(cs, c))
    ensures forall key :: HasKey(Join(cs, c), key) <==> HasKey(cs, key) || c.Key() == key
    ensures forall key :: HasDocker(Join(cs, c), key) <==> HasDocker(cs, key) || (c.Key() == key && c.mode.Docker?)
    ensures forall key, pid :: Holds(Join(cs, c), key, pid) <==> Holds(cs, key, pid) || (c.Key() == key && pid in c.pids)
    ensures forall key, endpoint :: Offers(Join(cs, c), key, endpoint) <==>
      Offers(cs, key, endpoint) || (c.Key() == key && IsPlaceOf(c, endpoint))
  {
    hide SortPids, United, UnitedFallbacks, Offers, IsPlaceOf;
    forall key, endpoint
      ensures Offers(Join(cs, c), key, endpoint) <==>
        Offers(cs, key, endpoint) || (c.Key() == key && IsPlaceOf(c, endpoint))
    {
      JoinKeepsPlaces(cs, c, key, endpoint);
    }
    var j := Join(cs, c);
    match FindKey(cs, c.Key(), 0) {
      case None =>
        assert forall x :: x in j <==> x in cs || x == c;
      case Some(i) =>
        assert j[i].Key() == c.Key();
        forall x | x in cs && x != cs[i] ensures x in j {
          var k :| 0 <= k < |cs| && cs[k] == x;
          assert j[k] == x;
        }
        assert forall x :: x in j ==> x == j[i] || x in cs;
        assert forall pid :: pid in j[i].pids <==> pid in cs[i].pids || pid in c.pids;
        forall x | x in j && x.Key() == c.Key() ensures x == j[i] {
          var k :| 0 <= k < |j| && j[k] == x;
        }
        forall x | x in cs && x.Key() == c.Key() ensures x == cs[i] {
          var k :| 0 <= k < |cs| && cs[k] == x;
        }
        assert j[i] in j;
    }
  }

  lemma {:induction false} JoinAllUnites(cs: seq<DetectedEngine>, ds: seq<DetectedEngine>)
    requires UniqueKeys(cs)
    ensures UniqueKeys(JoinAll(cs, ds))
    ensures forall key :: HasKey(JoinAll(cs, ds), key) <==> HasKey(cs, key) || HasKey(ds, key)
    ensures forall key :: HasDocker(JoinAll(cs, ds), key) <==> HasDocker(cs, key) || HasDocker(ds, key)
    ensures forall key, pid :: Holds(JoinAll(cs, ds), key, pid) <==> Holds(cs, key, pid) || Holds(ds, key, pid)
  {
    if |ds| > 0 {
      var front, d := ds[..|ds| - 1], ds[|ds| - 1];
      assert forall x :: x in ds <==> x in front || x == d;
      JoinAllUnites(cs, front);
      JoinUnites(JoinAll(cs, front), d);
      hide Join, UniqueKeys;
    }
  }

  // ---- Containers claim their processes ----

  predicate Touches(pids: seq<nat>, claimed: seq<nat>) {
    exists i :: 0 <= i < |pids| && pids[i] in claimed
  }

  /** `pids` less those claimed. */
  function Unclaimed(pids: seq<nat>, claimed: seq<nat>): (r: seq<nat>)
    ensures forall v :: v in r <==> v in pids && v !in claimed
  {
    if |pids| == 0 then []
    else if pids[0] in claimed then Unclaimed(pids[1..], claimed)
    else [pids[0]] + Unclaimed(pids[1..], claimed)
  }

  /** What is left of `cs` once `container` has claimed its processes, and the
      container with the model it took over, if any. */
  function Absorbed(cs: seq<DetectedEngine>, container: DetectedEngine): (r: (seq<DetectedEngine>, DetectedEngine))
    ensures r.1 == container.(servedModel := r.1.servedModel)
    ensures container.servedModel.Some? ==> r.1 == container
  {
    if |cs| == 0 then ([], container)
    else
      var (kept, after) := Absorbed(cs[..|cs| - 1], container);
      var c := cs[|cs| - 1];
      if !Touches(c.pids, container.pids) then (kept + [c], after)
      else
        var left := Unclaimed(c.pids, container.pids);
        if |left| > 0 then (kept + [c.(pids := left)], after)
        else if after.servedModel.None? && c.engineType == after.engineType then
          (kept, after.(servedModel := c.servedModel))
        else (kept, after)
  }

  method AbsorbContainerProcesses(candidates: seq<DetectedEngine>, container: DetectedEngine)
    returns (kept: seq<DetectedEngine>, after: DetectedEngine)
    ensures (kept, after) == Absorbed(candidates, container)
  {
    kept, after := [], container;
    for i := 0 to |candidates|
      invariant (kept, after) == Absorbed(candidates[..i], container)
    {
      var c := candidates[i];
      assert candidates[..i + 1][..i] == candidates[..i];
      if !Touches(c.pids, after.pids) {
        kept := kept + [c];
      } else {
        var left := Unclaimed(c.pids, after.pids);
        if |left| > 0 {
          kept := kept + [c.(pids := left)];
        } else if after.servedModel.None? && c.engineType == after.engineType {
          after := after.(servedModel := c.servedModel);
        }
      }
    }
    assert candidates[..|candidates|] == candidates;
  }

  /** The model of the first candidate that `container` claims whole and that
      names one, among those of its engine type. */
  ghost function FirstClaimedModel(cs: seq<DetectedEngine>, container: DetectedEngine): Option<string> {
    if |cs| == 0 then None
    else if ClaimedWhole(cs[0], container) && cs[0].servedModel.Some? then cs[0].servedModel
    else FirstClaimedModel(cs[1..], container)
  }

  ghost predicate ClaimedWhole(c: DetectedEngine, container: DetectedEngine) {
    && c.engineType == container.engineType
    && |c.pids| > 0 && forall v :: v in c.pids ==> v in container.pids
  }

  lemma {:induction false} FirstClaimedAppend(cs: seq<DetectedEngine>, c: DetectedEngine, container: DetectedEngine)
    ensures FirstClaimedModel(cs + [c], container) ==
      if FirstClaimedModel(cs, container).Some? then FirstClaimedModel(cs, container)
      else if ClaimedWhole(c, container) then c.servedModel else None
  {
    if |cs| == 0 {
      assert cs + [c] == [c];
    } else {
      assert (cs + [c])[1..] == cs[1..] + [c];
      FirstClaimedAppend(cs[1..], c, container);
    }
  }

  lemma ClaimsWhole(c: DetectedEngine, container: DetectedEngine)
    ensures Touches(c.pids, container.pids) && |Unclaimed(c.pids, container.pids)| == 0 <==>
      |c.pids| > 0 && forall v :: v in c.pids ==> v in container.pids
  {
    var left := Unclaimed(c.pids, container.pids);
    if |left| > 0 {
      assert left[0] in left;
    } else if |c.pids| > 0 {
      assert c.pids[0] in container.pids <==> c.pids[0] !in left;
    }
  }

  /** A container that names no model takes over that of the first candidate of
      its type that it claims whole; one that does keeps its own. */
  lemma {:induction false} ModelIsTakenOver(cs: seq<DetectedEngine>, container: DetectedEngine)
    ensures Absorbed(cs, container).1.servedModel ==
      if container.servedModel.Some? then container.servedModel else FirstClaimedModel(cs, container)
  {
    if |cs| > 0 {
      var front, c := cs[..|cs| - 1], cs[|cs| - 1];
      assert cs == front + [c];
      ModelIsTakenOver(front, container);
      FirstClaimedAppend(front, c, container);
      ClaimsWhole(c, container);
      hide Touches, Unclaimed, FirstClaimedModel;
    }
  }

  /** What one candidate keeps. */
  ghost predicate KeptFrom(k: DetectedEngine, c: DetectedEngine, claimed: seq<nat>) {
    k == c.(pids := k.pids) && (forall v :: v in k.pids <==> v in c.pids && v !in claimed)
    && (k.pids == [] ==> c.pids == [])
  }

  lemma {:induction false} AbsorbKeeps(cs: seq<DetectedEngine>, container: DetectedEngine)
    ensures var kept := Absorbed(cs, container).0;
      && (forall k :: k in kept ==> exists c :: c in cs && KeptFrom(k, c, container.pids))
      && (forall c :: c in cs && (exists v :: v in c.pids && v !in container.pids) ==>
           exists k :: k in kept && KeptFrom(k, c, container.pids))
  {
    if |cs| > 0 {
      var front, c := cs[..|cs| - 1], cs[|cs| - 1];
      assert forall x :: x in cs <==> x in front || x == c;
      AbsorbKeeps(front, container);
      var kept := Absorbed(cs, container).0;
      var before := Absorbed(front, container).0;
      assert forall k :: k in before ==> k in kept;
      if !Touches(c.pids, container.pids) {
        assert KeptFrom(c, c, container.pids) && c in kept by {
          assert kept[|kept| - 1] == c;
          assert forall v :: v in c.pids ==> v !in container.pids;
        }
      } else if |Unclaimed(c.pids, container.pids)| > 0 {
        assert kept[|kept| - 1] == c.(pids := Unclaimed(c.pids, container.pids));
        assert KeptFrom(kept[|kept| - 1], c, container.pids);
      } else {
        assert forall v :: v in c.pids ==> v !in Unclaimed(c.pids, container.pids);
      }
    }
  }

  lemma {:induction false} AbsorbKeepsUnique(cs: seq<DetectedEngine>, container: DetectedEngine)
    requires UniqueKeys(cs)
    ensures UniqueKeys(Absorbed(cs, container).0)
  {
    if |cs| > 0 {
      var front, c := cs[..|cs| - 1], cs[|cs| - 1];
      AbsorbKeepsUnique(front, container);
      AbsorbKeeps(front, container);
      var before := Absorbed(front, container).0;
      forall i | 0 <= i < |before| ensures before[i].Key() != c.Key() {
        assert before[i] in before;
        var x :| x in front && KeptFrom(before[i], x, container.pids);
        var j :| 0 <= j < |front| && front[j] == x;
        assert cs[j] == x;
      }
    }
  }

  lemma AbsorbHolds(cs: seq<DetectedEngine>, container: DetectedEngine)
    ensures forall key, pid :: Holds(Absorbed(cs, container).0, key, pid) <==> Holds(cs, key, pid) && pid !in container.pids
  {
    AbsorbKeeps(cs, container);
    hide Absorbed;
  }

  // ---- The merge ----

  /** `cs` after each of `ds` has claimed its processes, and `ds` with the
      models they took over. */
  function AbsorbedAll(cs: seq<DetectedEngine>, ds: seq<DetectedEngine>): (r: (seq<DetectedEngine>, seq<DetectedEngine>))
    ensures |r.1| == |ds|
    ensures forall i :: 0 <= i < |ds| ==> r.1[i] == ds[i].(servedModel := r.1[i].servedModel)
    ensures forall i :: 0 <= i < |ds| && ds[i].servedModel.Some? ==> r.1[i] == ds[i]
  {
    if |ds| == 0 then (cs, [])
    else
      var (kept, after) := AbsorbedAll(cs, ds[..|ds| - 1]);
      var (kept', d) := Absorbed(kept, ds[|ds| - 1]);
      (kept', after + [d])
  }

  function Merged(cs: seq<DetectedEngine>, ds: seq<DetectedEngine>): seq<DetectedEngine> {
    var (kept, after) := AbsorbedAll(cs, ds);
    JoinAll(kept, after)
  }

  method MergeDockerCandidates(candidates: seq<DetectedEngine>, dockerCandidates: seq<DetectedEngine>)
    returns (merged: seq<DetectedEngine>)
    ensures merged == Merged(candidates, dockerCandidates)
  {
    var kept, containers := candidates, [];
    for i := 0 to |dockerCandidates|
      invariant (kept, containers) == AbsorbedAll(candidates, dockerCandidates[..i])
    {
      assert dockerCandidates[..i + 1][..i] == dockerCandidates[..i];
      var after;
      kept, after := AbsorbContainerProcesses(kept, dockerCandidates[i]);
      containers := containers + [after];
    }
    assert dockerCandidates[..|dockerCandidates|] == dockerCandidates;
    merged := kept;
    for i := 0 to |containers|
      invariant merged == JoinAll(kept, containers[..i])
    {
      assert containers[..i + 1][..i] == containers[..i];
      merged := JoinOnEndpoint(merged, containers[i]);
    }
    assert containers[..|containers|] == containers;
  }

  lemma {:induction false} AbsorbAllHolds(cs: seq<DetectedEngine>, ds: seq<DetectedEngine>)
    requires UniqueKeys(cs)
    ensures UniqueKeys(AbsorbedAll(cs, ds).0)
    ensures forall key, pid ::
      Holds(AbsorbedAll(cs, ds).0, key, pid) <==> Holds(cs, key, pid) && !Listed(ds, pid)
  {
    if |ds| > 0 {
      var front, d := ds[..|ds| - 1], ds[|ds| - 1];
      assert forall x :: x in ds <==> x in front || x == d;
      AbsorbAllHolds(cs, front);
      var kept := AbsorbedAll(cs, front).0;
      AbsorbHolds(kept, d);
      AbsorbKeepsUnique(kept, d);
      hide Holds, Absorbed, UniqueKeys;
    }
  }

  lemma AfterHolds(cs: seq<DetectedEngine>, ds: seq<DetectedEngine>)
    ensures forall key, pid :: Holds(AbsorbedAll(cs, ds).1, key, pid) <==> Holds(ds, key, pid)
    ensures forall key :: HasKey(AbsorbedAll(cs, ds).1, key) <==> HasKey(ds, key)
    ensures forall key :: HasDocker(AbsorbedAll(cs, ds).1, key) <==> HasDocker(ds, key)
  {
    var after := AbsorbedAll(cs, ds).1;
    forall i | 0 <= i < |ds|
      ensures after[i].Key() == ds[i].Key() && after[i].mode == ds[i].mode && after[i].pids == ds[i].pids
      ensures after[i] in after && ds[i] in ds
    {
    }
  }

  ghost predicate DisjointPids(ds: seq<DetectedEngine>) {
    forall i, j :: 0 <= i < j < |ds| ==> forall pid :: pid in ds[i].pids ==> pid !in ds[j].pids
  }

  /** The merge keeps one candidate a key and loses no process; a container's
      process is under the container's key and no other, and a process of no
      container under the very keys it was under. */
  lemma MergeConserves(cs: seq<DetectedEngine>, ds: seq<DetectedEngine>)
    requires UniqueKeys(cs)
    ensures UniqueKeys(Merged(cs, ds))
    ensures forall key, pid :: Holds(Merged(cs, ds), key, pid) <==>
      if Listed(ds, pid) then Holds(ds, key, pid) else Holds(cs, key, pid)
    ensures forall pid :: Listed(Merged(cs, ds), pid) <==> Listed(cs, pid) || Listed(ds, pid)
    ensures forall key :: HasDocker(ds, key) ==> HasDocker(Merged(cs, ds), key)
  {
    var (kept, after) := AbsorbedAll(cs, ds);
    AbsorbAllHolds(cs, ds);
    AfterHolds(cs, ds);
    JoinAllUnites(kept, after);
    hide AbsorbedAll, JoinAll;
    forall x: seq<DetectedEngine>, pid ensures Listed(x, pid) <==> exists key :: Holds(x, key, pid) {
      ListedIsHeld(x, pid);
    }
    hide Holds, UniqueKeys;
  }

  lemma ListedIsHeld(cs: seq<DetectedEngine>, pid: nat)
    ensures Listed(cs, pid) <==> exists key :: Holds(cs, key, pid)
  {
    if Listed(cs, pid) {
      var c :| c in cs && pid in c.pids;
      assert Holds(cs, c.Key(), pid);
    }
  }

  /** With containers that share no process, every container process is in
      exactly one engine, which is the container's and runs in Docker. */
  lemma ContainerProcessIsDocker(cs: seq<DetectedEngine>, ds: seq<DetectedEngine>, d: DetectedEngine, pid: nat)
    returns (at: nat)
    requires UniqueKeys(cs) && DisjointPids(ds)
    requires d in ds && d.mode.Docker? && pid in d.pids
    ensures at < |Merged(cs, ds)|
    ensures var m := Merged(cs, ds);
      && m[at].Key() == d.Key() && m[at].mode.Docker? && pid in m[at].pids
      && forall i :: 0 <= i < |m| && pid in m[i].pids ==> i == at
  {
    var m := Merged(cs, ds);
    MergeConserves(cs, ds);
    hide Merged;
    assert Holds(ds, d.Key(), pid) && Listed(ds, pid) && HasDocker(ds, d.Key());
    at := KeyAt(m, d.Key(), pid);
    forall i | 0 <= i < |m| && pid in m[i].pids ensures i == at {
      assert m[i] in m && Holds(m, m[i].Key(), pid) && Holds(ds, m[i].Key(), pid);
      SoleContainer(ds, d, m[i].Key(), pid);
    }
  }

  lemma KeyAt(m: seq<DetectedEngine>, key: Key, pid: nat) returns (at: nat)
    requires UniqueKeys(m) && Holds(m, key, pid) && HasDocker(m, key)
    ensures at < |m| && m[at].Key() == key && m[at].mode.Docker? && pid in m[at].pids
  {
    var c :| c in m && c.Key() == key && pid in c.pids;
    at :| 0 <= at < |m| && m[at] == c;
    var e :| e in m && e.Key() == key && e.mode.Docker?;
    assert e == c;
  }

  lemma SoleContainer(ds: seq<DetectedEngine>, d: DetectedEngine, key: Key, pid: nat)
    requires DisjointPids(ds) && d in ds && pid in d.pids && Holds(ds, key, pid)
    ensures key == d.Key()
  {
    var x :| x in ds && x.Key() == key && pid in x.pids;
    assert x == d;
  }

  lemma {:induction false} NativesAreUntouched(cs: seq<DetectedEngine>, ds: seq<DetectedEngine>, e: DetectedEngine)
    requires forall d :: d in ds ==> d.mode.Docker?
    requires e in JoinAll(cs, ds) && e.mode.Native?
    ensures e in cs
  {
    if |ds| > 0 {
      assert ds[|ds| - 1] in ds;
      hide SortPids, United, UnitedFallbacks;
      NativesAreUntouched(cs, ds[..|ds| - 1], e);
    }
  }

  lemma {:induction false} AbsorbedAllKeeps(cs: seq<DetectedEngine>, ds: seq<DetectedEngine>, k: DetectedEngine)
    returns (c: DetectedEngine)
    requires k in AbsorbedAll(cs, ds).0
    ensures c in cs && k == c.(pids := k.pids) && (k.pids == [] ==> c.pids == [])
    ensures forall v :: v in k.pids <==> v in c.pids && !Listed(ds, v)
  {
    if |ds| == 0 {
      c := k;
    } else {
      var front, d := ds[..|ds| - 1], ds[|ds| - 1];
      assert forall x :: x in ds <==> x in front || x == d;
      var before := AbsorbedAll(cs, front).0;
      AbsorbKeeps(before, d);
      var x :| x in before && KeptFrom(k, x, d.pids);
      hide Absorbed;
      c := AbsorbedAllKeeps(cs, front, x);
    }
  }

  /** No container's engine has a native twin: an engine still native after the
      merge is a host candidate with just its processes that no container
      claimed, and has some unless it never had any. */
  lemma NativesAreNoContainers(cs: seq<DetectedEngine>, ds: seq<DetectedEngine>, e: DetectedEngine)
    returns (c: DetectedEngine)
    requires forall d :: d in ds ==> d.mode.Docker?
    requires e in Merged(cs, ds) && e.mode.Native?
    ensures c in cs && e == c.(pids := e.pids) && (e.pids == [] ==> c.pids == [])
    ensures forall v :: v in e.pids <==> v in c.pids && !Listed(ds, v)
  {
    var (kept, after) := AbsorbedAll(cs, ds);
    forall d | d in after ensures d.mode.Docker? {
      var i :| 0 <= i < |after| && after[i] == d;
      assert ds[i] in ds;
    }
    NativesAreUntouched(kept, after, e);
    c := AbsorbedAllKeeps(cs, ds, e);
  }

  // ---- Order ----

  /** A join keeps the candidates in their places, and puts a new one last. */
  lemma JoinKeepsOrder(cs: seq<DetectedEngine>, c: DetectedEngine)
    ensures var j := Join(cs, c);
      && |cs| <= |j| && (forall i :: 0 <= i < |cs| ==> j[i].Key() == cs[i].Key())
      && (forall i :: 0 <= i < |cs| && cs[i].Key() != c.Key() ==> j[i] == cs[i])
      && |j| == |cs| + (if HasKey(cs, c.Key()) then 0 else 1)
      && (!HasKey(cs, c.Key()) ==> j[|cs|] == c)
  {
    hide SortPids, United, UnitedFallbacks;
    var found := FindKey(cs, c.Key(), 0);
    assert found.Some? ==> cs[found.value] in cs;
    if found.Some? {
      FirstOfKey(cs, c.Key(), found.value);
    }
  }

  lemma FirstOfKey(cs: seq<DetectedEngine>, key: Key, i: nat)
    requires i < |cs| && cs[i].Key() == key
    ensures HasKey(cs, key)
  {
    assert cs[i] in cs;
  }

  /** Fallbacks are probed in the order they were found. */
  lemma {:induction false} FallbacksKeepOrder(xs: seq<string>, ys: seq<string>, endpoint: string)
    ensures var r := UnitedFallbacks(xs, ys, endpoint);
      && xs <= r
      && forall i, j :: |xs| <= i < j < |r| ==> exists a, b :: 0 <= a < b < |ys| && ys[a] == r[i] && ys[b] == r[j]
  {
    if ys != [] {
      var front, y := ys[..|ys| - 1], ys[|ys| - 1];
      FallbacksKeepOrder(xs, front, endpoint);
      var before, r := UnitedFallbacks(xs, front, endpoint), UnitedFallbacks(xs, ys, endpoint);
      forall i, j | |xs| <= i < j < |r|
        ensures exists a, b :: 0 <= a < b < |ys| && ys[a] == r[i] && ys[b] == r[j]
      {
        if j < |before| {
          var a, b :| 0 <= a < b < |front| && front[a] == before[i] && front[b] == before[j];
          assert ys[a] == r[i] && ys[b] == r[j];
        } else {
          NewFallbackIsListed(xs, front, endpoint, i);
          var a :| 0 <= a < |front| && front[a] == before[i];
          assert ys[a] == r[i] && ys[|ys| - 1] == r[j];
        }
      }
    }
  }

  lemma {:induction false} NewFallbackIsListed(xs: seq<string>, ys: seq<string>, endpoint: string, i: nat)
    requires |xs| <= i < |UnitedFallbacks(xs, ys, endpoint)|
    ensures UnitedFallbacks(xs, ys, endpoint)[i] in ys
  {
    if ys != [] {
      var front := ys[..|ys| - 1];
      if i < |UnitedFallbacks(xs, front, endpoint)| {
        NewFallbackIsListed(xs, front, endpoint, i);
      }
    }
  }

  /** What a container leaves stays in order. */
  lemma {:induction false} KeptInOrder(cs: seq<DetectedEngine>, container: DetectedEngine, i: nat, j: nat)
    requires i < j < |Absorbed(cs, container).0|
    ensures var kept := Absorbed(cs, container).0;
      exists a, b :: 0 <= a < b < |cs| && KeptFrom(kept[i], cs[a], container.pids) && KeptFrom(kept[j], cs[b], container.pids)
  {
    var front := cs[..|cs| - 1];
    var before, kept := Absorbed(front, container).0, Absorbed(cs, container).0;
    if j < |before| {
      KeptInOrder(front, container, i, j);
      var a, b :| 0 <= a < b < |front| && KeptFrom(before[i], front[a], container.pids)
                  && KeptFrom(before[j], front[b], container.pids);
      assert KeptFrom(kept[i], cs[a], container.pids) && KeptFrom(kept[j], cs[b], container.pids);
    } else {
      AbsorbKeeps(front, container);
      assert before[i] in before;
      var c :| c in front && KeptFrom(before[i], c, container.pids);
      var a :| 0 <= a < |front| && front[a] == c;
      LastIsKept(cs, container);
      assert KeptFrom(kept[i], cs[a], container.pids) && KeptFrom(kept[j], cs[|cs| - 1], container.pids);
    }
  }

  lemma LastIsKept(cs: seq<DetectedEngine>, container: DetectedEngine)
    requires cs != [] && |Absorbed(cs, container).0| > |Absorbed(cs[..|cs| - 1], container).0|
    ensures var kept := Absorbed(cs, container).0;
      |kept| == |Absorbed(cs[..|cs| - 1], container).0| + 1 && KeptFrom(kept[|kept| - 1], cs[|cs| - 1], container.pids)
  {
    var c := cs[|cs| - 1];
    if !Touches(c.pids, container.pids) {
      assert forall v :: v in c.pids ==> v !in container.pids;
    }
  }
}
