/**
  Settling each candidate on the endpoint that answers, and joining those that
  meet there (src/engines/detector.rs, `verify_candidates`).  Whether endpoint
  `j` of candidate `i` answered its probe is an input.
*/
module Verification {
  import opened Basics
  import opened Engines
  import opened PidTree
  import opened DockerMerge

  type Probe = (nat, nat) -> bool

  function EndpointsOf(c: DetectedEngine): seq<string> {
    [c.endpoint] + c.fallbacks
  }

  /** The first of the endpoints from `j` on that answers. */
  function FirstAnswer(i: nat, n: nat, probe: Probe, j: nat): (r: Option<nat>)
    requires j <= n
    ensures r.Some? ==> j <= r.value < n && probe(i, r.value) && forall k :: j <= k < r.value ==> !probe(i, k)
    ensures r.None? ==> forall k :: j <= k < n ==> !probe(i, k)
    decreases n - j
  {
    if j == n then None else if probe(i, j) then Some(j) else FirstAnswer(i, n, probe, j + 1)
  }

  /** Candidate `i` on its first answering endpoint, if any answers. */
  function Placed(c: DetectedEngine, i: nat, probe: Probe): Option<DetectedEngine> {
    match FirstAnswer(i, |EndpointsOf(c)|, probe, 0)
    case None => None
    case Some(j) => Some(c.(endpoint := EndpointsOf(c)[j], fallbacks := []))
  }

  function AllPlaced(cs: seq<DetectedEngine>, probe: Probe): seq<DetectedEngine> {
    if |cs| == 0 then []
    else
      var placed := Placed(cs[|cs| - 1], |cs| - 1, probe);
      AllPlaced(cs[..|cs| - 1], probe) + if placed.Some? then [placed.value] else []
  }

  /** The engines that the candidates turn out to be. */
  function Verified(cs: seq<DetectedEngine>, probe: Probe): seq<DetectedEngine> {
    JoinAll([], AllPlaced(cs, probe))
  }

  method VerifyCandidates(candidates: seq<DetectedEngine>, probe: Probe) returns (verified: seq<DetectedEngine>)
    ensures verified == Verified(candidates, probe)
  {
    verified := [];
    for i := 0 to |candidates|
      invariant verified == JoinAll([], AllPlaced(candidates[..i], probe))
    {
      assert candidates[..i + 1][..i] == candidates[..i];
      var candidate := candidates[i].(fallbacks := []);
      var endpoints := [candidate.endpoint] + candidates[i].fallbacks;
      var j := 0;
      while j < |endpoints| && !probe(i, j)
        invariant j <= |endpoints|
        invariant FirstAnswer(i, |endpoints|, probe, 0) == FirstAnswer(i, |endpoints|, probe, j)
      {
        j := j + 1;
      }
      if j < |endpoints| {
        candidate := candidate.(endpoint := endpoints[j]);
        verified := JoinOnEndpoint(verified, candidate);
        assert Placed(candidates[i], i, probe) == Some(candidate);
        ghost var list := AllPlaced(candidates[..i], probe) + [candidate];
        assert list[..|list| - 1] == AllPlaced(candidates[..i], probe);
        assert verified == JoinAll([], list);
        assert AllPlaced(candidates[..i + 1], probe) == list;
      } else {
        assert AllPlaced(candidates[..i + 1], probe) == AllPlaced(candidates[..i], probe) + []
            == AllPlaced(candidates[..i], probe);
      }
    }
    assert candidates[..|candidates|] == candidates;
  }

  // ---- What the join settles on ----

  /** The model the engine under `key` ends up with, when `ds` are joined in order. */
  ghost function ModelOf(ds: seq<DetectedEngine>, key: Key): Option<string> {
    if |ds| == 0 then None else
    var was, d := ModelOf(ds[..|ds| - 1], key), ds[|ds| - 1];
    if d.Key() == key && (ContainerNamesModel(d) || was.None?) then d.servedModel else was
  }

  ghost predicate NamesModel(d: DetectedEngine, key: Key, mode: DeploymentMode) {
    d.Key() == key && d.mode == mode && d.servedModel.Some?
  }

  /** The joined engine is on its key alone, has the processes of every
      candidate joined, and is in Docker when one of them is. */
  lemma JoinedEngine(ds: seq<DetectedEngine>, key: Key)
    ensures var v := JoinAll([], ds);
      && UniqueKeys(v)
      && (HasKey(v, key) <==> HasKey(ds, key))
      && (HasDocker(v, key) <==> HasDocker(ds, key))
      && (forall pid :: Holds(v, key, pid) <==> Holds(ds, key, pid))
  {
    JoinAllUnites([], ds);
  }

  lemma {:induction false} JoinedModel(ds: seq<DetectedEngine>, e: DetectedEngine)
    requires e in JoinAll([], ds)
    ensures e.servedModel == ModelOf(ds, e.Key())
    ensures (forall d :: d in ds ==> StrictlyAscending(d.pids)) ==> StrictlyAscending(e.pids)
    decreases |ds|
  {
    var front, d := ds[..|ds| - 1], ds[|ds| - 1];
    var before := JoinAll([], front);
    assert d in ds && forall x :: x in front ==> x in ds;
    JoinAllUnites([], front);
    hide SortPids, United, UnitedFallbacks;
    match FindKey(before, d.Key(), 0) {
      case None =>
        if e in before {
          JoinedModel(front, e);
        } else {
          assert !HasKey(front, d.Key()) by {
            assert !HasKey(before, d.Key());
          }
          NoModel(front, d.Key());
        }
      case Some(i) =>
        JoinedModel(front, before[i]);
        if e in before && e.Key() != d.Key() {
          JoinedModel(front, e);
        } else {
          assert e == JoinInto(before[i], d);
        }
    }
  }

  lemma {:induction false} NoModel(ds: seq<DetectedEngine>, key: Key)
    requires !HasKey(ds, key)
    ensures ModelOf(ds, key) == None
  {
    if |ds| > 0 {
      assert ds[|ds| - 1] in ds;
      NoModel(ds[..|ds| - 1], key);
    }
  }

  ghost predicate NamesContainer(d: DetectedEngine, key: Key) {
    d.Key() == key && d.containerId.Some?
  }

  /** The container of the first candidate under `key` that has one. */
  ghost function FirstContainer(ds: seq<DetectedEngine>, key: Key): Option<string> {
    if |ds| == 0 then None
    else if NamesContainer(ds[0], key) then ds[0].containerId
    else FirstContainer(ds[1..], key)
  }

  lemma {:induction false} FirstContainerAppend(ds: seq<DetectedEngine>, d: DetectedEngine, key: Key)
    ensures FirstContainer(ds + [d], key) ==
      if FirstContainer(ds, key).Some? then FirstContainer(ds, key)
      else if NamesContainer(d, key) then d.containerId else None
  {
    if |ds| == 0 {
      assert ds + [d] == [d];
    } else {
      assert (ds + [d])[1..] == ds[1..] + [d];
      FirstContainerAppend(ds[1..], d, key);
    }
  }

  lemma {:induction false} NoContainer(ds: seq<DetectedEngine>, key: Key)
    requires !HasKey(ds, key)
    ensures FirstContainer(ds, key) == None
  {
    if |ds| > 0 {
      assert ds[0] in ds;
      NoContainer(ds[1..], key);
    }
  }

  /** A joined engine keeps the first container found for it. */
  lemma {:induction false} FirstContainerIsKept(ds: seq<DetectedEngine>, e: DetectedEngine)
    requires e in JoinAll([], ds)
    ensures e.containerId == FirstContainer(ds, e.Key())
    decreases |ds|
  {
    var front, d := ds[..|ds| - 1], ds[|ds| - 1];
    var before := JoinAll([], front);
    assert ds == front + [d];
    FirstContainerAppend(front, d, e.Key());
    JoinAllUnites([], front);
    hide SortPids, United, UnitedFallbacks;
    match FindKey(before, d.Key(), 0) {
      case None =>
        if e in before {
          FirstContainerIsKept(front, e);
        } else {
          assert !HasKey(front, d.Key()) by {
            assert !HasKey(before, d.Key());
          }
          NoContainer(front, d.Key());
        }
      case Some(i) =>
        FirstContainerIsKept(front, before[i]);
        if e in before && e.Key() != d.Key() {
          FirstContainerIsKept(front, e);
        } else {
          assert e == JoinInto(before[i], d);
        }
    }
  }

  // ---- The order of the candidates ----

  ghost predicate Named(ds: seq<DetectedEngine>, key: Key, mode: DeploymentMode) {
    exists a :: a in ds && NamesModel(a, key, mode)
  }

  ghost predicate OneModel(ds: seq<DetectedEngine>, key: Key, mode: DeploymentMode) {
    forall a, b :: a in ds && b in ds && NamesModel(a, key, mode) && NamesModel(b, key, mode) ==>
      a.servedModel == b.servedModel
  }

  /** The model comes from a container that names one, failing that from a
      native candidate that does. */
  lemma {:induction false} ModelIsNamed(ds: seq<DetectedEngine>, key: Key)
    ensures Named(ds, key, Docker) ==>
      exists a :: a in ds && NamesModel(a, key, Docker) && ModelOf(ds, key) == a.servedModel
    ensures !Named(ds, key, Docker) && Named(ds, key, Native) ==>
      exists a :: a in ds && NamesModel(a, key, Native) && ModelOf(ds, key) == a.servedModel
    ensures !Named(ds, key, Docker) && !Named(ds, key, Native) ==> ModelOf(ds, key) == None
  {
    if |ds| > 0 {
      var front, d := ds[..|ds| - 1], ds[|ds| - 1];
      assert forall x :: x in ds <==> x in front || x == d;
      ModelIsNamed(front, key);
      assert NamesModel(d, key, Docker) ==> Named(ds, key, Docker);
      assert NamesModel(d, key, Native) ==> Named(ds, key, Native);
    }
  }

  lemma {:induction false} FirstNativeNames(a: DetectedEngine, ds: seq<DetectedEngine>, key: Key)
    requires NamesModel(a, key, Native) && !Named(ds, key, Docker)
    ensures ModelOf([a] + ds, key) == a.servedModel
  {
    var all := [a] + ds;
    if |ds| == 0 {
      assert all[..0] == [];
    } else {
      var front, d := ds[..|ds| - 1], ds[|ds| - 1];
      assert d in ds && forall x :: x in front ==> x in ds;
      assert all[..|all| - 1] == [a] + front;
      FirstNativeNames(a, front, key);
    }
  }

  ghost predicate OrderFree(ds: seq<DetectedEngine>, key: Key) {
    forall ds' :: multiset(ds') == multiset(ds) ==> ModelOf(ds', key) == ModelOf(ds, key)
  }

  lemma SameMembers(a: seq<DetectedEngine>, b: seq<DetectedEngine>)
    requires multiset(a) == multiset(b)
    ensures forall x :: x in a <==> x in b
  {
    forall x ensures x in a <==> x in b {
      assert x in a <==> x in multiset(a);
      assert x in b <==> x in multiset(b);
    }
  }

  lemma Moved(ds: seq<DetectedEngine>, a: DetectedEngine) returns (rest: seq<DetectedEngine>)
    requires a in ds
    ensures multiset(rest + [a]) == multiset(ds) && multiset([a] + rest) == multiset(ds)
    ensures forall x :: x in rest ==> x in ds
  {
    var i :| 0 <= i < |ds| && ds[i] == a;
    rest := Without(ds, i);
    assert ds == ds[..i] + ([ds[i]] + ds[i + 1..]);
  }

  /** The model does not depend on the order of the candidates exactly when the
      containers that name one agree and, if none does, the native candidates
      that name one agree. */
  lemma ModelIsOrderFreeExactly(ds: seq<DetectedEngine>, key: Key)
    ensures OrderFree(ds, key) <==>
      OneModel(ds, key, Docker) && (Named(ds, key, Docker) || OneModel(ds, key, Native))
  {
    if OneModel(ds, key, Docker) && (Named(ds, key, Docker) || OneModel(ds, key, Native)) {
      ModelIsNamed(ds, key);
      forall ds' | multiset(ds') == multiset(ds) ensures ModelOf(ds', key) == ModelOf(ds, key) {
        SameMembers(ds, ds');
        ModelIsNamed(ds', key);
        assert Named(ds, key, Docker) <==> Named(ds', key, Docker);
        assert Named(ds, key, Native) <==> Named(ds', key, Native);
        hide ModelOf;
      }
    } else if !OneModel(ds, key, Docker) {
      var a, b :| a in ds && b in ds && NamesModel(a, key, Docker) && NamesModel(b, key, Docker)
               && a.servedModel != b.servedModel;
      var rest := Moved(ds, a);
      var rest' := Moved(ds, b);
      assert (rest + [a])[|rest|] == a && (rest' + [b])[|rest'|] == b;
      assert ModelOf(rest + [a], key) == a.servedModel && ModelOf(rest' + [b], key) == b.servedModel;
    } else {
      var a, b :| a in ds && b in ds && NamesModel(a, key, Native) && NamesModel(b, key, Native)
               && a.servedModel != b.servedModel;
      var rest := Moved(ds, a);
      var rest' := Moved(ds, b);
      FirstNativeNames(a, rest, key);
      FirstNativeNames(b, rest', key);
    }
  }

  /** In any order of the placed candidates the same engines come out. */
  lemma JoinedInAnyOrder(ds: seq<DetectedEngine>, ds': seq<DetectedEngine>, e: DetectedEngine) returns (e': DetectedEngine)
    requires multiset(ds) == multiset(ds')
    requires e in JoinAll([], ds)
    ensures e' in JoinAll([], ds') && e'.Key() == e.Key() && e'.mode == e.mode
    ensures forall pid :: pid in e'.pids <==> pid in e.pids
  {
    var v, v', key := JoinAll([], ds), JoinAll([], ds'), e.Key();
    SameMembers(ds, ds');
    JoinedEngine(ds, key);
    JoinedEngine(ds', key);
    assert HasKey(v, key) && HasKey(v', key) by {
      assert HasKey(ds, key) <==> HasKey(ds', key);
    }
    e' :| e' in v' && e'.Key() == key;
    hide JoinAll;
    assert HasDocker(ds, key) <==> HasDocker(ds', key);
    SoleOfKey(v, e);
    SoleOfKey(v', e');
    forall pid ensures pid in e.pids <==> pid in e'.pids {
      assert Holds(ds, key, pid) <==> Holds(ds', key, pid);
    }
  }

  /** Answers that depend only on what is asked: which engine type, and where. */
  type Answers = Key -> bool

  function Answering(cs: seq<DetectedEngine>, answers: Answers): Probe {
    (i: nat, j: nat) =>
      i < |cs| && j < |EndpointsOf(cs[i])| && answers(Keyed(cs[i].engineType, EndpointsOf(cs[i])[j]))
  }

  /** A candidate on the first of its endpoints that answers, wherever it stands. */
  function Settled(c: DetectedEngine, answers: Answers): Option<DetectedEngine> {
    Placed(c, 0, Answering([c], answers))
  }

  function AllSettled(cs: seq<DetectedEngine>, answers: Answers): seq<DetectedEngine> {
    if |cs| == 0 then []
    else if Settled(cs[0], answers).Some? then [Settled(cs[0], answers).value] + AllSettled(cs[1..], answers)
    else AllSettled(cs[1..], answers)
  }

  lemma {:induction false} SameAnswer(i: nat, i': nat, n: nat, probe: Probe, probe': Probe, j: nat)
    requires j <= n && forall k :: j <= k < n ==> probe(i, k) == probe'(i', k)
    ensures FirstAnswer(i, n, probe, j) == FirstAnswer(i', n, probe', j)
    decreases n - j
  {
    if j < n {
      SameAnswer(i, i', n, probe, probe', j + 1);
    }
  }

  lemma {:induction false} SettledAppend(cs: seq<DetectedEngine>, ds: seq<DetectedEngine>, answers: Answers)
    ensures AllSettled(cs + ds, answers) == AllSettled(cs, answers) + AllSettled(ds, answers)
  {
    if |cs| == 0 {
      assert cs + ds == ds;
    } else {
      hide Settled;
      assert (cs + ds)[1..] == cs[1..] + ds;
      SettledAppend(cs[1..], ds, answers);
    }
  }

  lemma {:induction false} PlacedAreSettled(cs: seq<DetectedEngine>, answers: Answers, n: nat)
    requires n <= |cs|
    ensures AllPlaced(cs[..n], Answering(cs, answers)) == AllSettled(cs[..n], answers)
  {
    if n > 0 {
      var c, probe := cs[n - 1], Answering(cs, answers);
      PlacedAreSettled(cs, answers, n - 1);
      SameAnswer(n - 1, 0, |EndpointsOf(c)|, probe, Answering([c], answers), 0);
      assert Placed(c, n - 1, probe) == Settled(c, answers);
      hide Placed, Settled, Answering;
      assert cs[..n][..n - 1] == cs[..n - 1] && cs[..n] == cs[..n - 1] + [c];
      SettledAppend(cs[..n - 1], [c], answers);
      assert [c][1..] == [];
    }
  }

  /** Any order of the candidates places the same candidates. */
  lemma {:induction false} SettledInAnyOrder(cs: seq<DetectedEngine>, cs': seq<DetectedEngine>, answers: Answers)
    requires multiset(cs) == multiset(cs')
    ensures multiset(AllSettled(cs, answers)) == multiset(AllSettled(cs', answers))
  {
    if |cs| == 0 {
      assert |multiset(cs')| == 0;
    } else {
      var i := HeadOfPermutation(cs, cs');
      SettledInAnyOrder(cs[1..], Without(cs', i), answers);
      hide Settled;
      assert cs == [cs[0]] + cs[1..];
      SettledAppend([cs[0]], cs[1..], answers);
      SettledAppend(cs'[..i], [cs'[i]] + cs'[i + 1..], answers);
      SettledAppend([cs'[i]], cs'[i + 1..], answers);
      SettledAppend(cs'[..i], cs'[i + 1..], answers);
    }
  }

  lemma PlacedInAnyOrder(cs: seq<DetectedEngine>, cs': seq<DetectedEngine>, answers: Answers)
    requires multiset(cs) == multiset(cs')
    ensures multiset(AllPlaced(cs, Answering(cs, answers))) == multiset(AllPlaced(cs', Answering(cs', answers)))
  {
    PlacedAreSettled(cs, answers, |cs|);
    PlacedAreSettled(cs', answers, |cs'|);
    assert cs[..|cs|] == cs && cs'[..|cs'|] == cs';
    SettledInAnyOrder(cs, cs', answers);
  }

  /** What is placed is a candidate, moved to one of its endpoints. */
  lemma {:induction false} PlacedFrom(cs: seq<DetectedEngine>, probe: Probe, d: DetectedEngine) returns (i: nat)
    requires d in AllPlaced(cs, probe)
    ensures i < |cs| && Placed(cs[i], i, probe) == Some(d)
    ensures d == cs[i].(endpoint := d.endpoint, fallbacks := [])
  {
    i := |cs| - 1;
    if Placed(cs[i], i, probe) != Some(d) {
      i := PlacedFrom(cs[..i], probe, d);
    }
  }

  /** In any order of the candidates the same engines are verified, each with
      the same processes, the same deployment mode and, where the candidates
      placed on it agree on it, the same model. */
  lemma VerifiedInAnyOrder(cs: seq<DetectedEngine>, cs': seq<DetectedEngine>, answers: Answers, e: DetectedEngine)
    returns (e': DetectedEngine)
    requires multiset(cs) == multiset(cs') && e in Verified(cs, Answering(cs, answers))
    ensures e' in Verified(cs', Answering(cs', answers)) && e'.Key() == e.Key() && e'.mode == e.mode
    ensures forall pid :: pid in e'.pids <==> pid in e.pids
    ensures (forall c :: c in cs ==> StrictlyAscending(c.pids)) ==> e'.pids == e.pids
    ensures OrderFree(AllPlaced(cs, Answering(cs, answers)), e.Key()) ==> e'.servedModel == e.servedModel
  {
    var ds, ds' := AllPlaced(cs, Answering(cs, answers)), AllPlaced(cs', Answering(cs', answers));
    PlacedInAnyOrder(cs, cs', answers);
    e' := JoinedInAnyOrder(ds, ds', e);
    JoinedModel(ds, e);
    JoinedModel(ds', e');
    if forall c :: c in cs ==> StrictlyAscending(c.pids) {
      SameMembers(ds, ds');
      forall d | d in ds ensures StrictlyAscending(d.pids) {
        var i := PlacedFrom(cs, Answering(cs, answers), d);
        assert cs[i] in cs;
      }
      SameAscending(e.pids, e'.pids);
    }
  }

  lemma SoleOfKey(v: seq<DetectedEngine>, e: DetectedEngine)
    requires UniqueKeys(v) && e in v
    ensures HasDocker(v, e.Key()) <==> e.mode.Docker?
    ensures forall pid :: Holds(v, e.Key(), pid) <==> pid in e.pids
  {
    forall c | c in v && c.Key() == e.Key() ensures c == e {
      var i :| 0 <= i < |v| && v[i] == c;
      var j :| 0 <= j < |v| && v[j] == e;
    }
  }

  lemma {:induction false} SameAscending(a: seq<nat>, b: seq<nat>)
    requires StrictlyAscending(a) && StrictlyAscending(b)
    requires forall v :: v in a <==> v in b
    ensures a == b
  {
    if |a| > 0 {
      assert a[0] in b;
    }
    if |b| > 0 {
      assert b[0] in a;
      assert a[0] in a && b[0] in b && a[0] in b && b[0] in a;
      assert a[0] == b[0];
      forall v ensures v in a[1..] <==> v in b[1..] {
        assert v in a[1..] <==> v in a && v != a[0];
        assert v in b[1..] <==> v in b && v != b[0];
      }
      SameAscending(a[1..], b[1..]);
    }
  }

  // ---- The model, over all orders of the candidates ----

  /** The model that the engine under `key` is verified to serve. */
  ghost function ServedModel(cs: seq<DetectedEngine>, answers: Answers, key: Key): Option<string> {
    ModelOf(AllPlaced(cs, Answering(cs, answers)), key)
  }

  lemma ServedModelIs(cs: seq<DetectedEngine>, answers: Answers, e: DetectedEngine)
    requires e in Verified(cs, Answering(cs, answers))
    ensures e.servedModel == ServedModel(cs, answers, e.Key())
  {
    JoinedModel(AllPlaced(cs, Answering(cs, answers)), e);
  }

  lemma AllPlacedIs(cs: seq<DetectedEngine>, answers: Answers)
    ensures AllPlaced(cs, Answering(cs, answers)) == AllSettled(cs, answers)
  {
    PlacedAreSettled(cs, answers, |cs|);
    assert cs[..|cs|] == cs;
  }

  lemma {:induction false} SettledFrom(cs: seq<DetectedEngine>, answers: Answers, d: DetectedEngine)
    returns (c: DetectedEngine)
    requires d in AllSettled(cs, answers)
    ensures c in cs && Settled(c, answers) == Some(d)
  {
    hide Settled;
    c := cs[0];
    if Settled(c, answers) != Some(d) {
      c := SettledFrom(cs[1..], answers, d);
    }
  }

  /** Some order of the candidates lets any container that names a model have
      the last word, and without one any native candidate that does the first. */
  lemma NamerDecides(cs: seq<DetectedEngine>, answers: Answers, key: Key, d: DetectedEngine) returns (cs': seq<DetectedEngine>)
    requires d in AllPlaced(cs, Answering(cs, answers))
    requires NamesModel(d, key, Docker)
          || (NamesModel(d, key, Native) && !Named(AllPlaced(cs, Answering(cs, answers)), key, Docker))
    ensures multiset(cs') == multiset(cs) && ServedModel(cs', answers, key) == d.servedModel
  {
    AllPlacedIs(cs, answers);
    var c := SettledFrom(cs, answers, d);
    var rest := Moved(cs, c);
    hide Settled, AllPlaced, Answering;
    assert [c][1..] == [] && AllSettled([c], answers) == [d] + AllSettled([], answers) == [d];
    if d.mode.Docker? {
      cs' := rest + [c];
      AllPlacedIs(cs', answers);
      SettledAppend(rest, [c], answers);
      var ds := AllSettled(rest, answers) + [d];
      assert ds[..|ds| - 1] == AllSettled(rest, answers) && ds[|ds| - 1] == d;
    } else {
      cs' := [c] + rest;
      AllPlacedIs(cs', answers);
      SettledAppend([c], rest, answers);
      NoContainerAmong(cs, cs', answers, key);
      assert forall x :: x in AllSettled(rest, answers) ==> x in AllSettled(cs', answers);
      FirstNativeNames(d, AllSettled(rest, answers), key);
    }
  }

  lemma NoContainerAmong(cs: seq<DetectedEngine>, cs': seq<DetectedEngine>, answers: Answers, key: Key)
    requires multiset(cs) == multiset(cs') && !Named(AllSettled(cs, answers), key, Docker)
    ensures !Named(AllSettled(cs', answers), key, Docker)
  {
    SettledInAnyOrder(cs, cs', answers);
    SameMembers(AllSettled(cs, answers), AllSettled(cs', answers));
  }

  ghost predicate AnyOrderServes(cs: seq<DetectedEngine>, answers: Answers, key: Key) {
    forall cs' :: multiset(cs') == multiset(cs) ==> ServedModel(cs', answers, key) == ServedModel(cs, answers, key)
  }

  /** The model that is served does not depend on the order of the candidates
      exactly when the containers placed there that name one agree and, if none
      does, the native candidates that name one agree. */
  lemma ServedModelIsOrderFreeExactly(cs: seq<DetectedEngine>, answers: Answers, key: Key)
    ensures var ds := AllPlaced(cs, Answering(cs, answers));
      AnyOrderServes(cs, answers, key) <==>
        OneModel(ds, key, Docker) && (Named(ds, key, Docker) || OneModel(ds, key, Native))
  {
    var ds := AllPlaced(cs, Answering(cs, answers));
    ModelIsOrderFreeExactly(ds, key);
    hide AllPlaced, Answering, ModelOf;
    if OneModel(ds, key, Docker) && (Named(ds, key, Docker) || OneModel(ds, key, Native)) {
      forall cs' | multiset(cs') == multiset(cs)
        ensures ServedModel(cs', answers, key) == ServedModel(cs, answers, key)
      {
        PlacedInAnyOrder(cs, cs', answers);
      }
    } else {
      var mode := if OneModel(ds, key, Docker) then Native else Docker;
      var a, b :| a in ds && b in ds && NamesModel(a, key, mode) && NamesModel(b, key, mode)
               && a.servedModel != b.servedModel;
      var first := NamerDecides(cs, answers, key, a);
      var second := NamerDecides(cs, answers, key, b);
    }
  }

  // ---- Two orders, two models ----

  /** A container that serves vLLM on the port all of these share. */
  function Container(id: string, model: string, pid: nat): DetectedEngine {
    DetectedEngine(Vllm, "http://localhost:8000", Docker, Some(model), [pid], Some(id), [])
  }

  lemma BothPlaced(a: DetectedEngine, b: DetectedEngine)
    requires a.fallbacks == [] && b.fallbacks == []
    ensures AllPlaced([a, b], Answering([a, b], _ => true)) == [a, b]
  {
    var answers: Answers := _ => true;
    var probe := Answering([a, b], answers);
    assert [a, b][0] == a && [a, b][1] == b && |EndpointsOf(a)| == 1 && |EndpointsOf(b)| == 1;
    assert answers(Keyed(a.engineType, EndpointsOf(a)[0])) && answers(Keyed(b.engineType, EndpointsOf(b)[0]));
    assert probe(0, 0) && probe(1, 0);
    assert Placed(a, 0, probe) == Some(a) && Placed(b, 1, probe) == Some(b);
    hide Placed, Answering;
    assert [a, b][..1] == [a] && [a][..0] == [];
    assert AllPlaced([a], probe) == [] + [a];
  }

  lemma LastContainerNames(a: DetectedEngine, b: DetectedEngine) returns (e: DetectedEngine)
    requires a.fallbacks == [] && b.fallbacks == [] && a.Key() == b.Key() && ContainerNamesModel(b)
    ensures e in Verified([a, b], Answering([a, b], _ => true)) && e.Key() == b.Key()
    ensures e.servedModel == b.servedModel
  {
    var ds := [a, b];
    BothPlaced(a, b);
    JoinedEngine(ds, b.Key());
    assert b in ds && HasKey(ds, b.Key());
    e :| e in JoinAll([], ds) && e.Key() == b.Key();
    JoinedModel(ds, e);
    assert ModelOf(ds, b.Key()) == b.servedModel;
  }

  /** Two containers on one endpoint that name different models: the engine they
      are verified as serves the model of whichever comes last. */
  lemma OrderDecidesTheModel() returns (a: DetectedEngine, b: DetectedEngine, e: DetectedEngine, e': DetectedEngine)
    ensures a == Container("a", "x", 1) && b == Container("b", "yy", 2)
    ensures e in Verified([a, b], Answering([a, b], _ => true))
    ensures e' in Verified([b, a], Answering([b, a], _ => true))
    ensures e.Key() == e'.Key() && e.servedModel == Some("yy") && e'.servedModel == Some("x")
  {
    a, b := Container("a", "x", 1), Container("b", "yy", 2);
    e := LastContainerNames(a, b);
    e' := LastContainerNames(b, a);
  }

  // ---- Where an engine is verified ----

  /** Place `j` of a candidate: its endpoint, then its fallbacks in order. */
  function PlaceAt(c: DetectedEngine, j: nat): string
    requires j <= |c.fallbacks|
  {
    if j == 0 then c.endpoint else c.fallbacks[j - 1]
  }

  /** Candidate `i` is found under `key`: its first place that answers is there. */
  ghost predicate FoundUnder(cs: seq<DetectedEngine>, probe: Probe, i: nat, key: Key) {
    && i < |cs|
    && exists j: nat :: j <= |cs[i].fallbacks| && probe(i, j) && key == Keyed(cs[i].engineType, PlaceAt(cs[i], j))
         && forall k: nat :: k < j ==> !probe(i, k)
  }

  lemma PlacedIsFound(cs: seq<DetectedEngine>, probe: Probe, i: nat, key: Key)
    requires i < |cs|
    ensures FoundUnder(cs, probe, i, key) <==> Placed(cs[i], i, probe).Some? && Placed(cs[i], i, probe).value.Key() == key
  {
    var c, n := cs[i], |EndpointsOf(cs[i])|;
    assert n == |c.fallbacks| + 1 && forall j: nat :: j < n ==> EndpointsOf(c)[j] == PlaceAt(c, j);
  }

  lemma {:induction false} AllPlacedHas(cs: seq<DetectedEngine>, probe: Probe, i: nat)
    requires i < |cs| && Placed(cs[i], i, probe).Some?
    ensures Placed(cs[i], i, probe).value in AllPlaced(cs, probe)
  {
    hide Placed;
    if i < |cs| - 1 {
      AllPlacedHas(cs[..|cs| - 1], probe, i);
    }
  }

  /** An engine is verified under a key exactly when a candidate is found there,
      holds exactly the processes of the candidates found there, and runs in
      Docker exactly when one of them does; a candidate that does not answer
      adds nothing. */
  lemma VerifiedExactly(cs: seq<DetectedEngine>, probe: Probe, key: Key)
    ensures var v := Verified(cs, probe);
      && UniqueKeys(v)
      && (HasKey(v, key) <==> exists i: nat :: FoundUnder(cs, probe, i, key))
      && (forall pid :: Holds(v, key, pid) <==> exists i: nat :: FoundUnder(cs, probe, i, key) && pid in cs[i].pids)
      && (HasDocker(v, key) <==> exists i: nat :: FoundUnder(cs, probe, i, key) && cs[i].mode.Docker?)
  {
    var ds := AllPlaced(cs, probe);
    JoinedEngine(ds, key);
    forall d | d in ds && d.Key() == key
      ensures exists i: nat :: FoundUnder(cs, probe, i, key) && d.pids == cs[i].pids && d.mode == cs[i].mode
    {
      var i := PlacedFrom(cs, probe, d);
      PlacedIsFound(cs, probe, i, key);
    }
    forall i: nat | FoundUnder(cs, probe, i, key)
      ensures exists d :: d in ds && d.Key() == key && d.pids == cs[i].pids && d.mode == cs[i].mode
    {
      PlacedIsFound(cs, probe, i, key);
      AllPlacedHas(cs, probe, i);
    }
    hide AllPlaced, FoundUnder, JoinAll, UniqueKeys;
  }

  /** So whatever is verified answers as its engine type at its endpoint, and has
      no other place left to probe. */
  lemma VerifiedAnswers(cs: seq<DetectedEngine>, answers: Answers, e: DetectedEngine)
    requires e in Verified(cs, Answering(cs, answers))
    ensures answers(e.Key()) && e.fallbacks == []
  {
    var probe := Answering(cs, answers);
    VerifiedExactly(cs, probe, e.Key());
    assert HasKey(Verified(cs, probe), e.Key());
    var i: nat :| FoundUnder(cs, probe, i, e.Key());
    var j: nat :| j <= |cs[i].fallbacks| && probe(i, j) && e.Key() == Keyed(cs[i].engineType, PlaceAt(cs[i], j));
    assert EndpointsOf(cs[i])[j] == PlaceAt(cs[i], j);
    forall d | d in AllPlaced(cs, probe) ensures d.fallbacks == [] {
      var k := PlacedFrom(cs, probe, d);
    }
    JoinedHasNoFallback(AllPlaced(cs, probe), e);
  }

  lemma {:induction false} JoinedHasNoFallback(ds: seq<DetectedEngine>, e: DetectedEngine)
    requires e in JoinAll([], ds) && forall d :: d in ds ==> d.fallbacks == []
    ensures e.fallbacks == []
    decreases |ds|
  {
    var front, d := ds[..|ds| - 1], ds[|ds| - 1];
    var before := JoinAll([], front);
    assert d in ds && forall x :: x in front ==> x in ds;
    hide SortPids, United, UnitedFallbacks;
    match FindKey(before, d.Key(), 0) {
      case None =>
        if e in before {
          JoinedHasNoFallback(front, e);
        }
      case Some(i) =>
        JoinedHasNoFallback(front, before[i]);
        NoFallbacksUnite(before[i].endpoint);
        if e in before {
          JoinedHasNoFallback(front, e);
        }
    }
  }

  lemma NoFallbacksUnite(endpoint: string)
    ensures UnitedFallbacks([], [], endpoint) == []
  {
  }

  // ---- The model a container takes over, through the merge ----

  lemma {:induction false} UniqueJoin(cs: seq<DetectedEngine>)
    requires UniqueKeys(cs)
    ensures JoinAll([], cs) == cs
  {
    if cs != [] {
      var front, c := cs[..|cs| - 1], cs[|cs| - 1];
      UniqueJoin(front);
      assert cs == front + [c];
      assert forall i :: 0 <= i < |front| ==> cs[i] == front[i] && cs[i].Key() != c.Key();
      hide UniqueKeys, Join;
      JoinNew(front, c);
    }
  }

  lemma JoinNew(cs: seq<DetectedEngine>, c: DetectedEngine)
    requires forall i :: 0 <= i < |cs| ==> cs[i].Key() != c.Key()
    ensures Join(cs, c) == cs + [c]
  {
    assert FindKey(cs, c.Key(), 0).None?;
  }

  lemma {:induction false} JoinAllAppend(a: seq<DetectedEngine>, b: seq<DetectedEngine>)
    ensures JoinAll([], a + b) == JoinAll(JoinAll([], a), b)
  {
    if b == [] {
      assert a + b == a;
    } else {
      hide Join;
      assert (a + b)[..|a + b| - 1] == a + b[..|b| - 1];
      JoinAllAppend(a, b[..|b| - 1]);
    }
  }

  /** The model of a merged engine is that of the host candidates left on its
      endpoint and the containers there, each with the model it took over. */
  lemma MergedServes(cs: seq<DetectedEngine>, ds: seq<DetectedEngine>, e: DetectedEngine)
    requires UniqueKeys(cs) && e in Merged(cs, ds)
    ensures var (kept, after) := AbsorbedAll(cs, ds);
      && e.servedModel == ModelOf(kept + after, e.Key())
      && e.containerId == FirstContainer(kept + after, e.Key())
      && |after| == |ds|
      && forall i :: 0 <= i < |ds| ==>
           && after[i] == ds[i].(servedModel := after[i].servedModel)
           && after[i].servedModel ==
                if ds[i].servedModel.Some? then ds[i].servedModel
                else FirstClaimedModel(AbsorbedAll(cs, ds[..i]).0, ds[i])
  {
    var (kept, after) := AbsorbedAll(cs, ds);
    AbsorbAllHolds(cs, ds);
    UniqueJoin(kept);
    JoinAllAppend(kept, after);
    JoinedModel(kept + after, e);
    FirstContainerIsKept(kept + after, e);
    hide AbsorbedAll, JoinAll, ModelOf, FirstContainer;
    forall i | 0 <= i < |ds|
      ensures after[i].servedModel ==
        if ds[i].servedModel.Some? then ds[i].servedModel else FirstClaimedModel(AbsorbedAll(cs, ds[..i]).0, ds[i])
    {
      TakenOverAt(cs, ds, i);
    }
  }

  lemma {:induction false} TakenOverAt(cs: seq<DetectedEngine>, ds: seq<DetectedEngine>, i: nat)
    requires i < |ds|
    ensures AbsorbedAll(cs, ds).1[i].servedModel ==
      if ds[i].servedModel.Some? then ds[i].servedModel else FirstClaimedModel(AbsorbedAll(cs, ds[..i]).0, ds[i])
    decreases |ds|
  {
    var n := |ds| - 1;
    hide Absorbed, FirstClaimedModel;
    if i == n {
      ModelIsTakenOver(AbsorbedAll(cs, ds[..n]).0, ds[n]);
    } else {
      assert ds[..n][..i] == ds[..i];
      TakenOverAt(cs, ds[..n], i);
    }
  }
}
