/**
  The whole of a detection pass (src/engines/detector.rs, `detect_engines`): the
  process scan, the Docker merge and the probes, one after the other.  What the
  Docker scan lists is an input.
*/
module Discovery {
  import opened Basics
  import opened Engines
  import opened PidTree
  import opened HostScan
  import opened DockerMerge
  import opened Verification

  /** What the Docker scan may list: containers that share no process. */
  ghost predicate IsDockerScan(ds: seq<DetectedEngine>) {
    (forall d :: d in ds ==> d.mode.Docker?) && DisjointPids(ds)
  }

  /** The engines are those verified of what the scans of `ps` and `ds` merge to. */
  ghost predicate IsDetectionOf(ps: seq<Process>, ds: seq<DetectedEngine>, probe: Probe, engines: seq<DetectedEngine>) {
    exists native :: IsScanOf(ps, native) && engines == Verified(Merged(native, ds), probe)
  }

  method DetectEngines(ps: seq<Process>, ds: seq<DetectedEngine>, probe: Probe) returns (engines: seq<DetectedEngine>)
    ensures IsDetectionOf(ps, ds, probe, engines)
  {
    var native := EnginesFromProcesses(ps);
    var candidates := MergeDockerCandidates(native, ds);
    engines := VerifyCandidates(candidates, probe);
  }

  lemma NativeKey(ps: seq<Process>, native: seq<DetectedEngine>, a: Key, b: Key, pid: nat)
    requires UniquePids(ps) && IsScanOf(ps, native)
    requires Holds(native, a, pid) && Holds(native, b, pid)
    requires OwnsItsDescendants(a.engineType) && OwnsItsDescendants(b.engineType)
    ensures a == b
  {
    hide IsScanOf;
    var c :| c in native && c.Key() == a && pid in c.pids;
    var d :| d in native && d.Key() == b && pid in d.pids;
    var i :| 0 <= i < |native| && native[i] == c;
    var j :| 0 <= j < |native| && native[j] == d;
    if i != j {
      OwnersAreDisjoint(ps, native, i, j);
    }
  }

  lemma ContainerKey(ds: seq<DetectedEngine>, a: Key, b: Key, pid: nat)
    requires DisjointPids(ds) && Holds(ds, a, pid) && Holds(ds, b, pid)
    ensures a == b
  {
    var d :| d in ds && d.Key() == a && pid in d.pids;
    SoleContainer(ds, d, b, pid);
  }

  /** A merged candidate that holds a container's process is that container's,
      and no other holds it; nor do two Ollama or llama.cpp candidates share any. */
  lemma MergedShareNone(
    ps: seq<Process>, native: seq<DetectedEngine>, ds: seq<DetectedEngine>, i: nat, j: nat, pid: nat)
    requires IsScanOf(ps, native) && IsDockerScan(ds)
    requires i < |Merged(native, ds)| && j < |Merged(native, ds)|
    requires pid in Merged(native, ds)[i].pids && pid in Merged(native, ds)[j].pids
    requires Listed(ds, pid)
          || (UniquePids(ps) && OwnsItsDescendants(Merged(native, ds)[i].engineType)
              && OwnsItsDescendants(Merged(native, ds)[j].engineType))
    ensures i == j
  {
    assert UniqueKeys(native);
    hide IsScanOf, Merged;
    var m := Merged(native, ds);
    MergeConserves(native, ds);
    assert m[i] in m && m[j] in m && Holds(m, m[i].Key(), pid) && Holds(m, m[j].Key(), pid);
    if Listed(ds, pid) {
      ContainerKey(ds, m[i].Key(), m[j].Key(), pid);
    } else {
      NativeKey(ps, native, m[i].Key(), m[j].Key(), pid);
    }
  }

  /** Which candidate a verified engine has a process from. */
  lemma HeldFrom(cs: seq<DetectedEngine>, probe: Probe, e: DetectedEngine, pid: nat) returns (i: nat)
    requires e in Verified(cs, probe) && pid in e.pids
    ensures i < |cs| && pid in cs[i].pids && cs[i].engineType == e.engineType
    ensures Placed(cs[i], i, probe).Some? && Placed(cs[i], i, probe).value.Key() == e.Key()
    ensures cs[i].mode.Docker? ==> e.mode.Docker?
  {
    var ds := AllPlaced(cs, probe);
    JoinedEngine(ds, e.Key());
    assert Holds(ds, e.Key(), pid) by {
      assert Holds(Verified(cs, probe), e.Key(), pid);
    }
    var d :| d in ds && d.Key() == e.Key() && pid in d.pids;
    i := PlacedFrom(cs, probe, d);
    hide JoinAll, AllPlaced, Placed;
    SoleOfKey(Verified(cs, probe), e);
    assert d.mode.Docker? ==> HasDocker(ds, e.Key());
  }

  lemma OneEngine(
    ps: seq<Process>, native: seq<DetectedEngine>, ds: seq<DetectedEngine>, probe: Probe,
    e: DetectedEngine, e': DetectedEngine, pid: nat)
    requires IsScanOf(ps, native) && IsDockerScan(ds)
    requires e in Verified(Merged(native, ds), probe) && e' in Verified(Merged(native, ds), probe)
    requires pid in e.pids && pid in e'.pids
    requires Listed(ds, pid)
          || (UniquePids(ps) && OwnsItsDescendants(e.engineType) && OwnsItsDescendants(e'.engineType))
    ensures e.Key() == e'.Key()
  {
    hide IsScanOf, Merged, Verified, Placed;
    var cs := Merged(native, ds);
    var i := HeldFrom(cs, probe, e, pid);
    var j := HeldFrom(cs, probe, e', pid);
    MergedShareNone(ps, native, ds, i, j, pid);
  }

  lemma VerifiedKeysAreUnique(cs: seq<DetectedEngine>, probe: Probe)
    ensures UniqueKeys(Verified(cs, probe))
  {
    JoinAllUnites([], AllPlaced(cs, probe));
  }

  /** Of what a detection pass returns, no two Ollama or llama.cpp engines share
      a process, whatever the probes answer: the process table need only list no
      PID twice, and the containers share none. */
  lemma DetectedOwnersAreDisjoint(
    ps: seq<Process>, ds: seq<DetectedEngine>, probe: Probe, engines: seq<DetectedEngine>, i: nat, j: nat)
    requires UniquePids(ps) && IsDockerScan(ds) && IsDetectionOf(ps, ds, probe, engines)
    requires i < |engines| && j < |engines| && i != j
    requires engines[i].engineType == Ollama || engines[i].engineType == LlamaCpp
    requires engines[j].engineType == Ollama || engines[j].engineType == LlamaCpp
    ensures forall pid :: pid in engines[i].pids ==> pid !in engines[j].pids
  {
    hide IsScanOf, Merged, Verified;
    var native :| IsScanOf(ps, native) && engines == Verified(Merged(native, ds), probe);
    VerifiedKeysAreUnique(Merged(native, ds), probe);
    forall pid | pid in engines[i].pids ensures pid !in engines[j].pids {
      if pid in engines[j].pids {
        OneEngine(ps, native, ds, probe, engines[i], engines[j], pid);
      }
    }
  }

  /** And a container's process is in at most one engine, which is in Docker. */
  lemma DetectedContainersStayApart(
    ps: seq<Process>, ds: seq<DetectedEngine>, probe: Probe, engines: seq<DetectedEngine>, i: nat, pid: nat)
    requires IsDockerScan(ds) && IsDetectionOf(ps, ds, probe, engines)
    requires Listed(ds, pid) && i < |engines| && pid in engines[i].pids
    ensures engines[i].mode.Docker?
    ensures forall j :: 0 <= j < |engines| && pid in engines[j].pids ==> j == i
  {
    hide IsScanOf, Merged, Verified;
    var native :| IsScanOf(ps, native) && engines == Verified(Merged(native, ds), probe);
    var cs := Merged(native, ds);
    VerifiedKeysAreUnique(cs, probe);
    forall j | 0 <= j < |engines| && pid in engines[j].pids ensures j == i {
      OneEngine(ps, native, ds, probe, engines[i], engines[j], pid);
    }
    var k := HeldFrom(cs, probe, engines[i], pid);
    MergedContainerIsDocker(ps, native, ds, k, pid);
  }

  lemma MergedContainerIsDocker(
    ps: seq<Process>, native: seq<DetectedEngine>, ds: seq<DetectedEngine>, k: nat, pid: nat)
    requires IsScanOf(ps, native) && IsDockerScan(ds) && Listed(ds, pid)
    requires k < |Merged(native, ds)| && pid in Merged(native, ds)[k].pids
    ensures Merged(native, ds)[k].mode.Docker?
  {
    assert UniqueKeys(native);
    hide IsScanOf, Merged;
    var d :| d in ds && pid in d.pids;
    var at := ContainerProcessIsDocker(native, ds, d, pid);
  }

  lemma {:induction false} AbsorbedAllFrom(cs: seq<DetectedEngine>, ds: seq<DetectedEngine>)
    requires forall c :: c in cs ==> c.mode.Native?
    ensures forall k :: k in AbsorbedAll(cs, ds).0 ==> k.mode.Native?
  {
    forall k | k in AbsorbedAll(cs, ds).0 ensures k.mode.Native? {
      var c := AbsorbedAllKeeps(cs, ds, k);
    }
  }

  lemma MergedDockerExactly(ps: seq<Process>, native: seq<DetectedEngine>, ds: seq<DetectedEngine>, key: Key)
    requires IsScanOf(ps, native)
    ensures HasDocker(Merged(native, ds), key) <==> HasDocker(ds, key)
  {
    assert forall d :: d in native ==> Describes(ps, d);
    AbsorbAllHolds(native, ds);
    AbsorbedAllFrom(native, ds);
    AfterHolds(native, ds);
    JoinAllUnites(AbsorbedAll(native, ds).0, AbsorbedAll(native, ds).1);
    hide IsScanOf, AbsorbedAll, JoinAll;
  }

  /** An engine is in Docker exactly when a candidate that a container was found
      for is verified there: what the process scan alone finds is native. */
  lemma DetectedDockerExactly(
    ps: seq<Process>, ds: seq<DetectedEngine>, probe: Probe, engines: seq<DetectedEngine>, key: Key)
    returns (native: seq<DetectedEngine>)
    requires IsDetectionOf(ps, ds, probe, engines)
    ensures IsScanOf(ps, native) && engines == Verified(Merged(native, ds), probe)
    ensures HasDocker(engines, key) <==>
      exists i: nat :: FoundUnder(Merged(native, ds), probe, i, key) && HasDocker(ds, Merged(native, ds)[i].Key())
  {
    native :| IsScanOf(ps, native) && engines == Verified(Merged(native, ds), probe);
    var cs := Merged(native, ds);
    VerifiedExactly(cs, probe, key);
    MergeKeepsUnique(ps, native, ds);
    forall i: nat | FoundUnder(cs, probe, i, key)
      ensures i < |cs| && (cs[i].mode.Docker? <==> HasDocker(ds, cs[i].Key()))
    {
      MergedDockerExactly(ps, native, ds, cs[i].Key());
      SoleOfKey(cs, cs[i]);
    }
    hide IsScanOf, Merged, Verified;
  }

  lemma MergeKeepsUnique(ps: seq<Process>, native: seq<DetectedEngine>, ds: seq<DetectedEngine>)
    requires IsScanOf(ps, native)
    ensures UniqueKeys(Merged(native, ds))
  {
    MergeConserves(native, ds);
  }
}
