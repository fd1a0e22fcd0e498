/**
  Engine candidates from a host's process table (src/engines/detector.rs,
  `engines_from_processes`).  What a command line and environment say about a
  process is settled beforehand: which server it launches, if any, and where
  that listens.
*/
module HostScan {
  import opened Basics
  import opened Engines
  import opened PidTree

  /** The server a command line launches; `listens` is `None` for one bound to
      no TCP port its launch names. */
  datatype Launch = Launch(
    engineType: EngineType,
    listens: Option<string>,
    fallbacks: seq<string>,
    servedModel: Option<string>)

  datatype Process = Process(pid: nat, parent: Option<nat>, launch: Option<Launch>)

  /** Whether an engine type's server runs servers of its own. */
  predicate OwnsItsDescendants(t: EngineType) {
    t.Ollama? || t.LlamaCpp?
  }

  predicate IsOwner(p: Process) {
    p.launch.Some? && OwnsItsDescendants(p.launch.value.engineType)
  }

  predicate Listens(p: Process) {
    p.launch.Some? && p.launch.value.listens.Some?
  }

  function KeyOf(p: Process): Key
    requires Listens(p)
  {
    Keyed(p.launch.value.engineType, p.launch.value.listens.value)
  }

  function TreeOf(ps: seq<Process>): seq<Link> {
    seq(|ps|, i requires 0 <= i < |ps| => Link(ps[i].pid, ps[i].parent))
  }

  // ---- What the scan is to find ----

  ghost predicate Below(tree: seq<Link>, ancestor: nat, pid: nat) {
    exists c :: Child(tree, ancestor, c) && Reaches(tree, c, pid)
  }

  /** `pid` is a proper descendant of an Ollama or llama.cpp server. */
  ghost predicate Owned(ps: seq<Process>, pid: nat) {
    exists o :: o in ps && IsOwner(o) && Below(TreeOf(ps), o.pid, pid)
  }

  /** A process the scan takes for an engine's server. */
  ghost predicate IsRoot(ps: seq<Process>, p: Process) {
    p in ps && Listens(p) && !Owned(ps, p.pid)
  }

  ghost predicate RootOf(ps: seq<Process>, p: Process, key: Key) {
    IsRoot(ps, p) && KeyOf(p) == key
  }

  /** The first server of its key stands at `i` in the table. */
  ghost predicate FirstAt(ps: seq<Process>, i: nat, key: Key) {
    i < |ps| && RootOf(ps, ps[i], key) && forall j :: 0 <= j < i ==> !RootOf(ps, ps[j], key)
  }

  /** The candidate holds exactly the process trees of its key's servers, and
      what the first of them says of its model and other ports. */
  ghost predicate Describes(ps: seq<Process>, d: DetectedEngine) {
    && (exists i: nat :: FirstAt(ps, i, d.Key())
         && d.servedModel == ps[i].launch.value.servedModel && d.fallbacks == ps[i].launch.value.fallbacks)
    && d.mode == Native && d.containerId == None
    && StrictlyAscending(d.pids)
    && (forall pid :: pid in d.pids <==> exists p :: RootOf(ps, p, d.Key()) && Reaches(TreeOf(ps), p.pid, pid))
  }

  /** Candidates come in the order of their first servers. */
  ghost predicate InOrder(ps: seq<Process>, detected: seq<DetectedEngine>) {
    forall a, b, i: nat, j: nat ::
      0 <= a < b < |detected| && FirstAt(ps, i, detected[a].Key()) && FirstAt(ps, j, detected[b].Key()) ==> i < j
  }

  ghost predicate IsScanOf(ps: seq<Process>, detected: seq<DetectedEngine>) {
    && UniqueKeys(detected)
    && InOrder(ps, detected)
    && (forall d :: d in detected ==> Describes(ps, d))
    && (forall p :: IsRoot(ps, p) ==> exists d :: d in detected && d.Key() == KeyOf(p))
  }

  // ---- The scan ----

  /** The owned processes, as the code finds them: from the owners' children down. */
  method OwnedPids(ps: seq<Process>, tree: seq<Link>) returns (owned: seq<nat>)
    requires tree == TreeOf(ps)
    ensures forall pid :: pid in owned <==> Owned(ps, pid)
  {
    var owners := set p | p in ps && IsOwner(p) :: p.pid;
    var ownersChildren: seq<nat> := [];
    for i := 0 to |ps|
      invariant forall c :: c in ownersChildren <==>
        exists p :: p in ps[..i] && p.pid == c && p.parent.Some? && p.parent.value in owners
    {
      assert ps[..i + 1] == ps[..i] + [ps[i]];
      if ps[i].parent.Some? && ps[i].parent.value in owners {
        ownersChildren := ownersChildren + [ps[i].pid];
      }
    }
    assert ps[..|ps|] == ps;
    owned := ExpandPidTree(ownersChildren, tree);
    forall pid ensures ReachedFrom(tree, ownersChildren, pid) <==> Owned(ps, pid) {
      OwnersChildren(ps, tree, owners, ownersChildren, pid);
    }
  }

  lemma OwnersChildren(ps: seq<Process>, tree: seq<Link>, owners: set<nat>, roots: seq<nat>, pid: nat)
    requires tree == TreeOf(ps)
    requires owners == set p | p in ps && IsOwner(p) :: p.pid
    requires forall c :: c in roots <==> exists p :: p in ps && p.pid == c && p.parent.Some? && p.parent.value in owners
    ensures ReachedFrom(tree, roots, pid) <==> Owned(ps, pid)
  {
    if ReachedFrom(tree, roots, pid) {
      var c :| c in roots && Reaches(tree, c, pid);
      var p :| p in ps && p.pid == c && p.parent.Some? && p.parent.value in owners;
      var o :| o in ps && IsOwner(o) && o.pid == p.parent.value;
      ChildInTree(ps, p);
      assert Child(tree, o.pid, c);
      assert Below(tree, o.pid, pid);
    }
    if Owned(ps, pid) {
      var o :| o in ps && IsOwner(o) && Below(TreeOf(ps), o.pid, pid);
      var c :| Child(tree, o.pid, c) && Reaches(tree, c, pid);
      var i :| 0 <= i < |tree| && tree[i] == Link(c, Some(o.pid));
      assert ps[i] in ps;
      assert c in roots;
    }
  }

  lemma ChildInTree(ps: seq<Process>, p: Process)
    requires p in ps
    ensures Link(p.pid, p.parent) in TreeOf(ps)
  {
    var i :| 0 <= i < |ps| && ps[i] == p;
    assert TreeOf(ps)[i] == Link(p.pid, p.parent);
  }

  /** After the first `n` processes: one candidate per key met, holding the
      PIDs of its servers so far. */
  ghost predicate Gathered(ps: seq<Process>, n: nat, detected: seq<DetectedEngine>, slots: map<Key, nat>)
    requires n <= |ps|
  {
    && Indexed(detected, slots)
    && (forall i :: 0 <= i < |detected| ==> Partial(ps, n, detected[i]))
    && AllMet(ps, n, slots)
    && InOrder(ps, detected)
  }

  /** `slots` says where in `detected` each key is. */
  ghost predicate Indexed(detected: seq<DetectedEngine>, slots: map<Key, nat>) {
    && (forall i :: 0 <= i < |detected| ==> detected[i].Key() in slots && slots[detected[i].Key()] == i)
    && (forall k :: k in slots ==> slots[k] < |detected| && detected[slots[k]].Key() == k)
  }

  ghost predicate AllMet(ps: seq<Process>, n: nat, slots: map<Key, nat>)
    requires n <= |ps|
  {
    forall i :: 0 <= i < n && IsRoot(ps, ps[i]) ==> KeyOf(ps[i]) in slots
  }

  ghost predicate Partial(ps: seq<Process>, n: nat, d: DetectedEngine)
    requires n <= |ps|
  {
    && (exists i :: 0 <= i < n && FirstAt(ps, i, d.Key())
         && d.servedModel == ps[i].launch.value.servedModel && d.fallbacks == ps[i].launch.value.fallbacks)
    && d.mode == Native && d.containerId == None
    && (forall pid :: pid in d.pids <==> exists i :: 0 <= i < n && RootOf(ps, ps[i], d.Key()) && ps[i].pid == pid)
  }

  lemma PartialSkips(ps: seq<Process>, n: nat, d: DetectedEngine)
    requires n < |ps| && Partial(ps, n, d) && !RootOf(ps, ps[n], d.Key())
    ensures Partial(ps, n + 1, d)
  {
    forall pid ensures pid in d.pids <==> exists i :: 0 <= i < n + 1 && RootOf(ps, ps[i], d.Key()) && ps[i].pid == pid {
      if i :| 0 <= i < n + 1 && RootOf(ps, ps[i], d.Key()) && ps[i].pid == pid {
        assert i != n;
      }
    }
  }

  lemma PartialJoins(ps: seq<Process>, n: nat, d: DetectedEngine)
    requires n < |ps| && Partial(ps, n, d) && RootOf(ps, ps[n], d.Key())
    ensures Partial(ps, n + 1, d.(pids := d.pids + [ps[n].pid]))
  {
    var d' := d.(pids := d.pids + [ps[n].pid]);
    assert d'.Key() == d.Key();
    forall pid ensures pid in d'.pids <==> exists i :: 0 <= i < n + 1 && RootOf(ps, ps[i], d'.Key()) && ps[i].pid == pid {
      if i :| 0 <= i < n + 1 && RootOf(ps, ps[i], d.Key()) && ps[i].pid == pid {
        assert i < n ==> pid in d.pids;
      }
      if pid == ps[n].pid {
        assert RootOf(ps, ps[n], d'.Key()) && ps[n].pid == pid;
      }
    }
  }

  lemma PartialStarts(ps: seq<Process>, n: nat, d: DetectedEngine)
    requires n < |ps| && RootOf(ps, ps[n], d.Key())
    requires forall j :: 0 <= j < n ==> !RootOf(ps, ps[j], d.Key())
    requires d.servedModel == ps[n].launch.value.servedModel && d.fallbacks == ps[n].launch.value.fallbacks
    requires d.mode == Native && d.containerId == None && d.pids == [ps[n].pid]
    ensures Partial(ps, n + 1, d)
  {
    assert FirstAt(ps, n, d.Key());
    forall pid ensures pid in d.pids <==> exists i :: 0 <= i < n + 1 && RootOf(ps, ps[i], d.Key()) && ps[i].pid == pid {
      if i :| 0 <= i < n + 1 && RootOf(ps, ps[i], d.Key()) && ps[i].pid == pid {
        assert i == n;
      }
      if pid == ps[n].pid {
        assert RootOf(ps, ps[n], d.Key()) && ps[n].pid == pid;
      }
    }
  }

  lemma GatheredSkips(ps: seq<Process>, n: nat, detected: seq<DetectedEngine>, slots: map<Key, nat>)
    requires n < |ps| && Gathered(ps, n, detected, slots) && !IsRoot(ps, ps[n])
    ensures Gathered(ps, n + 1, detected, slots)
  {
    hide Partial, IsRoot;
    forall i | 0 <= i < |detected| ensures Partial(ps, n + 1, detected[i]) {
      PartialSkips(ps, n, detected[i]);
    }
  }

  lemma KeepsOrder(ps: seq<Process>, detected: seq<DetectedEngine>, detected': seq<DetectedEngine>)
    requires InOrder(ps, detected) && |detected| == |detected'|
    requires forall i :: 0 <= i < |detected| ==> detected[i].Key() == detected'[i].Key()
    ensures InOrder(ps, detected')
  {
    hide FirstAt;
  }

  lemma JoinedPartials(ps: seq<Process>, n: nat, detected: seq<DetectedEngine>, slot: nat)
    requires n < |ps| && slot < |detected| && forall i :: 0 <= i < |detected| ==> Partial(ps, n, detected[i])
    requires RootOf(ps, ps[n], detected[slot].Key())
    requires forall i :: 0 <= i < |detected| && i != slot ==> detected[i].Key() != detected[slot].Key()
    ensures Partial(ps, n + 1, detected[slot].(pids := detected[slot].pids + [ps[n].pid]))
    ensures forall i :: 0 <= i < |detected| && i != slot ==> Partial(ps, n + 1, detected[i])
  {
    PartialJoins(ps, n, detected[slot]);
    forall i | 0 <= i < |detected| && i != slot ensures Partial(ps, n + 1, detected[i]) {
      hide Partial, IsRoot;
      PartialSkips(ps, n, detected[i]);
    }
  }

  lemma GatheredJoins(ps: seq<Process>, n: nat, detected: seq<DetectedEngine>, slots: map<Key, nat>, slot: nat)
    requires n < |ps| && Gathered(ps, n, detected, slots) && IsRoot(ps, ps[n])
    requires KeyOf(ps[n]) in slots && slot == slots[KeyOf(ps[n])] && slot < |detected|
    ensures Gathered(ps, n + 1, detected[slot := detected[slot].(pids := detected[slot].pids + [ps[n].pid])], slots)
  {
    hide Partial, InOrder, Owned, FirstAt, Indexed;
    var joined := detected[slot := detected[slot].(pids := detected[slot].pids + [ps[n].pid])];
    SlotOf(detected, slots, slot, KeyOf(ps[n]));
    KeepsIndex(detected, joined, slots);
    KeepsOrder(ps, detected, joined);
    JoinedPartials(ps, n, detected, slot);
  }

  lemma SlotOf(detected: seq<DetectedEngine>, slots: map<Key, nat>, slot: nat, key: Key)
    requires Indexed(detected, slots) && key in slots && slot == slots[key]
    ensures slot < |detected| && detected[slot].Key() == key
    ensures forall i :: 0 <= i < |detected| && i != slot ==> detected[i].Key() != key
  {
  }

  lemma KeepsIndex(detected: seq<DetectedEngine>, detected': seq<DetectedEngine>, slots: map<Key, nat>)
    requires Indexed(detected, slots) && |detected| == |detected'|
    requires forall i :: 0 <= i < |detected| ==> detected[i].Key() == detected'[i].Key()
    ensures Indexed(detected', slots)
  {
  }

  lemma StartedBefore(ps: seq<Process>, n: nat, d: DetectedEngine, i: nat)
    requires n <= |ps| && Partial(ps, n, d) && FirstAt(ps, i, d.Key())
    ensures i < n
  {
  }

  lemma GatheredStarts(ps: seq<Process>, n: nat, detected: seq<DetectedEngine>, slots: map<Key, nat>, d: DetectedEngine)
    requires n < |ps| && Gathered(ps, n, detected, slots) && IsRoot(ps, ps[n])
    requires KeyOf(ps[n]) == d.Key() && d.Key() !in slots
    requires d.servedModel == ps[n].launch.value.servedModel && d.fallbacks == ps[n].launch.value.fallbacks
    requires d.mode == Native && d.containerId == None && d.pids == [ps[n].pid]
    ensures Gathered(ps, n + 1, detected + [d], slots[d.Key() := |detected|])
  {
    PartialStarts(ps, n, d);
    StartsLast(ps, n, detected, d);
    hide Partial, IsRoot, InOrder;
    forall i | 0 <= i < |detected| ensures Partial(ps, n + 1, detected[i]) {
      PartialSkips(ps, n, detected[i]);
    }
  }

  lemma StartsLast(ps: seq<Process>, n: nat, detected: seq<DetectedEngine>, d: DetectedEngine)
    requires n < |ps| && InOrder(ps, detected) && (forall i :: 0 <= i < |detected| ==> Partial(ps, n, detected[i]))
    requires forall j :: 0 <= j < n ==> !RootOf(ps, ps[j], d.Key())
    ensures InOrder(ps, detected + [d])
  {
    forall a, i: nat | 0 <= a < |detected| && FirstAt(ps, i, detected[a].Key()) ensures i < n {
      StartedBefore(ps, n, detected[a], i);
    }
    forall j: nat | FirstAt(ps, j, d.Key()) ensures n <= j {
    }
    hide FirstAt, Partial;
  }

  method Gather(ps: seq<Process>, owned: seq<nat>) returns (detected: seq<DetectedEngine>, ghost slots: map<Key, nat>)
    requires forall pid :: pid in owned <==> Owned(ps, pid)
    ensures Gathered(ps, |ps|, detected, slots)
  {
    detected := [];
    var seen: map<Key, nat> := map[];
    for n := 0 to |ps|
      invariant Gathered(ps, n, detected, seen)
    {
      hide Partial, Owned;
      var p := ps[n];
      if p.pid in owned || !Listens(p) {
        GatheredSkips(ps, n, detected, seen);
      } else {
        var key := KeyOf(p);
        if key in seen {
          var slot := seen[key];
          GatheredJoins(ps, n, detected, seen, slot);
          detected := detected[slot := detected[slot].(pids := detected[slot].pids + [p.pid])];
        } else {
          var d := DetectedEngine(
            key.engineType, key.endpoint, Native, p.launch.value.servedModel, [p.pid], None, p.launch.value.fallbacks);
          GatheredStarts(ps, n, detected, seen, d);
          seen := seen[key := |detected|];
          detected := detected + [d];
        }
      }
    }
    slots := seen;
  }

  lemma ScanIsWhole(ps: seq<Process>, found: seq<DetectedEngine>, slots: map<Key, nat>, detected: seq<DetectedEngine>)
    requires Gathered(ps, |ps|, found, slots)
    requires |detected| == |found| && forall i :: 0 <= i < |found| ==> detected[i].Key() == found[i].Key()
    requires forall i :: 0 <= i < |detected| ==> Describes(ps, detected[i])
    ensures IsScanOf(ps, detected)
  {
    hide Partial, Describes, FirstAt;
    forall p | IsRoot(ps, p) ensures exists d :: d in detected && d.Key() == KeyOf(p) {
      var i :| 0 <= i < |ps| && ps[i] == p;
      assert detected[slots[KeyOf(p)]] in detected;
    }
  }

  /** One candidate per engine endpoint, with its servers' whole process trees. */
  method EnginesFromProcesses(ps: seq<Process>) returns (detected: seq<DetectedEngine>)
    ensures IsScanOf(ps, detected)
  {
    hide IsScanOf, Describes, Owned;
    var tree := TreeOf(ps);
    var owned := OwnedPids(ps, tree);
    ghost var slots;
    detected, slots := Gather(ps, owned);
    ghost var found := detected;
    for i := 0 to |detected|
      invariant |detected| == |found|
      invariant forall j :: i <= j < |found| ==> detected[j] == found[j]
      invariant forall j :: 0 <= j < i ==> Describes(ps, detected[j])
      invariant forall j :: 0 <= j < |found| ==> detected[j].Key() == found[j].Key()
    {
      assert Partial(ps, |ps|, found[i]);
      hide Partial, Gathered;
      var pids := ExpandPidTree(detected[i].pids, tree);
      PartialDescribes(ps, detected[i], pids);
      detected := detected[i := detected[i].(pids := pids)];
    }
    ScanIsWhole(ps, found, slots, detected);
  }

  lemma PartialDescribes(ps: seq<Process>, d: DetectedEngine, pids: seq<nat>)
    requires Partial(ps, |ps|, d)
    requires StrictlyAscending(pids)
    requires forall pid :: pid in pids <==> ReachedFrom(TreeOf(ps), d.pids, pid)
    ensures Describes(ps, d.(pids := pids))
  {
    var d' := d.(pids := pids);
    assert d'.Key() == d.Key();
    forall pid
      ensures ReachedFrom(TreeOf(ps), d.pids, pid) <==>
        exists p :: RootOf(ps, p, d.Key()) && Reaches(TreeOf(ps), p.pid, pid)
    {
      if ReachedFrom(TreeOf(ps), d.pids, pid) {
        var r :| r in d.pids && Reaches(TreeOf(ps), r, pid);
        var i :| 0 <= i < |ps| && RootOf(ps, ps[i], d.Key()) && ps[i].pid == r;
      }
      if p :| RootOf(ps, p, d.Key()) && Reaches(TreeOf(ps), p.pid, pid) {
        var i :| 0 <= i < |ps| && ps[i] == p;
        assert p.pid in d.pids;
      }
    }
    var i :| 0 <= i < |ps| && FirstAt(ps, i, d.Key())
         && d.servedModel == ps[i].launch.value.servedModel && d.fallbacks == ps[i].launch.value.fallbacks;
    assert FirstAt(ps, i, d'.Key());
  }

  // ---- Ownership ----

  ghost predicate UniquePids(ps: seq<Process>) {
    forall i, j :: 0 <= i < j < |ps| ==> ps[i].pid != ps[j].pid
  }

  lemma OneParent(ps: seq<Process>, a: nat, b: nat, c: nat)
    requires UniquePids(ps) && Child(TreeOf(ps), a, c) && Child(TreeOf(ps), b, c)
    ensures a == b
  {
    var i :| 0 <= i < |ps| && TreeOf(ps)[i] == Link(c, Some(a));
    var j :| 0 <= j < |ps| && TreeOf(ps)[j] == Link(c, Some(b));
    assert ps[i].pid == ps[j].pid;
  }

  /** With one parent a process, two ancestors of it are on one line. */
  lemma {:induction false} CommonDescendant(
    ps: seq<Process>, a: nat, b: nat, pid: nat, path: seq<nat>, path': seq<nat>)
    requires UniquePids(ps)
    requires IsPath(TreeOf(ps), path, a, pid) && IsPath(TreeOf(ps), path', b, pid)
    ensures Reaches(TreeOf(ps), a, b) || Reaches(TreeOf(ps), b, a)
    decreases |path|
  {
    if |path| > 1 && |path'| > 1 {
      var n, m := |path| - 1, |path'| - 1;
      assert Child(TreeOf(ps), path[n - 1], path[n]) && Child(TreeOf(ps), path'[m - 1], path'[m]);
      OneParent(ps, path[n - 1], path'[m - 1], pid);
      CommonDescendant(ps, a, b, path[n - 1], path[..n], path'[..m]);
    }
  }

  lemma ProperlyBelow(tree: seq<Link>, a: nat, b: nat)
    requires Reaches(tree, a, b) && a != b
    ensures Below(tree, a, b)
  {
    var path :| IsPath(tree, path, a, b);
    assert Child(tree, path[0], path[1]);
    assert IsPath(tree, path[1..], path[1], b);
  }

  /** Of two servers above one process, one is above the other; and the upper
      one, having a server below it, is no Ollama or llama.cpp server. */
  lemma ServersAreNested(ps: seq<Process>, r: Process, s: Process, pid: nat)
    requires UniquePids(ps) && IsRoot(ps, r) && IsRoot(ps, s) && r.pid != s.pid
    requires Reaches(TreeOf(ps), r.pid, pid) && Reaches(TreeOf(ps), s.pid, pid)
    ensures (Below(TreeOf(ps), r.pid, s.pid) && !IsOwner(r)) || (Below(TreeOf(ps), s.pid, r.pid) && !IsOwner(s))
  {
    var path :| IsPath(TreeOf(ps), path, r.pid, pid);
    var path' :| IsPath(TreeOf(ps), path', s.pid, pid);
    CommonDescendant(ps, r.pid, s.pid, pid, path, path');
    hide Reaches, Below;
    if Reaches(TreeOf(ps), r.pid, s.pid) {
      ProperlyBelow(TreeOf(ps), r.pid, s.pid);
    } else {
      ProperlyBelow(TreeOf(ps), s.pid, r.pid);
    }
  }

  lemma ServerAbove(ps: seq<Process>, d: DetectedEngine, pid: nat) returns (p: Process)
    requires Describes(ps, d) && pid in d.pids
    ensures RootOf(ps, p, d.Key()) && Reaches(TreeOf(ps), p.pid, pid)
  {
    p :| RootOf(ps, p, d.Key()) && Reaches(TreeOf(ps), p.pid, pid);
  }

  lemma SamePid(ps: seq<Process>, r: Process, s: Process)
    requires UniquePids(ps) && r in ps && s in ps && r.pid == s.pid
    ensures r == s
  {
  }

  /** A server of `lower` is below a server of `upper`, whose engine type does
      not own what is below it. */
  ghost predicate NestedUnder(ps: seq<Process>, upper: DetectedEngine, lower: DetectedEngine) {
    && !OwnsItsDescendants(upper.engineType)
    && exists p, q :: RootOf(ps, p, upper.Key()) && RootOf(ps, q, lower.Key()) && Below(TreeOf(ps), p.pid, q.pid)
  }

  /** Two candidates share a process only where a server of one is below a
      server of the other that is neither Ollama nor llama.cpp. */
  lemma SharedPidsAreNested(ps: seq<Process>, detected: seq<DetectedEngine>, i: nat, j: nat, pid: nat)
    requires UniquePids(ps) && IsScanOf(ps, detected)
    requires i < |detected| && j < |detected| && i != j
    requires pid in detected[i].pids && pid in detected[j].pids
    ensures !(OwnsItsDescendants(detected[i].engineType) && OwnsItsDescendants(detected[j].engineType))
    ensures NestedUnder(ps, detected[i], detected[j]) || NestedUnder(ps, detected[j], detected[i])
  {
    hide Reaches, Below, Describes;
    var r := ServerAbove(ps, detected[i], pid);
    var s := ServerAbove(ps, detected[j], pid);
    if r.pid == s.pid {
      SamePid(ps, r, s);
    }
    ServersAreNested(ps, r, s, pid);
    assert NestedUnder(ps, detected[i], detected[j]) || NestedUnder(ps, detected[j], detected[i]);
  }

  /** A process is in at most one Ollama or llama.cpp engine. */
  lemma OwnersAreDisjoint(ps: seq<Process>, detected: seq<DetectedEngine>, i: nat, j: nat)
    requires UniquePids(ps) && IsScanOf(ps, detected)
    requires i < |detected| && j < |detected| && i != j
    requires detected[i].engineType == Ollama || detected[i].engineType == LlamaCpp
    requires detected[j].engineType == Ollama || detected[j].engineType == LlamaCpp
    ensures forall pid :: pid in detected[i].pids ==> pid !in detected[j].pids
  {
    forall pid | pid in detected[i].pids ensures pid !in detected[j].pids {
      if pid in detected[j].pids {
        SharedPidsAreNested(ps, detected, i, j, pid);
      }
    }
  }

  /** A server's own processes are never engines: the only servers among the
      processes of an Ollama or llama.cpp candidate are the candidate's own. */
  lemma NoServerBelowAnOwner(ps: seq<Process>, detected: seq<DetectedEngine>, d: DetectedEngine, p: Process)
    requires UniquePids(ps) && IsScanOf(ps, detected) && d in detected
    requires d.engineType == Ollama || d.engineType == LlamaCpp
    requires IsRoot(ps, p) && p.pid in d.pids
    ensures KeyOf(p) == d.Key()
  {
    hide Reaches, Below, Describes;
    var r := ServerAbove(ps, d, p.pid);
    if r.pid == p.pid {
      SamePid(ps, r, p);
    } else {
      ProperlyBelow(TreeOf(ps), r.pid, p.pid);
    }
  }

  // ---- Which servers are found ----

  /** A process that launches an Ollama or a llama.cpp server. */
  ghost predicate RunsServers(o: Process) {
    o.launch.Some? && (o.launch.value.engineType == Ollama || o.launch.value.engineType == LlamaCpp)
  }

  /** A process is left out of the scan exactly when it is below one of these. */
  lemma OwnedExactly(ps: seq<Process>, pid: nat)
    ensures Owned(ps, pid) <==> exists o :: o in ps && RunsServers(o) && Below(TreeOf(ps), o.pid, pid)
  {
    hide Below;
    assert forall o :: IsOwner(o) <==> RunsServers(o);
  }

  /** Every listening server that is below none of them is in a candidate of its
      type and address, and only such servers have a candidate. */
  lemma FoundExactly(ps: seq<Process>, detected: seq<DetectedEngine>, key: Key)
    requires IsScanOf(ps, detected)
    ensures (exists d :: d in detected && d.Key() == key) <==>
      exists p :: p in ps && Listens(p) && KeyOf(p) == key
        && forall o :: o in ps && RunsServers(o) ==> !Below(TreeOf(ps), o.pid, p.pid)
  {
    hide Below;
    forall p | p in ps && Listens(p) && KeyOf(p) == key
      ensures RootOf(ps, p, key) <==> forall o :: o in ps && RunsServers(o) ==> !Below(TreeOf(ps), o.pid, p.pid)
    {
      OwnedExactly(ps, p.pid);
    }
    if d :| d in detected && d.Key() == key {
      assert Describes(ps, d);
      var i: nat :| FirstAt(ps, i, d.Key());
    }
    hide Owned, RunsServers;
    if p :| RootOf(ps, p, key) {
      assert IsRoot(ps, p);
    }
  }
}
