/**
  Expanding root PIDs to their process trees (src/engines/detector.rs, `expand_pid_tree`).
  Parent data is whatever the scan read: a PID may repeat, a parent may be
  missing, and parents may form cycles.
*/
module PidTree {
  import opened Basics

  datatype Link = Link(pid: nat, parent: Option<nat>)

  // ---- Reachability, defined by paths ----

  ghost predicate Child(tree: seq<Link>, parent: nat, pid: nat) {
    Link(pid, Some(parent)) in tree
  }

  ghost predicate IsPath(tree: seq<Link>, path: seq<nat>, from: nat, to: nat) {
    && |path| > 0 && path[0] == from && path[|path| - 1] == to
    && forall i :: 0 <= i < |path| - 1 ==> Child(tree, path[i], path[i + 1])
  }

  /** `to` is `from` or a descendant of it. */
  ghost predicate Reaches(tree: seq<Link>, from: nat, to: nat) {
    exists path :: IsPath(tree, path, from, to)
  }

  ghost predicate ReachedFrom(tree: seq<Link>, roots: seq<nat>, pid: nat) {
    exists r :: r in roots && Reaches(tree, r, pid)
  }

  lemma ReachesSelf(tree: seq<Link>, p: nat)
    ensures Reaches(tree, p, p)
  {
    assert IsPath(tree, [p], p, p);
  }

  lemma ReachesChild(tree: seq<Link>, a: nat, b: nat, c: nat)
    requires Reaches(tree, a, b) && Child(tree, b, c)
    ensures Reaches(tree, a, c)
  {
    var path :| IsPath(tree, path, a, b);
    assert IsPath(tree, path + [c], a, c);
  }

  lemma {:induction false} ClosedHoldsPath(tree: seq<Link>, s: set<nat>, path: seq<nat>, from: nat, to: nat)
    requires from in s && IsPath(tree, path, from, to)
    requires forall p, c :: p in s && Child(tree, p, c) ==> c in s
    ensures to in s
    decreases |path|
  {
    if |path| > 1 {
      var n := |path| - 1;
      ClosedHoldsPath(tree, s, path[..n], from, path[n - 1]);
      assert Child(tree, path[n - 1], path[n]);
    }
  }

  lemma ClosedHolds(tree: seq<Link>, s: set<nat>, from: nat, to: nat)
    requires from in s && Reaches(tree, from, to)
    requires forall p, c :: p in s && Child(tree, p, c) ==> c in s
    ensures to in s
  {
    var path :| IsPath(tree, path, from, to);
    ClosedHoldsPath(tree, s, path, from, to);
  }

  // ---- Sorting ----

  ghost predicate StrictlyAscending(s: seq<nat>) {
    forall i, j :: 0 <= i < j < |s| ==> s[i] < s[j]
  }

  ghost predicate NoDuplicates(s: seq<nat>) {
    forall i, j :: 0 <= i < j < |s| ==> s[i] != s[j]
  }

  function InsertPid(x: nat, s: seq<nat>): (r: seq<nat>)
    ensures |r| == |s| + 1 && forall v :: v in r <==> v in s || v == x
    ensures StrictlyAscending(s) && x !in s ==> StrictlyAscending(r)
  {
    if |s| == 0 then [x]
    else if x <= s[0] then [x] + s
    else
      var rest := InsertPid(x, s[1..]);
      assert forall j :: 0 <= j < |rest| ==> rest[j] in rest;
      [s[0]] + rest
  }

  function SortPids(s: seq<nat>): (r: seq<nat>)
    ensures |r| == |s| && forall v :: v in r <==> v in s
    ensures NoDuplicates(s) ==> StrictlyAscending(r)
  {
    if |s| == 0 then [] else InsertPid(s[0], SortPids(s[1..]))
  }

  // ---- The search ----

  method ChildrenOf(tree: seq<Link>) returns (children: map<nat, seq<nat>>)
    ensures forall p, c :: (p in children && c in children[p]) <==> Child(tree, p, c)
  {
    children := map[];
    for i := 0 to |tree|
      invariant forall p, c :: (p in children && c in children[p]) <==> Child(tree[..i], p, c)
    {
      var Link(pid, parent) := tree[i];
      assert forall p, c :: Child(tree[..i + 1], p, c) <==> Child(tree[..i], p, c) || tree[i] == Link(c, Some(p)) by {
        assert tree[..i + 1] == tree[..i] + [tree[i]];
      }
      if parent.Some? {
        var p := parent.value;
        children := children[p := (if p in children then children[p] else []) + [pid]];
      }
    }
    assert tree[..|tree|] == tree;
  }

  /** The search under way: what is seen has been reached, `result` lists it
      once, and the children of all but the queued and the `busy` are seen. */
  ghost predicate Searching(
    tree: seq<Link>, roots: seq<nat>, seen: set<nat>, queue: seq<nat>, result: seq<nat>, busy: set<nat>)
  {
    && NoDuplicates(queue) && NoDuplicates(result)
    && (forall p :: p in queue ==> p in seen && p !in busy)
    && (forall p :: p in result <==> p in seen)
    && (forall p :: p in seen ==> ReachedFrom(tree, roots, p))
    && (forall p, c :: p in seen && p !in queue && p !in busy && Child(tree, p, c) ==> c in seen)
  }

  lemma Found(
    tree: seq<Link>, roots: seq<nat>, seen: set<nat>, queue: seq<nat>, result: seq<nat>, pid: nat, child: nat)
    requires Searching(tree, roots, seen, queue, result, {pid})
    requires pid in seen && child !in seen && Child(tree, pid, child)
    ensures Searching(tree, roots, seen + {child}, queue + [child], result + [child], {pid})
  {
    var r :| r in roots && Reaches(tree, r, pid);
    ReachesChild(tree, r, pid, child);
  }

  lemma Popped(tree: seq<Link>, roots: seq<nat>, seen: set<nat>, queue: seq<nat>, result: seq<nat>)
    requires |queue| > 0 && Searching(tree, roots, seen, queue, result, {})
    ensures var n := |queue| - 1;
      queue[n] in seen && Searching(tree, roots, seen, queue[..n], result, {queue[n]})
  {
    var n := |queue| - 1;
    assert forall p :: p in queue <==> p in queue[..n] || p == queue[n];
  }

  lemma Visited(
    tree: seq<Link>, roots: seq<nat>, seen: set<nat>, queue: seq<nat>, result: seq<nat>, pid: nat, below: seq<nat>)
    requires Searching(tree, roots, seen, queue, result, {pid})
    requires forall c :: Child(tree, pid, c) ==> c in below
    requires forall c :: c in below ==> c in seen
    ensures Searching(tree, roots, seen, queue, result, {})
  {
    hide ReachedFrom, Child;
  }

  /** Every PID the search can meet. */
  ghost function Universe(tree: seq<Link>, roots: seq<nat>): set<nat> {
    (set p | p in roots) + (set l | l in tree :: l.pid)
  }

  /** One popped PID: its unseen children join the result and the queue. */
  method Visit(
    ghost tree: seq<Link>, ghost roots: seq<nat>, pid: nat, below: seq<nat>, seen: set<nat>, queue: seq<nat>, result: seq<nat>)
    returns (seen': set<nat>, queue': seq<nat>, result': seq<nat>)
    requires Searching(tree, roots, seen, queue, result, {pid}) && pid in seen
    requires seen <= Universe(tree, roots)
    requires forall c :: c in below <==> Child(tree, pid, c)
    ensures Searching(tree, roots, seen', queue', result', {})
    ensures seen <= seen' <= Universe(tree, roots)
    ensures (seen' == seen && queue' == queue)
         || |Universe(tree, roots) - seen'| < |Universe(tree, roots) - seen|
  {
    hide Searching, Universe, Child;
    seen', queue', result' := seen, queue, result;
    for i := 0 to |below|
      invariant Searching(tree, roots, seen', queue', result', {pid})
      invariant seen <= seen' <= Universe(tree, roots)
      invariant forall c :: c in below[..i] ==> c in seen'
      invariant (seen' == seen && queue' == queue)
             || |Universe(tree, roots) - seen'| < |Universe(tree, roots) - seen|
    {
      var child := below[i];
      assert Child(tree, pid, child);
      assert below[..i + 1] == below[..i] + [child];
      if child !in seen' {
        Found(tree, roots, seen', queue', result', pid, child);
        ChildIsKnown(tree, roots, pid, child);
        assert Universe(tree, roots) - (seen' + {child}) == (Universe(tree, roots) - seen') - {child};
        seen' := seen' + {child};
        result' := result' + [child];
        queue' := queue' + [child];
      }
    }
    assert below[..|below|] == below;
    Visited(tree, roots, seen', queue', result', pid, below);
  }

  lemma ChildIsKnown(tree: seq<Link>, roots: seq<nat>, pid: nat, child: nat)
    requires Child(tree, pid, child)
    ensures child in Universe(tree, roots)
  {
    assert Link(child, Some(pid)) in tree;
  }

  lemma Done(tree: seq<Link>, roots: seq<nat>, seen: set<nat>, result: seq<nat>)
    requires Searching(tree, roots, seen, [], result, {})
    requires forall p :: p in roots ==> p in seen
    ensures NoDuplicates(result)
    ensures forall pid :: pid in result <==> ReachedFrom(tree, roots, pid)
  {
    hide Reaches, Child;
    assert forall p, c :: p in seen && Child(tree, p, c) ==> c in seen;
    forall p | ReachedFrom(tree, roots, p) ensures p in seen {
      var r :| r in roots && Reaches(tree, r, p);
      ClosedHolds(tree, seen, r, p);
    }
  }

  /** The roots and everything below them, ascending. */
  method ExpandPidTree(roots: seq<nat>, tree: seq<Link>) returns (result: seq<nat>)
    ensures StrictlyAscending(result)
    ensures forall pid :: pid in result <==> ReachedFrom(tree, roots, pid)
  {
    var children := ChildrenOf(tree);
    var seen: set<nat> := {};
    var queue: seq<nat> := [];
    for i := 0 to |roots|
      invariant NoDuplicates(queue)
      invariant forall p :: p in queue <==> p in seen
      invariant forall p :: p in seen <==> p in roots[..i]
    {
      assert roots[..i + 1] == roots[..i] + [roots[i]];
      if roots[i] !in seen {
        seen := seen + {roots[i]};
        queue := queue + [roots[i]];
      }
    }
    assert roots[..|roots|] == roots;
    result := queue;
    forall p | p in roots ensures ReachedFrom(tree, roots, p) {
      ReachesSelf(tree, p);
    }
    while |queue| > 0
      invariant Searching(tree, roots, seen, queue, result, {})
      invariant forall p :: p in roots ==> p in seen
      invariant seen <= Universe(tree, roots)
      decreases |Universe(tree, roots) - seen|, |queue|
    {
      hide Searching, Child, ReachedFrom, Universe;
      Popped(tree, roots, seen, queue, result);
      var pid := queue[|queue| - 1];
      queue := queue[..|queue| - 1];
      var below := if pid in children then children[pid] else [];
      seen, queue, result := Visit(tree, roots, pid, below, seen, queue, result);
    }
    Done(tree, roots, seen, result);
    result := SortPids(result);
  }
}
