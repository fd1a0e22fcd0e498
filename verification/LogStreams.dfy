/**
  The shared log streams (src/logs.rs): one background task a container, found
  through a registry, publishing to a channel its clients subscribe to.  A
  channel is named by the task that owns it, and closes to its receivers when
  the last of its senders is dropped.  Steps of clients and tasks interleave
  freely; what happens under the registry's lock is one step.
*/
module LogStreams {
  import opened Basics

  datatype Phase =
    | Spawned      // not yet connected to the Docker daemon
    | Streaming    // holding the container's Docker log stream
    | Ending       // done streaming, its registry entry still to be removed
    | Leaving      // its registry entry removed, itself still to return
    | Gone         // returned

  datatype Task = Task(container: string, phase: Phase)

  datatype State = State(
    registry: map<string, nat>,
    tasks: map<nat, Task>,
    clients: map<nat, nat>,
    // The senders not yet dropped, each by its channel.
    senders: multiset<nat>)

  datatype Step =
    | Connect(client: nat, container: string, spawned: nat)
    | Leave(client: nat)
    | DockerConnects(task: nat)
    | DockerFails(task: nat)
    | Send(task: nat)
    | StreamEnds(task: nat)
    | RemoveEntry(task: nat)
    | Return(task: nat)

  predicate Is(s: State, task: nat, phase: Phase) {
    task in s.tasks && s.tasks[task].phase == phase
  }

  function To(s: State, task: nat, phase: Phase): State
    requires task in s.tasks
  {
    s.(tasks := s.tasks[task := s.tasks[task].(phase := phase)])
  }

  predicate IsOn(s: State, client: nat, task: nat) {
    client in s.clients && s.clients[client] == task
  }

  predicate HasClient(s: State, task: nat) {
    exists c :: c in s.clients && IsOn(s, c, task)
  }

  predicate Enabled(s: State, step: Step) {
    match step
    case Connect(client, container, spawned) => client !in s.clients && spawned !in s.tasks
    case Leave(client) => client in s.clients
    case DockerConnects(t) => Is(s, t, Spawned)
    case DockerFails(t) => Is(s, t, Spawned)
    case Send(t) => Is(s, t, Streaming)
    case StreamEnds(t) => Is(s, t, Streaming)
    case RemoveEntry(t) => Is(s, t, Ending)
    case Return(t) => Is(s, t, Leaving)
  }

  /** A client's subscription: to the container's channel if it has one, else to
      that of a newly spawned task, of whose two senders the registry keeps one. */
  function Subscribed(s: State, client: nat, container: string, spawned: nat): State {
    if container in s.registry then s.(clients := s.clients[client := s.registry[container]])
    else State(
      s.registry[container := spawned],
      s.tasks[spawned := Task(container, Spawned)],
      s.clients[client := spawned],
      s.senders + multiset{spawned, spawned})
  }

  /** The registry without the entry of `container`, whose sender is dropped. */
  function WithoutEntry(s: State, container: string): State {
    if container in s.registry
    then s.(registry := s.registry - {container}, senders := s.senders - multiset{s.registry[container]})
    else s
  }

  function Apply(s: State, step: Step): State
    requires Enabled(s, step)
  {
    match step
    case Connect(client, container, spawned) => Subscribed(s, client, container, spawned)
    case Leave(client) => s.(clients := s.clients - {client})
    case DockerConnects(t) => To(s, t, Streaming)
    case DockerFails(t) => To(s, t, Ending)
    // A send fails, and ends the stream, exactly when nobody is subscribed.
    case Send(t) => if HasClient(s, t) then s else To(s, t, Ending)
    case StreamEnds(t) => To(s, t, Ending)
    case RemoveEntry(t) => WithoutEntry(To(s, t, Leaving), s.tasks[t].container)
    case Return(t) => To(s, t, Gone).(senders := s.senders - multiset{t})
  }

  ghost predicate IsRun(states: seq<State>, steps: seq<Step>) {
    && |states| == |steps| + 1
    && states[0] == State(map[], map[], map[], multiset{})
    && forall i :: 0 <= i < |steps| ==> Enabled(states[i], steps[i]) && states[i + 1] == Apply(states[i], steps[i])
  }

  // ---- The registry ----

  /** Task `t` owns the entry of container `c`. */
  ghost predicate Owns(s: State, t: nat, c: string) {
    c in s.registry && s.registry[c] == t
  }

  ghost predicate Pending(s: State, t: nat, c: string) {
    t in s.tasks && s.tasks[t].container == c && !s.tasks[t].phase.Leaving? && !s.tasks[t].phase.Gone?
  }

  /** Task `t` has been spawned and has not returned. */
  predicate Alive(s: State, t: nat) {
    t in s.tasks && !s.tasks[t].phase.Gone?
  }

  /** How many senders channel `t` has left: the task's own until it returns,
      and the registry's until its entry is removed. */
  ghost predicate Accounted(s: State, t: nat) {
    s.senders[t] == if !Alive(s, t) then 0 else if s.tasks[t].phase.Leaving? then 1 else 2
  }

  /** A container has an entry exactly for its one task not yet deregistered. */
  ghost predicate Registered(s: State) {
    forall t, c :: Owns(s, t, c) <==> Pending(s, t, c)
  }

  ghost predicate Inv(s: State) {
    && Registered(s)
    && (forall t :: Accounted(s, t))
    && (forall client :: client in s.clients ==> s.clients[client] in s.tasks)
  }

  lemma RemovesItself(s: State, t: nat)
    requires Registered(s) && Is(s, t, Ending)
    ensures Owns(s, t, s.tasks[t].container)
  {
    assert Pending(s, t, s.tasks[t].container);
  }

  lemma ConnectKeepsRegistered(s: State, client: nat, container: string, spawned: nat)
    requires Registered(s) && spawned !in s.tasks
    ensures Registered(Subscribed(s, client, container, spawned))
  {
    var s' := Subscribed(s, client, container, spawned);
    assert !Pending(s, spawned, container);
    forall t, c ensures Owns(s', t, c) <==> Pending(s', t, c) {
      assert Owns(s, t, c) <==> Pending(s, t, c);
    }
  }

  lemma TaskKeepsRegistered(s: State, step: Step)
    requires Registered(s) && Enabled(s, step) && !step.Connect?
    ensures Registered(Apply(s, step))
  {
    var s' := Apply(s, step);
    if step.RemoveEntry? {
      RemovesItself(s, step.task);
    }
    hide HasClient;
    forall t, c ensures Owns(s', t, c) <==> Pending(s', t, c) {
      assert Owns(s, t, c) <==> Pending(s, t, c);
    }
  }

  lemma StepKeepsRegistered(s: State, step: Step)
    requires Registered(s) && Enabled(s, step)
    ensures Registered(Apply(s, step))
  {
    hide Registered;
    if step.Connect? {
      ConnectKeepsRegistered(s, step.client, step.container, step.spawned);
    } else {
      TaskKeepsRegistered(s, step);
    }
  }

  lemma ConnectAccounts(s: State, client: nat, container: string, spawned: nat, t: nat)
    requires Accounted(s, t) && spawned !in s.tasks
    ensures Accounted(Subscribed(s, client, container, spawned), t)
  {
  }

  lemma RemovalAccounts(s: State, task: nat, t: nat)
    requires Registered(s) && Accounted(s, t) && Is(s, task, Ending)
    ensures Accounted(Apply(s, RemoveEntry(task)), t)
  {
    hide Registered;
    RemovesItself(s, task);
  }

  lemma PhaseAccounts(s: State, step: Step, t: nat)
    requires Accounted(s, t) && Enabled(s, step) && !step.Connect? && !step.RemoveEntry?
    ensures Accounted(Apply(s, step), t)
  {
    hide HasClient;
  }

  lemma StepAccounts(s: State, step: Step, t: nat)
    requires Registered(s) && Accounted(s, t) && Enabled(s, step)
    ensures Accounted(Apply(s, step), t)
  {
    hide Registered, Accounted;
    if step.Connect? {
      ConnectAccounts(s, step.client, step.container, step.spawned, t);
    } else if step.RemoveEntry? {
      RemovalAccounts(s, step.task, t);
    } else {
      PhaseAccounts(s, step, t);
    }
  }

  lemma StepKeepsClients(s: State, step: Step)
    requires Registered(s) && Enabled(s, step)
    requires forall client :: client in s.clients ==> s.clients[client] in s.tasks
    ensures var s' := Apply(s, step);
      forall client :: client in s'.clients ==> s'.clients[client] in s'.tasks
  {
    if step.Connect? && step.container in s.registry {
      assert Owns(s, s.registry[step.container], step.container);
    }
    hide Registered, HasClient;
  }

  lemma StepKeepsInv(s: State, step: Step)
    requires Inv(s) && Enabled(s, step)
    ensures Inv(Apply(s, step))
  {
    hide Registered, Accounted, Apply, Enabled;
    StepKeepsRegistered(s, step);
    StepKeepsClients(s, step);
    forall t ensures Accounted(Apply(s, step), t) {
      StepAccounts(s, step, t);
    }
  }

  lemma {:induction false} RunKeepsInv(states: seq<State>, steps: seq<Step>, i: nat)
    requires IsRun(states, steps) && i <= |steps|
    ensures Inv(states[i])
  {
    if i > 0 {
      RunKeepsInv(states, steps, i - 1);
      StepKeepsInv(states[i - 1], steps[i - 1]);
    }
  }

  /** In every reachable state a container has an entry exactly when it has a
      task not yet deregistered, there is one such task, the entry is its, and
      so no two tasks stream one container. */
  lemma OneTaskPerContainer(states: seq<State>, steps: seq<Step>, i: nat, c: string)
    requires IsRun(states, steps) && i <= |steps|
    ensures c in states[i].registry <==> exists t :: Pending(states[i], t, c)
    ensures forall t :: Pending(states[i], t, c) ==> states[i].registry[c] == t
    ensures forall t, u :: Pending(states[i], t, c) && Pending(states[i], u, c) ==> t == u
  {
    RunKeepsInv(states, steps, i);
    var s := states[i];
    assert c in s.registry ==> Owns(s, s.registry[c], c);
    assert forall t :: Pending(s, t, c) ==> Owns(s, t, c);
  }

  /** A task that deregisters removes its own entry and nobody else's. */
  lemma DeregistersItself(states: seq<State>, steps: seq<Step>, i: nat)
    requires IsRun(states, steps) && i < |steps| && steps[i].RemoveEntry?
    ensures var t := steps[i].task;
      && t in states[i].tasks
      && var c := states[i].tasks[t].container;
      && Owns(states[i], t, c) && c !in states[i + 1].registry
      && forall u, d :: Owns(states[i], u, d) && u != t ==> Owns(states[i + 1], u, d)
  {
    RunKeepsInv(states, steps, i);
    assert Enabled(states[i], steps[i]) && states[i + 1] == Apply(states[i], steps[i]);
    assert Pending(states[i], steps[i].task, states[i].tasks[steps[i].task].container);
  }

  // ---- The clients ----

  /** A channel closes to its receivers when it has no sender left. */
  predicate Closed(s: State, t: nat) {
    s.senders[t] == 0
  }

  /** Nobody waits forever on a dead channel: in every reachable state a client's
      channel is closed exactly when its task has returned. */
  lemma ClientsAreServedOrClosed(states: seq<State>, steps: seq<Step>, i: nat, client: nat)
    requires IsRun(states, steps) && i <= |steps| && client in states[i].clients
    ensures var t := states[i].clients[client];
      && t in states[i].tasks
      && (Closed(states[i], t) <==> !Alive(states[i], t))
  {
    RunKeepsInv(states, steps, i);
    assert Accounted(states[i], states[i].clients[client]);
  }

  /** A channel once closed stays closed, and nobody joins it. */
  lemma {:induction false} ClosedForGood(states: seq<State>, steps: seq<Step>, i: nat, j: nat, t: nat)
    requires IsRun(states, steps) && i <= j <= |steps|
    requires t in states[i].tasks && Closed(states[i], t)
    ensures t in states[j].tasks && Closed(states[j], t)
    ensures j > i && steps[j - 1].Connect? ==> !IsOn(states[j], steps[j - 1].client, t)
    decreases j
  {
    if i < j {
      ClosedForGood(states, steps, i, j - 1, t);
      RunKeepsInv(states, steps, j - 1);
      assert Enabled(states[j - 1], steps[j - 1]) && states[j] == Apply(states[j - 1], steps[j - 1]);
      hide IsRun, Apply, Enabled;
      ClosedStays(states[j - 1], steps[j - 1], t);
    }
  }

  lemma ClosedStays(s: State, step: Step, t: nat)
    requires Inv(s) && Enabled(s, step) && t in s.tasks && Closed(s, t)
    ensures t in Apply(s, step).tasks && Closed(Apply(s, step), t)
    ensures step.Connect? ==> !IsOn(Apply(s, step), step.client, t)
  {
    assert Accounted(s, t);
    StepAccounts(s, step, t);
    if step.Connect? && step.container in s.registry {
      assert Owns(s, s.registry[step.container], step.container);
      assert Pending(s, s.registry[step.container], step.container);
    }
    hide Registered, Inv, HasClient;
  }

  lemma NewTaskHasClient(s: State, step: Step, t: nat)
    requires Enabled(s, step) && t !in s.tasks && t in Apply(s, step).tasks
    ensures HasClient(Apply(s, step), t)
  {
    assert IsOn(Apply(s, step), step.client, t);
  }

  lemma OnlyLeavingLosesAClient(s: State, step: Step, t: nat)
    requires Enabled(s, step) && HasClient(s, t) && !HasClient(Apply(s, step), t)
    ensures step.Leave? && s.clients[step.client] == t
  {
    var c :| c in s.clients && IsOn(s, c, t);
    assert !IsOn(Apply(s, step), c, t);
  }

  /** A task starts with its first client subscribed, and so is without clients
      only once one has left. */
  lemma {:induction false} ClientlessAfterLeaving(states: seq<State>, steps: seq<Step>, i: nat, t: nat) returns (j: nat)
    requires IsRun(states, steps) && i <= |steps| && t in states[i].tasks && !HasClient(states[i], t)
    ensures j < i && steps[j].Leave?
    ensures steps[j].client in states[j].clients && states[j].clients[steps[j].client] == t
  {
    assert i > 0;
    var s, step := states[i - 1], steps[i - 1];
    assert Enabled(s, step) && states[i] == Apply(s, step);
    if t in s.tasks && !HasClient(s, t) {
      j := ClientlessAfterLeaving(states, steps, i - 1, t);
    } else {
      j := i - 1;
      if t in s.tasks {
        OnlyLeavingLosesAClient(s, step, t);
      } else {
        NewTaskHasClient(s, step, t);
      }
    }
  }

  /** So a stream stopped by a failed send has been left by a viewer. */
  lemma StoppedStreamWasLeft(states: seq<State>, steps: seq<Step>, i: nat) returns (j: nat)
    requires IsRun(states, steps) && i < |steps| && steps[i].Send? && !HasClient(states[i], steps[i].task)
    ensures j < i && steps[j].Leave?
    ensures steps[j].client in states[j].clients && states[j].clients[steps[j].client] == steps[i].task
  {
    assert Enabled(states[i], steps[i]);
    j := ClientlessAfterLeaving(states, steps, i, steps[i].task);
  }

  /** A client that connects gets an open channel, of a task that may still
      deliver unless the entry found is that of a task ending already.  That is
      not excluded; only a task whose entry is gone is never joined. */
  lemma ConnectsToDyingExactly(states: seq<State>, steps: seq<Step>, i: nat)
    requires IsRun(states, steps) && i < |steps| && steps[i].Connect?
    ensures var s, s' := states[i], states[i + 1];
      var Connect(client, container, _) := steps[i];
      && client in s'.clients
      && (Is(s', s'.clients[client], Ending) <==>
           container in s.registry && Is(s, s.registry[container], Ending))
      && !Is(s', s'.clients[client], Leaving) && !Closed(s', s'.clients[client])
  {
    RunKeepsInv(states, steps, i);
    assert Enabled(states[i], steps[i]) && states[i + 1] == Apply(states[i], steps[i]);
    if steps[i].container in states[i].registry {
      assert Owns(states[i], states[i].registry[steps[i].container], steps[i].container);
    }
    RunKeepsInv(states, steps, i + 1);
    assert Accounted(states[i + 1], states[i + 1].clients[steps[i].client]);
  }

  /** The last viewer leaves, the send fails, a new viewer connects before the
      entry is removed, and the task returns. */
  function DyingSteps(c: string): seq<Step> {
    [Connect(0, c, 0), DockerConnects(0), Leave(0), Send(0), Connect(1, c, 1), RemoveEntry(0), Return(0)]
  }

  function DyingStates(c: string): seq<State> {
    [State(map[], map[], map[], multiset{}),
     State(map[c := 0], map[0 := Task(c, Spawned)], map[0 := 0], multiset{0, 0}),
     State(map[c := 0], map[0 := Task(c, Streaming)], map[0 := 0], multiset{0, 0}),
     State(map[c := 0], map[0 := Task(c, Streaming)], map[], multiset{0, 0}),
     State(map[c := 0], map[0 := Task(c, Ending)], map[], multiset{0, 0}),
     State(map[c := 0], map[0 := Task(c, Ending)], map[1 := 0], multiset{0, 0}),
     State(map[], map[0 := Task(c, Leaving)], map[1 := 0], multiset{0}),
     State(map[], map[0 := Task(c, Gone)], map[1 := 0], multiset{})]
  }

  ghost predicate Steps(c: string, i: nat) {
    && i < |DyingSteps(c)| && i + 1 < |DyingStates(c)|
    && Enabled(DyingStates(c)[i], DyingSteps(c)[i])
    && DyingStates(c)[i + 1] == Apply(DyingStates(c)[i], DyingSteps(c)[i])
  }

  lemma DyingConnects(c: string)
    ensures Steps(c, 0)
  {
  }

  lemma DyingStreams(c: string)
    ensures Steps(c, 1)
  {
  }

  lemma DyingLeaves(c: string)
    ensures Steps(c, 2)
  {
  }

  lemma DyingSends(c: string)
    ensures Steps(c, 3) && Steps(c, 4)
  {
    assert !HasClient(DyingStates(c)[3], 0);
  }

  lemma DyingEnds(c: string)
    ensures Steps(c, 5) && Steps(c, 6)
  {
    assert multiset{0, 0} - multiset{0} == multiset{0};
  }

  /** A run in which it happens: the new viewer's channel closes. */
  lemma DyingChannelIsJoined(c: string) returns (states: seq<State>, steps: seq<Step>)
    ensures IsRun(states, steps) && |steps| == 7
    ensures steps[4] == Connect(1, c, 1) && Is(states[5], states[5].clients[1], Ending)
    ensures 1 in states[7].clients && Closed(states[7], states[7].clients[1])
  {
    states, steps := DyingStates(c), DyingSteps(c);
    DyingConnects(c);
    DyingStreams(c);
    DyingLeaves(c);
    DyingSends(c);
    DyingEnds(c);
    hide Apply, Enabled;
    forall i | 0 <= i < |steps| ensures Enabled(states[i], steps[i]) && states[i + 1] == Apply(states[i], steps[i]) {
      assert Steps(c, i);
    }
  }

  // ---- While somebody watches ----

  /** Client `client` is subscribed to task `t`. */
  ghost predicate Watches(s: State, client: nat, t: nat) {
    client in s.clients && s.clients[client] == t
  }

  /** The phase that a step leaves task `t` in; `watched` is whether anybody is
      subscribed to it. */
  function PhaseAfter(phase: Phase, t: nat, step: Step, watched: bool): Phase {
    match phase
    case Spawned => if step == DockerConnects(t) then Streaming else if step == DockerFails(t) then Ending else Spawned
    case Streaming => if step == StreamEnds(t) || (step == Send(t) && !watched) then Ending else Streaming
    case Ending => if step == RemoveEntry(t) then Leaving else Ending
    case Leaving => if step == Return(t) then Gone else Leaving
    case Gone => Gone
  }

  lemma StepOfOther(s: State, step: Step, t: nat)
    requires Enabled(s, step) && t in s.tasks
    requires step.Connect? || step.Leave? || step.task != t
    ensures t in Apply(s, step).tasks && Apply(s, step).tasks[t] == s.tasks[t]
  {
    hide HasClient;
  }

  lemma StepOfTask(s: State, step: Step, t: nat)
    requires Enabled(s, step) && t in s.tasks
    requires !step.Connect? && !step.Leave? && step.task == t
    ensures var s' := Apply(s, step);
      && t in s'.tasks && s'.tasks[t].container == s.tasks[t].container
      && s'.tasks[t].phase == PhaseAfter(s.tasks[t].phase, t, step, HasClient(s, t))
  {
    hide HasClient;
  }

  /** What moves a task on: a stream stops when it ends or when a send finds
      nobody subscribed, and at nothing else. */
  lemma PhaseChangesExactly(states: seq<State>, steps: seq<Step>, i: nat, t: nat)
    requires IsRun(states, steps) && i < |steps| && t in states[i].tasks
    ensures t in states[i + 1].tasks && states[i + 1].tasks[t].container == states[i].tasks[t].container
    ensures states[i + 1].tasks[t].phase ==
      PhaseAfter(states[i].tasks[t].phase, t, steps[i], exists client: nat :: Watches(states[i], client, t))
  {
    var s, step := states[i], steps[i];
    assert Enabled(s, step) && states[i + 1] == Apply(s, step);
    WatchedExactly(s, t);
    hide IsRun, HasClient, Watches, Apply, Enabled;
    if step.Connect? || step.Leave? || step.task != t {
      StepOfOther(s, step, t);
    } else {
      StepOfTask(s, step, t);
    }
  }

  lemma WatchedExactly(s: State, t: nat)
    ensures HasClient(s, t) <==> exists client: nat :: Watches(s, client, t)
  {
    if client: nat :| Watches(s, client, t) {
      assert IsOn(s, client, t);
    }
    if HasClient(s, t) {
      var c :| c in s.clients && IsOn(s, c, t);
      assert Watches(s, c, t);
    }
  }

  /** A client stays on its channel until it leaves. */
  lemma ClientStays(states: seq<State>, steps: seq<Step>, i: nat, client: nat, t: nat)
    requires IsRun(states, steps) && i < |steps| && Watches(states[i], client, t) && steps[i] != Leave(client)
    ensures Watches(states[i + 1], client, t)
  {
    assert Enabled(states[i], steps[i]) && states[i + 1] == Apply(states[i], steps[i]);
    hide IsRun, HasClient;
  }

  /** As long as a viewer stays and the container's output goes on, its task
      streams on, with its entry and both senders, whatever others do. */
  lemma {:induction false} ViewerKeepsStream(states: seq<State>, steps: seq<Step>, i: nat, j: nat, client: nat, t: nat)
    requires IsRun(states, steps) && i <= j <= |steps|
    requires Is(states[i], t, Streaming) && Watches(states[i], client, t)
    requires forall k :: i <= k < j ==> steps[k] != Leave(client) && steps[k] != StreamEnds(t)
    ensures Is(states[j], t, Streaming) && Watches(states[j], client, t)
    ensures Owns(states[j], t, states[j].tasks[t].container) && states[j].senders[t] == 2
    decreases j
  {
    assert |states| == |steps| + 1;
    hide IsRun, Watches, Owns, Inv;
    if i < j {
      ViewerKeepsStream(states, steps, i, j - 1, client, t);
      PhaseChangesExactly(states, steps, j - 1, t);
      ClientStays(states, steps, j - 1, client, t);
    }
    RunKeepsInv(states, steps, j);
    StreamingHasSenders(states[j], t);
  }

  lemma StreamingHasSenders(s: State, t: nat)
    requires Inv(s) && Is(s, t, Streaming)
    ensures Owns(s, t, s.tasks[t].container) && s.senders[t] == 2
  {
    assert Accounted(s, t) && Pending(s, t, s.tasks[t].container);
  }

  /** A task that streams has connected to the daemon. */
  lemma {:induction false} StreamedWasConnected(states: seq<State>, steps: seq<Step>, j: nat, t: nat) returns (i: nat)
    requires IsRun(states, steps) && j <= |steps| && Is(states[j], t, Streaming)
    ensures i < j && steps[i] == DockerConnects(t)
    decreases j
  {
    assert j > 0;
    i := j - 1;
    if steps[i] != DockerConnects(t) {
      assert Enabled(states[i], steps[i]) && states[j] == Apply(states[i], steps[i]);
      if t in states[i].tasks {
        PhaseChangesExactly(states, steps, i, t);
      }
      hide Apply, Enabled;
      i := StreamedWasConnected(states, steps, i, t);
    }
  }

  // ---- The registry as the code keeps it ----

  /** The registry functions: what they do under the lock. */
  class StreamRegistry {
    var state: State
    var nextTask: nat

    ghost predicate Valid()
      reads this
    {
      Inv(state) && forall t :: t in state.tasks ==> t < nextTask
    }

    constructor ()
      ensures Valid() && state == State(map[], map[], map[], multiset{})
    {
      state := State(map[], map[], map[], multiset{});
      nextTask := 0;
    }

    method SubscribeContainer(client: nat, container: string) returns (channel: nat)
      requires Valid() && client !in state.clients
      modifies this
      ensures Valid() && state == Apply(old(state), Connect(client, container, old(nextTask)))
      ensures channel == state.clients[client] && Owns(state, channel, container)
    {
      StepKeepsInv(state, Connect(client, container, nextTask));
      if container in state.registry {
        channel := state.registry[container];
        state := state.(clients := state.clients[client := channel]);
        return;
      }
      channel := nextTask;
      nextTask := nextTask + 1;
      state := state.(clients := state.clients[client := channel], senders := state.senders + multiset{channel, channel});
      state := state.(registry := state.registry[container := channel]);
      state := state.(tasks := state.tasks[channel := Task(container, Spawned)]);
    }

    /** The end of a task, first half: the entry of its container goes. */
    method RemoveStream(task: nat)
      requires Valid() && Is(state, task, Ending)
      modifies this`state
      ensures Valid() && state == Apply(old(state), RemoveEntry(task))
      ensures state.tasks[task].container !in state.registry && !Closed(state, task)
    {
      StepKeepsInv(state, RemoveEntry(task));
      var container := state.tasks[task].container;
      if container in state.registry {
        state := state.(registry := state.registry - {container},
                        senders := state.senders - multiset{state.registry[container]});
      }
      state := state.(tasks := state.tasks[task := Task(container, Leaving)]);
      assert Accounted(state, task);
    }

    /** Second half: the task returns, and its sender is dropped. */
    method DropSender(task: nat)
      requires Valid() && Is(state, task, Leaving)
      modifies this`state
      ensures Valid() && state == Apply(old(state), Return(task))
      ensures Closed(state, task)
    {
      StepKeepsInv(state, Return(task));
      state := state.(tasks := state.tasks[task := Task(state.tasks[task].container, Gone)]);
      state := state.(senders := state.senders - multiset{task});
      assert Accounted(state, task);
    }
  }
}
