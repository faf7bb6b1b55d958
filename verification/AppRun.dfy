/**
 * bringUp and shutDown of run.go: every node driven through its lifecycle, in bring-up order and back.
 */
module AppRun {
  import opened Wrappers
  import opened Sorting
  import opened Lifecycles
  import D = Dependencies
  import B = Bringup

  type NodeName = D.Node

  /** One transition asked of one node, and the states of all nodes when it was asked. */
  datatype Act = Act(node: NodeName, t: Transition, before: map<NodeName, State>)

  /** What was asked of a node, and the state it was in. */
  datatype Ask = Ask(node: NodeName, t: Transition, from: Option<State>)

  /** What was asked, in order. */
  ghost function Asks(trace: seq<Act>): seq<Ask> {
    if trace == [] then []
    else
      var a := trace[|trace| - 1];
      Asks(trace[..|trace| - 1]) + [Ask(a.node, a.t, if a.node in a.before then Some(a.before[a.node]) else None)]
  }

  lemma AsksSnoc(trace: seq<Act>, n: NodeName, t: Transition, states: map<NodeName, State>)
    requires n in states
    ensures Asks(trace + [Act(n, t, states)]) == Asks(trace) + [Ask(n, t, Some(states[n]))]
  {
    assert (trace + [Act(n, t, states)])[..|trace|] == trace;
  }

  /** What the hooks answer when they are called. */
  type Hooks = (NodeName, Transition) -> bool

  /** One transition with nobody else about. */
  function Transited(s: State, t: Transition, ok: bool): State {
    if Table(s, t).Some? && ok then Table(s, t).value else s
  }

  /** It is one of those that a lifecycle allows, if the hook agrees, and nothing otherwise. */
  lemma TransitedAllowed(s: State, t: Transition, ok: bool)
    ensures var s' := Transited(s, t, ok);
      && (s' != s ==> ok && exists through :: Allowed(s, t, through, s'))
      && (forall through, goal :: ok && Allowed(s, t, through, goal) ==> s' == goal)
  {
    TableAllowed(s, t);
    hide Allowed, Table;
  }

  /** Where configuring and activating leaves a node that was in state s. */
  function Begun(n: NodeName, s: State, hooks: Hooks): State {
    if s != Unconfigured || !hooks(n, Configure) then s else if hooks(n, Activate) then Active else Inactive
  }

  /** Which of the two transitions fails. */
  function Refused(n: NodeName, s: State, hooks: Hooks): Option<Transition> {
    if s != Unconfigured || !hooks(n, Configure) then Some(Configure) else if hooks(n, Activate) then None
      else Some(Activate)
  }

  /** What bringUp reports. */
  datatype Failure = Failure(node: NodeName, t: Transition)

  /** Where shutDown leaves a node that was in state s. */
  function Stopped(n: NodeName, s: State, hooks: Hooks): State {
    var idle := if s == Active then Transited(s, Deactivate, hooks(n, Deactivate)) else s;
    match ShutdownFor(idle)
    case None => idle
    case Some(t) => Transited(idle, t, hooks(n, t))
  }

  /** What bringUp asks of a node in state s: to configure, and if that works to activate. */
  ghost function UpAsks(n: NodeName, s: State, hooks: Hooks): seq<Ask> {
    if s == Unconfigured && hooks(n, Configure)
    then [Ask(n, Configure, Some(Unconfigured)), Ask(n, Activate, Some(Inactive))]
    else [Ask(n, Configure, Some(s))]
  }

  /** What shutDown asks of a node in state s: to deactivate when active, and then the shutdown from where it is. */
  ghost function DownAsks(n: NodeName, s: State, hooks: Hooks): seq<Ask> {
    match s
    case Unconfigured => [Ask(n, UnconfiguredShutdown, Some(Unconfigured))]
    case Inactive => [Ask(n, InactiveShutdown, Some(Inactive))]
    case Active =>
      [Ask(n, Deactivate, Some(Active)),
       if hooks(n, Deactivate) then Ask(n, InactiveShutdown, Some(Inactive)) else Ask(n, ActiveShutdown, Some(Active))]
    case _ => []
  }

  /** What bringing up the first i nodes asks, in order. */
  ghost function AllUpAsks(order: seq<NodeName>, i: nat, was: map<NodeName, State>, hooks: Hooks): seq<Ask>
    requires i <= |order|
  {
    if i == 0 then []
    else
      AllUpAsks(order, i - 1, was, hooks)
      + if order[i - 1] in was then UpAsks(order[i - 1], was[order[i - 1]], hooks) else []
  }

  /** What taking down the nodes from i on asks, the last of them first. */
  ghost function AllDownAsks(order: seq<NodeName>, i: nat, was: map<NodeName, State>, hooks: Hooks): seq<Ask>
    requires i <= |order|
    decreases |order| - i
  {
    if i == |order| then []
    else
      AllDownAsks(order, i + 1, was, hooks)
      + if order[i] in was then DownAsks(order[i], was[order[i]], hooks) else []
  }

  /** Since then exactly the first i nodes have been brought up. */
  ghost predicate AskedUp(order: seq<NodeName>, i: nat, was: map<NodeName, State>, hooks: Hooks, trace: seq<Act>,
                          trace': seq<Act>)
  {
    i <= |order| && Asks(trace') == Asks(trace) + AllUpAsks(order, i, was, hooks)
  }

  /** Since then exactly the nodes from i on have been taken down. */
  ghost predicate AskedDown(order: seq<NodeName>, i: nat, was: map<NodeName, State>, hooks: Hooks, trace: seq<Act>,
                            trace': seq<Act>)
  {
    i <= |order| && Asks(trace') == Asks(trace) + AllDownAsks(order, i, was, hooks)
  }

  /** A node outside the cycles is activated only while everything it consumes from is active. */
  ghost predicate SafeUp(needs: D.Needs, cycles: seq<NodeName>, a: Act) {
    a.t == Activate && a.node !in cycles && a.node in needs ==>
      forall p :: p in needs[a.node] ==> p in a.before && a.before[p] == Active
  }

  /** A node is taken down only after everything that consumes from it, cycles apart. */
  ghost predicate SafeDown(needs: D.Needs, cycles: seq<NodeName>, a: Act) {
    forall m :: m in needs && a.node in needs[m] && !(m in cycles && a.node in cycles) ==>
      m in a.before && a.before[m] == Finalized
  }

  /** Every act from the given one on is safe. */
  ghost predicate AllSafeDown(needs: D.Needs, cycles: seq<NodeName>, trace: seq<Act>, from: nat) {
    forall k :: from <= k < |trace| ==> SafeDown(needs, cycles, trace[k])
  }

  lemma SafeSoFar(needs: D.Needs, cycles: seq<NodeName>, trace: seq<Act>)
    ensures AllSafeDown(needs, cycles, trace, |trace|)
  {
  }

  /** A consumer comes after what it consumes from, unless both are in cycles. */
  lemma ConsumerLater(nodes: seq<NodeName>, needs: D.Needs, order: seq<NodeName>, cycles: seq<NodeName>, i: nat, j: nat)
    requires D.BringsUp(nodes, needs, order, cycles) && Distinct(order)
    requires i < |order| && j < |order| && order[j] in needs && order[i] in needs[order[j]]
    requires !(order[j] in cycles && order[i] in cycles)
    ensures i < j
  {
    var f := |order| - |cycles|;
    assert order[f..] == cycles;
    if j < f {
      D.ProvidersFirst(nodes, needs, order, cycles, j, order[i]);
      var k :| 0 <= k < j && order[k] == order[i];
    } else {
      InCycles(order, cycles, j);
      if i >= f {
        InCycles(order, cycles, i);
      }
    }
  }

  lemma InCycles(order: seq<NodeName>, cycles: seq<NodeName>, i: nat)
    requires |cycles| <= |order| && order[|order| - |cycles|..] == cycles
    requires |order| - |cycles| <= i < |order|
    ensures order[i] in cycles
  {
    assert cycles[i - (|order| - |cycles|)] == order[i];
  }

  /** The act is on n, while all others stand as they did. */
  ghost predicate About(a: Act, n: NodeName, states: map<NodeName, State>) {
    a.node == n && n in a.before && a.before == states[n := a.before[n]]
  }

  lemma StartSteps(n: NodeName, s: State, hooks: Hooks)
    ensures var ok := Table(s, Configure).Some? && hooks(n, Configure);
      var s' := Transited(s, Configure, hooks(n, Configure));
      if !ok then s' == s == Begun(n, s, hooks) && Refused(n, s, hooks) == Some(Configure)
        && UpAsks(n, s, hooks) == [Ask(n, Configure, Some(s))]
      else
        && Begun(n, s, hooks) == Transited(s', Activate, hooks(n, Activate))
        && Refused(n, s, hooks) == (if Table(s', Activate).Some? && hooks(n, Activate) then None else Some(Activate))
        && UpAsks(n, s, hooks) == [Ask(n, Configure, Some(s))] + [Ask(n, Activate, Some(s'))]
  {
    assert [Ask(n, Configure, Some(s))] + [Ask(n, Activate, Some(Inactive))]
        == [Ask(n, Configure, Some(s)), Ask(n, Activate, Some(Inactive))];
  }

  /** Where shutDown asks for the shutdown from. */
  ghost function Idled(n: NodeName, s: State, hooks: Hooks): State {
    if s == Active then Transited(s, Deactivate, hooks(n, Deactivate)) else s
  }

  lemma StopSteps(n: NodeName, s: State, hooks: Hooks)
    ensures var idle := Idled(n, s, hooks);
      var t := ShutdownFor(idle);
      && Stopped(n, s, hooks) == (if t.None? then idle else Transited(idle, t.value, hooks(n, t.value)))
      && DownAsks(n, s, hooks) ==
        (if s == Active then [Ask(n, Deactivate, Some(s))] else [])
        + if t.None? then [] else [Ask(n, t.value, Some(idle))]
  {
  }

  /** Since then exactly this was asked, of n alone, while all others stood as they did. */
  ghost predicate Asked(trace: seq<Act>, trace': seq<Act>, n: NodeName, states: map<NodeName, State>, asks: seq<Ask>) {
    && trace <= trace' && Asks(trace') == Asks(trace) + asks
    && forall k :: |trace| <= k < |trace'| ==> About(trace'[k], n, states)
  }

  lemma AskedNothing(trace: seq<Act>, n: NodeName, states: map<NodeName, State>)
    ensures Asked(trace, trace, n, states, [])
  {
  }

  lemma AskedOnce(trace: seq<Act>, trace': seq<Act>, n: NodeName, was: map<NodeName, State>, now: map<NodeName, State>,
                  asks: seq<Ask>, t: Transition)
    requires Asked(trace, trace', n, was, asks) && n in was && n in now && now == was[n := now[n]]
    ensures Asked(trace, trace' + [Act(n, t, now)], n, was, asks + [Ask(n, t, Some(now[n]))])
  {
    hide Asks;
    AsksSnoc(trace', n, t, now);
    assert Asks(trace) + asks + [Ask(n, t, Some(now[n]))] == Asks(trace) + (asks + [Ask(n, t, Some(now[n]))]);
  }

  lemma Overwritten(was: map<NodeName, State>, now: map<NodeName, State>, n: NodeName, s: State)
    requires n in now && now == was[n := now[n]]
    ensures now[n := s] == was[n := s]
  {
  }

  lemma OwnState(was: map<NodeName, State>, n: NodeName)
    requires n in was
    ensures was == was[n := was[n]]
  {
  }

  class App {
    const nodes: seq<NodeName>
    const deps: B.Deps
    var states: map<NodeName, State>
    ghost var trace: seq<Act>

    ghost predicate Valid()
      reads this
    {
      Distinct(nodes) && states.Keys == Elements(nodes)
    }

    ghost function Needs(): D.Needs {
      B.NeedsOf(nodes, deps)
    }

    constructor (nodes: seq<NodeName>, deps: B.Deps)
      requires Distinct(nodes)
      ensures Valid() && this.nodes == nodes && this.deps == deps && trace == []
      ensures forall n :: n in nodes ==> states[n] == Unconfigured
    {
      this.nodes, this.deps := nodes, deps;
      states := map n | n in nodes :: Unconfigured;
      trace := [];
    }

    method Transit(n: NodeName, t: Transition, hooks: Hooks) returns (ok: bool)
      requires Valid() && n in nodes
      modifies this
      ensures Valid() && trace == old(trace) + [Act(n, t, old(states))]
      ensures states == old(states)[n := Transited(old(states)[n], t, hooks(n, t))]
      ensures ok <==> Table(old(states)[n], t).Some? && hooks(n, t)
    {
      assert n in states.Keys;
      ok := Table(states[n], t).Some? && hooks(n, t);
      trace := trace + [Act(n, t, states)];
      states := states[n := Transited(states[n], t, ok)];
    }

    method Order() returns (order: seq<NodeName>, ghost cycles: seq<NodeName>)
      requires Valid()
      ensures D.BringsUp(nodes, Needs(), order, cycles) && order == B.RuntimeOrder(nodes, Needs())
      ensures Distinct(order) && Elements(order) == Elements(nodes)
    {
      hide B.NeedsOf, B.RuntimeOrder, B.Layered;
      order, cycles := B.BringupOrder(nodes, deps);
      SameNodes(nodes, Needs(), order, cycles);
    }

    /** Configure, then activate: the transition that failed, if one did. */
    method Start(n: NodeName, hooks: Hooks) returns (failed: Option<Transition>)
      requires Valid() && n in nodes
      modifies this
      ensures Valid() && failed == Refused(n, old(states)[n], hooks)
      ensures states == old(states)[n := Begun(n, old(states)[n], hooks)]
      ensures Asked(old(trace), trace, n, old(states), UpAsks(n, old(states)[n], hooks))
    {
      assert n in states.Keys;
      StartSteps(n, states[n], hooks);
      ghost var was := states;
      OwnState(was, n);
      AskedNothing(trace, n, was);
      AskedOnce(trace, trace, n, was, states, [], Configure);
      hide Begun, Refused, UpAsks, Table, Transited, Asked, Elements, Distinct;
      var ok := Transit(n, Configure, hooks);
      Overwritten(was, states, n, Transited(states[n], Activate, hooks(n, Activate)));
      if !ok {
        return Some(Configure);
      }
      AskedOnce(old(trace), trace, n, was, states, [Ask(n, Configure, Some(was[n]))], Activate);
      ok := Transit(n, Activate, hooks);
      failed := if ok then None else Some(Activate);
    }

    /** Deactivate if active, then shut down if that is possible. */
    method Stop(n: NodeName, hooks: Hooks)
      requires Valid() && n in nodes
      modifies this
      ensures Valid() && states == old(states)[n := Stopped(n, old(states)[n], hooks)]
      ensures Asked(old(trace), trace, n, old(states), DownAsks(n, old(states)[n], hooks))
    {
      assert n in states.Keys;
      StopSteps(n, states[n], hooks);
      ghost var was, asks := states, [];
      OwnState(was, n);
      AskedNothing(trace, n, was);
      hide Stopped, DownAsks, Transited, Asked, ShutdownFor, Table, Elements, Distinct;
      if states[n] == Active {
        AskedOnce(trace, trace, n, was, states, [], Deactivate);
        asks := [Ask(n, Deactivate, Some(Active))];
        var _ := Transit(n, Deactivate, hooks);
      }
      var t := ShutdownFor(states[n]);
      if t.Some? {
        Overwritten(was, states, n, Transited(states[n], t.value, hooks(n, t.value)));
        AskedOnce(old(trace), trace, n, was, states, asks, t.value);
        var _ := Transit(n, t.value, hooks);
      }
    }

    /** bringUp: it fails at the first node in order that was not unconfigured or has an unwilling hook, and names it
        with its transition; nodes before it are active, nodes after it as they were. */
    method BringUp(hooks: Hooks) returns (failed: Option<Failure>, ghost order: seq<NodeName>,
        ghost cycles: seq<NodeName>)
      requires Valid()
      modifies this
      ensures Valid() && D.BringsUp(nodes, Needs(), order, cycles) && order == B.RuntimeOrder(nodes, Needs())
      ensures failed.None? <==> forall n :: n in nodes ==> Willing(n, old(states), hooks)
      ensures failed.None? ==> forall n :: n in nodes ==> states[n] == Active
      ensures failed.Some? ==>
        exists i :: 0 <= i < |order| && StuckAt(order, i, failed.value, old(states), states, hooks)
          && AskedUp(order, i + 1, old(states), hooks, old(trace), trace)
      ensures failed.None? ==> AskedUp(order, |order|, old(states), hooks, old(trace), trace)
      ensures old(trace) <= trace
      ensures forall k :: |old(trace)| <= k < |trace| ==> SafeUp(Needs(), cycles, trace[k])
    {
      hide D.BringsUp;
      hide B.RuntimeOrder;
      hide B.NeedsOf;
      hide SafeUp;
      hide Started;
      hide AskedUp, Asked, UpAsks;
      hide StuckAt;
      hide Begun;
      hide Refused;
      var names;
      names, cycles := Order();
      order := names;
      hide Distinct;
      StartedNone(names, states, hooks);
      NoUpAsks(names, states, hooks, trace);
      for i := 0 to |names|
        invariant Valid() && old(trace) <= trace && AskedUp(names, i, old(states), hooks, old(trace), trace)
        invariant Started(names, i, old(states), states, hooks)
        invariant forall k :: |old(trace)| <= k < |trace| ==> SafeUp(Needs(), cycles, trace[k])
      {
        assert names[i] in Elements(order);
        ghost var was, so_far := states, trace;
        var refused := Start(names[i], hooks);
        StartedMore(names, i, old(states), was, states, hooks);
        SafeStart(nodes, Needs(), names, cycles, i, was, so_far, trace, old(states), hooks);
        MoreUpAsks(names, i, old(states), was, hooks, old(trace), so_far, trace);
        if refused.Some? {
          return Some(Failure(names[i], refused.value)), names, cycles;
        }
      }
      failed := None;
      StartedAll(names, nodes, old(states), states, hooks);
    }

    /** shutDown: in reverse; each node ends where its own hooks let it, and when they all agree, finalized,
        with its consumers finalized before it. */
    method ShutDown(hooks: Hooks) returns (ghost order: seq<NodeName>, ghost cycles: seq<NodeName>)
      requires Valid()
      modifies this
      ensures Valid() && cycles == D.CycleNodes(nodes, Needs()) && order == B.RuntimeOrder(nodes, Needs())
      ensures AskedDown(order, 0, old(states), hooks, old(trace), trace)
      ensures forall n :: n in nodes ==> states[n] == Stopped(n, old(states)[n], hooks)
      ensures old(trace) <= trace
      ensures Agreeable(nodes, old(states), hooks) ==> AllSafeDown(Needs(), cycles, trace, |old(trace)|)
    {
      hide D.BringsUp;
      hide D.CycleNodes;
      hide B.NeedsOf;
      hide AllSafeDown;
      hide Stopped;
      hide StoppedFrom;
      hide Agreeable;
      hide AskedDown, Asked, DownAsks, B.RuntimeOrder;
      hide D.Relation;
      var names;
      names, cycles := Order();
      order := names;
      ghost var needs := Needs();
      OrderCycles(nodes, needs, names, cycles);
      NeedsKeys(nodes, deps);
      hide Distinct;
      hide Needs;
      var i := |names|;
      StoppedNone(names, states, hooks);
      NoDownAsks(names, states, hooks, trace);
      SafeSoFar(needs, cycles, trace);
      while i > 0
        invariant 0 <= i <= |names| && Valid() && old(trace) <= trace
        invariant AskedDown(names, i, old(states), hooks, old(trace), trace)
        invariant StoppedFrom(names, i, old(states), states, hooks)
        invariant Agreeable(nodes, old(states), hooks) ==> AllSafeDown(needs, cycles, trace, |old(trace)|)
      {
        i := i - 1;
        assert names[i] in Elements(order);
        ghost var was, so_far := states, trace;
        Stop(names[i], hooks);
        MoreDownAsks(names, i, old(states), was, hooks, old(trace), so_far, trace);
        if Agreeable(nodes, old(states), hooks) {
          SafeStop(nodes, needs, names, cycles, i, was, so_far, trace, old(states), hooks, |old(trace)|);
        }
        StoppedMore(names, i, old(states), was, states, hooks);
      }
      StoppedAll(names, nodes, old(states), states, hooks);
    }
  }

  // ----- how far each loop has come -----

  ghost predicate Started(order: seq<NodeName>, i: nat, was: map<NodeName, State>, now: map<NodeName, State>,
      hooks: Hooks)
    requires i <= |order|
  {
    && was.Keys == now.Keys == Elements(order)
    && (forall j :: 0 <= j < i ==> order[j] in was && now[order[j]] == Active && Willing(order[j], was, hooks))
    && (forall j :: i <= j < |order| ==> order[j] in was && now[order[j]] == was[order[j]])
  }

  lemma StartedNone(order: seq<NodeName>, was: map<NodeName, State>, hooks: Hooks)
    requires was.Keys == Elements(order)
    ensures Started(order, 0, was, was, hooks)
  {
    forall j | 0 <= j < |order| ensures order[j] in was {
      assert order[j] in Elements(order);
    }
  }

  lemma StartedMore(order: seq<NodeName>, i: nat, was: map<NodeName, State>, now: map<NodeName, State>,
      now': map<NodeName, State>, hooks: Hooks)
    requires i < |order| && Distinct(order) && Started(order, i, was, now, hooks)
    requires order[i] in now && now' == now[order[i] := Begun(order[i], now[order[i]], hooks)]
    ensures order[i] in was && (Willing(order[i], was, hooks) <==> Refused(order[i], now[order[i]], hooks).None?)
    ensures Willing(order[i], was, hooks) ==> Started(order, i + 1, was, now', hooks)
    ensures forall t :: Refused(order[i], now[order[i]], hooks) == Some(t) ==>
      StuckAt(order, i, Failure(order[i], t), was, now', hooks)
  {
    assert order[i] in Elements(order);
  }

  /** The node at i failed, nodes before it are active, nodes after it are as they were. */
  ghost predicate StuckAt(order: seq<NodeName>, i: nat, failure: Failure, was: map<NodeName, State>,
      now: map<NodeName, State>, hooks: Hooks)
    requires i < |order|
  {
    && was.Keys == now.Keys == Elements(order)
    && (forall j :: 0 <= j < i ==> order[j] in was && now[order[j]] == Active && Willing(order[j], was, hooks))
    && order[i] in was && failure.node == order[i] && !Willing(order[i], was, hooks)
    && Some(failure.t) == Refused(order[i], was[order[i]], hooks)
    && now[order[i]] == Begun(order[i], was[order[i]], hooks)
    && (forall j :: i < j < |order| ==> order[j] in was && now[order[j]] == was[order[j]])
  }

  lemma StartedAll(order: seq<NodeName>, nodes: seq<NodeName>, was: map<NodeName, State>, now: map<NodeName, State>,
      hooks: Hooks)
    requires Started(order, |order|, was, now, hooks) && Elements(order) == Elements(nodes)
    ensures forall n :: n in nodes ==> n in was && n in now && now[n] == Active && Willing(n, was, hooks)
  {
    forall n | n in nodes ensures n in was && n in now && now[n] == Active && Willing(n, was, hooks) {
      assert n in Elements(order);
      var j :| 0 <= j < |order| && order[j] == n;
    }
  }

  ghost predicate StoppedFrom(order: seq<NodeName>, i: nat, was: map<NodeName, State>, now: map<NodeName, State>,
      hooks: Hooks)
    requires i <= |order|
  {
    && was.Keys == now.Keys == Elements(order)
    && (forall j :: i <= j < |order| ==> order[j] in was && now[order[j]] == Stopped(order[j], was[order[j]], hooks))
    && (forall j :: 0 <= j < i ==> order[j] in was && now[order[j]] == was[order[j]])
  }

  lemma StoppedNone(order: seq<NodeName>, was: map<NodeName, State>, hooks: Hooks)
    requires was.Keys == Elements(order)
    ensures StoppedFrom(order, |order|, was, was, hooks)
  {
    forall j | 0 <= j < |order| ensures order[j] in was {
      assert order[j] in Elements(order);
    }
  }

  lemma StoppedMore(order: seq<NodeName>, i: nat, was: map<NodeName, State>, now: map<NodeName, State>,
      now': map<NodeName, State>, hooks: Hooks)
    requires i < |order| && Distinct(order) && StoppedFrom(order, i + 1, was, now, hooks)
    requires order[i] in now && now' == now[order[i] := Stopped(order[i], now[order[i]], hooks)]
    ensures StoppedFrom(order, i, was, now', hooks)
  {
    hide Stopped;
    assert order[i] in Elements(order);
  }

  lemma StoppedAll(order: seq<NodeName>, nodes: seq<NodeName>, was: map<NodeName, State>, now: map<NodeName, State>,
      hooks: Hooks)
    requires StoppedFrom(order, 0, was, now, hooks) && Elements(order) == Elements(nodes)
    ensures forall n :: n in nodes ==> n in was && n in now && now[n] == Stopped(n, was[n], hooks)
  {
    hide Stopped;
    forall n | n in nodes ensures n in was && n in now && now[n] == Stopped(n, was[n], hooks) {
      assert n in Elements(order);
      var j :| 0 <= j < |order| && order[j] == n;
    }
  }

  predicate Willing(n: NodeName, states: map<NodeName, State>, hooks: Hooks)
    requires n in states
  {
    states[n] == Unconfigured && hooks(n, Configure) && hooks(n, Activate)
  }

  /** Every node at rest, and every hook agreeing to whatever is asked. */
  ghost predicate Agreeable(nodes: seq<NodeName>, states: map<NodeName, State>, hooks: Hooks)
    requires states.Keys == Elements(nodes)
  {
    (forall n, t :: hooks(n, t)) && forall n :: n in nodes ==> Primary(states[n])
  }

  lemma AgreeableStops(nodes: seq<NodeName>, states: map<NodeName, State>, hooks: Hooks, n: NodeName)
    requires states.Keys == Elements(nodes) && Agreeable(nodes, states, hooks) && n in nodes
    ensures Stopped(n, states[n], hooks) == Finalized
  {
  }

  lemma NeedsKeys(nodes: seq<NodeName>, deps: B.Deps)
    ensures B.NeedsOf(nodes, deps).Keys == Elements(nodes)
  {
  }

  lemma SameNodes(nodes: seq<NodeName>, needs: D.Needs, order: seq<NodeName>, cycles: seq<NodeName>)
    requires D.BringsUp(nodes, needs, order, cycles) && Distinct(nodes)
    ensures Distinct(order) && Elements(order) == Elements(nodes)
  {
    SamePermutation(order, nodes);
    DistinctPermutation(order, nodes);
  }

  lemma OrderCycles(nodes: seq<NodeName>, needs: D.Needs, order: seq<NodeName>, cycles: seq<NodeName>)
    requires D.BringsUp(nodes, needs, order, cycles)
    ensures cycles == D.CycleNodes(nodes, needs)
  {
  }

  lemma NoUpAsks(order: seq<NodeName>, was: map<NodeName, State>, hooks: Hooks, trace: seq<Act>)
    ensures AskedUp(order, 0, was, hooks, trace, trace)
  {
  }

  lemma MoreUpAsks(order: seq<NodeName>, i: nat, was: map<NodeName, State>, now: map<NodeName, State>, hooks: Hooks,
                   trace: seq<Act>, trace': seq<Act>, trace'': seq<Act>)
    requires i < |order| && Started(order, i, was, now, hooks) && order[i] in now
    requires AskedUp(order, i, was, hooks, trace, trace')
    requires Asked(trace', trace'', order[i], now, UpAsks(order[i], now[order[i]], hooks))
    ensures AskedUp(order, i + 1, was, hooks, trace, trace'') && trace' <= trace''
  {
    hide Asks, UpAsks;
  }

  lemma NoDownAsks(order: seq<NodeName>, was: map<NodeName, State>, hooks: Hooks, trace: seq<Act>)
    ensures AskedDown(order, |order|, was, hooks, trace, trace)
  {
  }

  lemma MoreDownAsks(order: seq<NodeName>, i: nat, was: map<NodeName, State>, now: map<NodeName, State>, hooks: Hooks,
                     trace: seq<Act>, trace': seq<Act>, trace'': seq<Act>)
    requires i < |order| && StoppedFrom(order, i + 1, was, now, hooks) && order[i] in now
    requires AskedDown(order, i + 1, was, hooks, trace, trace')
    requires Asked(trace', trace'', order[i], now, DownAsks(order[i], now[order[i]], hooks))
    ensures AskedDown(order, i, was, hooks, trace, trace'') && trace' <= trace''
  {
    hide Asks, DownAsks, Stopped;
  }

  lemma SafeStart(nodes: seq<NodeName>, needs: D.Needs, order: seq<NodeName>, cycles: seq<NodeName>, i: nat,
                  now: map<NodeName, State>, trace: seq<Act>, trace': seq<Act>, was: map<NodeName, State>, hooks: Hooks)
    requires D.BringsUp(nodes, needs, order, cycles) && Distinct(order) && i < |order|
    requires Started(order, i, was, now, hooks)
    requires order[i] in now && Asked(trace, trace', order[i], now, UpAsks(order[i], now[order[i]], hooks))
    ensures forall k :: |trace| <= k < |trace'| ==> SafeUp(needs, cycles, trace'[k])
  {
    var f := |order| - |cycles|;
    assert order[f..] == cycles;
    forall k | |trace| <= k < |trace'| ensures SafeUp(needs, cycles, trace'[k]) {
      assert About(trace'[k], order[i], now);
      if i >= f {
        InCycles(order, cycles, i);
      } else if order[i] in needs {
        forall p | p in needs[order[i]] ensures p in trace'[k].before && trace'[k].before[p] == Active {
          D.ProvidersFirst(nodes, needs, order, cycles, i, p);
        }
      }
    }
  }

  lemma SafeStop(nodes: seq<NodeName>, needs: D.Needs, order: seq<NodeName>, cycles: seq<NodeName>, i: nat,
                 now: map<NodeName, State>, trace: seq<Act>, trace': seq<Act>, was: map<NodeName, State>, hooks: Hooks,
                 from: nat)
    requires D.BringsUp(nodes, needs, order, cycles) && Distinct(order) && i < |order|
    requires trace <= trace' && AllSafeDown(needs, cycles, trace, from)
    requires StoppedFrom(order, i + 1, was, now, hooks) && was.Keys == Elements(nodes) && Agreeable(nodes, was, hooks)
    requires needs.Keys == Elements(order)
    requires order[i] in now && Asked(trace, trace', order[i], now, DownAsks(order[i], now[order[i]], hooks))
    ensures AllSafeDown(needs, cycles, trace', from)
  {
    forall k, m | |trace| <= k < |trace'| && m in needs && order[i] in needs[m] && !(m in cycles && order[i] in cycles)
      ensures m in trace'[k].before && trace'[k].before[m] == Finalized
    {
      assert About(trace'[k], order[i], now);
      assert m in Elements(order);
      var j :| 0 <= j < |order| && order[j] == m;
      ConsumerLater(nodes, needs, order, cycles, i, j);
      assert m in Elements(nodes);
      AgreeableStops(nodes, was, hooks, m);
    }
    forall k | from <= k < |trace'| ensures SafeDown(needs, cycles, trace'[k]) {
      if k < |trace| {
        assert trace'[k] == trace[k];
      } else {
        assert About(trace'[k], order[i], now);
      }
    }
  }
}
