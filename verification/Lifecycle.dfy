/**
 * A managed node's lifecycle, lifecycle.go and lifecycle_wire.go: a transition takes the lock twice,
 * around a hook that runs without it, and any number of callers may be under way.
 */
module Lifecycles {
  import opened Wrappers

  datatype State =
    | Unknown | Unconfigured | Inactive | Active | Finalized
    | Configuring | CleaningUp | ShuttingDown | Activating | Deactivating | ErrorProcessing

  /** A transition id as callers send it; Other stands for every id that names none. */
  datatype Transition =
    | Create | Configure | Cleanup | Activate | Deactivate
    | UnconfiguredShutdown | InactiveShutdown | ActiveShutdown | Destroy | Other

  /** transitionTable: the goal of a transition, where it is allowed. */
  function Table(from: State, t: Transition): Option<State> {
    match (from, t)
    case (Unconfigured, Configure) => Some(Inactive)
    case (Unconfigured, UnconfiguredShutdown) => Some(Finalized)
    case (Inactive, Activate) => Some(Active)
    case (Inactive, Cleanup) => Some(Unconfigured)
    case (Inactive, InactiveShutdown) => Some(Finalized)
    case (Active, Deactivate) => Some(Inactive)
    case (Active, ActiveShutdown) => Some(Finalized)
    case _ => None
  }

  /** intermediateState: shown while a transition runs. */
  function Intermediate(t: Transition): State {
    match t
    case Configure => Configuring
    case Cleanup => CleaningUp
    case Activate => Activating
    case Deactivate => Deactivating
    case UnconfiguredShutdown => ShuttingDown
    case InactiveShutdown => ShuttingDown
    case ActiveShutdown => ShuttingDown
    case _ => Unknown
  }

  /** resultOf: where a driver knows a successful transition ends. */
  function ResultOf(t: Transition): Option<State> {
    match t
    case Configure => Some(Inactive)
    case Activate => Some(Active)
    case Deactivate => Some(Inactive)
    case Cleanup => Some(Unconfigured)
    case _ => None
  }

  /** shutdownFor: the shutdown that is valid from a primary state. */
  function ShutdownFor(s: State): Option<Transition> {
    match s
    case Unconfigured => Some(UnconfiguredShutdown)
    case Inactive => Some(InactiveShutdown)
    case Active => Some(ActiveShutdown)
    case _ => None
  }

  predicate Primary(s: State) {
    s == Unconfigured || s == Inactive || s == Active || s == Finalized
  }

  /** The tables agree: a known result is the only goal, everything but a shutdown has one, and shutdowns are exactly
      the ways to Finalized. */
  lemma TablesAgree(s: State, t: Transition)
    ensures ResultOf(t).Some? && Table(s, t).Some? ==> Table(s, t) == ResultOf(t)
    ensures ResultOf(t).Some? <==> t == Configure || t == Activate || t == Deactivate || t == Cleanup
    ensures Table(s, t).Some? && Table(s, t) != Some(Finalized) ==> ResultOf(t).Some?
    ensures ShutdownFor(s) == Some(t) <==> Table(s, t) == Some(Finalized)
    ensures Table(s, t).Some? ==>
      Primary(s) && Primary(Table(s, t).value) && !Primary(Intermediate(t)) && s != Finalized
  {
  }

  // ----- any number of callers -----

  type Caller = nat

  /** A transition between its two critical sections. */
  datatype Flight = Flight(t: Transition, start: State, goal: State)

  /** The node: its state, the transitions under way, and those committed so far. */
  datatype Node = Node(state: State, flights: map<Caller, Flight>, committed: seq<Transition>)

  /** Begin is the first critical section of a call, HookDone the second, after its hook's outcome. */
  datatype Event = Begin(c: Caller, t: Transition) | HookDone(c: Caller, ok: bool)

  const NEW_NODE := Node(Unconfigured, map[], [])

  function Step(n: Node, e: Event): Node {
    match e
    case Begin(c, t) =>
      if c in n.flights then n
      else
        (match Table(n.state, t)
         case None => n
         case Some(goal) => Node(Intermediate(t), n.flights[c := Flight(t, n.state, goal)], n.committed))
    case HookDone(c, ok) =>
      if c !in n.flights then n
      else
        var f := n.flights[c];
        if ok then Node(f.goal, n.flights - {c}, n.committed + [f.t]) else Node(f.start, n.flights - {c}, n.committed)
  }

  function Steps(n: Node, events: seq<Event>): Node {
    if events == [] then n else Step(Steps(n, events[..|events| - 1]), events[|events| - 1])
  }

  /** The state that transitions made one at a time lead to, if the table allows each of them. */
  function Replay(ts: seq<Transition>): Option<State> {
    if ts == [] then Some(Unconfigured)
    else
      match Replay(ts[..|ts| - 1])
      case None => None
      case Some(s) => Table(s, ts[|ts| - 1])
  }

  ghost predicate OneFlight(n: Node, c: Caller) {
    && n.flights.Keys == {c}
    && var f := n.flights[c];
      Table(f.start, f.t) == Some(f.goal) && n.state == Intermediate(f.t) && Replay(n.committed) == Some(f.start)
  }

  /** At rest in the state that the committed transitions lead to, or with exactly one transition in flight. */
  ghost predicate Inv(n: Node) {
    Resting(n) || exists c :: OneFlight(n, c)
  }

  ghost predicate Resting(n: Node) {
    n.flights == map[] && Primary(n.state) && Replay(n.committed) == Some(n.state)
  }

  lemma StepKeepsInv(n: Node, e: Event)
    requires Inv(n)
    ensures Inv(Step(n, e))
  {
    hide Step, OneFlight;
    if n.flights == map[] {
      match e
      case Begin(c, t) => BeginKeepsInv(n, c, t);
      case HookDone(c, ok) => IdleIgnores(n, c, ok);
    } else {
      var c :| OneFlight(n, c);
      if Ends(e, c) {
        EndKeepsInv(n, c, e.ok);
      } else {
        OthersChangeNothing(n, c, e);
      }
    }
  }

  lemma BeginKeepsInv(n: Node, c: Caller, t: Transition)
    requires Inv(n) && n.flights == map[]
    ensures Inv(Step(n, Begin(c, t)))
  {
    hide Replay;
    AtRest(n);
    if Table(n.state, t).Some? {
      assert OneFlight(Step(n, Begin(c, t)), c);
    }
  }

  lemma AtRest(n: Node)
    requires Inv(n) && n.flights == map[]
    ensures Resting(n)
  {
    hide Replay, Table;
    assert forall c :: OneFlight(n, c) ==> c in n.flights.Keys;
  }

  lemma IdleIgnores(n: Node, c: Caller, ok: bool)
    requires n.flights == map[]
    ensures Step(n, HookDone(c, ok)) == n
  {
  }

  lemma EndKeepsInv(n: Node, c: Caller, ok: bool)
    requires OneFlight(n, c)
    ensures Resting(Step(n, HookDone(c, ok)))
  {
    hide Replay, Table, Intermediate;
    var f := n.flights[c];
    TablesAgree(f.start, f.t);
    OnlyFlight(n, c);
    ReplaySnoc(n.committed, f.t);
  }

  lemma OnlyFlight(n: Node, c: Caller)
    requires n.flights.Keys == {c}
    ensures c in n.flights && n.flights - {c} == map[]
  {
  }

  lemma ReplaySnoc(ts: seq<Transition>, t: Transition)
    ensures Replay(ts + [t]) == match Replay(ts) case None => None case Some(s) => Table(s, t)
  {
    assert (ts + [t])[..|ts|] == ts;
  }

  ghost predicate Ends(e: Event, c: Caller) {
    e.HookDone? && e.c == c
  }

  /** While a transition is in flight, nothing but its end changes anything. */
  lemma OthersChangeNothing(n: Node, c: Caller, e: Event)
    requires OneFlight(n, c) && !Ends(e, c)
    ensures Step(n, e) == n
  {
    hide Replay;
    TablesAgree(n.flights[c].start, n.flights[c].t);
    if e.Begin? {
      TablesAgree(n.state, e.t);
    } else {
      assert e.c !in n.flights.Keys;
    }
  }

  /** Every interleaving: one transition at most is in flight, and the committed ones, taken one at a time
      from Unconfigured, are allowed by the table and lead to the node's state, or to the state in flight. */
  lemma {:induction false} EveryInterleaving(events: seq<Event>)
    ensures Inv(Steps(NEW_NODE, events))
  {
    if events != [] {
      EveryInterleaving(events[..|events| - 1]);
      StepKeepsInv(Steps(NEW_NODE, events[..|events| - 1]), events[|events| - 1]);
    }
  }

  /** The state is intermediate exactly while a transition is in flight, and never more than one is. */
  lemma IntermediateIffInFlight(events: seq<Event>)
    ensures var n := Steps(NEW_NODE, events);
      && |n.flights| <= 1
      && (Primary(n.state) <==> n.flights == map[])
      && (Primary(n.state) ==> Replay(n.committed) == Some(n.state))
  {
    hide Steps;
    EveryInterleaving(events);
    InvSays(Steps(NEW_NODE, events));
  }

  lemma InvSays(n: Node)
    requires Inv(n)
    ensures |n.flights| <= 1 && (Primary(n.state) <==> n.flights == map[])
    ensures Primary(n.state) ==> Replay(n.committed) == Some(n.state)
  {
    hide OneFlight, Replay;
    if n.flights == map[] {
      AtRest(n);
    } else {
      var c :| OneFlight(n, c);
      InFlight(n, c);
    }
  }

  lemma InFlight(n: Node, c: Caller)
    requires OneFlight(n, c)
    ensures |n.flights| == 1 && !Primary(n.state)
  {
    hide Replay;
    TablesAgree(n.flights[c].start, n.flights[c].t);
    assert |n.flights| == |n.flights.Keys|;
  }

  /** While a transition is in flight, nobody else changes anything, whatever they ask. */
  lemma {:induction false} OthersAreRefused(n: Node, c: Caller, events: seq<Event>)
    requires OneFlight(n, c)
    requires forall e :: e in events ==> !Ends(e, c)
    ensures Steps(n, events) == n
  {
    if events != [] {
      OthersAreRefused(n, c, events[..|events| - 1]);
      OthersChangeNothing(n, c, events[|events| - 1]);
    }
  }

  /** A transition whose hook fails leaves the node as it was, through any interference meanwhile;
      one whose hook succeeds moves it along the table. */
  lemma TransitionIsAtomic(n: Node, c: Caller, t: Transition, events: seq<Event>, ok: bool)
    requires Inv(n) && n.flights == map[] && Table(n.state, t).Some?
    requires forall e :: e in events ==> !Ends(e, c)
    ensures Step(Steps(Step(n, Begin(c, t)), events), HookDone(c, ok)) ==
      if ok then Node(Table(n.state, t).value, map[], n.committed + [t]) else n
  {
    var begun := Step(n, Begin(c, t));
    assert OneFlight(begun, c);
    OthersAreRefused(begun, c, events);
    assert begun.flights - {c} == map[];
  }

  /** The transitions of a managed node: from where, shown as what meanwhile, and to where. */
  ghost predicate Allowed(from: State, t: Transition, through: State, goal: State) {
    || (from == Unconfigured && t == Configure && through == Configuring && goal == Inactive)
    || (from == Unconfigured && t == UnconfiguredShutdown && through == ShuttingDown && goal == Finalized)
    || (from == Inactive && t == Activate && through == Activating && goal == Active)
    || (from == Inactive && t == Cleanup && through == CleaningUp && goal == Unconfigured)
    || (from == Inactive && t == InactiveShutdown && through == ShuttingDown && goal == Finalized)
    || (from == Active && t == Deactivate && through == Deactivating && goal == Inactive)
    || (from == Active && t == ActiveShutdown && through == ShuttingDown && goal == Finalized)
  }

  /** After any events, a node at rest is changed by exactly these, and only if the hook agrees. */
  lemma ExactlyAllowed(events: seq<Event>, c: Caller, t: Transition)
    requires Steps(NEW_NODE, events).flights == map[]
    ensures var n := Steps(NEW_NODE, events);
      var during := Step(n, Begin(c, t));
      var done := Step(during, HookDone(c, true));
      && (done.state != n.state <==> exists through, goal :: Allowed(n.state, t, through, goal))
      && (done.state == n.state ==> during == n && done == n)
      && (forall through, goal :: Allowed(n.state, t, through, goal) ==>
        && during.state == through && done.state == goal && done.committed == n.committed + [t]
        && Step(during, HookDone(c, false)) == n)
  {
    hide Steps;
    var n := Steps(NEW_NODE, events);
    BeginAllowed(n, c, t);
  }

  lemma BeginAllowed(n: Node, c: Caller, t: Transition)
    requires n.flights == map[]
    ensures var during := Step(n, Begin(c, t));
      var done := Step(during, HookDone(c, true));
      && (done.state != n.state <==> exists through, goal :: Allowed(n.state, t, through, goal))
      && (done.state == n.state ==> during == n && done == n)
      && (forall through, goal :: Allowed(n.state, t, through, goal) ==>
        && during.state == through && done.state == goal && done.committed == n.committed + [t]
        && Step(during, HookDone(c, false)) == n)
  {
    var during := Step(n, Begin(c, t));
    TableAllowed(n.state, t);
    hide Table, Intermediate, Allowed;
    if Table(n.state, t).Some? {
      assert during.flights - {c} == map[];
    }
  }

  lemma TableAllowed(s: State, t: Transition)
    ensures forall through, goal :: Allowed(s, t, through, goal) <==>
      Table(s, t) == Some(goal) && through == Intermediate(t)
    ensures Table(s, t).Some? ==> Allowed(s, t, Intermediate(t), Table(s, t).value)
    ensures Table(s, t) != Some(s)
  {
    hide Allowed, Intermediate;
    forall through, goal ensures Allowed(s, t, through, goal) <==>
      Table(s, t) == Some(goal) && through == Intermediate(t)
    {
      InTable(s, t, through, goal);
    }
    if Table(s, t).Some? {
      InTable(s, t, Intermediate(t), Table(s, t).value);
    }
  }

  lemma InTable(s: State, t: Transition, through: State, goal: State)
    ensures Allowed(s, t, through, goal) <==> Table(s, t) == Some(goal) && through == Intermediate(t)
  {
  }

  /** Finalized is the end. */
  lemma {:induction false} FinalizedAbsorbs(n: Node, events: seq<Event>)
    requires n.state == Finalized && n.flights == map[]
    ensures Steps(n, events) == n
  {
    if events != [] {
      FinalizedAbsorbs(n, events[..|events| - 1]);
    }
  }

  // ----- the machine as the runtime keeps it -----

  class Lifecycle {
    var state: State
    ghost var flights: map<Caller, Flight>
    ghost var committed: seq<Transition>

    ghost function Model(): Node
      reads this
    {
      Node(state, flights, committed)
    }

    constructor ()
      ensures Model() == NEW_NODE
    {
      state, flights, committed := Unconfigured, map[], [];
    }

    /** transition, up to the hook: the start and goal that the caller holds on to, unless refused. */
    method BeginTransition(ghost c: Caller, t: Transition) returns (r: Option<(State, State)>)
      requires c !in flights
      modifies this
      ensures Model() == Step(old(Model()), Begin(c, t))
      ensures r == match Table(old(state), t) case None => None case Some(goal) => Some((old(state), goal))
    {
      var start := state;
      var goal := Table(start, t);
      if goal.None? {
        return None;
      }
      state := Intermediate(t);
      flights := flights[c := Flight(t, start, goal.value)];
      r := Some((start, goal.value));
    }

    /** transition, after the hook. */
    method EndTransition(ghost c: Caller, start: State, goal: State, ok: bool)
      requires c in flights && flights[c].start == start && flights[c].goal == goal
      modifies this
      ensures Model() == Step(old(Model()), HookDone(c, ok))
    {
      if ok {
        state := goal;
        committed := committed + [flights[c].t];
      } else {
        state := start;
      }
      flights := flights - {c};
    }

    /** transition with nobody else about. */
    method Transit(ghost c: Caller, t: Transition, hook: bool) returns (ok: bool)
      requires flights == map[]
      modifies this
      ensures flights == map[]
      ensures ok <==> Table(old(state), t).Some? && hook
      ensures state == if ok then Table(old(state), t).value else old(state)
      ensures ok <==> hook && exists through :: Allowed(old(state), t, through, state)
    {
      TableAllowed(state, t);
      hide Allowed, Table, Intermediate;
      var r := BeginTransition(c, t);
      if r.None? {
        return false;
      }
      EndTransition(c, r.value.0, r.value.1, hook);
      assert flights == map[];
      ok := hook;
    }
  }
}
