/**
 * The runtime's bring-up order, bringup.go: dependencies from what nodes provide and consume, then
 * Kahn's algorithm with a first-in first-out queue.
 */
module Bringup {
  import opened Sorting
  import opened Dependencies

  /** What a node provides and consumes, by endpoint name. */
  datatype NodeDeps = NodeDeps(offers: set<string>, consumes: set<string>)

  type Deps = map<Node, NodeDeps>

  /** p provides something that n consumes. */
  predicate Feeds(deps: Deps, p: Node, n: Node) {
    p != n && p in deps && n in deps && exists e :: e in deps[n].consumes && e in deps[p].offers
  }

  ghost function ProvidersTo(nodes: seq<Node>, deps: Deps, n: Node): set<Node> {
    set p | p in nodes && Feeds(deps, p, n)
  }

  /** The dependency relation that the recorded endpoints amount to. */
  ghost function NeedsOf(nodes: seq<Node>, deps: Deps): (needs: Needs)
    ensures Distinct(nodes) ==> Relation(nodes, needs)
  {
    map n | n in nodes :: ProvidersTo(nodes, deps, n)
  }

  /** For each endpoint, the nodes providing it, in declaration order. */
  method Providers(nodes: seq<Node>, deps: Deps) returns (providers: map<string, seq<Node>>)
    ensures forall e, p :: (e in providers && p in providers[e]) <==> p in nodes && p in deps && e in deps[p].offers
  {
    providers := map[];
    for i := 0 to |nodes|
      invariant forall e, p :: (e in providers && p in providers[e]) <==>
        p in nodes[..i] && p in deps && e in deps[p].offers
    {
      var n := nodes[i];
      assert nodes[..i + 1] == nodes[..i] + [n];
      if n !in deps {
        continue;
      }
      var rest := deps[n].offers;
      while rest != {}
        invariant rest <= deps[n].offers
        invariant forall e, p :: (e in providers && p in providers[e]) <==>
          (p in nodes[..i] && p in deps && e in deps[p].offers) || (p == n && e in deps[n].offers - rest)
        decreases rest
      {
        var e :| e in rest;
        rest := rest - {e};
        providers := providers[e := (if e in providers then providers[e] else []) + [n]];
      }
    }
    assert nodes[..|nodes|] == nodes;
  }

  /** The edges into n: every provider of every endpoint it consumes, but n itself. */
  method EdgesOf(n: Node, consumes: set<string>, providers: map<string, seq<Node>>)
      returns (edges: set<Node>, indegree: nat)
    ensures forall p :: p in edges <==> p != n && exists e :: e in consumes && e in providers && p in providers[e]
    ensures indegree == |edges|
  {
    edges, indegree := {}, 0;
    var rest := consumes;
    while rest != {}
      invariant rest <= consumes && indegree == |edges|
      invariant forall p :: p in edges <==>
        p != n && exists e :: e in consumes - rest && e in providers && p in providers[e]
      decreases rest
    {
      var name :| name in rest;
      ghost var seen := consumes - rest;
      rest := rest - {name};
      assert consumes - rest == seen + {name};
      var list := if name in providers then providers[name] else [];
      for k := 0 to |list|
        invariant indegree == |edges|
        invariant forall p :: p in edges <==>
          p != n && (p in list[..k] || exists e :: e in seen && e in providers && p in providers[e])
      {
        assert list[..k + 1] == list[..k] + [list[k]];
        if list[k] == n || list[k] in edges {
          continue;
        }
        edges := edges + {list[k]};
        indegree := indegree + 1;
      }
      assert list[..|list|] == list;
    }
    assert consumes - rest == consumes;
  }

  method Edges(nodes: seq<Node>, deps: Deps) returns (edges: Needs, indegree: map<Node, nat>)
    requires Distinct(nodes)
    ensures edges == NeedsOf(nodes, deps)
    ensures Counts(edges, [], indegree)
  {
    hide ProvidersTo;
    hide Lack;
    var providers := Providers(nodes, deps);
    edges, indegree := map[], map[];
    for i := 0 to |nodes|
      invariant forall n :: n in edges <==> n in nodes[..i]
      invariant forall n :: n in indegree <==> n in nodes[..i]
      invariant forall n :: n in edges ==> edges[n] == ProvidersTo(nodes, deps, n) && indegree[n] == |edges[n]|
    {
      var n := nodes[i];
      assert nodes[..i + 1] == nodes[..i] + [n];
      var mine, count := EdgesOf(n, if n in deps then deps[n].consumes else {}, providers);
      EdgesAreProviders(nodes, deps, providers, n, mine);
      edges, indegree := edges[n := mine], indegree[n := count];
    }
    assert nodes[..|nodes|] == nodes;
    forall n | n in edges ensures Lack(edges, [], n) == edges[n] {
      LackAll(edges, n);
    }
  }

  lemma EdgesAreProviders(nodes: seq<Node>, deps: Deps, providers: map<string, seq<Node>>, n: Node, edges: set<Node>)
    requires forall e, p :: (e in providers && p in providers[e]) <==> p in nodes && p in deps && e in deps[p].offers
    requires forall p :: p in edges <==>
      p != n && exists e :: e in (if n in deps then deps[n].consumes else {}) && e in providers && p in providers[e]
    ensures edges == ProvidersTo(nodes, deps, n)
  {
    forall p ensures p in edges <==> p in nodes && Feeds(deps, p, n) {
      if p in edges {
        var e :| e in (if n in deps then deps[n].consumes else {}) && e in providers && p in providers[e];
      }
      if p in nodes && Feeds(deps, p, n) {
        var e :| e in deps[n].consumes && e in deps[p].offers;
        assert e in providers && p in providers[e];
      }
    }
  }

  // ----- Kahn's algorithm, first in first out -----

  /** What the queue loop still appends, once done is appended and ready waits. */
  function Fifo(nodes: seq<Node>, needs: Needs, done: seq<Node>, ready: seq<Node>): seq<Node>
    decreases |nodes| - |done|
  {
    if ready == [] || |done| >= |nodes| then []
    else
      var n := ready[0];
      [n] + Fifo(nodes, needs, done + [n], ready[1..] + Unlocked(nodes, needs, done + [n], n))
  }

  /** The runtime order: the queue's order, then what it never reached. */
  ghost function RuntimeOrder(nodes: seq<Node>, needs: Needs): seq<Node> {
    Fifo(nodes, needs, [], Sources(nodes, needs)) + CycleNodes(nodes, needs)
  }

  /** Non-decreasing in the longest chain of dependencies. */
  ghost predicate Layered(needs: Needs, order: seq<Node>) {
    forall i, j, a: nat, b: nat :: 0 <= i < j < |order| && Depth(needs, order[i], a) && Depth(needs, order[j], b) ==>
      a <= b
  }

  /** What waits: its depths, deepest last, within one of the front. */
  ghost predicate Leveled(needs: Needs, order: seq<Node>, ready: seq<Node>, depth: map<Node, nat>, level: nat) {
    && (forall n :: n in order || n in ready ==> n in depth && Depth(needs, n, depth[n]))
    && (forall i, j :: 0 <= i < j < |order| ==> depth[order[i]] <= depth[order[j]])
    && (forall i, j :: 0 <= i < j < |ready| ==> depth[ready[i]] <= depth[ready[j]])
    && (forall n :: n in order ==> depth[n] <= level)
    && (forall n :: n in ready ==> level <= depth[n] <= level + 1)
  }

  lemma LeveledTake(nodes: seq<Node>, needs: Needs, order: seq<Node>, ready: seq<Node>, depth: map<Node, nat>,
      level: nat, unlocked: seq<Node>) returns (depth': map<Node, nat>, level': nat)
    requires ready != [] && Leveled(needs, order, ready, depth, level)
    requires forall m :: m in unlocked ==>
      && m in needs && m !in order && m !in ready && ready[0] in needs[m]
      && forall x :: x in needs[m] ==> x in order + [ready[0]]
    ensures Leveled(needs, order + [ready[0]], ready[1..] + unlocked, depth', level')
  {
    hide Depth;
    var n := ready[0];
    level' := depth[n];
    depth' := map m | m in depth.Keys + Elements(unlocked) :: if m in unlocked then level' + 1 else depth[m];
    forall m | m in unlocked ensures Depth(needs, m, level' + 1) {
      UnlockedDepth(needs, order, ready, depth, level, m);
    }
    assert Leveled(needs, order + [n], ready[1..], depth, level') by {
      assert ready[1..] + [] == ready[1..];
    }
    LeveledMore(needs, order + [n], ready[1..], depth, level', unlocked, depth');
  }

  lemma UnlockedDepth(needs: Needs, order: seq<Node>, ready: seq<Node>, depth: map<Node, nat>, level: nat, m: Node)
    requires ready != [] && Leveled(needs, order, ready, depth, level)
    requires m in needs && ready[0] in needs[m] && forall x :: x in needs[m] ==> x in order + [ready[0]]
    ensures Depth(needs, m, depth[ready[0]] + 1)
  {
    hide Depth;
    var n := ready[0];
    assert n in ready;
    forall x | x in needs[m] ensures exists j: nat :: j <= depth[n] && Depth(needs, x, j) {
      assert x in order + [n];
      assert Depth(needs, x, depth[x]);
    }
    DepthAbove(needs, m, n, depth[n]);
  }

  lemma LeveledMore(needs: Needs, order: seq<Node>, ready: seq<Node>, depth: map<Node, nat>, level: nat,
                    unlocked: seq<Node>, depth': map<Node, nat>)
    requires Leveled(needs, order, ready, depth, level)
    requires forall m :: m in order || m in ready ==> m in depth' && depth'[m] == depth[m]
    requires forall m :: m in unlocked ==> m in depth' && depth'[m] == level + 1 && Depth(needs, m, level + 1)
    ensures Leveled(needs, order, ready + unlocked, depth', level)
  {
    hide Depth;
  }

  lemma LeveledSources(nodes: seq<Node>, needs: Needs)
    requires Relation(nodes, needs)
    ensures Leveled(needs, [], Sources(nodes, needs), map n | n in Sources(nodes, needs) :: 0, 0)
  {
    forall n | n in Sources(nodes, needs) ensures Depth(needs, n, 0) {
    }
  }

  lemma LeveledIsLayered(needs: Needs, order: seq<Node>, depth: map<Node, nat>, level: nat)
    requires Leveled(needs, order, [], depth, level)
    ensures Layered(needs, order)
  {
    forall i, j, a: nat, b: nat | 0 <= i < j < |order| && Depth(needs, order[i], a) && Depth(needs, order[j], b)
      ensures a <= b
    {
      DepthUnique(needs, order[i], a, depth[order[i]]);
      DepthUnique(needs, order[j], b, depth[order[j]]);
    }
  }

  /** One turn of the queue loop. */
  lemma Turn(nodes: seq<Node>, needs: Needs, order: seq<Node>, ready: seq<Node>, indegree: map<Node, nat>,
      indegree': map<Node, nat>)
    requires Progress(nodes, needs, order, ready, indegree) && ready != []
    requires Counts(needs, order + [ready[0]], indegree')
    ensures var unlocked := Unlocked(nodes, needs, order + [ready[0]], ready[0]);
      && Progress(nodes, needs, order + [ready[0]], ready[1..] + unlocked, indegree')
      && Fifo(nodes, needs, order, ready) == [ready[0]] + Fifo(nodes, needs, order + [ready[0]], ready[1..] + unlocked)
      && forall m :: m in unlocked ==> m !in ready
  {
    hide Topological;
    hide Counts;
    var n, rest := ready[0], ready[1..];
    var unlocked := Unlocked(nodes, needs, order + [n], n);
    assert ready == [n] + rest;
    ReadyIsFree(nodes, needs, order, ready, indegree, n);
    UnlockedDistinct(nodes, needs, order + [n], n);
    forall m | m in unlocked ensures m !in ready {
      if m in ready {
        ReadyIsFree(nodes, needs, order, ready, indegree, m);
      }
    }
    DistinctTail(ready);
    DistinctConcat(rest, unlocked);
    Take(nodes, needs, order, ready, indegree, n, rest + unlocked, indegree');
  }

  /** The invariant of the queue loop. */
  ghost predicate Queueing(nodes: seq<Node>, needs: Needs, order: seq<Node>, ready: seq<Node>, indegree: map<Node, nat>,
                           done: set<Node>, depth: map<Node, nat>, level: nat)
  {
    && Progress(nodes, needs, order, ready, indegree) && done == Elements(order)
    && Fifo(nodes, needs, [], Sources(nodes, needs)) == order + Fifo(nodes, needs, order, ready)
    && Leveled(needs, order, ready, depth, level)
  }

  lemma QueueStarts(nodes: seq<Node>, needs: Needs, indegree: map<Node, nat>) returns (depth: map<Node, nat>)
    requires Relation(nodes, needs) && Counts(needs, [], indegree)
    ensures Queueing(nodes, needs, [], Sources(nodes, needs), indegree, {}, depth, 0)
  {
    hide Progress;
    hide Leveled;
    hide Sources;
    hide Fifo;
    hide Relation;
    hide Counts;
    ProgressStarts(nodes, needs, indegree);
    LeveledSources(nodes, needs);
    var rest := Fifo(nodes, needs, [], Sources(nodes, needs));
    assert [] + rest == rest;
    depth := map n | n in Sources(nodes, needs) :: 0;
  }

  /** What taking the front of the queue needs. */
  lemma QueueFront(nodes: seq<Node>, needs: Needs, order: seq<Node>, ready: seq<Node>, indegree: map<Node, nat>,
                   done: set<Node>, depth: map<Node, nat>, level: nat)
    requires Queueing(nodes, needs, order, ready, indegree, done, depth, level) && ready != []
    ensures Relation(nodes, needs) && Counts(needs, order, indegree) && |order| < |nodes|
    ensures Topological(needs, order + [ready[0]]) && Distinct(order + [ready[0]])
    ensures done + {ready[0]} == Elements(order + [ready[0]])
  {
    hide Fifo;
    hide Leveled;
    ReadyIsFree(nodes, needs, order, ready, indegree, ready[0]);
    ElementsSnoc(order, ready[0]);
    ProgressCounts(nodes, needs, order, ready, indegree);
  }

  lemma QueueTurns(nodes: seq<Node>, needs: Needs, order: seq<Node>, ready: seq<Node>, indegree: map<Node, nat>,
                   done: set<Node>, depth: map<Node, nat>, level: nat, indegree': map<Node, nat>)
    returns (depth': map<Node, nat>, level': nat)
    requires Queueing(nodes, needs, order, ready, indegree, done, depth, level) && ready != []
    requires Counts(needs, order + [ready[0]], indegree')
    ensures var n := ready[0];
      Queueing(nodes, needs, order + [n], ready[1..] + Unlocked(nodes, needs, order + [n], n), indegree', done + {n},
        depth', level')
  {
    hide Progress;
    hide Leveled;
    hide Counts;
    hide Sources;
    hide Fifo;
    hide Unlocked;
    var n := ready[0];
    var unlocked := Unlocked(nodes, needs, order + [n], n);
    var rest := Fifo(nodes, needs, order + [n], ready[1..] + unlocked);
    ElementsSnoc(order, n);
    Turn(nodes, needs, order, ready, indegree, indegree');
    assert order + ([n] + rest) == (order + [n]) + rest;
    depth', level' := LeveledTake(nodes, needs, order, ready, depth, level, unlocked);
  }

  lemma QueueEnds(nodes: seq<Node>, needs: Needs, order: seq<Node>, indegree: map<Node, nat>,
                  done: set<Node>, depth: map<Node, nat>, level: nat)
    requires Queueing(nodes, needs, order, [], indegree, done, depth, level)
    ensures Progress(nodes, needs, order, [], indegree) && done == Elements(order)
    ensures order + CycleNodes(nodes, needs) == RuntimeOrder(nodes, needs)
    ensures Layered(needs, order)
  {
    hide Progress;
    hide CycleNodes;
    hide Sources;
    LeveledIsLayered(needs, order, depth, level);
  }

  lemma CollectedSources(nodes: seq<Node>, needs: Needs)
    requires Relation(nodes, needs)
    ensures var s := Sources(nodes, needs); ByPosition(nodes, s) && Distinct(s) && forall n :: n in s ==> n in nodes
  {
    SourcesByPosition(nodes, needs);
    SourcesDistinct(nodes, needs);
  }

  lemma CollectedUnlocked(nodes: seq<Node>, needs: Needs, order: seq<Node>, n: Node)
    requires Relation(nodes, needs)
    ensures var s := Unlocked(nodes, needs, order, n); ByPosition(nodes, s) && Distinct(s) && forall m :: m in s ==>
      m in nodes
  {
    UnlockedByPosition(nodes, needs, order, n);
    UnlockedDistinct(nodes, needs, order, n);
  }

  /** BringupOrder: the acyclic nodes layer by layer, each after what it needs, then those on or behind cycles. */
  method BringupOrder(nodes: seq<Node>, deps: Deps) returns (order: seq<Node>, cycles: seq<Node>)
    requires Distinct(nodes)
    ensures BringsUp(nodes, NeedsOf(nodes, deps), order, cycles)
    ensures order == RuntimeOrder(nodes, NeedsOf(nodes, deps))
    ensures Layered(NeedsOf(nodes, deps), Front(order, cycles))
  {
    hide *;
    var needs, indegree := Edges(nodes, deps);
    assert Relation(nodes, needs);
    var ready := FindSources(nodes, needs, indegree);
    CollectedSources(nodes, needs);
    ready := SortCollected(nodes, ready);
    order := [];
    var done: set<Node> := {};
    ghost var level: nat := 0;
    ghost var depth := QueueStarts(nodes, needs, indegree);
    while |ready| > 0
      invariant Queueing(nodes, needs, order, ready, indegree, done, depth, level)
      decreases |nodes| - |order|
    {
      var n := ready[0];
      QueueFront(nodes, needs, order, ready, indegree, done, depth, level);
      var unlocked, indegree' := Release(nodes, needs, order, done + {n}, indegree, n);
      CollectedUnlocked(nodes, needs, order + [n], n);
      unlocked := SortCollected(nodes, unlocked);
      depth, level := QueueTurns(nodes, needs, order, ready, indegree, done, depth, level, indegree');
      done := done + {n};
      order, ready, indegree := order + [n], ready[1..] + unlocked, indegree';
    }
    QueueEnds(nodes, needs, order, indegree, done, depth, level);
    order, cycles := AppendCycles(nodes, needs, order, done, indegree);
  }
}
