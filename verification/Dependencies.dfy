/**
 * Dependency relations between nodes: topological orders, cycles and chains.  Both bring-up algorithms
 * are proved against this theory.
 */
module Dependencies {
  import opened Sorting

  type Node = string

  /** For each node, the nodes it depends on. */
  type Needs = map<Node, set<Node>>

  /** Every node has an entry, and depends on other nodes only. */
  ghost predicate Relation(nodes: seq<Node>, needs: Needs) {
    && Distinct(nodes)
    && needs.Keys == Elements(nodes)
    && forall n :: n in needs ==> needs[n] <= needs.Keys - {n}
  }

  /** Everything an element needs comes before it. */
  ghost predicate Topological(needs: Needs, order: seq<Node>) {
    forall i :: 0 <= i < |order| ==> order[i] in needs && needs[order[i]] <= Elements(order[..i])
  }

  /** A walk along dependencies. */
  ghost predicate Chain(needs: Needs, p: seq<Node>) {
    && (forall i :: 0 <= i < |p| ==> p[i] in needs)
    && forall i :: 0 <= i < |p| - 1 ==> p[i + 1] in needs[p[i]]
  }

  /** Some walk along dependencies from n comes back on itself: n is on a cycle or depends on one. */
  ghost predicate IntoCycle(needs: Needs, n: Node) {
    exists p :: Chain(needs, p) && p != [] && p[0] == n && !Distinct(p)
  }

  /** The nodes on or behind a cycle, in declaration order. */
  ghost function CycleNodes(nodes: seq<Node>, needs: Needs): seq<Node> {
    if nodes == [] then []
    else
      var last := nodes[|nodes| - 1];
      CycleNodes(nodes[..|nodes| - 1], needs) + if IntoCycle(needs, last) then [last] else []
  }

  function IndexIn(s: seq<Node>, n: Node): (i: nat)
    requires n in s
    ensures i < |s| && s[i] == n && n !in s[..i]
  {
    if s[0] == n then 0
    else
      assert n == s[0] || n in s[1..];
      var j := IndexIn(s[1..], n);
      assert s[..j + 1] == [s[0]] + s[1..][..j];
      j + 1
  }

  lemma FirstIndex(s: seq<Node>, n: Node, j: nat)
    requires j < |s| && s[j] == n
    ensures IndexIn(s, n) <= j
  {
  }

  /** Along a chain within a topological order, positions fall. */
  lemma {:induction false} ChainFalls(needs: Needs, order: seq<Node>, p: seq<Node>, k: nat)
    requires Topological(needs, order) && Chain(needs, p)
    requires p != [] && p[0] in order && k < |p|
    ensures p[k] in order
    ensures forall i :: 0 <= i < k ==> p[i] in order && IndexIn(order, p[k]) < IndexIn(order, p[i])
    decreases k
  {
    if k > 0 {
      ChainFalls(needs, order, p, k - 1);
      var i := IndexIn(order, p[k - 1]);
      assert p[k] in needs[order[i]];
      assert p[k] in order[..i];
      var j :| 0 <= j < i && order[j] == p[k];
      FirstIndex(order, p[k], j);
    }
  }

  /** Nothing in a topological order is on or behind a cycle. */
  lemma OrderedIsAcyclic(needs: Needs, order: seq<Node>, n: Node)
    requires Topological(needs, order) && n in order
    ensures !IntoCycle(needs, n)
  {
    forall p | Chain(needs, p) && p != [] && p[0] == n ensures Distinct(p) {
      forall i, j | 0 <= i < j < |p| ensures p[i] != p[j] {
        ChainFalls(needs, order, p, j);
      }
    }
  }

  /** A set in which every node needs another of the set lies on or behind cycles. */
  lemma StuckIsCyclic(needs: Needs, stuck: set<Node>, n: Node)
    requires stuck <= needs.Keys && n in stuck
    requires forall m :: m in stuck ==> needs[m] * stuck != {}
    ensures IntoCycle(needs, n)
  {
    var p := [n];
    for k := 0 to |stuck|
      invariant |p| == k + 1 && p[0] == n && Chain(needs, p)
      invariant forall i :: 0 <= i < |p| ==> p[i] in stuck
    {
      var last := p[|p| - 1];
      var m :| m in needs[last] * stuck;
      p := p + [m];
    }
    Pigeonhole(p, stuck);
  }

  /** A chain of k dependencies starts at n. */
  ghost predicate HasChain(needs: Needs, n: Node, k: nat)
    decreases k
  {
    n in needs && (k == 0 || exists m :: m in needs[n] && HasChain(needs, m, k - 1))
  }

  /** The longest chain from n has k dependencies. */
  ghost predicate Depth(needs: Needs, n: Node, k: nat) {
    HasChain(needs, n, k) && !HasChain(needs, n, k + 1)
  }

  lemma {:induction false} ShorterChain(needs: Needs, n: Node, j: nat, k: nat)
    requires HasChain(needs, n, k) && j <= k
    ensures HasChain(needs, n, j)
    decreases j
  {
    if j > 0 {
      var m :| m in needs[n] && HasChain(needs, m, k - 1);
      ShorterChain(needs, m, j - 1, k - 1);
    }
  }

  lemma DepthUnique(needs: Needs, n: Node, j: nat, k: nat)
    requires Depth(needs, n, j) && Depth(needs, n, k)
    ensures j == k
  {
    if j < k {
      ShorterChain(needs, n, j + 1, k);
    } else if k < j {
      ShorterChain(needs, n, k + 1, j);
    }
  }

  /** One above the deepest of what it needs. */
  lemma DepthAbove(needs: Needs, n: Node, m: Node, k: nat)
    requires n in needs && m in needs[n] && Depth(needs, m, k)
    requires forall x :: x in needs[n] ==> exists j: nat :: j <= k && Depth(needs, x, j)
    ensures Depth(needs, n, k + 1)
  {
    assert HasChain(needs, n, k + 1);
    if HasChain(needs, n, k + 2) {
      var x :| x in needs[n] && HasChain(needs, x, k + 1);
      var j: nat :| j <= k && Depth(needs, x, j);
      ShorterChain(needs, x, j + 1, k + 1);
      assert false;
    }
  }

  // ----- what a bring-up order must be -----

  /** Acyclic nodes first, each after all it needs; then the rest as declared, which are those into cycles. */
  ghost predicate BringsUp(nodes: seq<Node>, needs: Needs, order: seq<Node>, cycles: seq<Node>) {
    && |cycles| <= |order|
    && order[|order| - |cycles|..] == cycles
    && cycles == CycleNodes(nodes, needs)
    && Topological(needs, order[..|order| - |cycles|])
    && multiset(order) == multiset(nodes)
  }

  /** The acyclic part of an order. */
  function Front(order: seq<Node>, cycles: seq<Node>): seq<Node>
    requires |cycles| <= |order|
  {
    order[..|order| - |cycles|]
  }

  lemma {:induction false} CycleNodesMember(nodes: seq<Node>, needs: Needs, n: Node)
    ensures n in CycleNodes(nodes, needs) <==> n in nodes && IntoCycle(needs, n)
  {
    hide IntoCycle;
    if nodes != [] {
      var init, last := nodes[..|nodes| - 1], nodes[|nodes| - 1];
      assert nodes == init + [last];
      CycleNodesMember(init, needs, n);
    }
  }

  /** A consumer outside the cycles comes after each of its providers, and none of those is in a cycle. */
  lemma ProvidersFirst(nodes: seq<Node>, needs: Needs, order: seq<Node>, cycles: seq<Node>, i: nat, p: Node)
    requires BringsUp(nodes, needs, order, cycles)
    requires i < |order| - |cycles| && order[i] in needs && p in needs[order[i]]
    ensures exists j :: 0 <= j < i && order[j] == p
    ensures p !in cycles
  {
    hide IntoCycle;
    var front := Front(order, cycles);
    TopologicalAt(needs, front, i);
    assert p in front[..i];
    var j :| 0 <= j < i && front[..i][j] == p;
    assert order[j] == p && p in front;
    OrderedIsAcyclic(needs, front, p);
    CycleNodesMember(nodes, needs, p);
  }

  /** What is known of a run of either algorithm: what is done, what waits, what each still lacks. */
  ghost predicate Progress(nodes: seq<Node>, needs: Needs, order: seq<Node>, ready: seq<Node>,
      indegree: map<Node, nat>) {
    && Relation(nodes, needs)
    && Topological(needs, order) && Distinct(order)
    && Distinct(ready) && Elements(ready) !! Elements(order)
    && Elements(ready) <= needs.Keys
    && Counts(needs, order, indegree)
    && (forall n :: n in needs && n !in order ==> (n in ready <==> forall x :: x in needs[n] ==> x in order))
  }

  /** With nothing ready, the nodes not yet ordered are exactly those into cycles. */
  lemma LeftoversAreCyclic(nodes: seq<Node>, needs: Needs, order: seq<Node>, indegree: map<Node, nat>, n: Node)
    requires Progress(nodes, needs, order, [], indegree) && n in nodes
    ensures n !in order <==> IntoCycle(needs, n)
  {
    if n in order {
      OrderedIsAcyclic(needs, order, n);
    } else {
      var stuck := needs.Keys - Elements(order);
      forall m | m in stuck ensures needs[m] * stuck != {} {
        assert m !in order && m !in [];
        var x :| x in needs[m] && x !in Elements(order);
        assert x in needs[m] * stuck;
      }
      StuckIsCyclic(needs, stuck, n);
    }
  }

  lemma {:induction false} OrderedInNodes(needs: Needs, order: seq<Node>)
    requires Topological(needs, order)
    ensures Elements(order) <= needs.Keys
  {
  }

  /** Taking a ready node. */
  lemma TopologicalSnoc(needs: Needs, order: seq<Node>, n: Node)
    requires Topological(needs, order) && n in needs && needs[n] <= Elements(order)
    ensures Topological(needs, order + [n])
  {
    var order' := order + [n];
    forall i | 0 <= i < |order'| ensures order'[i] in needs && needs[order'[i]] <= Elements(order'[..i]) {
      assert order'[..i] == order[..i];
      assert i == |order| ==> order[..i] == order;
    }
  }

  lemma HeadMember(s: seq<Node>)
    requires s != []
    ensures s[0] in s
  {
  }

  /** Acyclic nodes and cyclic ones together are all the nodes. */
  lemma {:induction false} PartsAreAll(nodes: seq<Node>, needs: Needs, front: seq<Node>, k: nat)
    requires k <= |nodes| && Distinct(nodes) && Distinct(front)
    requires forall n :: n in front ==> n in nodes[..k]
    requires forall n :: n in nodes[..k] ==> (n !in front <==> IntoCycle(needs, n))
    ensures multiset(front) + multiset(CycleNodes(nodes[..k], needs)) == multiset(nodes[..k])
    decreases k
  {
    if k == 0 {
      if front != [] {
        HeadMember(front);
      }
    } else {
      var last := nodes[k - 1];
      assert nodes[..k] == nodes[..k - 1] + [last];
      assert nodes[..k][..k - 1] == nodes[..k - 1];
      assert last !in nodes[..k - 1];
      if last in front {
        var i := IndexIn(front, last);
        var rest := Without(front, i);
        WithoutCount(front, i);
        WithoutMembers(front, i);
        PartsAreAll(nodes, needs, rest, k - 1);
      } else {
        PartsAreAll(nodes, needs, front, k - 1);
      }
    }
  }

  // ----- the inner loop that both algorithms share -----

  /** The nodes that only n kept waiting, in declaration order; n is already in order. */
  function Unlocked(nodes: seq<Node>, needs: Needs, order: seq<Node>, n: Node): (r: seq<Node>)
    ensures forall m :: m in r <==>
      m in nodes && m in needs && m !in order && n in needs[m] && forall x :: x in needs[m] ==> x in order
  {
    if nodes == [] then []
    else
      var last := nodes[|nodes| - 1];
      assert nodes == nodes[..|nodes| - 1] + [last];
      Unlocked(nodes[..|nodes| - 1], needs, order, n) +
      if last in needs && last !in order && n in needs[last] && forall x :: x in needs[last] ==> x in order then [last]
      else []
  }

  lemma {:induction false} UnlockedDistinct(nodes: seq<Node>, needs: Needs, order: seq<Node>, n: Node)
    requires Distinct(nodes)
    ensures Distinct(Unlocked(nodes, needs, order, n))
  {
    if nodes != [] {
      var init, last := nodes[..|nodes| - 1], nodes[|nodes| - 1];
      assert nodes == init + [last];
      DistinctSnoc(init, last);
      UnlockedDistinct(init, needs, order, n);
    }
  }

  /** What a node still waits for. */
  ghost function Lack(needs: Needs, order: seq<Node>, m: Node): set<Node>
    requires m in needs
  {
    needs[m] - Elements(order)
  }

  ghost predicate Counts(needs: Needs, order: seq<Node>, indegree: map<Node, nat>) {
    indegree.Keys == needs.Keys && forall n :: n in needs ==> indegree[n] == |Lack(needs, order, n)|
  }

  lemma LackLess(needs: Needs, order: seq<Node>, n: Node, m: Node)
    requires n !in order && m in needs
    ensures n in needs[m] ==> |Lack(needs, order + [n], m)| == |Lack(needs, order, m)| - 1
    ensures n !in needs[m] ==> Lack(needs, order + [n], m) == Lack(needs, order, m)
  {
    ElementsSnoc(order, n);
    if n in needs[m] {
      assert Lack(needs, order + [n], m) == Lack(needs, order, m) - {n};
    }
  }

  lemma LackNone(needs: Needs, order: seq<Node>, m: Node)
    requires m in needs
    ensures |Lack(needs, order, m)| == 0 <==> forall x :: x in needs[m] ==> x in order
  {
    var lack := Lack(needs, order, m);
    assert |lack| == 0 <==> lack == {};
    assert forall x :: x in lack <==> x in needs[m] && x !in order;
  }

  /** What was taken before n does not wait for n. */
  lemma TakenNeedsNot(needs: Needs, order: seq<Node>, n: Node, m: Node)
    requires Topological(needs, order + [n]) && Distinct(order + [n]) && m in order + [n]
    ensures m in needs && n !in needs[m]
  {
    hide Topological;
    var order' := order + [n];
    DistinctSnoc(order, n);
    var i :| 0 <= i < |order'| && order'[i] == m;
    TopologicalAt(needs, order', i);
    assert order'[..i] == order[..i];
    assert n !in order[..i];
  }

  lemma TopologicalAt(needs: Needs, order: seq<Node>, i: nat)
    requires Topological(needs, order) && i < |order|
    ensures order[i] in needs && forall x :: x in needs[order[i]] ==> x in order[..i]
  {
    assert needs[order[i]] <= Elements(order[..i]);
  }

  /** Taking n does nothing to another node, or it lacks one less and is free when that was the last. */
  lemma Effect(nodes: seq<Node>, needs: Needs, order: seq<Node>, n: Node, m: Node)
    requires Topological(needs, order + [n]) && m in needs && Distinct(order + [n])
    ensures m in order + [n] ==> n !in needs[m]
    ensures n !in needs[m] ==> |Lack(needs, order + [n], m)| == |Lack(needs, order, m)|
    ensures n in needs[m] ==> |Lack(needs, order + [n], m)| == |Lack(needs, order, m)| - 1
    ensures Unlocked(nodes + [m], needs, order + [n], n) == Unlocked(nodes, needs, order + [n], n) +
      if m !in order + [n] && n in needs[m] && |Lack(needs, order + [n], m)| == 0 then [m] else []
  {
    hide Topological;
    hide Lack;
    if m in order + [n] {
      TakenNeedsNot(needs, order, n, m);
    }
    DistinctSnoc(order, n);
    LackLess(needs, order, n, m);
    LackNone(needs, order + [n], m);
    UnlockedSnoc(nodes, needs, order + [n], n, m);
  }

  /** Taking n: every node that was waiting for it waits for one less, and some become free. */
  method Release(nodes: seq<Node>, needs: Needs, ghost order: seq<Node>, done: set<Node>, indegree: map<Node, nat>,
      n: Node)
    returns (unlocked: seq<Node>, indegree': map<Node, nat>)
    requires Relation(nodes, needs) && Topological(needs, order + [n]) && Distinct(order + [n])
    requires done == Elements(order + [n]) && Counts(needs, order, indegree)
    ensures unlocked == Unlocked(nodes, needs, order + [n], n)
    ensures Counts(needs, order + [n], indegree')
  {
    hide Topological;
    hide Unlocked;
    hide Lack;
    unlocked, indegree' := [], indegree;
    UnlockedEmpty(needs, order + [n], n);
    for k := 0 to |nodes|
      invariant unlocked == Unlocked(nodes[..k], needs, order + [n], n)
      invariant indegree'.Keys == needs.Keys
      invariant forall m :: m in nodes[..k] ==> m in needs && indegree'[m] == |Lack(needs, order + [n], m)|
      invariant forall m :: m in needs && m !in nodes[..k] ==> indegree'[m] == |Lack(needs, order, m)|
    {
      var other := nodes[k];
      assert nodes[..k + 1] == nodes[..k] + [other];
      assert other in nodes && other !in nodes[..k];
      assert other in needs.Keys;
      Effect(nodes[..k], needs, order, n, other);
      if other in done || n !in needs[other] {
        continue;
      }
      indegree' := indegree'[other := indegree'[other] - 1];
      if indegree'[other] == 0 {
        unlocked := unlocked + [other];
      }
    }
    assert nodes[..|nodes|] == nodes;
  }

  lemma UnlockedEmpty(needs: Needs, order: seq<Node>, n: Node)
    ensures Unlocked([], needs, order, n) == []
  {
  }

  lemma UnlockedSnoc(nodes: seq<Node>, needs: Needs, order: seq<Node>, n: Node, m: Node)
    ensures Unlocked(nodes + [m], needs, order, n) == Unlocked(nodes, needs, order, n) +
      if m in needs && m !in order && n in needs[m] && forall x :: x in needs[m] ==> x in order then [m] else []
  {
    assert (nodes + [m])[..|nodes|] == nodes;
  }

  /** One turn of either loop: a ready node is taken, what it unlocks joins those still ready. */
  lemma Take(nodes: seq<Node>, needs: Needs, order: seq<Node>, ready: seq<Node>, indegree: map<Node, nat>,
             n: Node, ready': seq<Node>, indegree': map<Node, nat>)
    requires Progress(nodes, needs, order, ready, indegree) && n in ready
    requires Counts(needs, order + [n], indegree')
    requires Distinct(ready')
    requires forall m :: m in ready' <==> (m in ready && m != n) || m in Unlocked(nodes, needs, order + [n], n)
    ensures Progress(nodes, needs, order + [n], ready', indegree')
  {
    hide Topological;
    hide Counts;
    hide Distinct;
    ReadyIsFree(nodes, needs, order, ready, indegree, n);
    var order' := order + [n];
    forall m | m in ready' ensures m in needs.Keys && m !in order' {
      if m in ready && m != n {
        ReadyIsFree(nodes, needs, order, ready, indegree, m);
      }
    }
    forall m | m in needs && m !in order' ensures m in ready' <==> forall x :: x in needs[m] ==> x in order' {
      assert m in needs.Keys && m in nodes;
      assert m in ready <==> forall x :: x in needs[m] ==> x in order;
    }
  }

  lemma ReadyIsFree(nodes: seq<Node>, needs: Needs, order: seq<Node>, ready: seq<Node>, indegree: map<Node, nat>,
      n: Node)
    requires Progress(nodes, needs, order, ready, indegree) && n in ready
    ensures n in needs && n !in order && forall x :: x in needs[n] ==> x in order
    ensures Topological(needs, order + [n]) && Distinct(order + [n])
    ensures |order| < |nodes|
  {
    assert n in Elements(ready) && n in needs.Keys && n !in Elements(order);
    assert forall x :: x in needs[n] ==> x in order;
    TopologicalSnoc(needs, order, n);
    DistinctSnoc(order, n);
    OrderedInNodes(needs, order + [n]);
    DistinctCount(order + [n]);
    DistinctCount(nodes);
    SubsetCount(Elements(order + [n]), needs.Keys);
  }

  // ----- how both algorithms begin and end -----

  /** Nodes that need nothing, in declaration order. */
  function Sources(nodes: seq<Node>, needs: Needs): (r: seq<Node>)
    ensures forall n :: n in r <==> n in nodes && n in needs && needs[n] == {}
  {
    if nodes == [] then []
    else
      var last := nodes[|nodes| - 1];
      assert nodes == nodes[..|nodes| - 1] + [last];
      Sources(nodes[..|nodes| - 1], needs) + if last in needs && needs[last] == {} then [last] else []
  }

  lemma SourcesSnoc(nodes: seq<Node>, needs: Needs, n: Node)
    ensures Sources(nodes + [n], needs) == Sources(nodes, needs) + if n in needs && needs[n] == {} then [n] else []
  {
    assert (nodes + [n])[..|nodes|] == nodes;
  }

  lemma {:induction false} SourcesDistinct(nodes: seq<Node>, needs: Needs)
    requires Distinct(nodes)
    ensures Distinct(Sources(nodes, needs))
  {
    if nodes != [] {
      var init, last := nodes[..|nodes| - 1], nodes[|nodes| - 1];
      assert nodes == init + [last];
      DistinctSnoc(init, last);
      SourcesDistinct(init, needs);
    }
  }

  lemma SourceCount(nodes: seq<Node>, needs: Needs, indegree: map<Node, nat>, n: Node)
    requires Relation(nodes, needs) && Counts(needs, [], indegree) && n in nodes
    ensures n in needs && n in indegree && (indegree[n] == 0 <==> needs[n] == {})
  {
    hide Lack;
    assert n in Elements(nodes);
    LackAll(needs, n);
    hide Relation;
    assert indegree[n] == |needs[n]|;
  }

  lemma LackAll(needs: Needs, n: Node)
    requires n in needs
    ensures Lack(needs, [], n) == needs[n]
  {
  }

  /** The nodes that need nothing, as found. */
  method FindSources(nodes: seq<Node>, needs: Needs, indegree: map<Node, nat>) returns (ready: seq<Node>)
    requires Relation(nodes, needs) && Counts(needs, [], indegree)
    ensures ready == Sources(nodes, needs)
  {
    hide *;
    ready := [];
    SourcesNone(needs);
    for i := 0 to |nodes|
      invariant ready == Sources(nodes[..i], needs)
    {
      var n := nodes[i];
      assert n in nodes && nodes[..i + 1] == nodes[..i] + [n];
      SourceCount(nodes, needs, indegree, n);
      SourcesSnoc(nodes[..i], needs, n);
      if indegree[n] == 0 {
        ready := ready + [n];
      }
    }
    assert nodes[..|nodes|] == nodes;
  }

  lemma SourcesNone(needs: Needs)
    ensures Sources([], needs) == []
  {
  }

  lemma ProgressStarts(nodes: seq<Node>, needs: Needs, indegree: map<Node, nat>)
    requires Relation(nodes, needs) && Counts(needs, [], indegree)
    ensures Progress(nodes, needs, [], Sources(nodes, needs), indegree)
  {
    hide Counts;
    hide Sources;
    SourcesDistinct(nodes, needs);
    assert Distinct<Node>([]) && Topological(needs, []);
    hide Distinct;
    hide Topological;
    forall n | n in needs && n !in [] ensures n in Sources(nodes, needs) <==> forall x :: x in needs[n] ==> x in [] {
      assert n in needs.Keys;
    }
  }

  lemma ProgressCounts(nodes: seq<Node>, needs: Needs, order: seq<Node>, ready: seq<Node>, indegree: map<Node, nat>)
    requires Progress(nodes, needs, order, ready, indegree)
    ensures Relation(nodes, needs) && Counts(needs, order, indegree)
  {
  }

  /** Whatever the loop did not reach, as declared: the cycles. */
  method AppendCycles(nodes: seq<Node>, needs: Needs, front: seq<Node>, done: set<Node>, ghost indegree: map<Node, nat>)
    returns (order: seq<Node>, cycles: seq<Node>)
    requires Progress(nodes, needs, front, [], indegree) && done == Elements(front)
    ensures BringsUp(nodes, needs, order, cycles)
    ensures order == front + cycles && cycles == CycleNodes(nodes, needs) && Front(order, cycles) == front
  {
    hide Progress;
    hide IntoCycle;
    order, cycles := front, [];
    for i := 0 to |nodes|
      invariant cycles == CycleNodes(nodes[..i], needs) && order == front + cycles
    {
      var n := nodes[i];
      assert n in nodes && nodes[..i + 1] == nodes[..i] + [n] && nodes[..i + 1][..i] == nodes[..i];
      LeftoversAreCyclic(nodes, needs, front, indegree, n);
      if n !in done {
        cycles := cycles + [n];
        order := order + [n];
      }
    }
    assert nodes[..|nodes|] == nodes;
    OrderComplete(nodes, needs, front, indegree);
    assert order[..|front|] == front && order[|front|..] == cycles;
  }

  lemma OrderComplete(nodes: seq<Node>, needs: Needs, front: seq<Node>, indegree: map<Node, nat>)
    requires Progress(nodes, needs, front, [], indegree)
    ensures Topological(needs, front)
    ensures multiset(front + CycleNodes(nodes, needs)) == multiset(nodes)
  {
    hide IntoCycle, CycleNodes, Topological, Counts;
    OrderedInNodes(needs, front);
    forall n | n in front ensures n in nodes {
      assert n in Elements(front) && n in needs.Keys && n in Elements(nodes);
    }
    forall n | n in nodes ensures n !in front <==> IntoCycle(needs, n) {
      LeftoversAreCyclic(nodes, needs, front, indegree, n);
    }
    assert nodes[..|nodes|] == nodes;
    hide Progress;
    PartsAreAll(nodes, needs, front, |nodes|);
  }

  // ----- sorting by declaration order -----

  function Position(nodes: seq<Node>, n: Node): nat {
    if n in nodes then IndexIn(nodes, n) else |nodes|
  }

  /** Earlier declared first. */
  ghost predicate ByPosition(nodes: seq<Node>, s: seq<Node>) {
    forall i, j :: 0 <= i < j < |s| ==> Position(nodes, s[i]) < Position(nodes, s[j])
  }

  method SortByPosition(nodes: seq<Node>, s: seq<Node>) returns (r: seq<Node>)
    requires Distinct(s) && forall n :: n in s ==> n in nodes
    ensures ByPosition(nodes, r) && Distinct(r)
    ensures multiset(r) == multiset(s)
  {
    r := Sort((a: Node, b: Node) => Position(nodes, a) <= Position(nodes, b), s);
    SamePermutation(r, s);
    DistinctPermutation(r, s);
    forall i, j | 0 <= i < j < |r| ensures Position(nodes, r[i]) < Position(nodes, r[j]) {
      assert r[i] != r[j] && r[i] in r && r[j] in r;
    }
  }

  lemma MultisetTail(s: seq<Node>)
    requires s != []
    ensures multiset(s[1..]) == multiset(s) - multiset{s[0]}
  {
    assert s == [s[0]] + s[1..];
  }

  lemma FirstByPosition(nodes: seq<Node>, r: seq<Node>, s: seq<Node>)
    requires ByPosition(nodes, r) && ByPosition(nodes, s) && r != [] && s != []
    requires r[0] in s && s[0] in r
    ensures r[0] == s[0]
  {
    hide Position;
    var i :| 0 <= i < |s| && s[i] == r[0];
    var j :| 0 <= j < |r| && r[j] == s[0];
  }

  /** There is one way to sort distinct nodes. */
  lemma {:induction false} SortedOnce(nodes: seq<Node>, r: seq<Node>, s: seq<Node>)
    requires ByPosition(nodes, r) && ByPosition(nodes, s) && multiset(r) == multiset(s)
    ensures r == s
    decreases |r|
  {
    hide Position;
    SamePermutation(r, s);
    if r != [] {
      assert r[0] in r && s[0] in s;
      FirstByPosition(nodes, r, s);
      MultisetTail(r);
      MultisetTail(s);
      SortedOnce(nodes, r[1..], s[1..]);
      assert r == [r[0]] + r[1..] && s == [s[0]] + s[1..];
    }
  }

  lemma PositionPrefix(nodes: seq<Node>, n: Node, last: Node)
    requires Distinct(nodes + [last])
    ensures n in nodes ==> Position(nodes + [last], n) == Position(nodes, n) < |nodes|
    ensures Position(nodes + [last], last) == |nodes|
  {
    var all := nodes + [last];
    DistinctSnoc(nodes, last);
    if n in nodes {
      var i, j := IndexIn(nodes, n), IndexIn(all, n);
      assert all[i] == n && all[j] == n;
    }
    var k := IndexIn(all, last);
    assert all[|nodes|] == last && all[k] == last;
  }

  lemma {:induction false} SourcesByPosition(nodes: seq<Node>, needs: Needs)
    requires Distinct(nodes)
    ensures ByPosition(nodes, Sources(nodes, needs))
  {
    if nodes != [] {
      var init, last := nodes[..|nodes| - 1], nodes[|nodes| - 1];
      assert nodes == init + [last];
      DistinctSnoc(init, last);
      SourcesByPosition(init, needs);
      forall n | n in init ensures Position(nodes, n) == Position(init, n) < |init| && Position(nodes, last) == |init| {
        PositionPrefix(init, n, last);
      }
    }
  }

  lemma {:induction false} UnlockedByPosition(nodes: seq<Node>, needs: Needs, order: seq<Node>, n: Node)
    requires Distinct(nodes)
    ensures ByPosition(nodes, Unlocked(nodes, needs, order, n))
  {
    if nodes != [] {
      var init, last := nodes[..|nodes| - 1], nodes[|nodes| - 1];
      assert nodes == init + [last];
      DistinctSnoc(init, last);
      UnlockedByPosition(init, needs, order, n);
      forall m | m in init ensures Position(nodes, m) == Position(init, m) < |init| && Position(nodes, last) == |init| {
        PositionPrefix(init, m, last);
      }
    }
  }

  /** Sorting what was collected in declaration order changes nothing. */
  method SortCollected(nodes: seq<Node>, s: seq<Node>) returns (r: seq<Node>)
    requires ByPosition(nodes, s) && Distinct(s) && forall n :: n in s ==> n in nodes
    ensures r == s
  {
    r := SortByPosition(nodes, s);
    SortedOnce(nodes, r, s);
  }
}
