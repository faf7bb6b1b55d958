/**
 * The static bring-up order of internal/graph/graph.go: Kahn's algorithm that always takes the ready
 * node declared first.
 */
module GraphBringup {
  import opened Sorting
  import opened Dependencies

  /** An endpoint of the resolved graph: its name and the nodes at it that belong to the application. */
  datatype Endpoint = Endpoint(name: string, providers: seq<Provider>)

  datatype Provider = Provider(node: Node, external: bool)

  /** A node and the endpoints it consumes: subscriptions, clients and action clients in turn. */
  datatype GraphNode = GraphNode(name: Node, consumes: seq<string>)

  /** The resolved graph: topics with their publishers, services and actions with their servers. */
  datatype Graph = Graph(nodes: seq<GraphNode>, topics: seq<Endpoint>, services: seq<Endpoint>, actions: seq<Endpoint>)

  function Names(nodes: seq<GraphNode>): (r: seq<Node>)
    ensures |r| == |nodes| && forall i :: 0 <= i < |r| ==> r[i] == nodes[i].name
  {
    seq(|nodes|, i requires 0 <= i < |nodes| => nodes[i].name)
  }

  ghost predicate ServedAt(eps: seq<Endpoint>, e: string, p: Node) {
    exists i, j :: 0 <= i < |eps| && 0 <= j < |eps[i].providers| && eps[i].name == e &&
      eps[i].providers[j].node == p && !eps[i].providers[j].external
  }

  /** p provides endpoint e from within the application. */
  ghost predicate Serves(g: Graph, e: string, p: Node) {
    ServedAt(g.topics, e, p) || ServedAt(g.services, e, p) || ServedAt(g.actions, e, p)
  }

  ghost predicate Consumes(g: Graph, n: Node, e: string) {
    exists i :: 0 <= i < |g.nodes| && g.nodes[i].name == n && e in g.nodes[i].consumes
  }

  /** The relation that the resolved graph declares. */
  ghost predicate Declares(g: Graph, needs: Needs) {
    && needs.Keys == Elements(Names(g.nodes))
    && forall n, p :: n in needs ==> (p in needs[n] <==> p != n && exists e :: Consumes(g, n, e) && Serves(g, e, p))
  }

  /** Always the first declared of those that lack nothing. */
  ghost predicate Greedy(nodes: seq<Node>, needs: Needs, order: seq<Node>) {
    forall i, n ::
      0 <= i < |order| && n in needs && n !in order[..i] && (forall x :: x in needs[n] ==> x in order[..i]) ==>
      Position(nodes, order[i]) <= Position(nodes, n)
  }

  /** s comes before t in the order of declaration positions: at the first difference it has the earlier node. */
  ghost predicate LexLeast(nodes: seq<Node>, needs: Needs, s: seq<Node>) {
    forall t, k :: Topological(needs, t) && Distinct(t) && Elements(t) == Elements(s) && FirstDifference(s, t, k) ==>
      Position(nodes, s[k]) < Position(nodes, t[k])
  }

  ghost predicate FirstDifference(s: seq<Node>, t: seq<Node>, k: int) {
    0 <= k < |s| && k < |t| && s[..k] == t[..k] && s[k] != t[k]
  }

  lemma GreedyIsLeast(nodes: seq<Node>, needs: Needs, s: seq<Node>)
    requires Relation(nodes, needs) && Topological(needs, s) && Greedy(nodes, needs, s)
    ensures LexLeast(nodes, needs, s)
  {
    forall t, k | Topological(needs, t) && Distinct(t) && Elements(t) == Elements(s) && FirstDifference(s, t, k)
      ensures Position(nodes, s[k]) < Position(nodes, t[k])
    {
      TopologicalAt(needs, t, k);
      TopologicalAt(needs, s, k);
      forall i | 0 <= i < k ensures t[k] != t[..k][i] {
        assert t[i] != t[k];
      }
      assert t[k] !in s[..k];
      assert t[k] in Elements(nodes) && s[k] in Elements(nodes);
      SamePosition(nodes, s[k], t[k]);
      assert Position(nodes, s[k]) <= Position(nodes, t[k]);
    }
  }

  lemma SamePosition(nodes: seq<Node>, m: Node, n: Node)
    requires m in nodes && n in nodes && m != n
    ensures Position(nodes, m) != Position(nodes, n)
  {
  }

  // ----- dependencies -----

  ghost predicate Lists(m: map<string, seq<Node>>, e: string, p: Node) {
    e in m && p in m[e]
  }

  function Listing(m: map<string, seq<Node>>, e: string, p: Node): map<string, seq<Node>> {
    m[e := (if e in m then m[e] else []) + [p]]
  }

  lemma ListingAdds(m: map<string, seq<Node>>, e: string, p: Node)
    ensures forall e', p' :: Lists(Listing(m, e, p), e', p') <==> Lists(m, e', p') || (e' == e && p' == p)
  {
  }

  /** Adding the application's own providers at some endpoints. */
  method AddProviders(eps: seq<Endpoint>, providers: map<string, seq<Node>>) returns (out: map<string, seq<Node>>)
    ensures forall e, p :: Lists(out, e, p) <==> Lists(providers, e, p) || ServedAt(eps, e, p)
  {
    hide Lists;
    hide Listing;
    hide ServedAt;
    out := providers;
    ServedNowhere();
    for i := 0 to |eps|
      invariant forall e, p :: Lists(out, e, p) <==> Lists(providers, e, p) || ServedAt(eps[..i], e, p)
    {
      var ep := eps[i];
      ghost var before := out;
      for j := 0 to |ep.providers|
        invariant forall e, p :: Lists(out, e, p) <==>
          Lists(before, e, p) || (e == ep.name && Internal(ep.providers[..j], p))
      {
        InternalSnoc(ep.providers, j);
        if ep.providers[j].external {
          continue;
        }
        ListingAdds(out, ep.name, ep.providers[j].node);
        out := Listing(out, ep.name, ep.providers[j].node);
      }
      assert ep.providers[..|ep.providers|] == ep.providers;
      ServedSnoc(eps, i);
    }
    assert eps[..|eps|] == eps;
  }

  lemma ServedNowhere()
    ensures forall e, p :: !ServedAt([], e, p)
  {
  }

  ghost predicate Internal(ps: seq<Provider>, p: Node) {
    exists j :: 0 <= j < |ps| && ps[j].node == p && !ps[j].external
  }

  lemma InternalSnoc(ps: seq<Provider>, j: nat)
    requires j < |ps|
    ensures forall p :: Internal(ps[..j + 1], p) <==> Internal(ps[..j], p) || (p == ps[j].node && !ps[j].external)
  {
    forall p ensures Internal(ps[..j + 1], p) <==> Internal(ps[..j], p) || (p == ps[j].node && !ps[j].external) {
      if Internal(ps[..j], p) {
        var i :| 0 <= i < j && ps[..j][i].node == p && !ps[..j][i].external;
        assert ps[..j + 1][i] == ps[i];
      }
      if p == ps[j].node && !ps[j].external {
        assert ps[..j + 1][j] == ps[j];
      }
    }
  }

  lemma ServedSnoc(eps: seq<Endpoint>, i: nat)
    requires i < |eps|
    ensures forall e, p :: ServedAt(eps[..i + 1], e, p) <==>
      ServedAt(eps[..i], e, p) || (e == eps[i].name && Internal(eps[i].providers, p))
  {
    forall e, p
      ensures ServedAt(eps[..i + 1], e, p) <==>
        ServedAt(eps[..i], e, p) || (e == eps[i].name && Internal(eps[i].providers, p))
    {
      if ServedAt(eps[..i], e, p) {
        var k, j :| 0 <= k < i && 0 <= j < |eps[..i][k].providers| && eps[..i][k].name == e &&
          eps[..i][k].providers[j].node == p && !eps[..i][k].providers[j].external;
        assert eps[..i + 1][k] == eps[k];
      }
      if e == eps[i].name && Internal(eps[i].providers, p) {
        var j :| 0 <= j < |eps[i].providers| && eps[i].providers[j].node == p && !eps[i].providers[j].external;
        assert eps[..i + 1][i] == eps[i];
      }
    }
  }

  /** p is listed at one of the endpoints. */
  ghost predicate Offered(endpoints: seq<string>, providers: map<string, seq<Node>>, p: Node) {
    exists e :: e in endpoints && Lists(providers, e, p)
  }

  lemma OfferedSnoc(endpoints: seq<string>, last: string, providers: map<string, seq<Node>>, p: Node)
    ensures Offered(endpoints + [last], providers, p) <==> Lists(providers, last, p) || Offered(endpoints, providers, p)
  {
    hide Lists;
    if Offered(endpoints, providers, p) {
      var e :| e in endpoints && Lists(providers, e, p);
      assert e in endpoints + [last];
    }
    assert last in endpoints + [last];
  }

  /** Every provider of every endpoint consumed, but n itself. */
  method NeedsOfNode(n: Node, endpoints: seq<string>, providers: map<string, seq<Node>>) returns (mine: set<Node>)
    ensures forall p :: p in mine <==> p != n && Offered(endpoints, providers, p)
  {
    hide Offered;
    mine := {};
    OfferedNowhere(providers);
    for i := 0 to |endpoints|
      invariant forall p :: p in mine <==> p != n && Offered(endpoints[..i], providers, p)
    {
      var list := if endpoints[i] in providers then providers[endpoints[i]] else [];
      assert endpoints[..i + 1] == endpoints[..i] + [endpoints[i]];
      for k := 0 to |list|
        invariant forall p :: p in mine <==> p != n && (p in list[..k] || Offered(endpoints[..i], providers, p))
      {
        assert list[..k + 1] == list[..k] + [list[k]];
        if list[k] == n {
          continue;
        }
        mine := mine + {list[k]};
      }
      assert list[..|list|] == list;
      forall p ensures Offered(endpoints[..i + 1], providers, p) <==>
        p in list || Offered(endpoints[..i], providers, p) {
        OfferedSnoc(endpoints[..i], endpoints[i], providers, p);
      }
    }
    assert endpoints[..|endpoints|] == endpoints;
  }

  lemma OfferedNowhere(providers: map<string, seq<Node>>)
    ensures forall p :: !Offered([], providers, p)
  {
  }

  method DependenciesOf(g: Graph) returns (needs: Needs)
    requires Distinct(Names(g.nodes))
    ensures Declares(g, needs)
  {
    var names := Names(g.nodes);
    var providers := AddProviders(g.topics, map[]);
    providers := AddProviders(g.services, providers);
    providers := AddProviders(g.actions, providers);
    assert forall e, p :: Lists(providers, e, p) <==> Serves(g, e, p);
    needs := map[];
    for i := 0 to |g.nodes|
      invariant forall n :: n in needs <==> n in names[..i]
      invariant forall n, p :: n in needs ==>
        (p in needs[n] <==> p != n && exists e :: Consumes(g, n, e) && Serves(g, e, p))
    {
      var n := g.nodes[i].name;
      assert names[..i + 1] == names[..i] + [n];
      var mine := NeedsOfNode(n, g.nodes[i].consumes, providers);
      ConsumesAt(g, i);
      needs := needs[n := mine];
    }
    assert names[..|names|] == names;
  }

  lemma ConsumesAt(g: Graph, i: nat)
    requires i < |g.nodes| && Distinct(Names(g.nodes))
    ensures forall e :: Consumes(g, g.nodes[i].name, e) <==> e in g.nodes[i].consumes
  {
    var names := Names(g.nodes);
    forall e | Consumes(g, g.nodes[i].name, e) ensures e in g.nodes[i].consumes {
      var j :| 0 <= j < |g.nodes| && g.nodes[j].name == g.nodes[i].name && e in g.nodes[j].consumes;
      assert names[i] == names[j];
    }
  }

  // ----- Kahn's algorithm, first declared first -----

  /** Every application node serving an endpoint is one of the nodes. */
  ghost predicate Closed(g: Graph) {
    forall e, p :: Serves(g, e, p) ==> p in Names(g.nodes)
  }

  lemma DeclaresRelation(g: Graph, needs: Needs)
    requires Declares(g, needs) && Closed(g) && Distinct(Names(g.nodes))
    ensures Relation(Names(g.nodes), needs) && needs.Keys == Elements(Names(g.nodes))
  {
    hide Serves;
    hide Consumes;
    forall n | n in needs ensures needs[n] <= needs.Keys - {n} {
      forall p | p in needs[n] ensures p in needs.Keys && p != n {
        var e :| Consumes(g, n, e) && Serves(g, e, p);
      }
    }
  }

  /** The counts at the start are the sizes of the needs. */
  method Indegrees(names: seq<Node>, needs: Needs) returns (indegree: map<Node, nat>)
    requires needs.Keys == Elements(names)
    ensures Counts(needs, [], indegree)
  {
    hide Lack;
    indegree := map[];
    for i := 0 to |names|
      invariant forall n :: n in indegree <==> n in names[..i]
      invariant forall n :: n in indegree ==> n in needs && indegree[n] == |needs[n]|
    {
      assert names[..i + 1] == names[..i] + [names[i]];
      assert names[i] in names && names[i] in Elements(names);
      indegree := indegree[names[i] := |needs[names[i]]|];
    }
    assert names[..|names|] == names;
    forall n | n in needs ensures n in indegree && indegree[n] == |Lack(needs, [], n)| {
      assert n in Elements(names);
      LackAll(needs, n);
    }
  }

  ghost predicate Looping(names: seq<Node>, needs: Needs, order: seq<Node>, ready: seq<Node>, indegree: map<Node, nat>,
      done: set<Node>) {
    Progress(names, needs, order, ready, indegree) && done == Elements(order) && Greedy(names, needs, order)
  }

  lemma LoopFront(names: seq<Node>, needs: Needs, order: seq<Node>, ready: seq<Node>, indegree: map<Node, nat>,
      done: set<Node>, n: Node)
    requires Looping(names, needs, order, ready, indegree, done) && n in ready
    ensures Relation(names, needs) && Counts(needs, order, indegree) && |order| < |names|
    ensures Topological(needs, order + [n]) && Distinct(order + [n])
    ensures done + {n} == Elements(order + [n])
  {
    hide Greedy;
    ReadyIsFree(names, needs, order, ready, indegree, n);
    ElementsSnoc(order, n);
    ProgressCounts(names, needs, order, ready, indegree);
  }

  lemma ReadyAreNodes(names: seq<Node>, needs: Needs, order: seq<Node>, ready: seq<Node>, indegree: map<Node, nat>,
      done: set<Node>)
    requires Looping(names, needs, order, ready, indegree, done)
    ensures Distinct(ready) && forall n :: n in ready ==> n in names
  {
    hide Greedy;
    hide Topological;
    hide Counts;
    forall n | n in ready ensures n in names {
      assert n in Elements(ready) && n in needs.Keys && n in Elements(names);
    }
  }

  /** Sorting what is ready keeps the invariant. */
  lemma LoopSorted(names: seq<Node>, needs: Needs, order: seq<Node>, ready: seq<Node>, indegree: map<Node, nat>,
      done: set<Node>, sorted: seq<Node>)
    requires Looping(names, needs, order, ready, indegree, done)
    requires multiset(sorted) == multiset(ready) && Distinct(sorted)
    ensures Looping(names, needs, order, sorted, indegree, done)
  {
    hide Greedy;
    hide Topological;
    hide Counts;
    SamePermutation(sorted, ready);
    assert Elements(sorted) == Elements(ready);
  }

  /** Taking the first declared of the ready nodes. */
  lemma LoopTurns(names: seq<Node>, needs: Needs, order: seq<Node>, ready: seq<Node>, indegree: map<Node, nat>,
      done: set<Node>, indegree': map<Node, nat>)
    requires Looping(names, needs, order, ready, indegree, done) && ready != [] && ByPosition(names, ready)
    requires Counts(needs, order + [ready[0]], indegree')
    ensures var n := ready[0];
      Looping(names, needs, order + [n], ready[1..] + Unlocked(names, needs, order + [n], n), indegree', done + {n})
  {
    hide Topological;
    hide Counts;
    var n, rest := ready[0], ready[1..];
    var unlocked := Unlocked(names, needs, order + [n], n);
    assert ready == [n] + rest;
    ReadyIsFree(names, needs, order, ready, indegree, n);
    ElementsSnoc(order, n);
    ProgressCounts(names, needs, order, ready, indegree);
    UnlockedDistinct(names, needs, order + [n], n);
    forall m | m in unlocked ensures m !in ready {
      if m in ready {
        ReadyIsFree(names, needs, order, ready, indegree, m);
      }
    }
    DistinctTail(ready);
    DistinctConcat(rest, unlocked);
    Take(names, needs, order, ready, indegree, n, rest + unlocked, indegree');
    GreedySnoc(names, needs, order, ready, indegree);
  }

  lemma GreedySnoc(names: seq<Node>, needs: Needs, order: seq<Node>, ready: seq<Node>, indegree: map<Node, nat>)
    requires Progress(names, needs, order, ready, indegree) && Greedy(names, needs, order)
    requires ready != [] && ByPosition(names, ready)
    ensures Greedy(names, needs, order + [ready[0]])
  {
    hide Topological;
    hide Counts;
    hide Relation;
    hide Position;
    var order' := order + [ready[0]];
    forall i, n | 0 <= i < |order'| && n in needs && n !in order'[..i]
      && (forall x :: x in needs[n] ==> x in order'[..i])
      ensures Position(names, order'[i]) <= Position(names, n)
    {
      if i < |order| {
        assert order'[..i] == order[..i];
      } else {
        assert order'[..i] == order;
        assert n in ready;
        var j :| 0 <= j < |ready| && ready[j] == n;
      }
    }
  }

  /** BringupOrder: the lexicographically least topological order of the acyclic nodes, then the cycles. */
  method BringupOrder(g: Graph) returns (order: seq<Node>, cycles: seq<Node>, needs: Needs)
    requires Distinct(Names(g.nodes)) && Closed(g)
    ensures Declares(g, needs) && Relation(Names(g.nodes), needs)
    ensures BringsUp(Names(g.nodes), needs, order, cycles)
    ensures LexLeast(Names(g.nodes), needs, Front(order, cycles))
  {
    hide *;
    var names := Names(g.nodes);
    needs := DependenciesOf(g);
    DeclaresRelation(g, needs);
    var indegree := Indegrees(names, needs);
    var ready := FindSources(names, needs, indegree);
    order := [];
    var done: set<Node> := {};
    LoopStarts(names, needs, indegree);
    while |ready| > 0
      invariant Looping(names, needs, order, ready, indegree, done)
      decreases |names| - |order|
    {
      ReadyAreNodes(names, needs, order, ready, indegree, done);
      var sorted := SortByPosition(names, ready);
      LoopSorted(names, needs, order, ready, indegree, done, sorted);
      SamePermutation(sorted, ready);
      ready := sorted;
      var n := ready[0];
      LoopFront(names, needs, order, ready, indegree, done, n);
      var unlocked, indegree' := Release(names, needs, order, done + {n}, indegree, n);
      LoopTurns(names, needs, order, ready, indegree, done, indegree');
      done := done + {n};
      order, ready, indegree := order + [n], ready[1..] + unlocked, indegree';
    }
    LoopEnds(names, needs, order, indegree, done);
    order, cycles := AppendCycles(names, needs, order, done, indegree);
  }

  lemma LoopStarts(names: seq<Node>, needs: Needs, indegree: map<Node, nat>)
    requires Relation(names, needs) && Counts(needs, [], indegree)
    ensures Looping(names, needs, [], Sources(names, needs), indegree, {})
  {
    hide Progress;
    ProgressStarts(names, needs, indegree);
  }

  lemma LoopEnds(names: seq<Node>, needs: Needs, order: seq<Node>, indegree: map<Node, nat>, done: set<Node>)
    requires Looping(names, needs, order, [], indegree, done)
    ensures Progress(names, needs, order, [], indegree) && done == Elements(order)
    ensures LexLeast(names, needs, order)
  {
    GreedyIsLeast(names, needs, order);
  }
}
