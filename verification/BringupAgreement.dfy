/**
 * The runtime and the static bring-up order over one dependency relation: the same cycles and the same
 * acyclic nodes, and exactly when the acyclic ones come in the same order.
 */
module BringupAgreement {
  import opened Sorting
  import opened Dependencies
  import opened Bringup
  import opened GraphBringup

  // ----- one application, two records of it -----

  ghost function EndpointNames(eps: seq<Endpoint>): set<string> {
    set i | 0 <= i < |eps| :: eps[i].name
  }

  ghost function Offers(g: Graph, n: Node): set<string> {
    set e | e in EndpointNames(g.topics) + EndpointNames(g.services) + EndpointNames(g.actions) && Serves(g, e, n)
  }

  ghost function Consumed(g: Graph, n: Node): set<string> {
    set i, k | 0 <= i < |g.nodes| && g.nodes[i].name == n && 0 <= k < |g.nodes[i].consumes| :: g.nodes[i].consumes[k]
  }

  /** What the runtime records while it binds the nodes that the graph declares. */
  ghost function DepsOf(g: Graph): Deps {
    map n | n in Names(g.nodes) :: NodeDeps(Offers(g, n), Consumed(g, n))
  }

  lemma OffersWhatItServes(g: Graph, n: Node, e: string)
    ensures e in Offers(g, n) <==> Serves(g, e, n)
  {
    hide EndpointNames;
    ServedByName(g.topics, e, n);
    ServedByName(g.services, e, n);
    ServedByName(g.actions, e, n);
  }

  lemma ServedByName(eps: seq<Endpoint>, e: string, n: Node)
    ensures ServedAt(eps, e, n) ==> e in EndpointNames(eps)
  {
  }

  lemma ConsumesConsumed(g: Graph, n: Node, e: string)
    ensures e in Consumed(g, n) <==> Consumes(g, n, e)
  {
  }

  lemma FeedsAsDeclared(g: Graph, p: Node, n: Node)
    requires n in Names(g.nodes)
    ensures Feeds(DepsOf(g), p, n) <==>
      p in Names(g.nodes) && p != n && exists e :: Consumes(g, n, e) && Serves(g, e, p)
  {
    hide Offers, Consumed, Serves, Consumes, Names;
    var deps := DepsOf(g);
    forall e ensures p in deps ==> (e in deps[n].consumes && e in deps[p].offers <==>
      Consumes(g, n, e) && Serves(g, e, p)) {
      OffersWhatItServes(g, p, e);
      ConsumesConsumed(g, n, e);
    }
  }

  /** The runtime's dependencies are the ones the static graph declares. */
  lemma SameRelation(g: Graph, needs: Needs)
    requires Declares(g, needs) && Closed(g)
    ensures NeedsOf(Names(g.nodes), DepsOf(g)) == needs
  {
    hide Serves, Consumes, DepsOf, Feeds, Names;
    var nodes := Names(g.nodes);
    var runtime := NeedsOf(nodes, DepsOf(g));
    assert runtime.Keys == Elements(nodes);
    forall n | n in needs ensures runtime[n] == needs[n] {
      assert n in Elements(nodes);
      forall p ensures p in runtime[n] <==> p in needs[n] {
        FeedsAsDeclared(g, p, n);
      }
    }
  }

  // ----- the same nodes -----

  /** Any two correct orders name the same cycles, and order the same acyclic nodes. */
  lemma SameCycles(nodes: seq<Node>, needs: Needs, order: seq<Node>, cycles: seq<Node>, order': seq<Node>,
      cycles': seq<Node>)
    requires BringsUp(nodes, needs, order, cycles) && BringsUp(nodes, needs, order', cycles')
    ensures cycles == cycles'
    ensures multiset(Front(order, cycles)) == multiset(Front(order', cycles'))
  {
    hide Topological;
    hide CycleNodes;
    assert order == Front(order, cycles) + cycles;
    assert order' == Front(order', cycles') + cycles';
    assert multiset(Front(order, cycles)) == multiset(order) - multiset(cycles);
    assert multiset(Front(order', cycles')) == multiset(order') - multiset(cycles');
  }

  /** What needs only ordered nodes is ordered: the front lacks no acyclic node. */
  lemma FrontComplete(nodes: seq<Node>, needs: Needs, order: seq<Node>, cycles: seq<Node>, n: Node)
    requires Relation(nodes, needs) && BringsUp(nodes, needs, order, cycles)
    requires n in needs && forall x :: x in needs[n] ==> x in Front(order, cycles)
    ensures n in Front(order, cycles)
  {
    hide CycleNodes, IntoCycle;
    var front := Front(order, cycles);
    assert n in Elements(nodes);
    assert order == front + cycles;
    SamePermutation(order, nodes);
    TopologicalSnoc(needs, front, n);
    OrderedIsAcyclic(needs, front + [n], n);
    CycleNodesMember(nodes, needs, n);
  }

  // ----- one least order -----

  lemma FirstApart(s: seq<Node>, t: seq<Node>) returns (k: nat)
    requires |s| == |t| && s != t
    ensures FirstDifference(s, t, k) && FirstDifference(t, s, k)
  {
    k := 0;
    while k < |s| && s[k] == t[k]
      invariant k <= |s| && s[..k] == t[..k]
    {
      k := k + 1;
    }
    assert s == s[..|s|] && t == t[..|s|];
  }

  lemma Earlier(nodes: seq<Node>, needs: Needs, s: seq<Node>, t: seq<Node>, k: nat)
    requires LexLeast(nodes, needs, s) && Topological(needs, t) && Distinct(t) && Elements(t) == Elements(s)
    requires FirstDifference(s, t, k)
    ensures Position(nodes, s[k]) < Position(nodes, t[k])
  {
  }

  /** There is one least order of the same nodes. */
  lemma LeastUnique(nodes: seq<Node>, needs: Needs, s: seq<Node>, t: seq<Node>)
    requires Topological(needs, s) && Distinct(s) && LexLeast(nodes, needs, s)
    requires Topological(needs, t) && Distinct(t) && LexLeast(nodes, needs, t)
    requires Elements(s) == Elements(t)
    ensures s == t
  {
    hide LexLeast, Topological, Distinct, Position;
    DistinctCount(s);
    DistinctCount(t);
    if s != t {
      var k := FirstApart(s, t);
      Earlier(nodes, needs, s, t, k);
      Earlier(nodes, needs, t, s, k);
      assert false;
    }
  }

  // ----- taking a node early -----

  /** The node at i is taken although the one at j is declared before it and lacks nothing any more. */
  ghost predicate PassedOver(nodes: seq<Node>, needs: Needs, order: seq<Node>, i: nat, j: nat) {
    && i < j < |order| && Position(nodes, order[j]) < Position(nodes, order[i])
    && order[j] in needs && forall x :: x in needs[order[j]] ==> x in order[..i]
  }

  /** The order with the node at j taken at i instead. */
  function TakenEarly(order: seq<Node>, i: nat, j: nat): seq<Node>
    requires i < j < |order|
  {
    order[..i] + [order[j]] + order[i..j] + order[j + 1..]
  }

  lemma EarlyIndex(order: seq<Node>, i: nat, j: nat, k: nat)
    requires i < j < |order| && k < |order|
    ensures |TakenEarly(order, i, j)| == |order|
    ensures TakenEarly(order, i, j)[k] == if k < i || j < k then order[k] else if k == i then order[j] else order[k - 1]
  {
  }

  lemma EarlyPrefix(order: seq<Node>, i: nat, j: nat, k: nat)
    requires i < j < |order| && i < k < |order|
    ensures |TakenEarly(order, i, j)| == |order|
    ensures forall x :: x in order[..if k <= j then k - 1 else k] ==> x in TakenEarly(order, i, j)[..k]
  {
    var t := TakenEarly(order, i, j);
    EarlyIndex(order, i, j, 0);
    forall x | x in order[..if k <= j then k - 1 else k] ensures x in t[..k] {
      var m :| 0 <= m < (if k <= j then k - 1 else k) && order[m] == x;
      var m' := if m < i || j < m then m else if m == j then i else m + 1;
      EarlyIndex(order, i, j, m');
      assert t[..k][m'] == x;
    }
  }

  lemma EarlySame(order: seq<Node>, i: nat, j: nat)
    requires i < j < |order|
    ensures multiset(TakenEarly(order, i, j)) == multiset(order)
  {
    assert order == order[..i] + order[i..j] + [order[j]] + order[j + 1..];
  }

  lemma EarlyTopological(needs: Needs, order: seq<Node>, i: nat, j: nat)
    requires Topological(needs, order) && i < j < |order|
    requires forall x :: x in needs[order[j]] ==> x in order[..i]
    ensures Topological(needs, TakenEarly(order, i, j))
  {
    var t := TakenEarly(order, i, j);
    EarlyIndex(order, i, j, 0);
    forall k | 0 <= k < |t| ensures t[k] in needs && needs[t[k]] <= Elements(t[..k]) {
      EarlyIndex(order, i, j, k);
      EarlyLacksNothing(needs, order, i, j, k);
    }
  }

  lemma EarlyLacksNothing(needs: Needs, order: seq<Node>, i: nat, j: nat, k: nat)
    requires Topological(needs, order) && i < j < |order| && k < |order|
    requires forall x :: x in needs[order[j]] ==> x in order[..i]
    ensures var t := TakenEarly(order, i, j);
      |t| == |order| && t[k] in needs && forall x :: x in needs[t[k]] ==> x in t[..k]
  {
    EarlyIndex(order, i, j, k);
    var t := TakenEarly(order, i, j);
    if k <= i {
      assert t[..k] == order[..k];
      TopologicalAt(needs, order, if k < i then k else j);
    } else {
      TopologicalAt(needs, order, if k <= j then k - 1 else k);
      hide Topological;
      EarlyPrefix(order, i, j, k);
    }
  }

  /** A least order passes nobody over. */
  lemma LeastPassesNobody(nodes: seq<Node>, needs: Needs, s: seq<Node>, i: nat, j: nat)
    requires Topological(needs, s) && Distinct(s) && LexLeast(nodes, needs, s)
    ensures !PassedOver(nodes, needs, s, i, j)
  {
    if PassedOver(nodes, needs, s, i, j) {
      var t := TakenEarly(s, i, j);
      EarlyTopological(needs, s, i, j);
      EarlySame(s, i, j);
      SamePermutation(t, s);
      DistinctPermutation(t, s);
      assert s[i] != s[j];
      hide *;
      assert Elements(t) == Elements(s) by { ElementsAlike(t, s); }
      EarlyIsApart(s, i, j);
      Earlier(nodes, needs, s, t, i);
      assert false;
    }
  }

  lemma ElementsAlike(t: seq<Node>, s: seq<Node>)
    requires forall x :: x in t <==> x in s
    ensures Elements(t) == Elements(s)
  {
  }

  lemma EarlyIsApart(s: seq<Node>, i: nat, j: nat)
    requires i < j < |s| && s[i] != s[j]
    ensures FirstDifference(s, TakenEarly(s, i, j), i) && TakenEarly(s, i, j)[i] == s[j]
  {
    assert TakenEarly(s, i, j)[..i] == s[..i];
  }

  /** An order that lacks no node and passes nobody over is least. */
  lemma PassesNobodyIsLeast(nodes: seq<Node>, needs: Needs, s: seq<Node>)
    requires Relation(nodes, needs) && Topological(needs, s)
    requires forall n :: n in needs && (forall x :: x in needs[n] ==> x in s) ==> n in s
    requires forall i, j :: !PassedOver(nodes, needs, s, i, j)
    ensures LexLeast(nodes, needs, s)
  {
    assert Greedy(nodes, needs, s) by {
      hide Relation, Topological, Position, PassedOver;
      forall i, n | 0 <= i < |s| && n in needs && n !in s[..i] && (forall x :: x in needs[n] ==> x in s[..i])
        ensures Position(nodes, s[i]) <= Position(nodes, n)
      {
        assert forall x :: x in s[..i] ==> x in s;
        var j :| 0 <= j < |s| && s[j] == n;
        NotPassedOver(nodes, needs, s, i, j);
      }
    }
    GreedyIsLeast(nodes, needs, s);
  }

  lemma NotPassedOver(nodes: seq<Node>, needs: Needs, s: seq<Node>, i: nat, j: nat)
    requires i < |s| && j < |s| && s[j] !in s[..i] && !PassedOver(nodes, needs, s, i, j)
    requires s[j] in needs && forall x :: x in needs[s[j]] ==> x in s[..i]
    ensures Position(nodes, s[i]) <= Position(nodes, s[j])
  {
    assert forall m :: 0 <= m < i ==> s[m] in s[..i];
  }

  // ----- when the orders agree -----

  /** The queue passes somebody over. */
  ghost predicate QueuePassesOver(nodes: seq<Node>, needs: Needs) {
    exists i: nat, j: nat :: PassedOver(nodes, needs, Fifo(nodes, needs, [], Sources(nodes, needs)), i, j)
  }

  lemma FrontDistinct(nodes: seq<Node>, needs: Needs, order: seq<Node>, cycles: seq<Node>)
    requires Relation(nodes, needs) && BringsUp(nodes, needs, order, cycles)
    ensures Distinct(Front(order, cycles)) && Topological(needs, Front(order, cycles))
  {
    DistinctPermutation(order, nodes);
  }

  /** The runtime's order and the static one are the same if and only if the runtime's queue never takes a node
      while another one that is declared earlier lacks nothing any more. */
  lemma OrdersAgree(nodes: seq<Node>, needs: Needs, order: seq<Node>, cycles: seq<Node>, order': seq<Node>,
      cycles': seq<Node>)
    requires Relation(nodes, needs)
    requires BringsUp(nodes, needs, order, cycles) && order == RuntimeOrder(nodes, needs)
    requires BringsUp(nodes, needs, order', cycles') && LexLeast(nodes, needs, Front(order', cycles'))
    ensures order == order' <==> !QueuePassesOver(nodes, needs)
  {
    var front, front' := Front(order, cycles), Front(order', cycles');
    RuntimeFront(nodes, needs, order, cycles);
    FrontsApart(nodes, needs, order, cycles, order', cycles');
    hide *;
    if order == order' {
      forall i: nat, j: nat ensures !PassedOver(nodes, needs, front, i, j) {
        LeastPassesNobody(nodes, needs, front, i, j);
      }
      PassesNobody(nodes, needs, front);
    }
    if !QueuePassesOver(nodes, needs) {
      forall n | n in needs && (forall x :: x in needs[n] ==> x in front) ensures n in front {
        FrontComplete(nodes, needs, order, cycles, n);
      }
      PassesNobody(nodes, needs, front);
      PassesNobodyIsLeast(nodes, needs, front);
      LeastUnique(nodes, needs, front, front');
    }
  }

  lemma PassesNobody(nodes: seq<Node>, needs: Needs, front: seq<Node>)
    requires front == Fifo(nodes, needs, [], Sources(nodes, needs))
    ensures !QueuePassesOver(nodes, needs) <==> forall i: nat, j: nat :: !PassedOver(nodes, needs, front, i, j)
  {
    hide PassedOver, Fifo, Sources;
  }

  lemma FrontFirst(nodes: seq<Node>, needs: Needs, order: seq<Node>, cycles: seq<Node>)
    requires BringsUp(nodes, needs, order, cycles)
    ensures |cycles| <= |order| && order == Front(order, cycles) + cycles
  {
  }

  /** The cycles being the same, orders differ where fronts do. */
  lemma FrontsApart(nodes: seq<Node>, needs: Needs, order: seq<Node>, cycles: seq<Node>, order': seq<Node>,
      cycles': seq<Node>)
    requires Relation(nodes, needs) && BringsUp(nodes, needs, order, cycles) && BringsUp(nodes, needs, order', cycles')
    ensures order == order' <==> Front(order, cycles) == Front(order', cycles')
    ensures Elements(Front(order, cycles)) == Elements(Front(order', cycles'))
    ensures Distinct(Front(order, cycles)) && Topological(needs, Front(order, cycles))
    ensures Distinct(Front(order', cycles')) && Topological(needs, Front(order', cycles'))
  {
    hide *;
    FrontFirst(nodes, needs, order, cycles);
    FrontFirst(nodes, needs, order', cycles');
    FrontDistinct(nodes, needs, order, cycles);
    FrontDistinct(nodes, needs, order', cycles');
    var front, front' := Front(order, cycles), Front(order', cycles');
    SameCycles(nodes, needs, order, cycles, order', cycles');
    SamePermutation(front, front');
    ElementsAlike(front, front');
  }

  lemma RuntimeFront(nodes: seq<Node>, needs: Needs, order: seq<Node>, cycles: seq<Node>)
    requires BringsUp(nodes, needs, order, cycles) && order == RuntimeOrder(nodes, needs)
    ensures Front(order, cycles) == Fifo(nodes, needs, [], Sources(nodes, needs))
  {
    hide Topological, CycleNodes, Fifo, Sources;
  }

  lemma {:induction false} ChainBound(needs: Needs, order: seq<Node>, i: nat, k: nat)
    requires Topological(needs, order) && i < |order| && HasChain(needs, order[i], k)
    ensures k <= i
    decreases k
  {
    if k > 0 {
      var m :| m in needs[order[i]] && HasChain(needs, m, k - 1);
      TopologicalAt(needs, order, i);
      var j :| 0 <= j < i && order[..i][j] == m;
      ChainBound(needs, order, j, k - 1);
    }
  }

  /** What is ordered has a depth. */
  lemma DepthExists(needs: Needs, order: seq<Node>, i: nat) returns (k: nat)
    requires Topological(needs, order) && i < |order|
    ensures Depth(needs, order[i], k)
  {
    k := 0;
    while HasChain(needs, order[i], k + 1)
      invariant HasChain(needs, order[i], k)
      decreases i - k
    {
      ChainBound(needs, order, i, k + 1);
      k := k + 1;
    }
  }

  /** The runtime passes a node over only for one of its own layer or of the layer just before. */
  lemma PassedOverInLayers(nodes: seq<Node>, needs: Needs, order: seq<Node>, i: nat, j: nat, a: nat, b: nat)
    requires Topological(needs, order) && Layered(needs, order) && PassedOver(nodes, needs, order, i, j)
    requires Depth(needs, order[i], a) && Depth(needs, order[j], b)
    ensures a <= b <= a + 1
  {
    assert i < j < |order|;
    assert a <= b;
    if b > 0 {
      var k := ProviderBefore(nodes, needs, order, i, j, b);
      hide *;
      ChainInLayers(needs, order, k, i, b - 1, a);
    }
  }

  /** The provider that the longest chain of the node passed over goes on with. */
  lemma ProviderBefore(nodes: seq<Node>, needs: Needs, order: seq<Node>, i: nat, j: nat, b: nat) returns (k: nat)
    requires PassedOver(nodes, needs, order, i, j) && b > 0 && HasChain(needs, order[j], b)
    ensures k < i && HasChain(needs, order[k], b - 1)
  {
    hide Position;
    var m :| m in needs[order[j]] && HasChain(needs, m, b - 1);
    hide HasChain;
    k :| 0 <= k < i && order[..i][k] == m;
  }

  lemma ChainInLayers(needs: Needs, order: seq<Node>, k: nat, i: nat, b: nat, a: nat)
    requires Topological(needs, order) && Layered(needs, order) && k < i < |order|
    requires HasChain(needs, order[k], b) && Depth(needs, order[i], a)
    ensures b <= a
  {
    var c := DepthExists(needs, order, k);
    assert c <= a by { hide Depth, Topological; }
    hide Layered, Topological;
    assert !HasChain(needs, order[k], c + 1);
    hide Depth, HasChain;
    if c < b {
      ShorterChain(needs, order[k], c + 1, b);
    }
  }

  // ----- with a, b and c declared and b consuming what a offers, the orders differ -----

  const ABC: seq<Node> := ["a", "b", "c"]

  function BNeedsA(): Needs {
    map["a" := {}, "b" := {"a"}, "c" := {}]
  }

  lemma UnlockedByA()
    ensures Unlocked(ABC, BNeedsA(), ["a"], "a") == ["b"]
  {
    hide Unlocked;
    var none: seq<Node>, needs, taken: seq<Node> := [], BNeedsA(), ["a"];
    UnlockedEmpty(needs, taken, "a");
    UnlockedSnoc(none, needs, taken, "a", "a");
    UnlockedSnoc(["a"], needs, taken, "a", "b");
    UnlockedSnoc(["a", "b"], needs, taken, "a", "c");
    OneByOne();
  }

  lemma SourcesOfAbc()
    ensures Sources(ABC, BNeedsA()) == ["a", "c"]
  {
    hide Sources;
    var none: seq<Node>, needs := [], BNeedsA();
    SourcesNone(needs);
    SourcesSnoc(none, needs, "a");
    SourcesSnoc(["a"], needs, "b");
    SourcesSnoc(["a", "b"], needs, "c");
    OneByOne();
    assert needs["b"] != {} by { assert "a" in needs["b"]; }
  }

  lemma OneByOne()
    ensures var none: seq<Node> := []; none + ["a"] == ["a"]
    ensures ["a"] + ["b"] == ["a", "b"] && ["a", "b"] + ["c"] == ABC
  {
  }

  lemma NothingUnlocked(order: seq<Node>, n: Node)
    requires n != "a"
    ensures Unlocked(ABC, BNeedsA(), order, n) == []
  {
    var u := Unlocked(ABC, BNeedsA(), order, n);
    if u != [] {
      HeadMember(u);
    }
  }

  /** Such an application. */
  const SCAN: Deps := map["a" := NodeDeps({"scan"}, {}), "b" := NodeDeps({}, {"scan"}), "c" := NodeDeps({}, {})]

  lemma ScanNeeds()
    ensures NeedsOf(ABC, SCAN) == BNeedsA()
  {
    assert "scan" in SCAN["b"].consumes && "scan" in SCAN["a"].offers;
    assert Elements(ABC) == {"a", "b", "c"};
    assert ProvidersTo(ABC, SCAN, "a") == {} && ProvidersTo(ABC, SCAN, "c") == {};
    assert ProvidersTo(ABC, SCAN, "b") == {"a"};
  }

  lemma NoCycles()
    ensures CycleNodes(ABC, BNeedsA()) == []
  {
    hide IntoCycle;
    var order: seq<Node> := ["a", "b", "c"];
    AbcTopological();
    forall n | n in ABC ensures n !in CycleNodes(ABC, BNeedsA()) {
      OrderedIsAcyclic(BNeedsA(), order, n);
      CycleNodesMember(ABC, BNeedsA(), n);
    }
    var c := CycleNodes(ABC, BNeedsA());
    forall n ensures n !in c {
      CycleNodesMember(ABC, BNeedsA(), n);
    }
    if c != [] {
      HeadMember(c);
    }
  }

  lemma AbcTopological()
    ensures Topological(BNeedsA(), ["a", "b", "c"])
  {
    var t: seq<Node> := ["a", "b", "c"];
    assert t[..1] == ["a"];
  }

  /** The runtime takes a, c, b. */
  lemma RuntimeTakesC()
    ensures RuntimeOrder(ABC, NeedsOf(ABC, SCAN)) == ["a", "c", "b"]
  {
    ScanNeeds();
    NoCycles();
    hide NeedsOf;
    hide Unlocked;
    hide Sources;
    hide CycleNodes;
    UnlockedByA();
    SourcesOfAbc();
    NothingUnlocked(["a", "c"], "c");
    NothingUnlocked(["a", "c", "b"], "b");
    var needs := BNeedsA();
    assert Fifo(ABC, needs, ["a", "c"], ["b"]) == ["b"];
    assert Fifo(ABC, needs, ["a"], ["c", "b"]) == ["c", "b"];
    var none: seq<Node>, sources: seq<Node> := [], ["a", "c"];
    assert none + ["a"] == ["a"] && sources[1..] + ["b"] == ["c", "b"];
    assert Fifo(ABC, needs, none, sources) == ["a", "c", "b"];
  }

  /** But a, b, c is also a topological order, and it comes first. */
  lemma LeastTakesB()
    ensures !LexLeast(ABC, NeedsOf(ABC, SCAN), ["a", "c", "b"])
  {
    ScanNeeds();
    hide NeedsOf;
    var s: seq<Node>, t: seq<Node> := ["a", "c", "b"], ["a", "b", "c"];
    AbcTopological();
    assert Elements(s) == Elements(t) by {
      assert forall n :: n in s <==> n in t;
    }
    assert FirstDifference(s, t, 1);
    assert ABC[1] == "b" && ABC[2] == "c";
    FirstIndex(ABC, "b", 1);
    assert Position(ABC, "b") < Position(ABC, "c");
  }
}
