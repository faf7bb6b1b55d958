/**
 * When the runtime and the static bring-up order agree, said of the declaration: the runtime's queue is the one order
 * that goes by when nodes become ready and, among those that do at once, by position.
 */
module BringupQueue {
  import opened Sorting
  import opened Dependencies
  import opened Bringup
  import opened GraphBringup
  import opened BringupAgreement

  /** Something that n needs is not in s. */
  ghost predicate Lacks(needs: Needs, s: seq<Node>, n: Node) {
    n in needs && exists x :: x in needs[n] && x !in s
  }

  /** How much of s must be there until n lacks nothing. */
  ghost function Entry(needs: Needs, s: seq<Node>, n: Node): (k: nat)
    ensures k <= |s|
  {
    if s == [] then 0
    else if Lacks(needs, s[..|s| - 1], n) then |s|
    else Entry(needs, s[..|s| - 1], n)
  }

  /** x becomes ready before y, or with it and is declared first. */
  ghost predicate Sooner(nodes: seq<Node>, needs: Needs, s: seq<Node>, x: Node, y: Node) {
    || Entry(needs, s, x) < Entry(needs, s, y)
    || (Entry(needs, s, x) == Entry(needs, s, y) && Position(nodes, x) < Position(nodes, y))
  }

  /** The nodes of q come as they become ready along s. */
  ghost predicate SoonerFirst(nodes: seq<Node>, needs: Needs, s: seq<Node>, q: seq<Node>) {
    forall i, j :: 0 <= i < j < |q| ==> Sooner(nodes, needs, s, q[i], q[j])
  }

  ghost predicate Queued(nodes: seq<Node>, needs: Needs, s: seq<Node>) {
    SoonerFirst(nodes, needs, s, s)
  }

  lemma {:induction false} EntryLonger(needs: Needs, s: seq<Node>, t: seq<Node>, n: Node)
    requires !Lacks(needs, s, n)
    ensures Entry(needs, s + t, n) == Entry(needs, s, n) && !Lacks(needs, s + t, n)
  {
    if t == [] {
      assert s + t == s;
    } else {
      EntryLonger(needs, s, t[..|t| - 1], n);
      assert (s + t)[..|s + t| - 1] == s + t[..|t| - 1];
    }
  }

  /** The entry is where what n needs is complete, and not before. */
  lemma {:induction false} EntryIs(needs: Needs, s: seq<Node>, n: Node, k: nat)
    requires !Lacks(needs, s, n) && k <= |s|
    ensures Lacks(needs, s[..k], n) <==> k < Entry(needs, s, n)
  {
    if k == |s| {
      assert s[..k] == s;
    } else if Lacks(needs, s[..|s| - 1], n) {
      hide Entry;
      LacksLess(needs, s, k, n);
      assert Entry(needs, s, n) == |s| by { LacksLast(needs, s, n); }
    } else {
      EntryIs(needs, s[..|s| - 1], n, k);
      assert s[..|s| - 1][..k] == s[..k];
    }
  }

  lemma LacksLast(needs: Needs, s: seq<Node>, n: Node)
    requires s != [] && Lacks(needs, s[..|s| - 1], n)
    ensures Entry(needs, s, n) == |s|
  {
  }

  lemma LacksLess(needs: Needs, s: seq<Node>, k: nat, n: Node)
    requires k < |s| && Lacks(needs, s[..|s| - 1], n)
    ensures Lacks(needs, s[..k], n)
  {
    var x :| x in needs[n] && x !in s[..|s| - 1];
    assert s[..k] == s[..|s| - 1][..k];
  }

  // ----- the runtime's queue -----

  /** The state of the queue loop: what was taken and what waits came as it became ready. */
  ghost predicate QueueSo(nodes: seq<Node>, needs: Needs, done: seq<Node>, ready: seq<Node>) {
    && Distinct(done + ready) && (forall n :: n in done + ready ==> !Lacks(needs, done, n))
    && SoonerFirst(nodes, needs, done, done + ready)
  }

  lemma QueueSoStarts(nodes: seq<Node>, needs: Needs)
    requires Distinct(nodes)
    ensures QueueSo(nodes, needs, [], Sources(nodes, needs))
  {
    var ready := Sources(nodes, needs);
    assert [] + ready == ready;
    SourcesDistinct(nodes, needs);
    SourcesByPosition(nodes, needs);
  }

  /** What taking n frees becomes ready after all that was ready. */
  lemma Freed(nodes: seq<Node>, needs: Needs, done: seq<Node>, n: Node, m: Node)
    requires n !in done && m in Unlocked(nodes, needs, done + [n], n)
    ensures Lacks(needs, done, m) && !Lacks(needs, done + [n], m) && Entry(needs, done + [n], m) == |done| + 1
  {
    assert (done + [n])[..|done|] == done;
    assert n in needs[m];
  }

  lemma QueueSoTurns(nodes: seq<Node>, needs: Needs, done: seq<Node>, ready: seq<Node>)
    requires Distinct(nodes) && QueueSo(nodes, needs, done, ready) && ready != []
    ensures var n := ready[0];
      QueueSo(nodes, needs, done + [n], ready[1..] + Unlocked(nodes, needs, done + [n], n))
  {
    hide Lacks, Entry, Unlocked, Position;
    var n := ready[0];
    var done', unlocked := done + [n], Unlocked(nodes, needs, done + [n], n);
    var q := done + ready;
    assert q == done' + ready[1..] && done' + (ready[1..] + unlocked) == q + unlocked;
    assert q[|done|] == n && forall i :: 0 <= i < |done| ==> q[i] == done[i];
    assert n !in done;
    forall m | m in unlocked ensures Lacks(needs, done, m) && !Lacks(needs, done', m) && m !in q {
      Freed(nodes, needs, done, n, m);
    }
    forall m | m in q ensures !Lacks(needs, done', m) {
      EntryLonger(needs, done, [n], m);
    }
    UnlockedDistinct(nodes, needs, done', n);
    DistinctConcat(q, unlocked);
    SoonerMore(nodes, needs, done, n, q, unlocked);
  }

  lemma SoonerMore(nodes: seq<Node>, needs: Needs, done: seq<Node>, n: Node, q: seq<Node>, unlocked: seq<Node>)
    requires Distinct(nodes) && n !in done && unlocked == Unlocked(nodes, needs, done + [n], n)
    requires SoonerFirst(nodes, needs, done, q) && forall m :: m in q ==> !Lacks(needs, done, m)
    ensures SoonerFirst(nodes, needs, done + [n], q + unlocked)
  {
    hide Lacks, Entry, Unlocked, Position;
    UnlockedByPosition(nodes, needs, done + [n], n);
    UnlockedDistinct(nodes, needs, done + [n], n);
    var all := q + unlocked;
    forall i | 0 <= i < |all|
      ensures Entry(needs, done + [n], all[i]) == if i < |q| then Entry(needs, done, all[i]) else |done| + 1
    {
      if i < |q| {
        EntryLonger(needs, done, [n], q[i]);
      } else {
        Freed(nodes, needs, done, n, unlocked[i - |q|]);
      }
    }
    forall i, j | 0 <= i < j < |all| ensures Sooner(nodes, needs, done + [n], all[i], all[j]) {
      if j < |q| {
        assert Sooner(nodes, needs, done, q[i], q[j]);
      } else if i >= |q| {
        assert Position(nodes, unlocked[i - |q|]) < Position(nodes, unlocked[j - |q|]);
      }
    }
  }

  /** The order the queue gives goes by when nodes become ready. */
  lemma {:induction false} FifoQueued(nodes: seq<Node>, needs: Needs, done: seq<Node>, ready: seq<Node>)
    requires Distinct(nodes) && QueueSo(nodes, needs, done, ready)
    ensures Queued(nodes, needs, done + Fifo(nodes, needs, done, ready))
    decreases |nodes| - |done|
  {
    hide Unlocked, Sooner;
    if ready == [] || |done| >= |nodes| {
      assert done + [] == done;
      assert forall i :: 0 <= i < |done| ==> (done + ready)[i] == done[i];
    } else {
      var n := ready[0];
      QueueSoTurns(nodes, needs, done, ready);
      var rest := Fifo(nodes, needs, done + [n], ready[1..] + Unlocked(nodes, needs, done + [n], n));
      FifoQueued(nodes, needs, done + [n], ready[1..] + Unlocked(nodes, needs, done + [n], n));
      assert done + ([n] + rest) == (done + [n]) + rest;
    }
  }

  /** What is at k lacks nothing there, and where it became ready is settled by what is before it. */
  lemma EntryAt(needs: Needs, s: seq<Node>, i: nat, k: nat)
    requires Topological(needs, s) && i <= k <= |s| && i < |s|
    ensures !Lacks(needs, s[..i], s[i]) && !Lacks(needs, s, s[i])
    ensures Entry(needs, s, s[i]) == Entry(needs, s[..k], s[i]) == Entry(needs, s[..i], s[i])
  {
    TopologicalAt(needs, s, i);
    assert !Lacks(needs, s[..i], s[i]);
    assert s[..k] == s[..i] + s[i..k] && s == s[..i] + s[i..];
    hide Lacks, Entry, Topological;
    EntryLonger(needs, s[..i], s[i..k], s[i]);
    EntryLonger(needs, s[..i], s[i..], s[i]);
  }

  /** There is one such order of the same nodes. */
  lemma QueuedUnique(nodes: seq<Node>, needs: Needs, s: seq<Node>, t: seq<Node>)
    requires Topological(needs, s) && Distinct(s) && Queued(nodes, needs, s)
    requires Topological(needs, t) && Distinct(t) && Queued(nodes, needs, t)
    requires Elements(s) == Elements(t)
    ensures s == t
  {
    DistinctCount(s);
    DistinctCount(t);
    if s != t {
      var k := FirstApart(s, t);
      var i := LaterIn(s, t, k);
      var j := LaterIn(t, s, k);
      hide Lacks, Entry, Topological, Queued, Position;
      EntryAt(needs, s, k, k);
      EntryAt(needs, t, k, k);
      QueuedAt(nodes, needs, s, k, i);
      QueuedAt(nodes, needs, t, k, j);
      assert false;
    }
  }

  /** Where the node at which t goes another way stands in s. */
  lemma LaterIn(s: seq<Node>, t: seq<Node>, k: nat) returns (i: nat)
    requires FirstDifference(s, t, k) && Distinct(t) && Elements(s) == Elements(t)
    ensures k < i < |s| && s[i] == t[k]
  {
    assert t[k] in Elements(t);
    i :| 0 <= i < |s| && s[i] == t[k];
    assert forall m :: 0 <= m < k ==> s[..k][m] == t[..k][m];
  }

  lemma QueuedAt(nodes: seq<Node>, needs: Needs, s: seq<Node>, k: nat, i: nat)
    requires Topological(needs, s) && Queued(nodes, needs, s) && k < i < |s|
    requires !Lacks(needs, s[..k], s[i])
    ensures Sooner(nodes, needs, s[..k], s[k], s[i])
  {
    hide Lacks, Entry, Topological, Position;
    assert Sooner(nodes, needs, s, s[k], s[i]);
    EntryAt(needs, s, k, k);
    assert s == s[..k] + s[k..];
    EntryLonger(needs, s[..k], s[k..], s[i]);
  }

  // ----- when the orders agree -----

  /** When y lacked nothing any more, x was still waiting for p. */
  ghost predicate ReadyEarlier(needs: Needs, s: seq<Node>, y: Node, x: Node, p: Node) {
    && x in needs && p in needs[x] && p in s
    && y in needs && forall q :: q in needs[y] ==> q in s[..IndexIn(s, p)]
  }

  lemma EntriesApart(needs: Needs, s: seq<Node>, x: Node, y: Node)
    requires x in needs && y in needs && !Lacks(needs, s, x) && !Lacks(needs, s, y)
    ensures Entry(needs, s, y) < Entry(needs, s, x) <==> exists p :: ReadyEarlier(needs, s, y, x, p)
  {
    if p :| ReadyEarlier(needs, s, y, x, p) {
      var k := IndexIn(s, p);
      assert Lacks(needs, s[..k], x) && !Lacks(needs, s[..k], y);
      hide Lacks, Entry;
      EntryIs(needs, s, x, k);
      EntryIs(needs, s, y, k);
    }
    if Entry(needs, s, y) < Entry(needs, s, x) {
      var p := LastProvider(needs, s, x, y);
    }
  }

  lemma LastProvider(needs: Needs, s: seq<Node>, x: Node, y: Node) returns (p: Node)
    requires x in needs && y in needs && !Lacks(needs, s, x) && !Lacks(needs, s, y)
    requires Entry(needs, s, y) < Entry(needs, s, x)
    ensures ReadyEarlier(needs, s, y, x, p)
  {
    var k := Entry(needs, s, y);
    hide Entry;
    EntryIs(needs, s, x, k);
    EntryIs(needs, s, y, k);
    p :| p in needs[x] && p !in s[..k];
    var j := IndexIn(s, p);
    assert forall m :: 0 <= m < k ==> s[m] in s[..k];
    forall q | q in needs[y] ensures q in s[..j] {
      assert q in s[..k];
      assert s[..k] == s[..j][..k];
    }
  }

  /** The static order takes some node before another that became ready earlier. */
  ghost predicate StaticTakesLate(needs: Needs, s: seq<Node>) {
    exists i, j, p :: 0 <= i < j < |s| && ReadyEarlier(needs, s, s[j], s[i], p)
  }

  lemma NoneLate(needs: Needs, s: seq<Node>)
    requires Topological(needs, s)
    ensures !StaticTakesLate(needs, s) <==>
      forall i, j :: 0 <= i < j < |s| ==> Entry(needs, s, s[i]) <= Entry(needs, s, s[j])
  {
    hide Entry, Lacks, ReadyEarlier;
    forall i, j | 0 <= i < j < |s|
      ensures Entry(needs, s, s[j]) < Entry(needs, s, s[i]) <==> exists p :: ReadyEarlier(needs, s, s[j], s[i], p)
    {
      EntryAt(needs, s, i, i);
      EntryAt(needs, s, j, j);
      EntriesApart(needs, s, s[i], s[j]);
    }
  }

  /** A least order in which nobody is late is the one that the queue gives. */
  lemma LeastQueued(nodes: seq<Node>, needs: Needs, s: seq<Node>)
    requires Topological(needs, s) && Distinct(s) && LexLeast(nodes, needs, s)
    requires Distinct(nodes) && forall n :: n in s ==> n in nodes
    requires forall i, j :: 0 <= i < j < |s| ==> Entry(needs, s, s[i]) <= Entry(needs, s, s[j])
    ensures Queued(nodes, needs, s)
  {
    hide Entry, Position, LexLeast, Topological, PassedOver;
    forall i, j | 0 <= i < j < |s| ensures Sooner(nodes, needs, s, s[i], s[j]) {
      if Entry(needs, s, s[i]) == Entry(needs, s, s[j]) {
        LeastPassesNobody(nodes, needs, s, i, j);
        ReadyTogether(needs, s, i, j);
        NobodyPassed(nodes, needs, s, i, j);
      }
    }
  }

  /** What becomes ready with the node at i lacks nothing there. */
  lemma ReadyTogether(needs: Needs, s: seq<Node>, i: nat, j: nat)
    requires Topological(needs, s) && i < j < |s| && Entry(needs, s, s[i]) == Entry(needs, s, s[j])
    ensures s[j] in needs && !Lacks(needs, s[..i], s[j])
  {
    EntryAt(needs, s, i, i);
    EntryAt(needs, s, j, j);
    TopologicalAt(needs, s, j);
    hide Entry, Lacks, Topological;
    EntryIs(needs, s, s[j], i);
  }

  lemma NobodyPassed(nodes: seq<Node>, needs: Needs, s: seq<Node>, i: nat, j: nat)
    requires i < j < |s| && !PassedOver(nodes, needs, s, i, j) && !Lacks(needs, s[..i], s[j]) && s[j] in needs
    requires Distinct(s) && s[i] in nodes && s[j] in nodes
    ensures Position(nodes, s[i]) < Position(nodes, s[j])
  {
    assert s[i] != s[j];
    SamePosition(nodes, s[i], s[j]);
    hide Position;
  }

  lemma RuntimeQueued(nodes: seq<Node>, needs: Needs, order: seq<Node>, cycles: seq<Node>)
    requires Relation(nodes, needs) && BringsUp(nodes, needs, order, cycles) && order == RuntimeOrder(nodes, needs)
    ensures Queued(nodes, needs, Front(order, cycles))
  {
    RuntimeFront(nodes, needs, order, cycles);
    assert Distinct(nodes);
    hide *;
    QueueSoStarts(nodes, needs);
    FifoQueued(nodes, needs, [], Sources(nodes, needs));
    var front := Fifo(nodes, needs, [], Sources(nodes, needs));
    assert [] + front == front;
  }

  lemma FrontInNodes(nodes: seq<Node>, needs: Needs, order: seq<Node>, cycles: seq<Node>)
    requires Relation(nodes, needs) && BringsUp(nodes, needs, order, cycles)
    ensures forall n :: n in Front(order, cycles) ==> n in nodes
  {
    FrontFirst(nodes, needs, order, cycles);
    SamePermutation(order, nodes);
  }

  /** The runtime's order and the static one are the same if and only if the static order, which is settled by the
      declaration alone, never takes a node before another one that became ready earlier. */
  lemma OrdersAgreeStatically(nodes: seq<Node>, needs: Needs, order: seq<Node>, cycles: seq<Node>, order': seq<Node>,
      cycles': seq<Node>)
    requires Relation(nodes, needs)
    requires BringsUp(nodes, needs, order, cycles) && order == RuntimeOrder(nodes, needs)
    requires BringsUp(nodes, needs, order', cycles') && LexLeast(nodes, needs, Front(order', cycles'))
    ensures order == order' <==> !StaticTakesLate(needs, Front(order', cycles'))
  {
    assert Distinct(nodes);
    hide *;
    FrontsApart(nodes, needs, order, cycles, order', cycles');
    RuntimeQueued(nodes, needs, order, cycles);
    FrontInNodes(nodes, needs, order', cycles');
    var front, front' := Front(order, cycles), Front(order', cycles');
    NoneLate(needs, front');
    if order == order' {
      QueuedInTime(nodes, needs, front);
    }
    if !StaticTakesLate(needs, front') {
      LeastQueued(nodes, needs, front');
      QueuedUnique(nodes, needs, front, front');
    }
  }

  lemma QueuedInTime(nodes: seq<Node>, needs: Needs, s: seq<Node>)
    requires Queued(nodes, needs, s)
    ensures forall i, j :: 0 <= i < j < |s| ==> Entry(needs, s, s[i]) <= Entry(needs, s, s[j])
  {
    hide Entry, Position;
    forall i, j | 0 <= i < j < |s| ensures Entry(needs, s, s[i]) <= Entry(needs, s, s[j]) {
      assert Sooner(nodes, needs, s, s[i], s[j]);
    }
  }

  // ----- providers declared first -----

  ghost predicate Acyclic(nodes: seq<Node>, needs: Needs, n: Node) {
    n in nodes && n in needs && !IntoCycle(needs, n)
  }

  /** Outside the cycles every node is declared after all it needs. */
  ghost predicate DeclaredFirst(nodes: seq<Node>, needs: Needs) {
    forall n, p :: Acyclic(nodes, needs, n) && p in needs[n] ==> Position(nodes, p) < Position(nodes, n)
  }

  /** x is declared before y, and one of its providers after all of y's. */
  ghost predicate Outpaced(nodes: seq<Node>, needs: Needs, x: Node, y: Node, p: Node) {
    && Acyclic(nodes, needs, x) && Acyclic(nodes, needs, y) && Position(nodes, x) < Position(nodes, y)
    && p in needs[x] && forall q :: q in needs[y] ==> Position(nodes, q) < Position(nodes, p)
  }

  ghost predicate Ascends(nodes: seq<Node>, s: seq<Node>) {
    forall i, j :: 0 <= i < j < |s| ==> Position(nodes, s[i]) < Position(nodes, s[j])
  }

  lemma FirstDeclared(nodes: seq<Node>, s: seq<Node>, i: nat) returns (m: nat)
    requires i < |s|
    ensures i <= m < |s| && forall j :: i <= j < |s| ==> Position(nodes, s[m]) <= Position(nodes, s[j])
  {
    hide Position;
    m := i;
    for k := i to |s|
      invariant i <= m < |s| && forall j :: i <= j < k ==> Position(nodes, s[m]) <= Position(nodes, s[j])
    {
      if Position(nodes, s[k]) < Position(nodes, s[m]) {
        m := k;
      }
    }
  }

  /** Then a least order takes the nodes as they are declared. */
  lemma AsDeclared(nodes: seq<Node>, needs: Needs, s: seq<Node>)
    requires Topological(needs, s) && Distinct(s) && LexLeast(nodes, needs, s) && DeclaredFirst(nodes, needs)
    requires forall n :: n in s ==> Acyclic(nodes, needs, n)
    ensures Ascends(nodes, s)
  {
    hide Position, Topological, LexLeast, Acyclic, DeclaredFirst;
    forall i, j | 0 <= i < j < |s| ensures Position(nodes, s[i]) < Position(nodes, s[j]) {
      var m := FirstDeclared(nodes, s, i);
      if m > i && Position(nodes, s[m]) < Position(nodes, s[i]) {
        PassesFirst(nodes, needs, s, i, m);
        LeastPassesNobody(nodes, needs, s, i, m);
        assert false;
      }
      PositionsApart(nodes, needs, s, i, j);
    }
  }

  lemma PassesFirst(nodes: seq<Node>, needs: Needs, s: seq<Node>, i: nat, m: nat)
    requires Topological(needs, s) && DeclaredFirst(nodes, needs) && i < m < |s| && Acyclic(nodes, needs, s[m])
    requires forall j :: i <= j < |s| ==> Position(nodes, s[m]) <= Position(nodes, s[j])
    requires Position(nodes, s[m]) < Position(nodes, s[i])
    ensures PassedOver(nodes, needs, s, i, m)
  {
    hide Position, Topological, DeclaredFirst, Acyclic;
    LacksNothing(nodes, needs, s, i, m);
  }

  lemma PositionsApart(nodes: seq<Node>, needs: Needs, s: seq<Node>, i: nat, j: nat)
    requires Distinct(s) && i < j < |s| && forall n :: n in s ==> Acyclic(nodes, needs, n)
    ensures Position(nodes, s[i]) != Position(nodes, s[j])
  {
    hide IntoCycle, Position;
    assert s[i] in s && s[j] in s;
    SamePosition(nodes, s[i], s[j]);
  }

  /** The first declared of what is left lacks nothing. */
  lemma LacksNothing(nodes: seq<Node>, needs: Needs, s: seq<Node>, i: nat, m: nat)
    requires Topological(needs, s) && DeclaredFirst(nodes, needs) && i <= m < |s| && Acyclic(nodes, needs, s[m])
    requires forall j :: i <= j < |s| ==> Position(nodes, s[m]) <= Position(nodes, s[j])
    ensures s[m] in needs && forall x :: x in needs[s[m]] ==> x in s[..i]
  {
    hide Position, IntoCycle;
    TopologicalAt(needs, s, m);
    forall x | x in needs[s[m]] ensures x in s[..i] {
      var k :| 0 <= k < m && s[..m][k] == x;
      assert Position(nodes, x) < Position(nodes, s[m]);
      assert k < i ==> s[..i][k] == x;
    }
  }

  lemma BeforeByPosition(nodes: seq<Node>, s: seq<Node>, p: Node, q: Node)
    requires Ascends(nodes, s) && p in s && q in s
    ensures q in s[..IndexIn(s, p)] <==> Position(nodes, q) < Position(nodes, p)
  {
    hide Position;
    var k := IndexIn(s, p);
    var j :| 0 <= j < |s| && s[j] == q;
    if q in s[..k] {
      var i :| 0 <= i < k && s[..k][i] == q;
      assert s[i] == q;
    }
    if Position(nodes, q) < Position(nodes, p) {
      assert j < k;
      assert s[..k][j] == q;
    }
  }

  /** Along the declaration, being ready earlier is a matter of positions. */
  lemma LateByPosition(nodes: seq<Node>, needs: Needs, s: seq<Node>)
    requires Topological(needs, s) && Ascends(nodes, s) && forall n :: n in s <==> Acyclic(nodes, needs, n)
    ensures StaticTakesLate(needs, s) <==> exists x, y, p :: Outpaced(nodes, needs, x, y, p)
  {
    hide IntoCycle, Position, Ascends, Topological;
    if i, j, p :| 0 <= i < j < |s| && ReadyEarlier(needs, s, s[j], s[i], p) {
      assert s[i] in s && s[j] in s;
      assert Position(nodes, s[i]) < Position(nodes, s[j]) by { AscendsAt(nodes, s, i, j); }
      forall q | q in needs[s[j]] ensures Position(nodes, q) < Position(nodes, p) {
        ProviderIn(needs, s, j, q);
        BeforeByPosition(nodes, s, p, q);
      }
      assert Outpaced(nodes, needs, s[i], s[j], p);
    }
    if x, y, p :| Outpaced(nodes, needs, x, y, p) {
      var i :| 0 <= i < |s| && s[i] == x;
      var j :| 0 <= j < |s| && s[j] == y;
      if j < i {
        AscendsAt(nodes, s, j, i);
      }
      assert i < j;
      ProviderIn(needs, s, i, p);
      forall q | q in needs[y] ensures q in s[..IndexIn(s, p)] {
        ProviderIn(needs, s, j, q);
        BeforeByPosition(nodes, s, p, q);
      }
      assert ReadyEarlier(needs, s, s[j], s[i], p);
    }
  }

  lemma AscendsAt(nodes: seq<Node>, s: seq<Node>, i: nat, j: nat)
    requires Ascends(nodes, s) && i < j < |s|
    ensures Position(nodes, s[i]) < Position(nodes, s[j])
  {
  }

  lemma ProviderIn(needs: Needs, s: seq<Node>, j: nat, q: Node)
    requires Topological(needs, s) && j < |s| && s[j] in needs && q in needs[s[j]]
    ensures q in s
  {
    TopologicalAt(needs, s, j);
    assert forall k :: 0 <= k < j ==> s[..j][k] == s[k];
  }

  lemma FrontIsAcyclic(nodes: seq<Node>, needs: Needs, order: seq<Node>, cycles: seq<Node>)
    requires Relation(nodes, needs) && BringsUp(nodes, needs, order, cycles)
    ensures forall n :: n in Front(order, cycles) <==> Acyclic(nodes, needs, n)
  {
    var front := Front(order, cycles);
    FrontFirst(nodes, needs, order, cycles);
    SamePermutation(order, nodes);
    assert Topological(needs, front) && cycles == CycleNodes(nodes, needs) && needs.Keys == Elements(nodes);
    hide IntoCycle, CycleNodes, Topological, BringsUp, Front, Relation;
    forall n ensures n in front <==> Acyclic(nodes, needs, n) {
      CycleNodesMember(nodes, needs, n);
      assert n in order <==> n in front || n in cycles;
      if n in front {
        OrderedIsAcyclic(needs, front, n);
        assert n in Elements(nodes);
      }
    }
  }

  /** Where providers are declared first, the static order is the declaration, and the runtime's is the same if and
      only if no acyclic node has a provider that is declared after all of those of a node declared later. */
  lemma OrdersAgreeByPosition(nodes: seq<Node>, needs: Needs, order: seq<Node>, cycles: seq<Node>, order': seq<Node>,
      cycles': seq<Node>)
    requires Relation(nodes, needs) && DeclaredFirst(nodes, needs)
    requires BringsUp(nodes, needs, order, cycles) && order == RuntimeOrder(nodes, needs)
    requires BringsUp(nodes, needs, order', cycles') && LexLeast(nodes, needs, Front(order', cycles'))
    ensures Ascends(nodes, Front(order', cycles'))
    ensures order == order' <==> !exists x, y, p :: Outpaced(nodes, needs, x, y, p)
  {
    hide *;
    FrontFirst(nodes, needs, order', cycles');
    FrontIsAcyclic(nodes, needs, order', cycles');
    FrontDistinct(nodes, needs, order', cycles');
    AsDeclared(nodes, needs, Front(order', cycles'));
    LateByPosition(nodes, needs, Front(order', cycles'));
    OrdersAgreeStatically(nodes, needs, order, cycles, order', cycles');
  }
}
