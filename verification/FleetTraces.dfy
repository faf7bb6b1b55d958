/**
 * Traces over many processes, fleet_traces.go: the bounded store of spans, and stitching the spans of one
 * trace, from whatever processes they came, into the tree that their parents make of them.
 */
module FleetTraces {
  import opened Wrappers
  import opened Sorting

  /** Times and durations in nanoseconds; no parent is the empty string. */
  datatype Span = Span(id: string, parent: string, process: string, start: int, duration: int)

  /** A span in its place in the tree. */
  datatype Place = Place(span: Span, depth: nat)

  datatype View = View(place: Place, offset: int, handover: bool, orphan: bool)

  predicate StartsBefore(a: Span, b: Span) {
    a.start <= b.start
  }

  function Ids(spans: seq<Span>): (r: seq<string>)
    ensures |r| == |spans|
  {
    seq(|spans|, i requires 0 <= i < |spans| => spans[i].id)
  }

  /** The spans that name id as their parent. */
  function Kids(spans: seq<Span>, id: string): seq<Span> {
    if spans == [] then []
    else
      var last := spans[|spans| - 1];
      Kids(spans[..|spans| - 1], id) + if id != "" && last.parent == id then [last] else []
  }

  predicate IsRoot(s: Span, known: seq<string>) {
    s.parent == "" || s.parent !in known
  }

  /** The spans without a parent among the known ids. */
  function Roots(spans: seq<Span>, known: seq<string>): seq<Span> {
    if spans == [] then []
    else
      var last := spans[|spans| - 1];
      Roots(spans[..|spans| - 1], known) + if IsRoot(last, known) then [last] else []
  }

  lemma {:induction false} KidsAre(spans: seq<Span>, id: string)
    ensures forall s :: s in Kids(spans, id) <==> s in spans && id != "" && s.parent == id
  {
    if spans != [] {
      KidsAre(spans[..|spans| - 1], id);
      assert spans == spans[..|spans| - 1] + [spans[|spans| - 1]];
    }
  }

  lemma {:induction false} RootsAre(spans: seq<Span>, known: seq<string>)
    ensures forall s :: s in Roots(spans, known) <==> s in spans && IsRoot(s, known)
  {
    if spans != [] {
      RootsAre(spans[..|spans| - 1], known);
      assert spans == spans[..|spans| - 1] + [spans[|spans| - 1]];
    }
  }

  lemma {:induction false} KidsDistinct(spans: seq<Span>, id: string)
    requires Distinct(spans)
    ensures Distinct(Kids(spans, id))
  {
    if spans != [] {
      var init, last := spans[..|spans| - 1], spans[|spans| - 1];
      assert spans == init + [last];
      DistinctSnoc(init, last);
      KidsDistinct(init, id);
      KidsAre(init, id);
      DistinctSnoc(Kids(init, id), last);
    }
  }

  lemma {:induction false} RootsDistinct(spans: seq<Span>, known: seq<string>)
    requires Distinct(spans)
    ensures Distinct(Roots(spans, known))
  {
    if spans != [] {
      var init, last := spans[..|spans| - 1], spans[|spans| - 1];
      assert spans == init + [last];
      DistinctSnoc(init, last);
      RootsDistinct(init, known);
      RootsAre(init, known);
      DistinctSnoc(Roots(init, known), last);
    }
  }

  lemma IdsIn(spans: seq<Span>)
    ensures forall id :: id in Ids(spans) <==> exists s :: s in spans && s.id == id
    ensures Distinct(Ids(spans)) ==> Distinct(spans)
  {
    forall id | id in Ids(spans) ensures exists s :: s in spans && s.id == id {
      var i :| 0 <= i < |spans| && Ids(spans)[i] == id;
      assert spans[i] in spans;
    }
    forall s | s in spans ensures s.id in Ids(spans) {
      var i :| 0 <= i < |spans| && spans[i] == s;
      assert Ids(spans)[i] == s.id;
    }
    if Distinct(Ids(spans)) {
      forall i, j | 0 <= i < j < |spans| ensures spans[i] != spans[j] {
        assert Ids(spans)[i] != Ids(spans)[j];
      }
    }
  }

  lemma SameSpan(spans: seq<Span>, a: Span, b: Span)
    requires Distinct(Ids(spans)) && a in spans && b in spans && a.id == b.id
    ensures a == b
  {
    var i :| 0 <= i < |spans| && spans[i] == a;
    var j :| 0 <= j < |spans| && spans[j] == b;
    assert Ids(spans)[i] == Ids(spans)[j];
  }

  // ----- chains of parents -----

  /** From a root down, each the parent of the next. */
  ghost predicate Stack(spans: seq<Span>, p: seq<Span>) {
    && p != [] && (forall i :: 0 <= i < |p| ==> p[i] in spans)
    && IsRoot(p[0], Ids(spans))
    && forall i :: 0 < i < |p| ==> p[i].parent != "" && p[i].parent == p[i - 1].id
  }

  ghost predicate EndsIn(spans: seq<Span>, p: seq<Span>, s: Span) {
    Stack(spans, p) && p[|p| - 1] == s
  }

  /** The span hangs from a root. */
  ghost predicate Grounded(spans: seq<Span>, s: Span) {
    exists p :: EndsIn(spans, p, s)
  }

  lemma StackInit(spans: seq<Span>, p: seq<Span>)
    requires Stack(spans, p) && |p| > 1
    ensures Stack(spans, p[..|p| - 1])
  {
  }

  lemma StackSnoc(spans: seq<Span>, p: seq<Span>, s: Span)
    requires Stack(spans, p) && s in Kids(spans, p[|p| - 1].id)
    ensures Stack(spans, p + [s])
  {
    KidsAre(spans, p[|p| - 1].id);
  }

  /** A span that has its parent in the trace is no root. */
  lemma NotRoot(spans: seq<Span>, p: seq<Span>, i: nat)
    requires Stack(spans, p) && 0 < i < |p|
    ensures !IsRoot(p[i], Ids(spans))
  {
    IdsIn(spans);
    assert p[i - 1] in spans;
  }

  /** There is one chain of parents at most. */
  lemma {:induction false} StackUnique(spans: seq<Span>, p: seq<Span>, q: seq<Span>)
    requires Distinct(Ids(spans)) && Stack(spans, p) && Stack(spans, q) && p[|p| - 1] == q[|q| - 1]
    ensures p == q
    decreases |p|
  {
    if |p| > 1 {
      NotRoot(spans, p, |p| - 1);
    }
    if |q| > 1 {
      NotRoot(spans, q, |q| - 1);
    }
    if |p| > 1 && |q| > 1 {
      StackInit(spans, p);
      StackInit(spans, q);
      SameSpan(spans, p[|p| - 2], q[|q| - 2]);
      StackUnique(spans, p[..|p| - 1], q[..|q| - 1]);
      assert p == p[..|p| - 1] + [p[|p| - 1]];
      assert q == q[..|q| - 1] + [q[|q| - 1]];
    } else {
      assert p == [p[0]] && q == [q[0]];
    }
  }

  /** No span twice in a chain of parents, so none is longer than there are spans. */
  lemma StackShort(spans: seq<Span>, p: seq<Span>)
    requires Distinct(Ids(spans)) && Stack(spans, p)
    ensures Distinct(p) && |p| <= |spans|
  {
    forall i, j | 0 <= i < j < |p| ensures p[i] != p[j] {
      if p[i] == p[j] {
        assert Stack(spans, p[..i + 1]) && Stack(spans, p[..j + 1]);
        StackUnique(spans, p[..i + 1], p[..j + 1]);
        assert false;
      }
    }
    IdsIn(spans);
    DistinctCount(p);
    DistinctCount(spans);
    SubsetCount(Elements(p), Elements(spans));
  }

  // ----- parent cycles -----

  ghost predicate Cycle(spans: seq<Span>, c: seq<Span>) {
    && c != [] && (forall i :: 0 <= i < |c| ==> c[i] in spans && c[i].parent != "")
    && (forall i {:trigger c[i].parent} :: 0 <= i < |c| ==> c[i].parent == c[if i == 0 then |c| - 1 else i - 1].id)
  }

  lemma {:induction false} CycleHangsFree(spans: seq<Span>, c: seq<Span>, p: seq<Span>)
    requires Distinct(Ids(spans)) && Cycle(spans, c) && Stack(spans, p)
    ensures p[|p| - 1] !in c
    decreases |p|
  {
    if p[|p| - 1] in c {
      var i :| 0 <= i < |c| && c[i] == p[|p| - 1];
      var up := c[if i == 0 then |c| - 1 else i - 1];
      IdsIn(spans);
      assert up in spans && c[i].parent == up.id;
      if |p| > 1 {
        SameSpan(spans, p[|p| - 2], up);
        StackInit(spans, p);
        CycleHangsFree(spans, c, p[..|p| - 1]);
      }
    }
  }

  /** The parents of s, upwards, n of them, none of which hangs from a root if s does not. */
  lemma {:induction false} Climb(spans: seq<Span>, s: Span, n: nat) returns (u: seq<Span>)
    requires Distinct(Ids(spans)) && s in spans && !Grounded(spans, s)
    ensures |u| == n + 1 && u[0] == s
    ensures forall i :: 0 <= i < |u| ==> u[i] in spans && u[i].parent != "" && !Grounded(spans, u[i])
    ensures forall i :: 0 < i < |u| ==> u[i - 1].parent == u[i].id
  {
    var top := UpFrom(spans, s);
    if n == 0 {
      u := [s];
    } else {
      u := Climb(spans, s, n - 1);
      var up := UpFrom(spans, u[n - 1]);
      var above := UpFrom(spans, up);
      u := u + [up];
    }
  }

  lemma UpFrom(spans: seq<Span>, s: Span) returns (up: Span)
    requires s in spans && !Grounded(spans, s)
    ensures up in spans && s.parent == up.id && s.parent != "" && !Grounded(spans, up)
  {
    IdsIn(spans);
    assert !EndsIn(spans, [s], s);
    up :| up in spans && up.id == s.parent;
    if Grounded(spans, up) {
      var p :| EndsIn(spans, p, up);
      assert EndsIn(spans, p + [s], s);
    }
  }

  /** A span that hangs from no root has a parent cycle above it. */
  lemma CycleAbove(spans: seq<Span>, s: Span) returns (c: seq<Span>)
    requires Distinct(Ids(spans)) && s in spans && !Grounded(spans, s)
    ensures Cycle(spans, c)
  {
    hide Grounded;
    var u := Climb(spans, s, |spans|);
    IdsIn(spans);
    DistinctCount(spans);
    assert forall x :: x in u ==> x in Elements(spans);
    Pigeonhole(u, Elements(spans));
    var i, j :| 0 <= i < j < |u| && u[i] == u[j];
    c := seq(j - i, k requires 0 <= k < j - i => u[j - 1 - k]);
    assert c[j - i - 1] == u[i];
    forall k | 0 <= k < |c| ensures c[k].parent == c[if k == 0 then |c| - 1 else k - 1].id {
      assert u[j - 1 - k].parent == u[j - k].id;
    }
  }

  /** Every span hangs from a root just when no spans are each other's ancestors. */
  lemma GroundedIffNoCycle(spans: seq<Span>)
    requires Distinct(Ids(spans))
    ensures (forall s :: s in spans ==> Grounded(spans, s)) <==> !exists c :: Cycle(spans, c)
  {
    hide Distinct, Ids;
    if c :| Cycle(spans, c) {
      assert c[0] in spans;
      if Grounded(spans, c[0]) {
        var p :| EndsIn(spans, p, c[0]);
        CycleHangsFree(spans, c, p);
      }
    }
    if s :| s in spans && !Grounded(spans, s) {
      var c := CycleAbove(spans, s);
    }
  }

  // ----- the stitched forest -----

  datatype Tree = Node(span: Span, kids: seq<Tree>)

  function Tops(ts: seq<Tree>): (r: seq<Span>)
    ensures |r| == |ts|
  {
    seq(|ts|, i requires 0 <= i < |ts| => ts[i].span)
  }

  /** Below each span all the spans that name it, by when they started. */
  ghost predicate TreeOf(spans: seq<Span>, t: Tree) {
    && multiset(Tops(t.kids)) == multiset(Kids(spans, t.span.id)) && SortedBy(StartsBefore, Tops(t.kids))
    && forall i :: 0 <= i < |t.kids| ==> TreeOf(spans, t.kids[i])
  }

  ghost predicate ForestOf(spans: seq<Span>, ts: seq<Tree>) {
    && multiset(Tops(ts)) == multiset(Roots(spans, Ids(spans))) && SortedBy(StartsBefore, Tops(ts))
    && forall i :: 0 <= i < |ts| ==> TreeOf(spans, ts[i])
  }

  /** Each span before what is below it, siblings in turn. */
  function PreOrder(t: Tree, depth: nat): (r: seq<Place>)
    ensures |r| > 0 && r[0] == Place(t.span, depth)
  {
    [Place(t.span, depth)] + PreOrders(t.kids, depth + 1)
  }

  function PreOrders(ts: seq<Tree>, depth: nat): seq<Place> {
    if ts == [] then [] else PreOrder(ts[0], depth) + PreOrders(ts[1..], depth)
  }

  function SpansOf(ps: seq<Place>): (r: seq<Span>)
    ensures |r| == |ps|
  {
    seq(|ps|, i requires 0 <= i < |ps| => ps[i].span)
  }

  /** v is the place of the span at the end of chain q, below chain p. */
  ghost predicate PlacedBy(spans: seq<Span>, p: seq<Span>, q: seq<Span>, v: Place) {
    EndsIn(spans, q, v.span) && p <= q && v.depth == |q| - 1
  }

  ghost predicate Below(spans: seq<Span>, p: seq<Span>, v: Place) {
    exists q :: PlacedBy(spans, p, q, v)
  }

  /** Siblings that may stand below path, or be roots where path is empty. */
  ghost predicate Siblings(spans: seq<Span>, path: seq<Span>, ts: seq<Tree>) {
    && Distinct(Tops(ts))
    && forall i :: 0 <= i < |ts| ==> TreeOf(spans, ts[i]) && Stack(spans, path + [ts[i].span])
  }

  lemma KidsAreSiblings(spans: seq<Span>, path: seq<Span>, t: Tree)
    requires Distinct(Ids(spans)) && TreeOf(spans, t) && path != [] && path[|path| - 1] == t.span && Stack(spans, path)
    ensures Siblings(spans, path, t.kids)
    ensures forall k :: k in Tops(t.kids) <==> k in Kids(spans, t.span.id)
  {
    IdsIn(spans);
    KidsDistinct(spans, t.span.id);
    DistinctPermutation(Tops(t.kids), Kids(spans, t.span.id));
    SamePermutation(Tops(t.kids), Kids(spans, t.span.id));
    forall i | 0 <= i < |t.kids| ensures Stack(spans, path + [t.kids[i].span]) {
      assert Tops(t.kids)[i] in Tops(t.kids);
      StackSnoc(spans, path, t.kids[i].span);
    }
  }

  lemma RootsAreSiblings(spans: seq<Span>, ts: seq<Tree>)
    requires Distinct(Ids(spans)) && ForestOf(spans, ts)
    ensures Siblings(spans, [], ts)
    ensures forall k :: k in Tops(ts) <==> k in Roots(spans, Ids(spans))
  {
    IdsIn(spans);
    RootsDistinct(spans, Ids(spans));
    DistinctPermutation(Tops(ts), Roots(spans, Ids(spans)));
    SamePermutation(Tops(ts), Roots(spans, Ids(spans)));
    RootsAre(spans, Ids(spans));
    forall i | 0 <= i < |ts| ensures Stack(spans, [] + [ts[i].span]) {
      assert Tops(ts)[i] in Tops(ts);
    }
  }

  lemma SiblingsTail(spans: seq<Span>, path: seq<Span>, ts: seq<Tree>)
    requires Siblings(spans, path, ts) && ts != []
    ensures Siblings(spans, path, ts[1..]) && Tops(ts)[1..] == Tops(ts[1..]) && ts[0].span !in Tops(ts[1..])
    ensures Tops(ts) == [ts[0].span] + Tops(ts[1..])
  {
    hide Stack, TreeOf;
    DistinctTail(Tops(ts));
    assert Tops(ts)[1..] == Tops(ts[1..]);
    hide Distinct;
  }

  /** Below a span: the span itself, and whatever is below one of its kids. */
  lemma BelowTop(spans: seq<Span>, p: seq<Span>, v: Place)
    requires Stack(spans, p)
    ensures Below(spans, p, v) <==>
      v == Place(p[|p| - 1], |p| - 1) || exists k :: k in Kids(spans, p[|p| - 1].id) && Below(spans, p + [k], v)
  {
    if v == Place(p[|p| - 1], |p| - 1) {
      assert PlacedBy(spans, p, p, v);
    }
    if k :| k in Kids(spans, p[|p| - 1].id) && Below(spans, p + [k], v) {
      var q :| PlacedBy(spans, p + [k], q, v);
      assert p <= q;
      assert PlacedBy(spans, p, q, v);
    }
    if Below(spans, p, v) {
      var q :| PlacedBy(spans, p, q, v);
      if |q| > |p| {
        KidsAre(spans, p[|p| - 1].id);
        assert p + [q[|p|]] <= q;
        assert PlacedBy(spans, p + [q[|p|]], q, v);
      } else {
        assert q == p;
      }
    }
  }

  /** Whatever is placed in a tree hangs below its top, at the depth its chain of parents gives. */
  lemma {:induction false} TreePlaces(spans: seq<Span>, path: seq<Span>, t: Tree, v: Place)
    requires Distinct(Ids(spans)) && TreeOf(spans, t) && Stack(spans, path + [t.span])
    ensures v in PreOrder(t, |path|) <==> Below(spans, path + [t.span], v)
    decreases t, 1
  {
    hide Distinct, Stack, Kids, Below, PreOrders, TreeOf;
    var p := path + [t.span];
    KidsAreSiblings(spans, p, t);
    ForestPlaces(spans, p, t.kids, v);
    BelowTop(spans, p, v);
    if i :| 0 <= i < |t.kids| && Below(spans, p + [t.kids[i].span], v) {
      assert Tops(t.kids)[i] in Tops(t.kids);
    }
    if k :| k in Tops(t.kids) && Below(spans, p + [k], v) {
      var i :| 0 <= i < |t.kids| && Tops(t.kids)[i] == k;
      assert Below(spans, p + [t.kids[i].span], v);
    }
  }

  lemma {:induction false} ForestPlaces(spans: seq<Span>, path: seq<Span>, ts: seq<Tree>, v: Place)
    requires Distinct(Ids(spans)) && Siblings(spans, path, ts)
    ensures v in PreOrders(ts, |path|) <==> exists i :: 0 <= i < |ts| && Below(spans, path + [ts[i].span], v)
    decreases ts, 0
  {
    hide Stack, Kids, Below, TreeOf, Distinct;
    if ts != [] {
      TreePlaces(spans, path, ts[0], v);
      SiblingsTail(spans, path, ts);
      ForestPlaces(spans, path, ts[1..], v);
      if v in PreOrders(ts[1..], |path|) {
        var i :| 0 <= i < |ts[1..]| && Below(spans, path + [ts[1..][i].span], v);
        assert Below(spans, path + [ts[i + 1].span], v);
      }
      if i :| 0 < i < |ts| && Below(spans, path + [ts[i].span], v) {
        assert Below(spans, path + [ts[1..][i - 1].span], v);
      }
    }
  }

  /** A place in the whole forest: the span hangs from a root, and its depth is the length of its chain. */
  lemma PlacedIffGrounded(spans: seq<Span>, ts: seq<Tree>, v: Place)
    requires Distinct(Ids(spans)) && ForestOf(spans, ts)
    ensures v in PreOrders(ts, 0) <==> exists p :: EndsIn(spans, p, v.span) && v.depth == |p| - 1
  {
    hide *;
    RootsAreSiblings(spans, ts);
    ForestPlaces(spans, [], ts, v);
    if p :| EndsIn(spans, p, v.span) && v.depth == |p| - 1 {
      var i := HangsBelow(spans, ts, p, v);
    }
    if v in PreOrders(ts, 0) {
      var i :| 0 <= i < |ts| && Below(spans, [] + [ts[i].span], v);
      var q := ChainBelow(spans, [] + [ts[i].span], v);
    }
  }

  lemma ChainBelow(spans: seq<Span>, p: seq<Span>, v: Place) returns (q: seq<Span>)
    requires Below(spans, p, v)
    ensures EndsIn(spans, q, v.span) && v.depth == |q| - 1
  {
    hide EndsIn;
    q :| PlacedBy(spans, p, q, v);
  }

  /** The tree that a chain of parents starts in. */
  lemma HangsBelow(spans: seq<Span>, ts: seq<Tree>, p: seq<Span>, v: Place) returns (i: nat)
    requires EndsIn(spans, p, v.span) && v.depth == |p| - 1
    requires forall k :: k in Tops(ts) <==> k in Roots(spans, Ids(spans))
    ensures i < |ts| && Below(spans, [] + [ts[i].span], v)
  {
    FromRoot(spans, p);
    hide Stack, Ids, Roots;
    i :| 0 <= i < |ts| && Tops(ts)[i] == p[0];
    assert [] + [ts[i].span] <= p;
    assert PlacedBy(spans, [] + [ts[i].span], p, v);
  }

  lemma FromRoot(spans: seq<Span>, p: seq<Span>)
    requires Stack(spans, p)
    ensures |p| > 0 && p[0] in Roots(spans, Ids(spans))
  {
    RootsAre(spans, Ids(spans));
  }

  // ----- each once -----

  lemma {:induction false} TreeOnce(spans: seq<Span>, path: seq<Span>, t: Tree)
    requires Distinct(Ids(spans)) && TreeOf(spans, t) && Stack(spans, path + [t.span])
    ensures Distinct(SpansOf(PreOrder(t, |path|)))
    decreases t, 1
  {
    hide Stack, Kids, Below, PreOrders, TreeOf;
    var p := path + [t.span];
    KidsAreSiblings(spans, p, t);
    ForestOnce(spans, p, t.kids);
    var below := PreOrders(t.kids, |p|);
    forall i | 0 <= i < |below| ensures SpansOf(below)[i] != t.span {
      ForestPlaces(spans, p, t.kids, below[i]);
      var k :| 0 <= k < |t.kids| && Below(spans, p + [t.kids[k].span], below[i]);
      DeeperIsOther(spans, p, t.kids[k].span, below[i]);
    }
    assert SpansOf(PreOrder(t, |path|)) == [t.span] + SpansOf(below);
    assert Distinct([t.span]);
    DistinctConcat([t.span], SpansOf(below));
  }

  lemma DeeperIsOther(spans: seq<Span>, p: seq<Span>, k: Span, v: Place)
    requires Distinct(Ids(spans)) && Stack(spans, p) && Below(spans, p + [k], v)
    ensures v.span != p[|p| - 1]
  {
    var q :| PlacedBy(spans, p + [k], q, v);
    if v.span == p[|p| - 1] {
      StackUnique(spans, p, q);
      assert false;
    }
  }

  lemma {:induction false} ForestOnce(spans: seq<Span>, path: seq<Span>, ts: seq<Tree>)
    requires Distinct(Ids(spans)) && Siblings(spans, path, ts)
    ensures Distinct(SpansOf(PreOrders(ts, |path|)))
    decreases ts, 0
  {
    hide Stack, Kids, Below, TreeOf;
    if ts != [] {
      TreeOnce(spans, path, ts[0]);
      SiblingsTail(spans, path, ts);
      ForestOnce(spans, path, ts[1..]);
      var a, b := PreOrder(ts[0], |path|), PreOrders(ts[1..], |path|);
      forall x | x in SpansOf(b) ensures x !in SpansOf(a) {
        var i :| 0 <= i < |b| && SpansOf(b)[i] == x;
        if x in SpansOf(a) {
          var j :| 0 <= j < |a| && SpansOf(a)[j] == x;
          TwoTrees(spans, path, ts, a[j], b[i]);
          assert false;
        }
      }
      assert SpansOf(a + b) == SpansOf(a) + SpansOf(b);
      DistinctConcat(SpansOf(a), SpansOf(b));
    }
  }

  lemma TwoTrees(spans: seq<Span>, path: seq<Span>, ts: seq<Tree>, u: Place, v: Place)
    requires Distinct(Ids(spans)) && Siblings(spans, path, ts) && ts != []
    requires u in PreOrder(ts[0], |path|) && v in PreOrders(ts[1..], |path|)
    ensures u.span != v.span
  {
    SiblingsTail(spans, path, ts);
    TreePlaces(spans, path, ts[0], u);
    ForestPlaces(spans, path, ts[1..], v);
    var i :| 0 <= i < |ts[1..]| && Below(spans, path + [ts[1..][i].span], v);
    assert Tops(ts[1..])[i] in Tops(ts[1..]);
    hide *;
    TwoBranches(spans, path, ts[0].span, ts[1..][i].span, u, v);
  }

  lemma TwoBranches(spans: seq<Span>, path: seq<Span>, a: Span, b: Span, u: Place, v: Place)
    requires Distinct(Ids(spans)) && a != b && Below(spans, path + [a], u) && Below(spans, path + [b], v)
    ensures u.span != v.span
  {
    hide Distinct, Ids, Stack;
    var p :| PlacedBy(spans, path + [a], p, u);
    var q :| PlacedBy(spans, path + [b], q, v);
    assert p[|path|] == a && q[|path|] == b;
    if u.span == v.span {
      StackUnique(spans, p, q);
      assert false;
    }
  }

  /** Stitching places each span that hangs from a root, once, and no other; so all of them, just when there is
      no parent cycle. */
  lemma EachPlacedOnce(spans: seq<Span>, ts: seq<Tree>)
    requires Distinct(Ids(spans)) && ForestOf(spans, ts)
    ensures Distinct(SpansOf(PreOrders(ts, 0)))
    ensures forall s :: s in SpansOf(PreOrders(ts, 0)) <==> Grounded(spans, s)
  {
    hide Distinct, Siblings;
    RootsAreSiblings(spans, ts);
    ForestOnce(spans, [], ts);
    hide Ids, ForestOf, PreOrders, Stack;
    var placed := PreOrders(ts, 0);
    forall s ensures s in SpansOf(placed) <==> Grounded(spans, s) {
      if s in SpansOf(placed) {
        var i :| 0 <= i < |placed| && SpansOf(placed)[i] == s;
        PlacedIffGrounded(spans, ts, placed[i]);
      }
      if p :| EndsIn(spans, p, s) {
        StackSome(spans, p);
        PlacedIffGrounded(spans, ts, Place(s, |p| - 1));
        var i :| 0 <= i < |placed| && placed[i] == Place(s, |p| - 1);
        assert SpansOf(placed)[i] == s;
      }
    }
  }

  lemma StackSome(spans: seq<Span>, p: seq<Span>)
    requires Stack(spans, p)
    ensures |p| > 0
  {
  }

  lemma DistinctSame<T>(a: seq<T>, b: seq<T>)
    requires Distinct(a) && Distinct(b) && forall x :: x in a <==> x in b
    ensures multiset(a) == multiset(b)
  {
    forall x ensures multiset(a)[x] == multiset(b)[x] {
      DistinctMultiplicity(a, x);
      DistinctMultiplicity(b, x);
      assert x in multiset(a) <==> x in a;
      assert x in multiset(b) <==> x in b;
    }
  }

  lemma GroundedIn(spans: seq<Span>, s: Span)
    requires Grounded(spans, s)
    ensures s in spans
  {
    var p :| EndsIn(spans, p, s);
  }

  /** The stitched trace is a permutation of its spans just when there is no parent cycle among them. */
  lemma PermutationIffNoCycle(spans: seq<Span>, ts: seq<Tree>)
    requires Distinct(Ids(spans)) && ForestOf(spans, ts)
    ensures multiset(SpansOf(PreOrders(ts, 0))) == multiset(spans) <==> !exists c :: Cycle(spans, c)
  {
    hide *;
    var placed := SpansOf(PreOrders(ts, 0));
    EachPlacedOnce(spans, ts);
    GroundedIffNoCycle(spans);
    IdsIn(spans);
    forall s | Grounded(spans, s) ensures s in spans {
      GroundedIn(spans, s);
    }
    if forall s :: s in spans ==> Grounded(spans, s) {
      DistinctSame(placed, spans);
    }
    if multiset(placed) == multiset(spans) {
      SamePermutation(placed, spans);
    }
  }

  // ----- children after parents -----

  /** Before place i comes its parent's, one less deep, with only deeper places in between. */
  ghost predicate UnderParent(ps: seq<Place>, i: nat)
    requires i < |ps|
  {
    exists j :: ParentAt(ps, i, j)
  }

  ghost predicate ParentAt(ps: seq<Place>, i: nat, j: int)
    requires i < |ps|
  {
    && 0 <= j < i && ps[j].span.id == ps[i].span.parent && ps[i].span.parent != "" && ps[i].depth == ps[j].depth + 1
    && forall k :: j < k < i ==> ps[k].depth > ps[j].depth
  }

  lemma UnderParentMoves(a: seq<Place>, b: seq<Place>, c: seq<Place>, i: nat)
    requires i < |b| && UnderParent(b, i)
    ensures UnderParent(a + b + c, |a| + i)
  {
    var j :| ParentAt(b, i, j);
    var ps := a + b + c;
    forall k | |a| + j < k < |a| + i ensures ps[k].depth > ps[|a| + j].depth {
      assert ps[k] == b[k - |a|];
    }
    assert ParentAt(ps, |a| + i, |a| + j);
  }

  /** Not less deep than that, and under its parent in there if it is deeper. */
  ghost predicate NestedAt(ps: seq<Place>, depth: nat, i: nat)
    requires i < |ps|
  {
    ps[i].depth >= depth && (ps[i].depth > depth ==> UnderParent(ps, i))
  }

  ghost predicate Nested(ps: seq<Place>, depth: nat) {
    forall i :: 0 <= i < |ps| ==> NestedAt(ps, depth, i)
  }

  lemma NestedMoves(a: seq<Place>, b: seq<Place>, c: seq<Place>, depth: nat, i: nat)
    requires i < |b| && NestedAt(b, depth, i)
    ensures NestedAt(a + b + c, depth, |a| + i)
  {
    if b[i].depth > depth {
      UnderParentMoves(a, b, c, i);
    }
  }

  /** The places of that depth itself are those of the given spans. */
  ghost predicate TopsAmong(ps: seq<Place>, depth: nat, tops: seq<Span>) {
    forall i :: 0 <= i < |ps| && ps[i].depth == depth ==> ps[i].span in tops
  }

  lemma NestedConcat(a: seq<Place>, b: seq<Place>, depth: nat)
    requires Nested(a, depth) && Nested(b, depth)
    ensures Nested(a + b, depth)
  {
    hide NestedAt;
    var ps := a + b;
    assert [] + a + b == ps && a + b + [] == ps;
    forall i | 0 <= i < |ps| ensures NestedAt(ps, depth, i) {
      if i < |a| {
        NestedMoves([], a, b, depth, i);
      } else {
        NestedMoves(a, b, [], depth, i - |a|);
      }
    }
  }

  /** A top over its kids. */
  lemma NestedUnder(top: Place, below: seq<Place>, kids: seq<Span>)
    requires Nested(below, top.depth + 1) && TopsAmong(below, top.depth + 1, kids)
    requires forall k :: k in kids ==> k.parent == top.span.id && k.parent != ""
    ensures Nested([top] + below, top.depth) && TopsAmong([top] + below, top.depth, [top.span])
  {
    var ps := [top] + below;
    assert [top] + below + [] == ps;
    hide UnderParent;
    forall i | 0 <= i < |below| ensures below[i].depth > top.depth {
      assert NestedAt(below, top.depth + 1, i);
    }
    forall i | 0 <= i < |ps| ensures NestedAt(ps, top.depth, i) {
      if i > 0 {
        assert ps[i] == below[i - 1];
        if ps[i].depth == top.depth + 1 {
          NextToTop(ps, i);
        } else {
          assert NestedAt(below, top.depth + 1, i - 1);
          UnderParentMoves([top], below, [], i - 1);
        }
      }
    }
  }

  lemma NextToTop(ps: seq<Place>, i: nat)
    requires 0 < i < |ps| && ps[i].depth == ps[0].depth + 1 && ps[i].span.parent == ps[0].span.id
      && ps[i].span.parent != ""
    requires forall k :: 0 < k < |ps| ==> ps[k].depth > ps[0].depth
    ensures UnderParent(ps, i)
  {
    assert ParentAt(ps, i, 0);
  }

  lemma NestedEmpty(depth: nat)
    ensures Nested([], depth) && TopsAmong([], depth, [])
  {
  }

  lemma {:induction false} TreeNested(spans: seq<Span>, t: Tree, depth: nat)
    requires TreeOf(spans, t)
    ensures Nested(PreOrder(t, depth), depth) && TopsAmong(PreOrder(t, depth), depth, [t.span])
    decreases t, 1
  {
    hide Nested, TopsAmong, Kids;
    ForestNested(spans, t.kids, depth + 1);
    SamePermutation(Tops(t.kids), Kids(spans, t.span.id));
    KidsAre(spans, t.span.id);
    NestedUnder(Place(t.span, depth), PreOrders(t.kids, depth + 1), Tops(t.kids));
  }

  lemma {:induction false} ForestNested(spans: seq<Span>, ts: seq<Tree>, depth: nat)
    requires forall i :: 0 <= i < |ts| ==> TreeOf(spans, ts[i])
    ensures Nested(PreOrders(ts, depth), depth) && TopsAmong(PreOrders(ts, depth), depth, Tops(ts))
    decreases ts, 0
  {
    hide Nested, TopsAmong, TreeOf, PreOrder;
    if ts == [] {
      NestedEmpty(depth);
    } else {
      var first, rest := PreOrder(ts[0], depth), PreOrders(ts[1..], depth);
      assert PreOrders(ts, depth) == first + rest;
      hide PreOrders;
      TreeNested(spans, ts[0], depth);
      ForestNested(spans, ts[1..], depth);
      NestedConcat(first, rest, depth);
      assert Tops(ts) == [ts[0].span] + Tops(ts[1..]);
      TopsConcat(first, rest, depth, [ts[0].span], Tops(ts[1..]));
    }
  }

  lemma TopsConcat(a: seq<Place>, b: seq<Place>, depth: nat, s: seq<Span>, t: seq<Span>)
    requires TopsAmong(a, depth, s) && TopsAmong(b, depth, t)
    ensures TopsAmong(a + b, depth, s + t)
  {
  }

  /** A place deeper than a root is under its parent, in an unbroken stretch; the others are roots. */
  ghost predicate InPlace(spans: seq<Span>, ps: seq<Place>, i: nat)
    requires i < |ps|
  {
    if ps[i].depth > 0 then UnderParent(ps, i) else ps[i].span in spans && IsRoot(ps[i].span, Ids(spans))
  }

  lemma StitchedIsPreOrder(spans: seq<Span>, ts: seq<Tree>)
    requires ForestOf(spans, ts)
    ensures forall i :: 0 <= i < |PreOrders(ts, 0)| ==> InPlace(spans, PreOrders(ts, 0), i)
  {
    var ps := PreOrders(ts, 0);
    ForestNested(spans, ts, 0);
    SamePermutation(Tops(ts), Roots(spans, Ids(spans)));
    RootsAre(spans, Ids(spans));
    hide PreOrders, UnderParent;
    forall i | 0 <= i < |ps| ensures InPlace(spans, ps, i) {
      assert NestedAt(ps, 0, i);
    }
  }

  // ----- stitching as the collector does it -----

  function Places(vs: seq<View>): (r: seq<Place>)
    ensures |r| == |vs|
  {
    seq(|vs|, i requires 0 <= i < |vs| => vs[i].place)
  }

  /** What is shown of a span besides its place. */
  ghost predicate Seen(spans: seq<Span>, start: int, v: View) {
    var s := v.place.span;
    && v.offset == (s.start - start) / 1000
    && (v.orphan <==> s.parent != "" && s.parent !in Ids(spans))
    && (v.handover <==> exists p :: p in spans && p.id == s.parent && p.process != s.process)
  }

  ghost predicate AllSeen(spans: seq<Span>, start: int, vs: seq<View>) {
    forall v :: v in vs ==> Seen(spans, start, v)
  }

  lemma {:induction false} PreOrdersSnoc(ts: seq<Tree>, t: Tree, depth: nat)
    ensures PreOrders(ts + [t], depth) == PreOrders(ts, depth) + PreOrder(t, depth)
  {
    if ts == [] {
      assert ts + [t] == [t] && [t][1..] == [];
      assert PreOrders([t], depth) == PreOrder(t, depth) + PreOrders([], depth);
    } else {
      PreOrdersSnoc(ts[1..], t, depth);
      assert (ts + [t])[1..] == ts[1..] + [t];
    }
  }

  lemma StartsBeforePreorder()
    ensures TotalPreorder(StartsBefore)
  {
  }

  class Stitcher {
    const spans: seq<Span>
    const start: int
    var byID: map<string, Span>
    var children: map<string, seq<Span>>
    var out: seq<View>

    constructor (spans: seq<Span>, start: int)
      ensures this.spans == spans && this.start == start && byID == map[] && children == map[] && out == []
    {
      this.spans, this.start, byID, children, out := spans, start, map[], map[], [];
    }

    ghost predicate Indexed()
      reads this`byID
    {
      && (forall s :: s in spans ==> start <= s.start)
      && Distinct(Ids(spans))
      && (forall s :: s in spans ==> s.id in byID && byID[s.id] == s)
      && (forall id :: id in byID ==> byID[id] in spans && byID[id].id == id)
    }

    function KidsIn(m: map<string, seq<Span>>, id: string): seq<Span> {
      if id in m then m[id] else []
    }

    /** The lists of children, with what the first n spans make of them. */
    ghost predicate Linked(n: nat)
      requires n <= |spans|
      reads this`children
    {
      forall id :: id in Ids(spans) ==> KidsIn(children, id) == Kids(spans[..n], id)
    }

    /** The index of spans by id. */
    method Index()
      requires Distinct(Ids(spans)) && byID == map[]
      requires forall s :: s in spans ==> start <= s.start
      modifies this`byID
      ensures Indexed()
    {
      IdsIn(spans);
      for i := 0 to |spans|
        invariant forall j :: 0 <= j < i ==> spans[j].id in byID && byID[spans[j].id] == spans[j]
        invariant forall id :: id in byID ==> byID[id] in spans && byID[id].id == id
      {
        assert forall j :: 0 <= j < i ==> spans[j].id == Ids(spans)[j] != Ids(spans)[i] == spans[i].id;
        byID := byID[spans[i].id := spans[i]];
      }
    }

    lemma IdsDiffer()
      requires Indexed()
      ensures Distinct(Ids(spans))
    {
    }

    lemma KnownIds(id: string)
      requires Indexed()
      ensures id in byID <==> id in Ids(spans)
    {
      IdsIn(spans);
    }

    /** Roots and children. */
    method Link() returns (roots: seq<Span>)
      requires Indexed() && children == map[]
      modifies this`children
      ensures Linked(|spans|) && roots == Roots(spans, Ids(spans))
    {
      hide Indexed, Ids;
      roots := [];
      assert spans[..0] == [];
      for i := 0 to |spans|
        invariant Linked(i) && roots == Roots(spans[..i], Ids(spans))
      {
        var s := spans[i];
        assert spans[..i + 1][..i] == spans[..i];
        KnownIds(s.parent);
        if s.parent == "" || s.parent !in byID {
          roots := roots + [s];
        } else {
          children := children[s.parent := KidsIn(children, s.parent) + [s]];
        }
      }
      assert spans[..|spans|] == spans;
    }

    lemma KidsKnown(id: string)
      requires Linked(|spans|) && id in Ids(spans)
      ensures KidsIn(children, id) == Kids(spans, id)
    {
      assert spans[..|spans|] == spans;
    }

    /** walk: the span, and below it what hangs from it; path is what it hangs from. */
    method Walk(s: Span, depth: nat, ghost path: seq<Span>) returns (ghost t: Tree)
      requires Indexed() && Linked(|spans|) && depth == |path| && Stack(spans, path + [s])
      modifies this`out
      ensures t.span == s && TreeOf(spans, t)
      ensures Places(out) == Places(old(out)) + PreOrder(t, depth)
      ensures AllSeen(spans, start, old(out)) ==> AllSeen(spans, start, out)
      decreases |spans| - depth
    {
      hide Stack, Kids, Distinct, Ids, TreeOf, PreOrders, Seen, SortedBy, Indexed, Linked, Places, PreOrder;
      IdsDiffer();
      StackShort(spans, path + [s]);
      InTrace(spans, path, s);
      ghost var before := out;
      Show(s, depth);
      var kids := SortedKids(s);
      ghost var ts: seq<Tree> := [];
      PreOrdersNone(depth + 1);
      for i := 0 to |kids|
        invariant BuiltSo(spans, kids, ts, i)
        invariant Places(out) == Places(before) + ([Place(s, depth)] + PreOrders(ts, depth + 1))
        invariant AllSeen(spans, start, before) ==> AllSeen(spans, start, out)
      {
        StackSnoc(spans, path + [s], kids[i]);
        ghost var k := Walk(kids[i], depth + 1, path + [s]);
        PreOrdersSnoc(ts, k, depth + 1);
        ts := ts + [k];
      }
      t := Node(s, ts);
      Built(spans, s, kids, ts, depth);
    }

    /** The span at its place. */
    method Show(s: Span, depth: nat)
      requires Indexed() && s in spans
      modifies this`out
      ensures Places(out) == Places(old(out)) + [Place(s, depth)]
      ensures AllSeen(spans, start, old(out)) ==> AllSeen(spans, start, out)
    {
      hide Indexed, Places, Seen;
      ghost var before := out;
      var v := ViewOf(s, depth);
      out := out + [v];
      PlacesSnoc(before, v);
    }

    /** What hangs from s, by when it started. */
    method SortedKids(s: Span) returns (kids: seq<Span>)
      requires Linked(|spans|) && s.id in Ids(spans)
      ensures multiset(kids) == multiset(Kids(spans, s.id)) && SortedBy(StartsBefore, kids)
      ensures forall k :: k in kids ==> k in Kids(spans, s.id)
    {
      hide Linked, Kids, Ids, SortedBy;
      KidsKnown(s.id);
      StartsBeforePreorder();
      kids := Sort(StartsBefore, KidsIn(children, s.id));
      SamePermutation(kids, Kids(spans, s.id));
    }

    /** One span as it is shown. */
    method ViewOf(s: Span, depth: nat) returns (v: View)
      requires Indexed() && s in spans
      ensures v.place == Place(s, depth) && Seen(spans, start, v)
    {
      IdsIn(spans);
      var offset := (s.start - start) / 1000;
      if offset < 0 {
        offset := 0;
      }
      if s.parent in byID {
        v := View(Place(s, depth), offset, byID[s.parent].process != s.process, false);
        forall p | p in spans && p.id == s.parent ensures p == byID[s.parent] {
        }
      } else {
        v := View(Place(s, depth), offset, false, s.parent != "");
      }
    }
  }

  /** The trees of the first i of the kids. */
  ghost predicate BuiltSo(spans: seq<Span>, kids: seq<Span>, ts: seq<Tree>, i: nat) {
    |ts| == i <= |kids| && forall j :: 0 <= j < i ==> ts[j].span == kids[j] && TreeOf(spans, ts[j])
  }

  lemma PlacesSnoc(vs: seq<View>, v: View)
    ensures Places(vs + [v]) == Places(vs) + [v.place]
  {
  }

  lemma PreOrdersNone(depth: nat)
    ensures PreOrders([], depth) == []
  {
  }

  lemma Built(spans: seq<Span>, s: Span, kids: seq<Span>, ts: seq<Tree>, depth: nat)
    requires BuiltSo(spans, kids, ts, |kids|) && multiset(kids) == multiset(Kids(spans, s.id))
      && SortedBy(StartsBefore, kids)
    ensures TreeOf(spans, Node(s, ts))
    ensures PreOrder(Node(s, ts), depth) == [Place(s, depth)] + PreOrders(ts, depth + 1)
  {
    assert Tops(ts) == kids;
  }

  lemma InTrace(spans: seq<Span>, path: seq<Span>, s: Span)
    requires Stack(spans, path + [s])
    ensures s in spans && s.id in Ids(spans)
  {
    assert (path + [s])[|path|] == s;
    IdsIn(spans);
  }

  datatype Trace = Trace(start: int, end: int, processes: seq<string>, crosses: bool, views: seq<View>)

  /** The places of a trace, stitched from its spans in this order. */
  ghost predicate Stitched(order: seq<Span>, ps: seq<Place>) {
    exists ts :: ForestOf(order, ts) && ps == PreOrders(ts, 0)
  }

  /** stitch; order is how the sort, which says nothing of spans that start together, left the spans. */
  method Stitch(spans: seq<Span>) returns (order: seq<Span>, t: Trace)
    requires spans != [] && Distinct(Ids(spans))
    ensures multiset(order) == multiset(spans) && SortedBy(StartsBefore, order) && Distinct(Ids(order))
    ensures Stitched(order, Places(t.views)) && AllSeen(order, t.start, t.views)
    ensures (forall s :: s in spans ==> t.start <= s.start) && exists s :: s in spans && s.start == t.start
    ensures t.end >= t.start && (forall s :: s in spans ==> s.start + s.duration <= t.end)
    ensures t.end == t.start || exists s :: s in spans && s.start + s.duration == t.end
    ensures SortedBy(StringLe, t.processes) && Distinct(t.processes)
    ensures forall p :: p in t.processes <==> p != "" && exists s :: s in spans && s.process == p
    ensures t.crosses <==> |t.processes| > 1
  {
    StartsBeforePreorder();
    order := Sort(StartsBefore, spans);
    SamePermutation(order, spans);
    IdsPermuted(order, spans);
    var start := order[0].start;
    forall s | s in order ensures start <= s.start {
      var i :| 0 <= i < |order| && order[i] == s;
      assert i > 0 ==> StartsBefore(order[0], order[i]);
    }
    var end := EndOf(order, start);
    var procs := Processes(order);
    var views := Lay(order, start);
    t := Trace(start, end, procs, |procs| > 1, views);
    assert order[0] in spans;
  }

  lemma IdsPermuted(a: seq<Span>, b: seq<Span>)
    requires multiset(a) == multiset(b) && Distinct(Ids(b))
    ensures Distinct(Ids(a))
  {
    IdsIn(b);
    DistinctPermutation(a, b);
    SamePermutation(a, b);
    forall i, j | 0 <= i < j < |a| ensures Ids(a)[i] != Ids(a)[j] {
      assert a[i] in b && a[j] in b && a[i] != a[j];
      if a[i].id == a[j].id {
        SameSpan(b, a[i], a[j]);
      }
    }
  }

  method EndOf(spans: seq<Span>, start: int) returns (end: int)
    ensures end >= start && (forall s :: s in spans ==> s.start + s.duration <= end)
    ensures end == start || exists s :: s in spans && s.start + s.duration == end
  {
    end := start;
    for i := 0 to |spans|
      invariant end >= start && (forall j :: 0 <= j < i ==> spans[j].start + spans[j].duration <= end)
      invariant end == start || exists s :: s in spans && s.start + s.duration == end
    {
      var fin := spans[i].start + spans[i].duration;
      if fin > end {
        end := fin;
        assert spans[i] in spans;
      }
    }
  }

  method Processes(spans: seq<Span>) returns (processes: seq<string>)
    ensures SortedBy(StringLe, processes) && Distinct(processes)
    ensures forall p :: p in processes <==> p != "" && exists s :: s in spans && s.process == p
  {
    var procs: set<string> := {};
    for i := 0 to |spans|
      invariant forall p :: p in procs <==> exists j :: 0 <= j < i && spans[j].process == p
    {
      procs := procs + {spans[i].process};
    }
    var list := [];
    var rest := procs;
    while rest != {}
      invariant rest <= procs && Distinct(list)
      invariant forall p :: p in list <==> p in procs - rest && p != ""
      decreases rest
    {
      var p :| p in rest;
      rest := rest - {p};
      if p != "" {
        DistinctSnoc(list, p);
        list := list + [p];
      }
    }
    processes := SortStrings(list);
    SamePermutation(processes, list);
    DistinctPermutation(processes, list);
    forall p ensures p in processes <==> p != "" && exists s :: s in spans && s.process == p {
      if s :| s in spans && s.process == p {
        var j :| 0 <= j < |spans| && spans[j] == s;
      }
    }
  }

  /** The walk from each root. */
  method Lay(spans: seq<Span>, start: int) returns (views: seq<View>)
    requires Distinct(Ids(spans)) && (forall s :: s in spans ==> start <= s.start) && SortedBy(StartsBefore, spans)
    ensures Stitched(spans, Places(views)) && AllSeen(spans, start, views)
  {
    hide Ids, TreeOf, PreOrders, Seen, Distinct, Stack, Roots, SortedBy;
    var st := new Stitcher(spans, start);
    st.Index();
    var roots := st.Link();
    RootsSorted(spans, Ids(spans));
    ghost var ts: seq<Tree> := [];
    PreOrdersNone(0);
    for i := 0 to |roots|
      invariant st.Indexed() && st.Linked(|spans|)
      invariant BuiltSo(spans, roots, ts, i)
      invariant Places(st.out) == PreOrders(ts, 0) && AllSeen(spans, start, st.out)
    {
      RootStack(spans, roots[i]);
      ghost var k := st.Walk(roots[i], 0, []);
      PreOrdersSnoc(ts, k, 0);
      ts := ts + [k];
    }
    views := st.out;
    RootsBuilt(spans, roots, ts);
  }

  lemma RootStack(spans: seq<Span>, s: Span)
    requires s in Roots(spans, Ids(spans))
    ensures Stack(spans, [] + [s])
  {
    RootsAre(spans, Ids(spans));
  }

  lemma RootsBuilt(spans: seq<Span>, roots: seq<Span>, ts: seq<Tree>)
    requires roots == Roots(spans, Ids(spans)) && SortedBy(StartsBefore, roots) && BuiltSo(spans, roots, ts, |roots|)
    ensures ForestOf(spans, ts)
  {
    assert Tops(ts) == roots;
  }

  /** Roots come in the order of the spans. */
  lemma {:induction false} RootsSorted(spans: seq<Span>, known: seq<string>)
    requires SortedBy(StartsBefore, spans)
    ensures SortedBy(StartsBefore, Roots(spans, known))
  {
    if spans != [] {
      var init, last := spans[..|spans| - 1], spans[|spans| - 1];
      RootsSorted(init, known);
      RootsAre(init, known);
      var r := Roots(init, known);
      forall i | 0 <= i < |r| ensures StartsBefore(r[i], last) {
        assert r[i] in init;
        var j :| 0 <= j < |init| && init[j] == r[i];
        assert spans[j] == r[i];
      }
    }
  }

  /**
   * What stitching gives, for any spans with distinct ids: no span twice; every place right, children under
   * their parents; and all the spans, just when no span is its own ancestor.
   */
  lemma StitchedTrace(order: seq<Span>, ps: seq<Place>)
    requires Distinct(Ids(order)) && Stitched(order, ps)
    ensures Distinct(SpansOf(ps)) && forall s :: s in SpansOf(ps) <==> Grounded(order, s)
    ensures forall i :: 0 <= i < |ps| ==> InPlace(order, ps, i)
    ensures multiset(SpansOf(ps)) == multiset(order) <==> !exists c :: Cycle(order, c)
  {
    hide *;
    var ts :| ForestOf(order, ts) && ps == PreOrders(ts, 0) by {
      StitchedForest(order, ps);
    }
    EachPlacedOnce(order, ts);
    StitchedIsPreOrder(order, ts);
    PermutationIffNoCycle(order, ts);
  }

  lemma StitchedForest(order: seq<Span>, ps: seq<Place>)
    requires Stitched(order, ps)
    ensures exists ts :: ForestOf(order, ts) && ps == PreOrders(ts, 0)
  {
  }

  // ----- the bounded store -----

  /** A ring of slots, the first count of them taken, holds the last of history, oldest at next. */
  ghost predicate Ring<T>(slots: seq<T>, count: nat, next: nat, history: seq<T>) {
    && |slots| > 0 && count == (if |history| < |slots| then |history| else |slots|)
    && (if count < |slots| then next == 0 else next < |slots|)
    && Unrolled(slots, count, next) == Last(history, |slots|)
  }

  lemma RingAppends<T>(slots: seq<T>, count: nat, next: nat, history: seq<T>, r: T)
    requires Ring(slots, count, next, history) && count < |slots|
    ensures Ring(slots[count := r], count + 1, next, history + [r])
  {
    hide Unrolled, Last;
    LastSnoc(history, r, |slots|);
    Appended(slots, count, r);
  }

  lemma RingOverwrites<T>(slots: seq<T>, count: nat, next: nat, history: seq<T>, r: T)
    requires Ring(slots, count, next, history) && count >= |slots|
    ensures next < |slots| && Ring(slots[next := r], count, if next + 1 < |slots| then next + 1 else 0, history + [r])
  {
    hide Unrolled, Last;
    LastSnoc(history, r, |slots|);
    Overwritten(slots, next, r);
  }

  lemma RingEmpty<T>(slots: seq<T>)
    requires |slots| > 0
    ensures Ring(slots, 0, 0, [])
  {
  }

  lemma RingOrdered<T>(slots: seq<T>, count: nat, next: nat, history: seq<T>)
    requires Ring(slots, count, next, history)
    ensures next <= count <= |slots| && Unrolled(slots, count, next) == Last(history, |slots|)
  {
  }

  class TraceStore {
    /** The records, in the first count slots; when all are taken, the oldest is at next. */
    const spans: array<Span>
    var count: nat
    var next: nat
    ghost var history: seq<Span>

    ghost predicate Valid()
      reads this, spans
    {
      Ring(spans[..], count, next, history)
    }

    /** From the oldest to the newest: the last that were ever added. */
    ghost function Ordered(): (r: seq<Span>)
      requires Valid()
      reads this, spans
      ensures r == Last(history, spans.Length)
    {
      RingOrdered(spans[..], count, next, history);
      Unrolled(spans[..], count, next)
    }

    constructor (capacity: nat)
      requires capacity > 0
      ensures Valid() && history == [] && spans.Length == capacity && fresh(spans)
    {
      spans := new Span[capacity](i => Span("", "", "", 0, 0));
      count, next, history := 0, 0, [];
      new;
      RingEmpty(spans[..]);
    }

    method Add(records: seq<Span>)
      requires Valid()
      modifies this, spans
      ensures Valid() && history == old(history) + records
    {
      hide Valid;
      ghost var before := history;
      for i := 0 to |records|
        invariant Valid() && history == before + records[..i]
      {
        AddOne(records[i]);
        assert records[..i + 1] == records[..i] + [records[i]];
      }
      assert records[..|records|] == records;
    }

    method AddOne(r: Span)
      requires Valid()
      modifies this, spans
      ensures Valid() && history == old(history) + [r]
    {
      hide Valid;
      if count < spans.Length {
        Append(r);
      } else {
        Overwrite(r);
      }
    }

    /** Into a free slot. */
    method Append(r: Span)
      requires Valid() && count < spans.Length
      modifies this, spans
      ensures Valid() && history == old(history) + [r]
    {
      hide Ring;
      ghost var slots := spans[..];
      RingAppends(slots, count, next, history, r);
      spans[count] := r;
      assert spans[..] == slots[count := r];
      count := count + 1;
      history := history + [r];
    }

    /** In place of the oldest. */
    method Overwrite(r: Span)
      requires Valid() && count >= spans.Length
      modifies this, spans
      ensures Valid() && history == old(history) + [r]
    {
      hide Ring;
      ghost var slots := spans[..];
      RingOverwrites(slots, count, next, history, r);
      spans[next] := r;
      assert spans[..] == slots[next := r];
      next := (next + 1) % spans.Length;
      assert next == if old(next) + 1 < spans.Length then old(next) + 1 else 0;
      history := history + [r];
    }
  }

  /** A ring read from next on. */
  function Unrolled<T>(slots: seq<T>, count: nat, next: nat): seq<T>
    requires next <= count <= |slots|
  {
    slots[next..count] + slots[..next]
  }

  lemma Appended<T>(slots: seq<T>, count: nat, r: T)
    requires count < |slots|
    ensures Unrolled(slots[count := r], count + 1, 0) == Unrolled(slots, count, 0) + [r]
  {
    assert slots[count := r][0..count + 1] == slots[0..count] + [r];
  }

  /** Overwriting the oldest and moving on. */
  lemma Overwritten<T>(slots: seq<T>, next: nat, r: T)
    requires next < |slots|
    ensures |Unrolled(slots, |slots|, next)| == |slots|
    ensures next + 1 < |slots| ==>
      Unrolled(slots[next := r], |slots|, next + 1) == Unrolled(slots, |slots|, next)[1..] + [r]
    ensures next + 1 == |slots| ==> Unrolled(slots[next := r], |slots|, 0) == Unrolled(slots, |slots|, next)[1..] + [r]
  {
    var before := Unrolled(slots, |slots|, next)[1..] + [r];
    assert |before| == |slots|;
    if next + 1 < |slots| {
      OverwrittenAt(slots, next, r, next + 1, before);
    } else {
      OverwrittenAt(slots, next, r, 0, before);
    }
  }

  lemma OverwrittenAt<T>(slots: seq<T>, next: nat, r: T, n: nat, before: seq<T>)
    requires next < |slots| && n == if next + 1 < |slots| then next + 1 else 0
    requires |before| == |slots| && before == Unrolled(slots, |slots|, next)[1..] + [r]
    ensures Unrolled(slots[next := r], |slots|, n) == before
  {
    var after := Unrolled(slots[next := r], |slots|, n);
    assert |after| == |slots|;
    forall i | 0 <= i < |slots| ensures after[i] == before[i] {
      if i < |slots| - 1 {
        assert before[i] == Unrolled(slots, |slots|, next)[i + 1];
      }
    }
  }
}
