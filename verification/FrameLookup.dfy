/**
 * path, Lookup and Connects of frames.go: a breadth-first walk over the links, composed into one pose.
 */
module FrameLookup {
  import opened Wrappers
  import opened Sorting
  import opened Isometries
  import opened FrameTrees

  /** One link of a walk; inverse when it is walked from child to parent. */
  datatype Link = Link(tf: Transform, inverse: bool)

  function From(l: Link): Frame {
    if l.inverse then l.tf.child else l.tf.parent
  }

  function To(l: Link): Frame {
    if l.inverse then l.tf.parent else l.tf.child
  }

  /** w leads from a to b over declared links, each in the direction it says. */
  ghost predicate Walk(ts: seq<Transform>, a: Frame, w: seq<Link>, b: Frame) {
    if w == [] then a == b
    else
      var last := w[|w| - 1];
      last.tf in ts && To(last) == b && Walk(ts, a, w[..|w| - 1], From(last))
  }

  ghost predicate Connected(ts: seq<Transform>, a: Frame, b: Frame) {
    exists w :: Walk(ts, a, w, b)
  }

  /** The frames a walk visits, its start first. */
  function Stops(a: Frame, w: seq<Link>): (r: seq<Frame>)
    ensures |r| == |w| + 1
  {
    if w == [] then [a] else Stops(a, w[..|w| - 1]) + [To(w[|w| - 1])]
  }

  ghost predicate Shortest(ts: seq<Transform>, a: Frame, w: seq<Link>, b: Frame) {
    forall v :: Walk(ts, a, v, b) ==> |w| <= |v|
  }

  /** What path must return: a shortest walk that visits no frame twice. */
  ghost predicate Route(ts: seq<Transform>, a: Frame, w: seq<Link>, b: Frame) {
    Walk(ts, a, w, b) && Shortest(ts, a, w, b) && Distinct(Stops(a, w))
  }

  lemma WalkSnoc(ts: seq<Transform>, a: Frame, w: seq<Link>, l: Link)
    requires Walk(ts, a, w, From(l)) && l.tf in ts
    ensures Walk(ts, a, w + [l], To(l))
    ensures Stops(a, w + [l]) == Stops(a, w) + [To(l)]
  {
    assert (w + [l])[..|w|] == w;
  }

  // ----- breadth-first search -----

  datatype Step = Step(frame: Frame, via: seq<Link>)

  /** The queue: a walk for every waiting frame, nearest first, at most one link apart. */
  ghost predicate Queue(ts: seq<Transform>, target: Frame, queue: seq<Step>, dist: map<Frame, nat>) {
    && (forall i :: 0 <= i < |queue| ==> Waiting(ts, target, queue[i], dist))
    && (forall i, j :: 0 <= i <= j < |queue| ==> |queue[i].via| <= |queue[j].via| <= |queue[i].via| + 1)
  }

  ghost predicate Waiting(ts: seq<Transform>, target: Frame, s: Step, dist: map<Frame, nat>) {
    && Walk(ts, target, s.via, s.frame)
    && s.frame in dist && dist[s.frame] == |s.via|
    && Distinct(Stops(target, s.via))
    && forall f :: f in Stops(target, s.via) ==> f in dist
  }

  /** Every link with an end in done has its other end seen, at most one link further away. */
  ghost predicate Expanded(ts: seq<Transform>, done: set<Frame>, dist: map<Frame, nat>)
    requires done <= dist.Keys
  {
    forall t :: t in ts ==>
      && (t.parent in done ==> t.child in dist && dist[t.child] <= dist[t.parent] + 1)
      && (t.child in done ==> t.parent in dist && dist[t.parent] <= dist[t.child] + 1)
  }

  /** The invariant of the search: d is a lower bound on the distance of what still waits. */
  ghost predicate Search(ts: seq<Transform>, target: Frame, source: Frame, queue: seq<Step>, done: set<Frame>,
                         dist: map<Frame, nat>, d: nat)
  {
    && target in dist && dist[target] == 0 && source !in dist
    && done <= dist.Keys <= FrameSet(ts)
    && Queue(ts, target, queue, dist)
    && Expanded(ts, done, dist)
    && (forall f :: f in dist && f !in done ==> InQueue(queue, f))
    && (forall i :: 0 <= i < |queue| ==> d <= |queue[i].via| <= d + 1)
    && (forall f :: f in done ==> dist[f] <= d)
  }

  ghost predicate InQueue(queue: seq<Step>, f: Frame) {
    exists i :: 0 <= i < |queue| && queue[i].frame == f
  }

  /** While every waiting frame is at least d away, walks of at most d links stay within what was seen. */
  lemma {:induction false} ShortWalksSeen(ts: seq<Transform>, target: Frame, done: set<Frame>, dist: map<Frame, nat>,
                                          d: nat, w: seq<Link>, x: Frame)
    requires target in dist && dist[target] == 0
    requires done <= dist.Keys && Expanded(ts, done, dist)
    requires forall f :: f in dist && f !in done ==> dist[f] >= d
    requires Walk(ts, target, w, x) && |w| <= d
    ensures x in dist && dist[x] <= |w|
    decreases |w|
  {
    if w != [] {
      var last := w[|w| - 1];
      ShortWalksSeen(ts, target, done, dist, d, w[..|w| - 1], From(last));
      assert From(last) in done;
    }
  }

  /** So an unseen source is more than d links away. */
  lemma SourceIsFar(ts: seq<Transform>, target: Frame, source: Frame, queue: seq<Step>, done: set<Frame>,
                    dist: map<Frame, nat>, d: nat, w: seq<Link>)
    requires Search(ts, target, source, queue, done, dist, d)
    requires Walk(ts, target, w, source)
    ensures |w| > d
  {
    if |w| <= d {
      forall f | f in dist && f !in done ensures dist[f] >= d {
        var i :| 0 <= i < |queue| && queue[i].frame == f;
        assert Waiting(ts, target, queue[i], dist);
      }
      ShortWalksSeen(ts, target, done, dist, d, w, source);
    }
  }

  /** With nothing left to expand, what was not seen cannot be reached. */
  lemma UnseenIsApart(ts: seq<Transform>, target: Frame, source: Frame, done: set<Frame>, dist: map<Frame, nat>, d: nat)
    requires Search(ts, target, source, [], done, dist, d)
    ensures !Connected(ts, target, source)
  {
    forall w ensures !Walk(ts, target, w, source) {
      if Walk(ts, target, w, source) {
        assert forall f :: f in dist && f !in done ==> InQueue([], f);
        ShortWalksSeen(ts, target, done, dist, |w|, w, source);
      }
    }
  }

  /** The invariant while the links of cur are looked at, the first k of them already. */
  ghost predicate Expanding(ts: seq<Transform>, target: Frame, source: Frame, cur: Step, queue: seq<Step>,
                            done: set<Frame>, dist: map<Frame, nat>, k: nat)
    requires k <= |ts|
  {
    var d := |cur.via|;
    && target in dist && dist[target] == 0 && source !in dist
    && done <= dist.Keys <= FrameSet(ts)
    && Waiting(ts, target, cur, dist) && Queue(ts, target, queue, dist)
    && Expanded(ts, done, dist)
    && (forall f :: f in dist && f !in done ==> f == cur.frame || InQueue(queue, f))
    && (forall i :: 0 <= i < |queue| ==> d <= |queue[i].via| <= d + 1)
    && (forall f :: f in done ==> dist[f] <= d)
    && (forall i :: 0 <= i < k ==> LooksAt(ts[i], cur.frame, dist))
  }

  ghost predicate LooksAt(t: Transform, f: Frame, dist: map<Frame, nat>) {
    (t.parent == f ==> t.child in dist) && (t.child == f ==> t.parent in dist)
  }

  lemma ExpandingStarts(ts: seq<Transform>, target: Frame, source: Frame, cur: Step, rest: seq<Step>,
                        done: set<Frame>, dist: map<Frame, nat>)
    requires Search(ts, target, source, [cur] + rest, done, dist, |cur.via|)
    ensures Expanding(ts, target, source, cur, rest, done, dist, 0)
  {
    hide Waiting;
    hide Expanded;
    var queue := [cur] + rest;
    assert queue[0] == cur;
    assert queue[1..] == rest;
    forall i | 0 <= i < |rest| ensures Waiting(ts, target, rest[i], dist)
      && |cur.via| <= |rest[i].via| <= |cur.via| + 1 {
      assert queue[i + 1] == rest[i];
    }
    forall i, j | 0 <= i <= j < |rest| ensures |rest[i].via| <= |rest[j].via| <= |rest[i].via| + 1 {
      assert queue[i + 1] == rest[i] && queue[j + 1] == rest[j];
    }
    forall f | f in dist && f !in done ensures f == cur.frame || InQueue(rest, f) {
      var i :| 0 <= i < |queue| && queue[i].frame == f;
      if i > 0 {
        assert rest[i - 1].frame == f;
      }
    }
  }

  lemma ExpandingGrows(ts: seq<Transform>, target: Frame, source: Frame, cur: Step, queue: seq<Step>,
                       done: set<Frame>, dist: map<Frame, nat>, k: nat, l: Link)
    requires k < |ts| && Expanding(ts, target, source, cur, queue, done, dist, k)
    requires l.tf == ts[k] && From(l) == cur.frame && To(l) !in dist && To(l) != source
    ensures var next := Step(To(l), cur.via + [l]);
      Expanding(ts, target, source, cur, queue + [next], done, dist[next.frame := |next.via|], k + 1)
  {
    hide Waiting, Expanded, FrameSet;
    FrameMember(ts, l.tf);
    var next := Step(To(l), cur.via + [l]);
    NextWaits(ts, target, cur, dist, l);
    WaitingGrows(ts, target, cur, dist, next.frame, |next.via|);
    ExpandedGrows(ts, done, dist, next.frame, |next.via|);
    QueueGrows(ts, target, queue, dist, next);
    LooksGrow(ts, cur.frame, dist, next.frame, |next.via|, k, l);
    hide Queue, LooksAt;
    forall f | f in dist[next.frame := |next.via|] && f !in done ensures f == cur.frame || InQueue(queue + [next], f) {
      InQueueSnoc(queue, next, f);
    }
  }

  lemma QueueGrows(ts: seq<Transform>, target: Frame, queue: seq<Step>, dist: map<Frame, nat>, next: Step)
    requires Queue(ts, target, queue, dist) && next.frame !in dist
    requires Waiting(ts, target, next, dist[next.frame := |next.via|])
    requires forall i :: 0 <= i < |queue| ==> |queue[i].via| <= |next.via| <= |queue[i].via| + 1
    ensures Queue(ts, target, queue + [next], dist[next.frame := |next.via|])
  {
    hide Waiting;
    forall i | 0 <= i < |queue| ensures Waiting(ts, target, queue[i], dist[next.frame := |next.via|]) {
      WaitingGrows(ts, target, queue[i], dist, next.frame, |next.via|);
    }
  }

  lemma LooksGrow(ts: seq<Transform>, at: Frame, dist: map<Frame, nat>, f: Frame, n: nat, k: nat, l: Link)
    requires k < |ts| && l.tf == ts[k] && From(l) == at && To(l) == f
    requires forall i :: 0 <= i < k ==> LooksAt(ts[i], at, dist)
    ensures forall i :: 0 <= i < k + 1 ==> LooksAt(ts[i], at, dist[f := n])
  {
  }

  lemma InQueueSnoc(queue: seq<Step>, s: Step, f: Frame)
    ensures InQueue(queue + [s], f) <==> InQueue(queue, f) || f == s.frame
  {
    var q := queue + [s];
    if i :| 0 <= i < |queue| && queue[i].frame == f {
      assert q[i].frame == f;
    }
    assert q[|queue|] == s;
  }

  lemma NextWaits(ts: seq<Transform>, target: Frame, cur: Step, dist: map<Frame, nat>, l: Link)
    requires Waiting(ts, target, cur, dist) && l.tf in ts && From(l) == cur.frame && To(l) !in dist
    ensures Waiting(ts, target, Step(To(l), cur.via + [l]), dist[To(l) := |cur.via| + 1])
  {
    WalkSnoc(ts, target, cur.via, l);
  }

  lemma WaitingGrows(ts: seq<Transform>, target: Frame, s: Step, dist: map<Frame, nat>, f: Frame, n: nat)
    requires Waiting(ts, target, s, dist) && f !in dist
    ensures Waiting(ts, target, s, dist[f := n])
  {
  }

  lemma ExpandedGrows(ts: seq<Transform>, done: set<Frame>, dist: map<Frame, nat>, f: Frame, n: nat)
    requires done <= dist.Keys && Expanded(ts, done, dist) && f !in dist
    ensures Expanded(ts, done, dist[f := n])
  {
  }

  lemma ExpandingEnds(ts: seq<Transform>, target: Frame, source: Frame, cur: Step, queue: seq<Step>,
                      done: set<Frame>, dist: map<Frame, nat>)
    requires Expanding(ts, target, source, cur, queue, done, dist, |ts|)
    ensures Search(ts, target, source, queue, done + {cur.frame}, dist, |cur.via|)
  {
    var d := |cur.via|;
    forall f | f in dist ensures dist[f] <= d + 1 {
      if f !in done && f != cur.frame {
        var i :| 0 <= i < |queue| && queue[i].frame == f;
        assert Waiting(ts, target, queue[i], dist);
      }
    }
    forall t | t in ts ensures LooksAt(t, cur.frame, dist) {
      var i :| 0 <= i < |ts| && ts[i] == t;
    }
  }

  /** One pass of the inner loop: look at every link of the frame at the head of the queue. */
  method Expand(ts: seq<Transform>, target: Frame, source: Frame, cur: Step, rest: seq<Step>, seen: set<Frame>,
                ghost done: set<Frame>, ghost dist: map<Frame, nat>)
    returns (found: Option<seq<Link>>, queue: seq<Step>, seen': set<Frame>, ghost dist': map<Frame, nat>)
    requires Search(ts, target, source, [cur] + rest, done, dist, |cur.via|)
    requires seen == dist.Keys
    ensures found.Some? ==> Route(ts, target, found.value, source)
    ensures found.None? ==> Search(ts, target, source, queue, done + {cur.frame}, dist', |cur.via|)
    ensures found.None? ==> seen' == dist'.Keys && seen <= seen' && (seen' == seen ==> queue == rest)
  {
    hide Walk;
    hide Waiting;
    hide Queue;
    hide Expanded;
    hide Route;
    ExpandingStarts(ts, target, source, cur, rest, done, dist);
    queue, seen', dist' := rest, seen, dist;
    for k := 0 to |ts|
      invariant Expanding(ts, target, source, cur, queue, done, dist', k)
      invariant seen' == dist'.Keys && seen <= seen' && (seen' == seen ==> queue == rest)
    {
      var tf := ts[k];
      var l: Link;
      if tf.parent == cur.frame {
        l := Link(tf, false);
      } else if tf.child == cur.frame {
        l := Link(tf, true);
      } else {
        assert LooksAt(tf, cur.frame, dist');
        continue;
      }
      var next := To(l);
      if next in seen' {
        assert LooksAt(tf, cur.frame, dist');
        continue;
      }
      seen' := seen' + {next};
      var via := cur.via + [l];
      if next == source {
        FoundRoute(ts, target, source, cur, rest, done, dist, l);
        return Some(via), queue, seen', dist';
      }
      ExpandingGrows(ts, target, source, cur, queue, done, dist', k, l);
      queue := queue + [Step(next, via)];
      dist' := dist'[next := |via|];
    }
    ExpandingEnds(ts, target, source, cur, queue, done, dist');
    found := None;
  }

  /** The first walk to arrive at the source is a shortest one, and simple. */
  lemma FoundRoute(ts: seq<Transform>, target: Frame, source: Frame, cur: Step, rest: seq<Step>,
                   done: set<Frame>, dist: map<Frame, nat>, l: Link)
    requires Search(ts, target, source, [cur] + rest, done, dist, |cur.via|)
    requires l.tf in ts && From(l) == cur.frame && To(l) == source
    ensures Route(ts, target, cur.via + [l], source)
  {
    assert ([cur] + rest)[0] == cur;
    assert Waiting(ts, target, cur, dist);
    hide Search;
    forall w | Walk(ts, target, w, source) ensures |cur.via| + 1 <= |w| {
      SourceIsFar(ts, target, source, [cur] + rest, done, dist, |cur.via|, w);
    }
    RouteSnoc(ts, target, source, cur, dist, l);
  }

  lemma RouteSnoc(ts: seq<Transform>, target: Frame, source: Frame, cur: Step, dist: map<Frame, nat>, l: Link)
    requires Waiting(ts, target, cur, dist) && l.tf in ts && From(l) == cur.frame && To(l) == source
    requires forall w :: Walk(ts, target, w, source) ==> |cur.via| + 1 <= |w|
    requires source !in dist
    ensures Route(ts, target, cur.via + [l], source)
  {
    WalkSnoc(ts, target, cur.via, l);
  }

  /** Has: does the declaration name the frame? */
  predicate Has(tree: FrameTree, f: Frame) {
    tree.FrameTree? && exists i ::
      0 <= i < |tree.transforms| && (tree.transforms[i].parent == f || tree.transforms[i].child == f)
  }

  lemma SearchStarts(ts: seq<Transform>, target: Frame, source: Frame)
    ensures target == source ==> Route(ts, target, [], source)
    ensures target != source && target in FrameSet(ts) ==>
      Search(ts, target, source, [Step(target, [])], {}, map[target := 0], 0)
  {
    assert InQueue([Step(target, [])], target);
  }

  lemma SearchHead(ts: seq<Transform>, target: Frame, source: Frame, queue: seq<Step>, done: set<Frame>,
                   dist: map<Frame, nat>, d: nat)
    requires Search(ts, target, source, queue, done, dist, d)
    ensures queue != [] ==> Search(ts, target, source, queue, done, dist, |queue[0].via|)
    ensures dist.Keys <= FrameSet(ts)
  {
    hide Waiting;
    hide Expanded;
    hide InQueue;
  }

  /** The queue loop of path. */
  method BreadthFirst(ts: seq<Transform>, target: Frame, source: Frame) returns (found: Option<seq<Link>>)
    requires target != source && target in FrameSet(ts)
    ensures found.Some? ==> Route(ts, target, found.value, source)
    ensures found.None? ==> !Connected(ts, target, source)
  {
    hide *;
    SearchStarts(ts, target, source);
    var queue := [Step(target, [])];
    var seen := {target};
    ghost var done: set<Frame>, dist: map<Frame, nat> := {}, map[target := 0];
    ghost var d: nat := 0;
    while |queue| > 0
      invariant Search(ts, target, source, queue, done, dist, d) && seen == dist.Keys
      decreases FrameSet(ts) - seen, |queue|
    {
      var cur := queue[0];
      assert queue == [cur] + queue[1..];
      SearchHead(ts, target, source, queue, done, dist, d);
      var rest, seen';
      ghost var dist';
      found, rest, seen', dist' := Expand(ts, target, source, cur, queue[1..], seen, done, dist);
      if found.Some? {
        return;
      }
      d, done, dist := |cur.via|, done + {cur.frame}, dist';
      SearchHead(ts, target, source, rest, done, dist, d);
      queue, seen := rest, seen';
    }
    UnseenIsApart(ts, target, source, done, dist, d);
    found := None;
  }

  lemma RouteConnects(ts: seq<Transform>, a: Frame, w: seq<Link>, b: Frame)
    requires Route(ts, a, w, b)
    ensures Connected(ts, a, b)
  {
  }

  method Path(tree: FrameTree, target: Frame, source: Frame) returns (r: Result<seq<Link>, LookupError>)
    ensures tree.NoTree? ==> r == Err(NoDeclaredTree)
    ensures tree.FrameTree? && !Has(tree, target) ==> r == Err(UnknownFrame(target))
    ensures tree.FrameTree? && Has(tree, target) && !Has(tree, source) ==> r == Err(UnknownFrame(source))
    ensures tree.FrameTree? && Has(tree, target) && Has(tree, source) ==>
      if Connected(tree.transforms, target, source) then r.Ok? && Route(tree.transforms, target, r.value, source)
      else r == Err(NotConnected)
  {
    hide Route;
    hide Search;
    hide Connected;
    if tree.NoTree? {
      return Err(NoDeclaredTree);
    }
    if !Has(tree, target) {
      return Err(UnknownFrame(target));
    }
    if !Has(tree, source) {
      return Err(UnknownFrame(source));
    }
    if target == source {
      SearchStarts(tree.transforms, target, source);
      RouteConnects(tree.transforms, target, [], source);
      return Ok([]);
    }
    HasNamed(tree, target);
    var found := BreadthFirst(tree.transforms, target, source);
    if found.Some? {
      RouteConnects(tree.transforms, target, found.value, source);
      return Ok(found.value);
    }
    return Err(NotConnected);
  }

  lemma HasNamed(tree: FrameTree, f: Frame)
    ensures Has(tree, f) <==> tree.FrameTree? && f in FrameSet(tree.transforms)
  {
    if Has(tree, f) {
      var i :| 0 <= i < |tree.transforms| && (tree.transforms[i].parent == f || tree.transforms[i].child == f);
      FrameMember(tree.transforms, tree.transforms[i]);
    } else if tree.FrameTree? && f in FrameSet(tree.transforms) {
      var t := FrameNamed(tree.transforms, f);
    }
  }

  method Connects(tree: FrameTree, a: Frame, b: Frame) returns (ok: bool)
    ensures ok <==> Has(tree, a) && Has(tree, b) && Connected(tree.transforms, a, b)
  {
    var r := Path(tree, a, b);
    ok := r.Ok?;
  }

  // ----- Lookup -----

  /** What a link contributes, given the pose that each transform has at some moment. */
  function LinkPose(value: map<Transform, Isometry>, l: Link): Isometry
    requires l.tf in value
  {
    if l.inverse then Inverse(value[l.tf]) else value[l.tf]
  }

  function Product(value: map<Transform, Isometry>, w: seq<Link>): Isometry
    requires forall l :: l in w ==> l.tf in value
  {
    if w == [] then IDENTITY
    else Then(Product(value, w[..|w| - 1]), LinkPose(value, w[|w| - 1]))
  }

  /** The poses that the declaration itself fixes. */
  function Declared(ts: seq<Transform>): map<Transform, Isometry> {
    map t | t in ts :: DeclaredPose(t)
  }

  ghost predicate Static(w: seq<Link>) {
    forall l :: l in w ==> !l.tf.dynamic
  }

  lemma {:induction false} WalkLinks(ts: seq<Transform>, a: Frame, w: seq<Link>, b: Frame)
    requires Walk(ts, a, w, b)
    ensures forall l :: l in w ==> l.tf in ts
  {
    if w != [] {
      var init, last := w[..|w| - 1], w[|w| - 1];
      WalkLinks(ts, a, init, From(last));
      assert w == init + [last];
    }
  }

  /** What a lookup answers: the composition along a route without dynamic links, or why not. */
  ghost predicate Answer(tree: FrameTree, target: Frame, source: Frame, r: Result<Isometry, LookupError>) {
    match r
    case Ok(iso) =>
      Has(tree, target) && Has(tree, source) &&
      exists w :: Route(tree.transforms, target, w, source) && Static(w) && Composes(tree.transforms, w, iso)
    case Err(CrossesDynamic(tf)) =>
      Has(tree, target) && Has(tree, source)
      && exists w :: Route(tree.transforms, target, w, source) && FirstDynamic(w, tf)
    case Err(NotConnected) => Has(tree, target) && Has(tree, source) && !Connected(tree.transforms, target, source)
    case Err(UnknownFrame(f)) => tree.FrameTree? && !Has(tree, f) && f == if Has(tree, target) then source else target
    case Err(NoDeclaredTree) => tree.NoTree?
  }

  /** The first dynamic link on the way. */
  ghost predicate FirstDynamic(w: seq<Link>, tf: Transform) {
    exists k :: 0 <= k < |w| && Static(w[..k]) && w[k].tf == tf && tf.dynamic
  }

  ghost predicate Composes(ts: seq<Transform>, w: seq<Link>, iso: Isometry) {
    (forall l :: l in w ==> l.tf in ts) && iso == Product(Declared(ts), w)
  }

  /** Composing the links of a route, up to the first dynamic one. */
  method Compose(ts: seq<Transform>, links: seq<Link>) returns (r: Result<Isometry, LookupError>)
    requires forall l :: l in links ==> l.tf in ts
    ensures r.Ok? ==> Static(links) && Composes(ts, links, r.value)
    ensures r.Err? ==> r.error.CrossesDynamic? && FirstDynamic(links, r.error.tf)
  {
    hide Then;
    hide Inverse;
    hide DeclaredPose;
    ghost var value := Declared(ts);
    var out := IDENTITY;
    for i := 0 to |links|
      invariant Static(links[..i])
      invariant out == Product(value, links[..i])
    {
      var l := links[i];
      if l.tf.dynamic {
        return Err(CrossesDynamic(l.tf));
      }
      var iso := DeclaredPose(l.tf);
      if l.inverse {
        iso := Inverse(iso);
      }
      assert iso == LinkPose(value, l);
      out := Then(out, iso);
      assert links[..i + 1][..i] == links[..i];
    }
    assert links[..|links|] == links;
    return Ok(out);
  }

  method Lookup(tree: FrameTree, target: Frame, source: Frame) returns (r: Result<Isometry, LookupError>)
    ensures Answer(tree, target, source, r)
  {
    hide Route;
    hide Composes;
    hide Static;
    var links := Path(tree, target, source);
    if links.Err? {
      return Err(links.error);
    }
    RouteWalks(tree.transforms, target, links.value, source);
    r := Compose(tree.transforms, links.value);
  }

  lemma RouteWalks(ts: seq<Transform>, a: Frame, w: seq<Link>, b: Frame)
    requires Route(ts, a, w, b)
    ensures Walk(ts, a, w, b) && forall l :: l in w ==> l.tf in ts
  {
    WalkLinks(ts, a, w, b);
  }

  // ----- what a lookup means on a rooted tree -----

  /** Rigid poses for every link: as declared for the static ones, anything at all for the dynamic ones. */
  ghost predicate Moment(ts: seq<Transform>, value: map<Transform, Isometry>) {
    forall t :: t in ts ==> t in value && Rigid(value[t]) && (!t.dynamic ==> value[t] == DeclaredPose(t))
  }

  ghost predicate ValidAngles(ts: seq<Transform>) {
    forall t :: t in ts ==> Angles(t.rpy)
  }

  /** The pose of f in the frame n parent links above it. */
  ghost function PoseAbove(ts: seq<Transform>, value: map<Transform, Isometry>, f: Frame, n: nat): (p: Isometry)
    requires Moment(ts, value) && Climb(ts, f, n).Some?
    ensures Rigid(p)
    decreases n
  {
    if n == 0 then IDENTITY
    else
      ParentLink(ts, f);
      var t := ParentLinks(ts, f)[0];
      ThenRigid(PoseAbove(ts, value, t.parent, n - 1), value[t]);
      Then(PoseAbove(ts, value, t.parent, n - 1), value[t])
  }

  ghost function Depth(ts: seq<Transform>, root: Frame, f: Frame): (n: nat)
    requires RootedTree(ts, root) && f in FrameSet(ts)
    ensures Climb(ts, f, n) == Some(root)
  {
    var n: nat :| Climb(ts, f, n) == Some(root);
    n
  }

  /** The pose of a frame in the root of its tree. */
  ghost function RootPose(ts: seq<Transform>, value: map<Transform, Isometry>, root: Frame, f: Frame): (p: Isometry)
    requires RootedTree(ts, root) && Moment(ts, value) && f in FrameSet(ts)
    ensures Rigid(p)
  {
    PoseAbove(ts, value, f, Depth(ts, root, f))
  }

  /** The pose of b as seen from a, by way of the root. */
  ghost function Relative(ts: seq<Transform>, value: map<Transform, Isometry>, root: Frame, a: Frame,
      b: Frame): Isometry
    requires RootedTree(ts, root) && Moment(ts, value) && a in FrameSet(ts) && b in FrameSet(ts)
  {
    Then(Inverse(RootPose(ts, value, root, a)), RootPose(ts, value, root, b))
  }

  lemma ChildPose(ts: seq<Transform>, value: map<Transform, Isometry>, root: Frame, t: Transform)
    requires RootedTree(ts, root) && Moment(ts, value) && t in ts
    ensures t.child in FrameSet(ts) && t.parent in FrameSet(ts)
    ensures Depth(ts, root, t.child) == Depth(ts, root, t.parent) + 1
    ensures RootPose(ts, value, root, t.child) == Then(RootPose(ts, value, root, t.parent), value[t])
  {
    hide FrameSet, Climb, PoseAbove, Depth, Then;
    FrameMember(ts, t);
    OnlyParentLink(ts, t);
    var n := Depth(ts, root, t.parent);
    OneUp(ts, t, n);
    TreeDepthUnique(ts, root, t.child, Depth(ts, root, t.child), n + 1);
    PoseOneUp(ts, value, t, n);
  }

  lemma OneUp(ts: seq<Transform>, t: Transform, n: nat)
    requires ParentLinks(ts, t.child) != [] && ParentLinks(ts, t.child)[0] == t
    ensures Climb(ts, t.child, n + 1) == Climb(ts, t.parent, n)
  {
    hide ParentLinks;
  }

  lemma PoseOneUp(ts: seq<Transform>, value: map<Transform, Isometry>, t: Transform, n: nat)
    requires Moment(ts, value) && t in ts && ParentLinks(ts, t.child) != [] && ParentLinks(ts, t.child)[0] == t
    requires Climb(ts, t.parent, n).Some? && Climb(ts, t.child, n + 1).Some?
    ensures PoseAbove(ts, value, t.child, n + 1) == Then(PoseAbove(ts, value, t.parent, n), value[t])
  {
    hide ParentLinks, Climb, Then;
  }

  lemma OnlyParentLink(ts: seq<Transform>, t: Transform)
    requires OneParent(ts) && t in ts
    ensures ParentLinks(ts, t.child) != [] && ParentLinks(ts, t.child)[0] == t
  {
    ParentLinksMember(ts, t.child, t);
    var u := ParentLinks(ts, t.child)[0];
    ParentLinksMember(ts, t.child, u);
    var i :| 0 <= i < |ts| && ts[i] == t;
    var j :| 0 <= j < |ts| && ts[j] == u;
    assert i == j;
  }

  /** The product of a walk telescopes: it is the pose of its end seen from its start, whatever the way. */
  lemma {:induction false} Telescope(ts: seq<Transform>, value: map<Transform, Isometry>, root: Frame,
                                     a: Frame, w: seq<Link>, b: Frame)
    requires RootedTree(ts, root) && Moment(ts, value)
    requires a in FrameSet(ts) && Walk(ts, a, w, b)
    requires forall l :: l in w ==> l.tf in value
    ensures b in FrameSet(ts)
    ensures Product(value, w) == Relative(ts, value, root, a, b)
  {
    if w == [] {
      ThenInverse(RootPose(ts, value, root, a));
    } else {
      var init, last := w[..|w| - 1], w[|w| - 1];
      Telescope(ts, value, root, a, init, From(last));
      ChildPose(ts, value, root, last.tf);
      LinkStep(RootPose(ts, value, root, a), RootPose(ts, value, root, last.tf.parent), value[last.tf]);
    }
  }

  /** The algebra of one link, up or down, below a pose a. */
  lemma LinkStep(a: Isometry, p: Isometry, t: Isometry)
    requires Rigid(a) && Rigid(p) && Rigid(t)
    ensures Then(Then(Inverse(a), p), t) == Then(Inverse(a), Then(p, t))
    ensures Then(Then(Inverse(a), Then(p, t)), Inverse(t)) == Then(Inverse(a), p)
  {
    ThenRigid(a, a);
    ThenRigid(p, t);
    ThenRigid(t, t);
    ThenAssoc(Inverse(a), p, t);
    ThenAssoc(Inverse(a), Then(p, t), Inverse(t));
    ThenAssoc(p, t, Inverse(t));
    ThenInverse(t);
    ThenIdentity(p);
  }

  /** With every declared rotation valid, the declared poses themselves are a possible moment. */
  lemma DeclaredMoment(ts: seq<Transform>)
    requires ValidAngles(ts)
    ensures Moment(ts, Declared(ts))
  {
    hide QuatFromRPY;
    forall t | t in ts ensures Rigid(DeclaredPose(t)) {
      QuatFromRPYUnit(t.rpy);
    }
  }

  lemma {:induction false} StaticProduct(ts: seq<Transform>, value: map<Transform, Isometry>, w: seq<Link>)
    requires Moment(ts, value) && Static(w) && forall l :: l in w ==> l.tf in ts
    ensures Product(Declared(ts), w) == Product(value, w)
  {
    hide DeclaredPose;
    hide Then;
    hide Inverse;
    if w != [] {
      StaticProduct(ts, value, w[..|w| - 1]);
      assert w[|w| - 1] in w;
    }
  }

  /** A lookup on a rooted tree answers with the pose by way of the root, whatever the dynamic links are doing. */
  lemma LookupIsRelative(ts: seq<Transform>, value: map<Transform, Isometry>, root: Frame, a: Frame, b: Frame,
      iso: Isometry)
    requires RootedTree(ts, root) && Moment(ts, value)
    requires Answer(FrameTree(ts), a, b, Ok(iso))
    ensures a in FrameSet(ts) && b in FrameSet(ts)
    ensures iso == Relative(ts, value, root, a, b)
  {
    HasNamed(FrameTree(ts), a);
    var w :| Route(ts, a, w, b) && Static(w) && Composes(ts, w, iso);
    StaticProduct(ts, value, w);
    Telescope(ts, value, root, a, w, b);
  }

  // ----- which lookups succeed -----

  /** f is c or lies below it. */
  ghost predicate Below(ts: seq<Transform>, c: Frame, f: Frame) {
    exists n: nat :: Climb(ts, f, n) == Some(c)
  }

  lemma BelowParent(ts: seq<Transform>, root: Frame, c: Frame, t: Transform)
    requires RootedTree(ts, root) && t in ts
    ensures t.child != c ==> (Below(ts, c, t.child) <==> Below(ts, c, t.parent))
    ensures t.child == c ==> Below(ts, c, t.child) && !Below(ts, c, t.parent)
  {
    OnlyParentLink(ts, t);
    FrameMember(ts, t);
    if Below(ts, c, t.parent) {
      var n: nat :| Climb(ts, t.parent, n) == Some(c);
      assert Climb(ts, t.child, n + 1) == Some(c);
      if t.child == c {
        TreeHasNoCycle(ts, root, c);
        assert OnCycle(ts, c);
      }
    }
    if t.child == c {
      assert Climb(ts, c, 0) == Some(c);
    } else if Below(ts, c, t.child) {
      var n: nat :| Climb(ts, t.child, n) == Some(c);
      assert Climb(ts, t.parent, n - 1) == Some(c);
    }
  }

  ghost predicate Uses(w: seq<Link>, t: Transform) {
    exists l: Link :: l in w && l.tf == t
  }

  lemma {:induction false} UsedStops(ts: seq<Transform>, a: Frame, w: seq<Link>, b: Frame, t: Transform)
    requires Walk(ts, a, w, b) && Uses(w, t)
    ensures t.parent in Stops(a, w) && t.child in Stops(a, w)
  {
    var init, last := w[..|w| - 1], w[|w| - 1];
    assert w == init + [last];
    StopsEnd(ts, a, init, From(last));
    if last.tf != t {
      assert Uses(init, t);
      UsedStops(ts, a, init, From(last), t);
    }
  }

  lemma StopsEnd(ts: seq<Transform>, a: Frame, w: seq<Link>, b: Frame)
    requires Walk(ts, a, w, b)
    ensures Stops(a, w)[|w|] == b
  {
  }

  /** A simple walk changes sides of a link exactly when it uses it; any walk keeps sides when it does not. */
  lemma {:induction false} Sides(ts: seq<Transform>, root: Frame, a: Frame, w: seq<Link>, b: Frame, t: Transform)
    requires RootedTree(ts, root) && t in ts
    requires Walk(ts, a, w, b)
    requires Uses(w, t) ==> Distinct(Stops(a, w))
    ensures Uses(w, t) <==> (Below(ts, t.child, a) != Below(ts, t.child, b))
  {
    hide RootedTree, Below, Distinct, Stops, Walk;
    if w == [] {
      SidesEmpty(ts, a, b);
    } else {
      var init, last := w[..|w| - 1], w[|w| - 1];
      WalkLast(ts, a, w, b);
      UsesSnoc(init, last, t);
      if Uses(init, t) {
        UsedOnce(ts, a, w, b, t);
      }
      Sides(ts, root, a, init, From(last), t);
      BelowParent(ts, root, t.child, last.tf);
      SameChild(ts, root, t, last.tf);
    }
  }

  lemma SidesEmpty(ts: seq<Transform>, a: Frame, b: Frame)
    requires Walk(ts, a, [], b)
    ensures a == b
  {
  }

  lemma WalkLast(ts: seq<Transform>, a: Frame, w: seq<Link>, b: Frame)
    requires Walk(ts, a, w, b) && w != []
    ensures var init, last := w[..|w| - 1], w[|w| - 1];
      w == init + [last] && Walk(ts, a, init, From(last)) && To(last) == b && last.tf in ts
  {
  }

  lemma UsesSnoc(w: seq<Link>, l: Link, t: Transform)
    ensures Uses(w + [l], t) <==> Uses(w, t) || l.tf == t
  {
    assert forall k: Link :: k in w + [l] <==> k in w || k == l;
  }

  /** A simple walk that has used a link already does not use it again. */
  lemma UsedOnce(ts: seq<Transform>, a: Frame, w: seq<Link>, b: Frame, t: Transform)
    requires Walk(ts, a, w, b) && w != [] && Distinct(Stops(a, w)) && Uses(w[..|w| - 1], t)
    ensures w[|w| - 1].tf != t && Distinct(Stops(a, w[..|w| - 1]))
  {
    hide Walk, Distinct;
    var init, last := w[..|w| - 1], w[|w| - 1];
    WalkLast(ts, a, w, b);
    assert Stops(a, w) == Stops(a, init) + [To(last)];
    DistinctSnoc(Stops(a, init), To(last));
    UsedStops(ts, a, init, From(last), t);
  }

  lemma SameChild(ts: seq<Transform>, root: Frame, t: Transform, u: Transform)
    requires RootedTree(ts, root) && t in ts && u in ts
    ensures t.child == u.child ==> t == u
  {
    hide ParentLinks;
    OnlyParentLink(ts, t);
    OnlyParentLink(ts, u);
  }

  /** On a rooted tree, if some walk between two frames is static, the route the search finds is static. */
  lemma StaticRoute(ts: seq<Transform>, root: Frame, a: Frame, v: seq<Link>, w: seq<Link>, b: Frame)
    requires RootedTree(ts, root)
    requires Walk(ts, a, v, b) && Static(v) && Route(ts, a, w, b)
    ensures Static(w)
  {
    WalkLinks(ts, a, w, b);
    forall l | l in w ensures !l.tf.dynamic {
      if l.tf.dynamic {
        assert Uses(w, l.tf);
        Sides(ts, root, a, v, b, l.tf);
        Sides(ts, root, a, w, b, l.tf);
      }
    }
  }

  ghost predicate StaticallyConnected(ts: seq<Transform>, a: Frame, b: Frame) {
    exists v :: Walk(ts, a, v, b) && Static(v)
  }

  lemma NotStatic(w: seq<Link>, tf: Transform)
    requires FirstDynamic(w, tf)
    ensures !Static(w)
  {
    assert forall k :: 0 <= k < |w| ==> w[k] in w;
  }

  /** So a lookup between declared frames succeeds exactly when static links alone join them. */
  lemma LookupSucceeds(ts: seq<Transform>, root: Frame, a: Frame, b: Frame, r: Result<Isometry, LookupError>)
    requires RootedTree(ts, root) && a in FrameSet(ts) && b in FrameSet(ts)
    requires Answer(FrameTree(ts), a, b, r)
    ensures r.Ok? <==> StaticallyConnected(ts, a, b)
  {
    HasNamed(FrameTree(ts), a);
    HasNamed(FrameTree(ts), b);
    if r.Ok? {
      var w :| Route(ts, a, w, b) && Static(w) && Composes(ts, w, r.value);
    } else if StaticallyConnected(ts, a, b) {
      var v :| Walk(ts, a, v, b) && Static(v);
      assert Connected(ts, a, b);
      assert r.error.CrossesDynamic?;
      var w :| Route(ts, a, w, b) && FirstDynamic(w, r.error.tf);
      NotStatic(w, r.error.tf);
      StaticRoute(ts, root, a, v, w, b);
    }
  }

  // ----- walks compose and turn around -----

  lemma {:induction false} WalkConcat(ts: seq<Transform>, a: Frame, v: seq<Link>, b: Frame, w: seq<Link>, c: Frame)
    requires Walk(ts, a, v, b) && Walk(ts, b, w, c)
    ensures Walk(ts, a, v + w, c)
  {
    if w == [] {
      assert v + w == v;
    } else {
      var last := w[|w| - 1];
      WalkConcat(ts, a, v, b, w[..|w| - 1], From(last));
      assert (v + w)[..|v + w| - 1] == v + w[..|w| - 1];
    }
  }

  function Turned(w: seq<Link>): (r: seq<Link>)
    ensures |r| == |w|
  {
    if w == [] then []
    else
      var last := w[|w| - 1];
      [Link(last.tf, !last.inverse)] + Turned(w[..|w| - 1])
  }

  lemma {:induction false} WalkTurned(ts: seq<Transform>, a: Frame, w: seq<Link>, b: Frame)
    requires Walk(ts, a, w, b)
    ensures Walk(ts, b, Turned(w), a)
    ensures Static(w) ==> Static(Turned(w))
  {
    if w != [] {
      var init, last := w[..|w| - 1], w[|w| - 1];
      WalkTurned(ts, a, init, From(last));
      var back := Link(last.tf, !last.inverse);
      assert [back][..0] == [];
      assert Walk(ts, b, [back], From(last));
      WalkConcat(ts, b, [back], From(last), Turned(init), a);
    }
  }

  /** Lookups chain: going on from b to c is one lookup from a to c. */
  lemma LookupChains(ts: seq<Transform>, root: Frame, a: Frame, b: Frame, c: Frame, x: Isometry, y: Isometry,
                     r: Result<Isometry, LookupError>)
    requires RootedTree(ts, root) && ValidAngles(ts)
    requires Answer(FrameTree(ts), a, b, Ok(x)) && Answer(FrameTree(ts), b, c, Ok(y)) && Answer(FrameTree(ts), a, c, r)
    ensures r == Ok(Then(x, y))
  {
    hide RootedTree;
    hide Moment;
    hide Route;
    hide Composes;
    hide RootPose;
    hide Then;
    hide Inverse;
    var value := Declared(ts);
    DeclaredMoment(ts);
    LookupIsRelative(ts, value, root, a, b, x);
    LookupIsRelative(ts, value, root, b, c, y);
    var v :| Route(ts, a, v, b) && Static(v) && Composes(ts, v, x);
    var w :| Route(ts, b, w, c) && Static(w) && Composes(ts, w, y);
    RouteWalks(ts, a, v, b);
    RouteWalks(ts, b, w, c);
    WalkConcat(ts, a, v, b, w, c);
    assert Static(v + w);
    LookupSucceeds(ts, root, a, c, r);
    LookupIsRelative(ts, value, root, a, c, r.value);
    ThroughMiddle(RootPose(ts, value, root, a), RootPose(ts, value, root, b), RootPose(ts, value, root, c));
  }

  lemma ThroughMiddle(a: Isometry, b: Isometry, c: Isometry)
    requires Rigid(a) && Rigid(b) && Rigid(c)
    ensures Then(Then(Inverse(a), b), Then(Inverse(b), c)) == Then(Inverse(a), c)
    ensures Inverse(Then(Inverse(a), b)) == Then(Inverse(b), a)
  {
    ThenRigid(a, a); ThenRigid(b, b); ThenRigid(Inverse(b), c);
    ThenAssoc(Inverse(a), b, Then(Inverse(b), c));
    ThenAssoc(b, Inverse(b), c);
    ThenInverse(b);
    ThenIdentity(c);
    InverseThen(Inverse(a), b);
    InverseTwice(a);
  }

  lemma InverseTwice(a: Isometry)
    requires Rigid(a)
    ensures Inverse(Inverse(a)) == a
  {
    var i := Inverse(a);
    ThenRigid(a, a); ThenRigid(i, i);
    ThenInverse(a); ThenInverse(i);
    ThenAssoc(a, i, Inverse(i));
    ThenIdentity(a); ThenIdentity(Inverse(i));
  }

  /** Looking the other way answers with the inverse. */
  lemma LookupReverses(ts: seq<Transform>, root: Frame, a: Frame, b: Frame, x: Isometry,
      r: Result<Isometry, LookupError>)
    requires RootedTree(ts, root) && ValidAngles(ts)
    requires Answer(FrameTree(ts), a, b, Ok(x)) && Answer(FrameTree(ts), b, a, r)
    ensures r == Ok(Inverse(x))
  {
    hide RootedTree;
    hide Moment;
    hide Route;
    hide Composes;
    hide RootPose;
    hide Then;
    hide Inverse;
    var value := Declared(ts);
    DeclaredMoment(ts);
    LookupIsRelative(ts, value, root, a, b, x);
    var v :| Route(ts, a, v, b) && Static(v) && Composes(ts, v, x);
    RouteWalks(ts, a, v, b);
    WalkTurned(ts, a, v, b);
    LookupSucceeds(ts, root, b, a, r);
    LookupIsRelative(ts, value, root, b, a, r.value);
    ThroughMiddle(RootPose(ts, value, root, a), RootPose(ts, value, root, b), RootPose(ts, value, root, a));
  }

  lemma {:induction false} WalkFromRoot(ts: seq<Transform>, root: Frame, f: Frame, n: nat) returns (w: seq<Link>)
    requires f in FrameSet(ts) && Climb(ts, f, n) == Some(root)
    ensures Walk(ts, root, w, f)
    decreases n
  {
    if n == 0 {
      w := [];
    } else {
      ParentLink(ts, f);
      var t := ParentLinks(ts, f)[0];
      w := WalkFromRoot(ts, root, t.parent, n - 1);
      WalkSnoc(ts, root, w, Link(t, false));
      w := w + [Link(t, false)];
    }
  }

  /** What Check accepts, Connects connects: any two frames of a rooted tree. */
  lemma TreeConnects(ts: seq<Transform>, root: Frame, a: Frame, b: Frame)
    requires RootedTree(ts, root) && a in FrameSet(ts) && b in FrameSet(ts)
    ensures Connected(ts, a, b)
  {
    var up := WalkFromRoot(ts, root, a, Depth(ts, root, a));
    var down := WalkFromRoot(ts, root, b, Depth(ts, root, b));
    WalkTurned(ts, root, up, a);
    WalkConcat(ts, a, Turned(up), root, down, b);
  }
}
