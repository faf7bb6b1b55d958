/**
 * The declared transform tree of frames.go: its structural check and the breadth-first lookup.
 */
module FrameTrees {
  import opened Wrappers
  import opened Sorting
  import opened Isometries

  type Frame = string

  /** One declared link: the pose of child in parent.  The rotation is given by its half angles. */
  datatype Transform = Transform(parent: Frame, child: Frame, xyz: Vec3, rpy: RPY, dynamic: bool, publisher: string)

  function DeclaredPose(t: Transform): Isometry {
    Isometry(t.xyz, QuatFromRPY(t.rpy))
  }

  datatype FrameTree = NoTree | FrameTree(transforms: seq<Transform>)

  datatype LookupError =
    | NoDeclaredTree
    | UnknownFrame(frame: Frame)
    | NotConnected
    | CrossesDynamic(tf: Transform)

  datatype FrameProblem =
    | MultipleParents(frame: Frame, parents: seq<Frame>)
    | Cycle(frame: Frame)
    | Disconnected(roots: seq<Frame>)

  // ----- what the declaration says -----

  ghost function FrameSet(ts: seq<Transform>): set<Frame> {
    if ts == [] then {}
    else FrameSet(ts[..|ts| - 1]) + {ts[|ts| - 1].parent, ts[|ts| - 1].child}
  }

  lemma {:induction false} FrameMember(ts: seq<Transform>, t: Transform)
    requires t in ts
    ensures t.parent in FrameSet(ts) && t.child in FrameSet(ts)
  {
    if t != ts[|ts| - 1] {
      assert ts == ts[..|ts| - 1] + [ts[|ts| - 1]];
      FrameMember(ts[..|ts| - 1], t);
    }
  }

  lemma {:induction false} FrameNamed(ts: seq<Transform>, f: Frame) returns (t: Transform)
    requires f in FrameSet(ts)
    ensures t in ts && (t.parent == f || t.child == f)
  {
    t := ts[|ts| - 1];
    if t.parent != f && t.child != f {
      t := FrameNamed(ts[..|ts| - 1], f);
    }
  }

  /** The links naming c as their child, in declaration order. */
  function ParentLinks(ts: seq<Transform>, c: Frame): (r: seq<Transform>) {
    if ts == [] then []
    else
      var init, last := ts[..|ts| - 1], ts[|ts| - 1];
      ParentLinks(init, c) + if last.child == c then [last] else []
  }

  ghost predicate HasParent(ts: seq<Transform>, f: Frame) {
    exists t :: t in ts && t.child == f
  }

  ghost predicate IsRoot(ts: seq<Transform>, f: Frame) {
    f in FrameSet(ts) && !HasParent(ts, f)
  }

  ghost predicate OneParent(ts: seq<Transform>) {
    forall i, j :: 0 <= i < j < |ts| ==> ts[i].child != ts[j].child
  }

  /** The frame n parent links above f, following the first declared parent at each step. */
  ghost function Climb(ts: seq<Transform>, f: Frame, n: nat): Option<Frame>
    decreases n
  {
    if n == 0 then Some(f)
    else
      var ps := ParentLinks(ts, f);
      if ps == [] then None else Climb(ts, ps[0].parent, n - 1)
  }

  ghost predicate OnCycle(ts: seq<Transform>, f: Frame) {
    exists n: nat :: n > 0 && Climb(ts, f, n) == Some(f)
  }

  /** A rooted tree: one parent each, and every frame's parents lead to the one frame without any. */
  ghost predicate RootedTree(ts: seq<Transform>, root: Frame) {
    && OneParent(ts)
    && IsRoot(ts, root)
    && forall f :: f in FrameSet(ts) ==> exists n: nat :: Climb(ts, f, n) == Some(root)
  }

  lemma {:induction false} ParentLinksMember(ts: seq<Transform>, c: Frame, t: Transform)
    ensures t in ParentLinks(ts, c) <==> t in ts && t.child == c
  {
    if ts != [] {
      var init, last := ts[..|ts| - 1], ts[|ts| - 1];
      ParentLinksMember(init, c, t);
      assert ts == init + [last];
    }
  }

  lemma {:induction false} ParentLinksCount(ts: seq<Transform>)
    ensures OneParent(ts) <==> forall c :: |ParentLinks(ts, c)| <= 1
  {
    if ts != [] {
      var init, last := ts[..|ts| - 1], ts[|ts| - 1];
      ParentLinksCount(init);
      assert ts == init + [last];
      if OneParent(ts) {
        forall i, j | 0 <= i < j < |init| ensures init[i].child != init[j].child {
          assert ts[i].child != ts[j].child;
        }
        assert OneParent(init);
        forall c ensures |ParentLinks(ts, c)| <= 1 {
          assert |ParentLinks(init, c)| <= 1;
          if c == last.child && ParentLinks(init, c) != [] {
            ParentLinksMember(init, c, ParentLinks(init, c)[0]);
            assert false;
          }
        }
      } else if OneParent(init) {
        var i :| 0 <= i < |init| && init[i].child == last.child;
        ParentLinksMember(init, last.child, init[i]);
        assert |ParentLinks(ts, last.child)| >= 2;
      } else {
        var c :| |ParentLinks(init, c)| > 1;
        assert |ParentLinks(ts, c)| > 1;
      }
    }
  }

  lemma ParentLink(ts: seq<Transform>, f: Frame)
    ensures ParentLinks(ts, f) == [] <==> !HasParent(ts, f)
    ensures ParentLinks(ts, f) != [] ==>
      ParentLinks(ts, f)[0] in ts && ParentLinks(ts, f)[0].child == f && ParentLinks(ts, f)[0].parent in FrameSet(ts)
  {
    if ParentLinks(ts, f) != [] {
      ParentLinksMember(ts, f, ParentLinks(ts, f)[0]);
      FrameMember(ts, ParentLinks(ts, f)[0]);
    } else if HasParent(ts, f) {
      var t :| t in ts && t.child == f;
      ParentLinksMember(ts, f, t);
    }
  }

  lemma {:induction false} ClimbAdd(ts: seq<Transform>, f: Frame, m: nat, n: nat)
    requires Climb(ts, f, m).Some?
    ensures Climb(ts, f, m + n) == Climb(ts, Climb(ts, f, m).value, n)
    decreases m
  {
    if m > 0 {
      ClimbAdd(ts, ParentLinks(ts, f)[0].parent, m - 1, n);
    }
  }

  lemma {:induction false} ClimbPrefix(ts: seq<Transform>, f: Frame, m: nat, n: nat)
    requires m <= n && Climb(ts, f, n).Some?
    ensures Climb(ts, f, m).Some?
    decreases m
  {
    if m > 0 {
      ClimbPrefix(ts, ParentLinks(ts, f)[0].parent, m - 1, n - 1);
    }
  }

  lemma {:induction false} ClimbStays(ts: seq<Transform>, f: Frame, n: nat)
    requires f in FrameSet(ts) && Climb(ts, f, n).Some?
    ensures Climb(ts, f, n).value in FrameSet(ts)
    decreases n
  {
    if n > 0 {
      ParentLink(ts, f);
      ClimbStays(ts, ParentLinks(ts, f)[0].parent, n - 1);
    }
  }

  /** On a cycle the climb never ends. */
  lemma {:induction false} CycleClimbs(ts: seq<Transform>, f: Frame, n: nat, k: nat)
    requires n > 0 && Climb(ts, f, n) == Some(f)
    ensures Climb(ts, f, k).Some?
    decreases k
  {
    if k <= n {
      ClimbPrefix(ts, f, k, n);
    } else {
      CycleClimbs(ts, f, n, k - n);
      ClimbAdd(ts, f, n, k - n);
    }
  }

  // ----- Check -----

  /** Both frames of a link, each unless it was seen before. */
  method Note(seen: set<Frame>, list: seq<Frame>, pair: seq<Frame>) returns (seen': set<Frame>, list': seq<Frame>)
    requires |pair| == 2 && Distinct(list) && seen == Elements(list)
    ensures Distinct(list') && seen' == Elements(list') == seen + {pair[0], pair[1]}
  {
    seen', list' := seen, list;
    for j := 0 to 2
      invariant Distinct(list') && seen' == Elements(list') == seen + Elements(pair[..j])
    {
      if pair[j] !in seen' {
        seen' := seen' + {pair[j]};
        ElementsSnoc(list', pair[j]);
        list' := list' + [pair[j]];
      }
      assert pair[..j + 1] == pair[..j] + [pair[j]];
    }
    assert pair[..2] == pair && pair[0] in pair && pair[1] in pair;
  }

  method FramesOf(ts: seq<Transform>) returns (out: seq<Frame>)
    ensures Ascending(out) && Elements(out) == FrameSet(ts)
  {
    var seen: set<Frame> := {};
    var list: seq<Frame> := [];
    for i := 0 to |ts|
      invariant Distinct(list) && seen == Elements(list) == FrameSet(ts[..i])
    {
      assert ts[..i + 1][..i] == ts[..i];
      hide Distinct, Elements;
      seen, list := Note(seen, list, [ts[i].parent, ts[i].child]);
    }
    assert ts[..|ts|] == ts;
    hide FrameSet, Ascending;
    out := SortStrings(list);
    SamePermutation(out, list);
    DistinctPermutation(out, list);
  }

  method Children(ts: seq<Transform>) returns (hasParent: set<Frame>)
    ensures forall f :: f in hasParent <==> HasParent(ts, f)
  {
    hasParent := {};
    for i := 0 to |ts|
      invariant forall f :: f in hasParent <==> HasParent(ts[..i], f)
    {
      hasParent := hasParent + {ts[i].child};
      assert ts[..i + 1] == ts[..i] + [ts[i]];
      assert ts[i] in ts[..i + 1];
      forall f | HasParent(ts[..i], f) ensures HasParent(ts[..i + 1], f) {
        var t :| t in ts[..i] && t.child == f;
        assert t in ts[..i + 1];
      }
    }
    assert ts[..|ts|] == ts;
  }

  method RootsOf(ts: seq<Transform>) returns (out: seq<Frame>)
    ensures Ascending(out)
    ensures forall f :: f in out <==> IsRoot(ts, f)
  {
    var hasParent := Children(ts);
    var frames := FramesOf(ts);
    out := [];
    for i := 0 to |frames|
      invariant Ascending(out)
      invariant forall f :: f in out <==> f in frames[..i] && !HasParent(ts, f)
    {
      hide Ascending, HasParent;
      if frames[i] !in hasParent {
        AscendingBefore(frames, i);
        AscendingSnoc(out, frames[i]);
        out := out + [frames[i]];
      }
      assert frames[..i + 1] == frames[..i] + [frames[i]];
    }
    assert frames[..|frames|] == frames;
    assert forall f :: f in frames <==> f in Elements(frames);
  }

  /** Does walking first parents from f come back to f? */
  method CycleThrough(ts: seq<Transform>, f: Frame) returns (found: bool)
    requires f in FrameSet(ts)
    ensures found <==> OnCycle(ts, f)
  {
    hide FrameSet, ParentLinks, Climb, OnCycle, Distinct, Elements;
    var seen: set<Frame> := {f};
    var cur := f;
    ghost var trail := [f];
    TrailStarts(ts, f);
    while true
      invariant Trail(ts, f, trail) && cur == trail[|trail| - 1] && seen == Elements(trail)
      decreases FrameSet(ts) - seen
    {
      var ps := ParentLinks(ts, cur);
      TrailGoesOn(ts, f, trail);
      if ps == [] {
        ClimbStops(ts, f, |trail|);
        return false;
      }
      cur := ps[0].parent;
      if cur == f {
        Returns(ts, f, |trail|);
        return true;
      }
      SeenInTrail(trail, seen, cur);
      if cur in seen {
        Lasso(ts, f, trail, cur);
        return false;
      }
      TrailGrows(ts, f, trail, cur);
      seen := seen + {cur};
      trail := trail + [cur];
    }
  }

  /** The way up from f so far: no frame twice. */
  ghost predicate Trail(ts: seq<Transform>, f: Frame, trail: seq<Frame>) {
    && trail != [] && trail[0] == f && Distinct(trail)
    && forall k :: 0 <= k < |trail| ==> Climb(ts, f, k) == Some(trail[k]) && trail[k] in FrameSet(ts)
  }

  lemma TrailStarts(ts: seq<Transform>, f: Frame)
    requires f in FrameSet(ts)
    ensures Trail(ts, f, [f]) && Elements([f]) == {f}
  {
    hide FrameSet;
  }

  lemma TrailGoesOn(ts: seq<Transform>, f: Frame, trail: seq<Frame>)
    requires Trail(ts, f, trail)
    ensures var ps := ParentLinks(ts, trail[|trail| - 1]);
      && Climb(ts, f, |trail|) == (if ps == [] then None else Some(ps[0].parent))
      && (ps != [] ==> ps[0].parent in FrameSet(ts))
  {
    var cur, n: nat := trail[|trail| - 1], |trail| - 1;
    ParentLink(ts, cur);
    ClimbAdd(ts, f, n, 1);
    hide FrameSet, ParentLinks;
    assert Climb(ts, cur, 1) == if ParentLinks(ts, cur) == [] then None else Some(ParentLinks(ts, cur)[0].parent);
  }

  lemma ClimbStops(ts: seq<Transform>, f: Frame, k: nat)
    requires Climb(ts, f, k).None?
    ensures !OnCycle(ts, f)
  {
    hide Climb;
    if n: nat :| n > 0 && Climb(ts, f, n) == Some(f) {
      CycleClimbs(ts, f, n, k);
      assert false;
    }
  }

  lemma Returns(ts: seq<Transform>, f: Frame, k: nat)
    requires k > 0 && Climb(ts, f, k) == Some(f)
    ensures OnCycle(ts, f)
  {
  }

  lemma SeenInTrail(trail: seq<Frame>, seen: set<Frame>, cur: Frame)
    requires seen == Elements(trail)
    ensures cur in seen <==> cur in trail
  {
  }

  lemma TrailGrows(ts: seq<Transform>, f: Frame, trail: seq<Frame>, cur: Frame)
    requires Trail(ts, f, trail) && Climb(ts, f, |trail|) == Some(cur) && cur in FrameSet(ts) && cur !in trail
    ensures Trail(ts, f, trail + [cur]) && Elements(trail + [cur]) == Elements(trail) + {cur}
    ensures Elements(trail) <= FrameSet(ts) && cur !in Elements(trail)
  {
    hide FrameSet, Climb;
    DistinctSnoc(trail, cur);
    ElementsSnoc(trail, cur);
  }

  /** A trail that runs into itself past its first frame never returns to that frame. */
  lemma Lasso(ts: seq<Transform>, f: Frame, trail: seq<Frame>, next: Frame)
    requires Trail(ts, f, trail) && Climb(ts, f, |trail|) == Some(next) && next in trail && next != f
    ensures !OnCycle(ts, f)
  {
    hide Climb, FrameSet;
    if OnCycle(ts, f) {
      var n: nat :| n > 0 && Climb(ts, f, n) == Some(f);
      var j :| 0 <= j < |trail| && trail[j] == next;
      LassoStays(ts, f, trail, j, n);
      assert false;
    }
  }

  lemma {:induction false} LassoStays(ts: seq<Transform>, f: Frame, trail: seq<Frame>, j: nat, n: nat)
    requires 0 < j < |trail| && trail[0] == f && Distinct(trail)
    requires forall k :: 0 <= k < |trail| ==> Climb(ts, f, k) == Some(trail[k])
    requires Climb(ts, f, |trail|) == Some(trail[j])
    requires n > 0
    ensures Climb(ts, f, n).Some? && Climb(ts, f, n).value != f
    decreases n
  {
    if n >= |trail| {
      var back := n - |trail| + j;
      LassoStays(ts, f, trail, j, back);
      ClimbAdd(ts, f, |trail|, n - |trail|);
      ClimbAdd(ts, f, j, n - |trail|);
    } else {
      assert trail[0] != trail[n];
    }
  }

  function Parents(links: seq<Transform>): seq<Frame> {
    seq(|links|, i requires 0 <= i < |links| => links[i].parent)
  }

  /** The links of each child, grouped in declaration order. */
  method ByChild(ts: seq<Transform>) returns (parents: map<Frame, seq<Transform>>)
    ensures forall c :: c in parents <==> ParentLinks(ts, c) != []
    ensures forall c :: c in parents ==> parents[c] == ParentLinks(ts, c)
  {
    parents := map[];
    for i := 0 to |ts|
      invariant forall c :: c in parents <==> ParentLinks(ts[..i], c) != []
      invariant forall c :: c in parents ==> parents[c] == ParentLinks(ts[..i], c)
    {
      var c := ts[i].child;
      parents := parents[c := (if c in parents then parents[c] else []) + [ts[i]]];
      assert ts[..i + 1][..i] == ts[..i];
    }
    assert ts[..|ts|] == ts;
  }

  ghost predicate ParentFault(ts: seq<Transform>, p: FrameProblem) {
    p.MultipleParents? && |ParentLinks(ts, p.frame)| > 1 && p.parents == Parents(ParentLinks(ts, p.frame))
  }

  ghost predicate CycleFault(ts: seq<Transform>, p: FrameProblem) {
    p.Cycle? && p.frame in FrameSet(ts) && OnCycle(ts, p.frame)
  }

  ghost predicate RootFault(ts: seq<Transform>, p: FrameProblem) {
    p.Disconnected? && |p.roots| > 1 && Ascending(p.roots) && forall f :: f in p.roots <==> IsRoot(ts, f)
  }

  /** The frame a problem is about; the one about several roots is about none in particular. */
  function Blamed(p: FrameProblem): Frame {
    match p
    case MultipleParents(frame, _) => frame
    case Cycle(frame) => frame
    case Disconnected(_) => ""
  }

  function BlamedIn(ps: seq<FrameProblem>): (r: seq<Frame>)
    ensures |r| == |ps|
  {
    seq(|ps|, i requires 0 <= i < |ps| => Blamed(ps[i]))
  }

  /** One more problem, about the next of the frames. */
  lemma BlamedNext(frames: seq<Frame>, i: nat, ps: seq<FrameProblem>, p: FrameProblem)
    requires Ascending(frames) && i < |frames| && Blamed(p) == frames[i]
    requires Ascending(BlamedIn(ps)) && forall q :: q in ps ==> Blamed(q) in frames[..i]
    ensures Ascending(BlamedIn(ps + [p]))
  {
    hide Ascending;
    var fs := BlamedIn(ps);
    AscendingBefore(frames, i);
    forall y | y in fs ensures StringLe(y, frames[i]) && y != frames[i] {
      var j :| 0 <= j < |fs| && fs[j] == y;
      assert ps[j] in ps;
    }
    AscendingSnoc(fs, frames[i]);
    assert BlamedIn(ps + [p]) == fs + [frames[i]];
  }

  method ParentFaults(ts: seq<Transform>) returns (out: seq<FrameProblem>)
    ensures forall p :: p in out <==> ParentFault(ts, p)
    ensures Ascending(BlamedIn(out))
  {
    hide ParentLinks, StringLe;
    var parents := ByChild(ts);
    var children := SortedKeys(parents);
    out := [];
    for i := 0 to |children|
      invariant forall p :: p in out <==> ParentFault(ts, p) && p.frame in children[..i]
      invariant Ascending(BlamedIn(out))
    {
      hide Ascending;
      var c := children[i];
      assert c in children;
      if |parents[c]| > 1 {
        var p := MultipleParents(c, Parents(parents[c]));
        BlamedNext(children, i, out, p);
        out := out + [p];
      }
      assert children[..i + 1] == children[..i] + [c];
    }
    assert children[..|children|] == children;
    forall p | ParentFault(ts, p) ensures p.frame in children {
      ParentLink(ts, p.frame);
    }
  }

  method CycleFaults(ts: seq<Transform>) returns (out: seq<FrameProblem>)
    ensures forall p :: p in out <==> CycleFault(ts, p)
    ensures Ascending(BlamedIn(out))
  {
    hide FrameSet, OnCycle, StringLe;
    var frames := FramesOf(ts);
    assert forall f :: f in frames <==> f in Elements(frames);
    out := [];
    for i := 0 to |frames|
      invariant forall p :: p in out <==> CycleFault(ts, p) && p.frame in frames[..i]
      invariant Ascending(BlamedIn(out))
    {
      hide Ascending;
      assert frames[i] in frames;
      var found := CycleThrough(ts, frames[i]);
      if found {
        BlamedNext(frames, i, out, Cycle(frames[i]));
        out := out + [Cycle(frames[i])];
      }
      assert frames[..i + 1] == frames[..i] + [frames[i]];
    }
    assert frames[..|frames|] == frames;
  }

  /** Check: every fault of a non-empty declaration once and nothing else: kind by kind, by frame. */
  method Check(tree: FrameTree) returns (out: seq<FrameProblem>)
    ensures tree.NoTree? || tree.transforms == [] ==> out == []
    ensures tree.FrameTree? && tree.transforms != [] ==> Reported(tree.transforms, out)
    ensures tree.FrameTree? && tree.transforms != [] ==>
      (out == [] <==> exists root :: RootedTree(tree.transforms, root))
  {
    hide FrameSet, IsRoot, ParentFault, CycleFault, Ascending, RootedTree;
    if tree.NoTree? || |tree.transforms| == 0 {
      return [];
    }
    var ts := tree.transforms;
    var parents := ParentFaults(ts);
    var cycles := CycleFaults(ts);
    out := parents + cycles;
    var roots := RootsOf(ts);
    ghost var apart: seq<FrameProblem> := [];
    if |roots| > 1 {
      apart := [Disconnected(roots)];
      out := out + [Disconnected(roots)];
    }
    RootsReported(ts, roots, apart);
    assert InParts(ts, out, parents, cycles, apart);
    CheckAcceptsTrees(ts, out);
  }

  /** The last part of a report: one problem if there are several roots. */
  ghost predicate ApartPart(ts: seq<Transform>, apart: seq<FrameProblem>) {
    if exists f, g :: f != g && IsRoot(ts, f) && IsRoot(ts, g) then |apart| == 1 && RootFault(ts, apart[0])
      else apart == []
  }

  lemma RootsReported(ts: seq<Transform>, roots: seq<Frame>, apart: seq<FrameProblem>)
    requires Ascending(roots) && forall f :: f in roots <==> IsRoot(ts, f)
    requires apart == if |roots| > 1 then [Disconnected(roots)] else []
    ensures ApartPart(ts, apart)
  {
    hide IsRoot, StringLe;
    if |roots| > 1 {
      assert roots[0] != roots[1] && roots[0] in roots && roots[1] in roots;
    }
    assert forall f, g :: IsRoot(ts, f) && IsRoot(ts, g) ==> f in roots && g in roots;
  }

  ghost predicate InParts(
    ts: seq<Transform>, out: seq<FrameProblem>, parents: seq<FrameProblem>, cycles: seq<FrameProblem>,
    apart: seq<FrameProblem>)
  {
    && out == parents + cycles + apart
    && (forall p :: p in parents <==> ParentFault(ts, p)) && Ascending(BlamedIn(parents))
    && (forall p :: p in cycles <==> CycleFault(ts, p)) && Ascending(BlamedIn(cycles))
    && ApartPart(ts, apart)
  }

  /** The report of a declaration: frames with several parents, then frames on cycles, each kind in ascending
      order and each frame once, then one problem if there are several roots. */
  ghost predicate Reported(ts: seq<Transform>, out: seq<FrameProblem>) {
    exists parents, cycles, apart :: InParts(ts, out, parents, cycles, apart)
  }

  lemma ReportedSays(ts: seq<Transform>, out: seq<FrameProblem>)
    requires Reported(ts, out)
    ensures forall p :: p in out ==> ParentFault(ts, p) || CycleFault(ts, p) || RootFault(ts, p)
    ensures forall p :: ParentFault(ts, p) || CycleFault(ts, p) ==> p in out
    ensures (exists f, g :: f != g && IsRoot(ts, f) && IsRoot(ts, g)) ==> exists p :: p in out && RootFault(ts, p)
  {
    hide ParentFault, CycleFault, RootFault, IsRoot, Ascending;
    var parents, cycles, apart :| InParts(ts, out, parents, cycles, apart);
    if exists f, g :: f != g && IsRoot(ts, f) && IsRoot(ts, g) {
      assert apart[0] in out;
    }
  }

  /** There is one way to report a declaration. */
  lemma ReportUnique(ts: seq<Transform>, out: seq<FrameProblem>, out': seq<FrameProblem>)
    requires Reported(ts, out) && Reported(ts, out')
    ensures out == out'
  {
    hide IsRoot, Ascending;
    var a, b, c :| InParts(ts, out, a, b, c);
    var a', b', c' :| InParts(ts, out', a', b', c');
    PartUnique(a, a');
    PartUnique(b, b');
    ApartUnique(ts, c, c');
  }

  lemma ApartUnique(ts: seq<Transform>, c: seq<FrameProblem>, c': seq<FrameProblem>)
    requires ApartPart(ts, c) && ApartPart(ts, c')
    ensures c == c'
  {
    hide IsRoot, Ascending;
    if c != [] {
      AscendingUnique(c[0].roots, c'[0].roots);
    }
  }

  lemma PartUnique(a: seq<FrameProblem>, b: seq<FrameProblem>)
    requires Ascending(BlamedIn(a)) && Ascending(BlamedIn(b)) && forall p :: p in a <==> p in b
    requires forall p, q :: p in a && q in a && Blamed(p) == Blamed(q) ==> p == q
    ensures a == b
  {
    hide Ascending, Blamed;
    BlamedMembers(a);
    BlamedMembers(b);
    AscendingUnique(BlamedIn(a), BlamedIn(b));
    forall i | 0 <= i < |a| ensures a[i] == b[i] {
      assert BlamedIn(a)[i] == BlamedIn(b)[i];
      assert a[i] in a && b[i] in b;
    }
  }

  lemma BlamedMembers(ps: seq<FrameProblem>)
    ensures forall f :: f in BlamedIn(ps) <==> exists p :: p in ps && Blamed(p) == f
  {
    forall p | p in ps ensures Blamed(p) in BlamedIn(ps) {
      var i :| 0 <= i < |ps| && ps[i] == p;
      assert BlamedIn(ps)[i] == Blamed(p);
    }
    forall f | f in BlamedIn(ps) ensures exists p :: p in ps && Blamed(p) == f {
      var i :| 0 <= i < |ps| && BlamedIn(ps)[i] == f;
      assert ps[i] in ps;
    }
  }

  method SortedKeys<V>(m: map<string, V>) returns (out: seq<string>)
    ensures Ascending(out)
    ensures forall k :: k in out <==> k in m
  {
    var rest := m.Keys;
    var list: seq<string> := [];
    while rest != {}
      invariant Distinct(list) && rest <= m.Keys
      invariant forall k :: k in list <==> k in m && k !in rest
      decreases rest
    {
      var k :| k in rest;
      rest := rest - {k};
      list := list + [k];
    }
    out := SortStrings(list);
    SamePermutation(out, list);
    DistinctPermutation(out, list);
  }

  // ----- Check accepts exactly the rooted trees -----

  /** More climbing than there are frames means a cycle. */
  lemma LongTrailCycles(ts: seq<Transform>, f: Frame, trail: seq<Frame>)
    requires forall k :: 0 <= k < |trail| ==> Climb(ts, f, k) == Some(trail[k]) && trail[k] in FrameSet(ts)
    requires |trail| > |FrameSet(ts)|
    ensures exists g :: g in FrameSet(ts) && OnCycle(ts, g)
  {
    Pigeonhole(trail, FrameSet(ts));
    var i, j :| 0 <= i < j < |trail| && trail[i] == trail[j];
    ClimbAdd(ts, f, i, j - i);
    assert OnCycle(ts, trail[i]);
  }

  lemma ClimbEnds(ts: seq<Transform>, f: Frame)
    requires f in FrameSet(ts)
    requires forall g :: g in FrameSet(ts) ==> !OnCycle(ts, g)
    ensures Climb(ts, f, |FrameSet(ts)|).None?
  {
    hide FrameSet, Climb, OnCycle;
    var bound := |FrameSet(ts)|;
    if Climb(ts, f, bound).Some? {
      var trail := [];
      for k := 0 to bound + 1
        invariant |trail| == k
        invariant forall j :: 0 <= j < k ==> Climb(ts, f, j) == Some(trail[j]) && trail[j] in FrameSet(ts)
      {
        ClimbPrefix(ts, f, k, bound);
        ClimbStays(ts, f, k);
        trail := trail + [Climb(ts, f, k).value];
      }
      LongTrailCycles(ts, f, trail);
    }
  }

  /** Off every cycle, climbing reaches a root. */
  lemma ClimbsToRoot(ts: seq<Transform>, f: Frame) returns (n: nat, root: Frame)
    requires f in FrameSet(ts)
    requires forall g :: g in FrameSet(ts) ==> !OnCycle(ts, g)
    ensures Climb(ts, f, n) == Some(root) && IsRoot(ts, root)
  {
    ClimbEnds(ts, f);
    n, root := 0, f;
    while Climb(ts, f, n + 1).Some?
      invariant Climb(ts, f, n) == Some(root) && root in FrameSet(ts)
      invariant n < |FrameSet(ts)|
      decreases |FrameSet(ts)| - n
    {
      ClimbStays(ts, f, n + 1);
      n, root := n + 1, Climb(ts, f, n + 1).value;
    }
    ClimbAdd(ts, f, n, 1);
    ParentLink(ts, root);
  }

  /** On a rooted tree the way up has one length, and the root is the only frame without a parent. */
  lemma TreeDepthUnique(ts: seq<Transform>, root: Frame, f: Frame, m: nat, n: nat)
    requires IsRoot(ts, root)
    requires Climb(ts, f, m) == Some(root) && Climb(ts, f, n).Some?
    ensures n <= m
    ensures IsRoot(ts, Climb(ts, f, n).value) ==> n == m
  {
    ParentLink(ts, root);
    if n > m {
      ClimbAdd(ts, f, m, n - m);
    } else {
      ClimbAdd(ts, f, n, m - n);
      ParentLink(ts, Climb(ts, f, n).value);
    }
  }

  lemma TreeHasNoCycle(ts: seq<Transform>, root: Frame, f: Frame)
    requires RootedTree(ts, root) && f in FrameSet(ts)
    ensures !OnCycle(ts, f)
  {
    if OnCycle(ts, f) {
      var n: nat :| n > 0 && Climb(ts, f, n) == Some(f);
      var m: nat :| Climb(ts, f, m) == Some(root);
      CycleClimbs(ts, f, n, m + 1);
      TreeDepthUnique(ts, root, f, m, m + 1);
    }
  }

  /** Check reports nothing exactly when the declared links form one rooted tree. */
  lemma CheckAcceptsTrees(ts: seq<Transform>, out: seq<FrameProblem>)
    requires ts != [] && Reported(ts, out)
    ensures out == [] <==> exists root :: RootedTree(ts, root)
  {
    hide FrameSet, Climb, Ascending, ParentLinks, Reported;
    ReportedSays(ts, out);
    ParentLinksCount(ts);
    if out == [] {
      forall c ensures |ParentLinks(ts, c)| <= 1 {
        assert !ParentFault(ts, MultipleParents(c, Parents(ParentLinks(ts, c))));
      }
      forall g | g in FrameSet(ts) ensures !OnCycle(ts, g) {
        assert !CycleFault(ts, Cycle(g));
      }
      OneRootIsTree(ts);
    } else if root :| RootedTree(ts, root) {
      assert out[0] in out;
      TreeIsFaultless(ts, root, out[0]);
    }
  }

  lemma OneRootIsTree(ts: seq<Transform>)
    requires ts != [] && OneParent(ts)
    requires forall g :: g in FrameSet(ts) ==> !OnCycle(ts, g)
    requires forall f, g :: IsRoot(ts, f) && IsRoot(ts, g) ==> f == g
    ensures exists root :: RootedTree(ts, root)
  {
    hide FrameSet, Climb, OnCycle, HasParent;
    FrameMember(ts, ts[0]);
    var _, root := ClimbsToRoot(ts, ts[0].child);
    forall f | f in FrameSet(ts) ensures exists n: nat :: Climb(ts, f, n) == Some(root) {
      var n, r := ClimbsToRoot(ts, f);
      assert r == root;
    }
    assert RootedTree(ts, root);
  }

  lemma TreeIsFaultless(ts: seq<Transform>, root: Frame, p: FrameProblem)
    requires RootedTree(ts, root)
    ensures !ParentFault(ts, p) && !CycleFault(ts, p) && !RootFault(ts, p)
  {
    hide FrameSet, Climb, OnCycle, HasParent, StringLe, ParentLinks;
    ParentLinksCount(ts);
    if CycleFault(ts, p) {
      TreeHasNoCycle(ts, root, p.frame);
    } else if RootFault(ts, p) {
      assert p.roots[0] in p.roots && p.roots[1] in p.roots && p.roots[0] != p.roots[1];
      TreeRootUnique(ts, root, p.roots[0]);
      TreeRootUnique(ts, root, p.roots[1]);
    }
    assert p.MultipleParents? ==> |ParentLinks(ts, p.frame)| <= 1;
  }

  lemma TreeRootUnique(ts: seq<Transform>, root: Frame, f: Frame)
    requires RootedTree(ts, root) && IsRoot(ts, f)
    ensures f == root
  {
    var m: nat :| Climb(ts, f, m) == Some(root);
    TreeDepthUnique(ts, root, f, m, 0);
  }

  /** A rooted tree has one frame more than it has links. */
  lemma TreeFrameCount(ts: seq<Transform>, root: Frame)
    requires RootedTree(ts, root)
    ensures |FrameSet(ts)| == |ts| + 1
  {
    hide FrameSet, Climb, RootedTree;
    var children := seq(|ts|, i requires 0 <= i < |ts| => ts[i].child);
    TreeChildren(ts, root);
    DistinctCount(children);
    forall f | f in FrameSet(ts) ensures f in Elements(children) + {root} {
      if HasParent(ts, f) {
        var t :| t in ts && t.child == f;
        var i :| 0 <= i < |ts| && ts[i] == t;
        assert children[i] == f;
      } else {
        TreeRootUnique(ts, root, f);
      }
    }
    forall f | f in children ensures f in FrameSet(ts) && f != root {
      var i :| 0 <= i < |ts| && children[i] == f;
      FrameMember(ts, ts[i]);
    }
    assert FrameSet(ts) == Elements(children) + {root};
  }

  lemma TreeChildren(ts: seq<Transform>, root: Frame)
    requires RootedTree(ts, root)
    ensures Distinct(seq(|ts|, i requires 0 <= i < |ts| => ts[i].child))
    ensures root in FrameSet(ts) && forall t :: t in ts ==> t.child != root
  {
    hide FrameSet, Climb;
    assert forall t :: t in ts && t.child == root ==> HasParent(ts, root);
  }
}
