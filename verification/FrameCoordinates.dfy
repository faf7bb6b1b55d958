/**
 * What a lookup means for points, in coordinates: each link turns about x, then y, then z, and shifts, as frames.go
 * 75-88 declares it.
 */
module FrameCoordinates {
  import opened Wrappers
  import opened Isometries
  import opened FrameTrees
  import opened FrameLookup

  // ----- turns about the axes -----

  /** Cosine and sine of the whole angle. */
  function Cos(h: HalfAngle): real {
    h.c * h.c - h.s * h.s
  }

  function Sin(h: HalfAngle): real {
    2.0 * h.c * h.s
  }

  function TurnX(h: HalfAngle, p: Vec3): Vec3 {
    Vec3(p.x, Cos(h) * p.y - Sin(h) * p.z, Sin(h) * p.y + Cos(h) * p.z)
  }

  function TurnY(h: HalfAngle, p: Vec3): Vec3 {
    Vec3(Cos(h) * p.x + Sin(h) * p.z, p.y, Cos(h) * p.z - Sin(h) * p.x)
  }

  function TurnZ(h: HalfAngle, p: Vec3): Vec3 {
    Vec3(Cos(h) * p.x - Sin(h) * p.y, Sin(h) * p.x + Cos(h) * p.y, p.z)
  }

  /** Where a point of the child stands in the parent: turned by roll, pitch and yaw, in this order, and shifted. */
  function InParent(t: Transform, p: Vec3): Vec3 {
    var q := TurnZ(t.rpy.yaw, TurnY(t.rpy.pitch, TurnX(t.rpy.roll, p)));
    Vec3(t.xyz.x + q.x, t.xyz.y + q.y, t.xyz.z + q.z)
  }

  // In a plane: (a, b) turned, where the rotation doubles what it crosses.
  lemma PlaneTurn(c: real, s: real, a: real, b: real)
    requires c * c + s * s == 1.0
    ensures a - s * (2.0 * (s * a + c * b)) == (c * c - s * s) * a - 2.0 * c * s * b
    ensures b + s * (2.0 * (c * a - s * b)) == 2.0 * c * s * a + (c * c - s * s) * b
  {
    OneTimes(c, s, a);
    OneTimes(c, s, b);
    assert s * (2.0 * (s * a + c * b)) == 2.0 * (s * s * a) + 2.0 * c * s * b;
    assert s * (2.0 * (c * a - s * b)) == 2.0 * c * s * a - 2.0 * (s * s * b);
    assert (c * c - s * s) * a == c * c * a - s * s * a && (c * c - s * s) * b == c * c * b - s * s * b;
  }

  lemma OneTimes(c: real, s: real, a: real)
    requires c * c + s * s == 1.0
    ensures a == c * c * a + s * s * a
  {
    var one := c * c + s * s;
    assert a == one * a;
  }

  lemma PlaneProducts(h: HalfAngle, a: real, b: real)
    requires OnCircle(h)
    ensures a - Mul(h.s, 2.0 * (Mul(h.s, a) + Mul(h.c, b))) == Cos(h) * a - Sin(h) * b
    ensures b + Mul(h.s, 2.0 * (Mul(h.c, a) - Mul(h.s, b))) == Sin(h) * a + Cos(h) * b
  {
    PlaneTurn(h.c, h.s, a, b);
  }

  lemma Zeros(p: Vec3, c: real)
    ensures Mul(0.0, p.x) == Mul(0.0, p.y) == Mul(0.0, p.z) == 0.0
    ensures Mul(0.0, c) == 0.0
  {
  }

  lemma RollTurns(h: HalfAngle, p: Vec3)
    requires OnCircle(h)
    ensures Rotate(About(Vec3(1.0, 0.0, 0.0), h), p) == TurnX(h, p)
  {
    RollProducts(h, p);
    PlaneProducts(h, p.y, p.z);
    hide Mul, Cos, Sin, Rotate, About;
  }

  lemma RollProducts(h: HalfAngle, p: Vec3)
    ensures Rotate(About(Vec3(1.0, 0.0, 0.0), h), p) == Vec3(
      p.x,
      p.y - Mul(h.s, 2.0 * (Mul(h.s, p.y) + Mul(h.c, p.z))),
      p.z + Mul(h.s, 2.0 * (Mul(h.c, p.y) - Mul(h.s, p.z))))
  {
    hide Mul;
    Units(h.s);
    var i := Inner(Quat(h.s, 0.0, 0.0, h.c), p);
    Zeros(p, h.c); Zeros(i, h.c);
  }

  lemma PitchTurns(h: HalfAngle, p: Vec3)
    requires OnCircle(h)
    ensures Rotate(About(Vec3(0.0, 1.0, 0.0), h), p) == TurnY(h, p)
  {
    PitchProducts(h, p);
    PlaneProducts(h, p.z, p.x);
    hide Mul, Cos, Sin, Rotate, About;
  }

  lemma PitchProducts(h: HalfAngle, p: Vec3)
    ensures Rotate(About(Vec3(0.0, 1.0, 0.0), h), p) == Vec3(
      p.x + Mul(h.s, 2.0 * (Mul(h.c, p.z) - Mul(h.s, p.x))),
      p.y,
      p.z - Mul(h.s, 2.0 * (Mul(h.s, p.z) + Mul(h.c, p.x))))
  {
    hide Mul;
    Units(h.s);
    var i := Inner(Quat(0.0, h.s, 0.0, h.c), p);
    Zeros(p, h.c); Zeros(i, h.c);
  }

  lemma YawTurns(h: HalfAngle, p: Vec3)
    requires OnCircle(h)
    ensures Rotate(About(Vec3(0.0, 0.0, 1.0), h), p) == TurnZ(h, p)
  {
    YawProducts(h, p);
    PlaneProducts(h, p.x, p.y);
    hide Mul, Cos, Sin, Rotate, About;
  }

  lemma YawProducts(h: HalfAngle, p: Vec3)
    ensures Rotate(About(Vec3(0.0, 0.0, 1.0), h), p) == Vec3(
      p.x - Mul(h.s, 2.0 * (Mul(h.s, p.x) + Mul(h.c, p.y))),
      p.y + Mul(h.s, 2.0 * (Mul(h.c, p.x) - Mul(h.s, p.y))),
      p.z)
  {
    hide Mul;
    Units(h.s);
    var i := Inner(Quat(0.0, 0.0, h.s, h.c), p);
    Zeros(p, h.c); Zeros(i, h.c);
  }

  lemma AboutUnit(h: HalfAngle)
    requires OnCircle(h)
    ensures Unit(About(Vec3(1.0, 0.0, 0.0), h)) && Unit(About(Vec3(0.0, 1.0, 0.0), h))
    ensures Unit(About(Vec3(0.0, 0.0, 1.0), h))
  {
    Units(h.s); Units(0.0);
  }

  /** A declared pose does to a point what its link says in coordinates. */
  lemma PoseTurns(t: Transform, p: Vec3)
    requires Angles(t.rpy)
    ensures Rigid(DeclaredPose(t)) && Apply(DeclaredPose(t), p) == InParent(t, p)
  {
    var RPY(roll, pitch, yaw) := t.rpy;
    var x, y, z := About(Vec3(1.0, 0.0, 0.0), roll), About(Vec3(0.0, 1.0, 0.0), pitch), About(Vec3(0.0, 0.0, 1.0), yaw);
    AboutUnit(roll);
    AboutUnit(pitch);
    AboutUnit(yaw);
    RPYIsYawPitchRoll(t.rpy);
    hide QuatFromRPY, QuatMul, Rotate, Unit, About, TurnX, TurnY, TurnZ;
    RotateMul(y, x, p);
    RotateMul(z, QuatMul(y, x), p);
    RollTurns(roll, p);
    PitchTurns(pitch, TurnX(roll, p));
    YawTurns(yaw, TurnY(pitch, TurnX(roll, p)));
  }

  // ----- one point in all frames -----

  /** The coordinates of one point in frames: wherever a static link is, they are as it declares. */
  ghost predicate OnePoint(ts: seq<Transform>, at: map<Frame, Vec3>) {
    forall t :: t in ts && !t.dynamic ==> t.parent in at && t.child in at && at[t.parent] == InParent(t, at[t.child])
  }

  lemma LinkCarries(ts: seq<Transform>, l: Link, at: map<Frame, Vec3>)
    requires ValidAngles(ts) && OnePoint(ts, at) && l.tf in ts && !l.tf.dynamic
    ensures From(l) in at && To(l) in at && Rigid(LinkPose(Declared(ts), l))
    ensures Apply(LinkPose(Declared(ts), l), at[To(l)]) == at[From(l)]
  {
    hide DeclaredPose, InParent, Apply, Inverse;
    var t := l.tf;
    PoseTurns(t, at[t.child]);
    ApplyInverse(DeclaredPose(t), at[t.child]);
    InverseRigid(DeclaredPose(t));
  }

  lemma InverseRigid(a: Isometry)
    requires Rigid(a)
    ensures Rigid(Inverse(a))
  {
    ThenInverse(a);
  }

  /** p takes the coordinates in b to those in a. */
  ghost predicate Carries(p: Isometry, at: map<Frame, Vec3>, a: Frame, b: Frame) {
    a in at && b in at && Rigid(p) && Apply(p, at[b]) == at[a]
  }

  lemma ThenCarries(p: Isometry, q: Isometry, at: map<Frame, Vec3>, a: Frame, b: Frame, c: Frame)
    requires Carries(p, at, a, b) && Carries(q, at, b, c)
    ensures Carries(Then(p, q), at, a, c)
  {
    hide Then, Apply, Rigid;
    ThenApply(p, q, at[c]);
    ThenRigid(p, q);
  }

  ghost predicate LinksCarry(value: map<Transform, Isometry>, w: seq<Link>, at: map<Frame, Vec3>) {
    forall l :: l in w ==> l.tf in value && Carries(LinkPose(value, l), at, From(l), To(l))
  }

  lemma LinksIn(value: map<Transform, Isometry>, w: seq<Link>, at: map<Frame, Vec3>)
    requires LinksCarry(value, w, at)
    ensures forall l :: l in w ==> l.tf in value
  {
    hide Carries, LinkPose;
  }

  lemma LastLink(ts: seq<Transform>, value: map<Transform, Isometry>, a: Frame, w: seq<Link>, b: Frame,
                 at: map<Frame, Vec3>)
    requires w != [] && Walk(ts, a, w, b) && LinksCarry(value, w, at)
    ensures var init, last := w[..|w| - 1], w[|w| - 1];
      && Walk(ts, a, init, From(last)) && LinksCarry(value, init, at) && From(last) in at
      && last.tf in value && Carries(LinkPose(value, last), at, From(last), b)
  {
    hide LinkPose, Rigid, Apply;
    var init, last := w[..|w| - 1], w[|w| - 1];
    assert last in w && w == init + [last];
  }

  lemma ProductLast(value: map<Transform, Isometry>, w: seq<Link>)
    requires w != [] && forall l :: l in w ==> l.tf in value
    ensures var init, last := w[..|w| - 1], w[|w| - 1];
      && last.tf in value && (forall l :: l in init ==> l.tf in value)
      && Product(value, w) == Then(Product(value, init), LinkPose(value, last))
  {
    hide Then, LinkPose;
    var init, last := w[..|w| - 1], w[|w| - 1];
    assert last in w && w == init + [last];
  }

  lemma NoLinks(ts: seq<Transform>, value: map<Transform, Isometry>, a: Frame, b: Frame, at: map<Frame, Vec3>)
    requires Walk(ts, a, [], b) && b in at
    ensures Carries(Product(value, []), at, a, b)
  {
    hide Apply, Rigid;
    ApplyIdentity(at[b]);
  }

  lemma {:induction false} ProductCarries(ts: seq<Transform>, value: map<Transform, Isometry>, a: Frame, w: seq<Link>,
                                          b: Frame, at: map<Frame, Vec3>)
    requires Walk(ts, a, w, b) && b in at && LinksCarry(value, w, at)
    ensures forall l :: l in w ==> l.tf in value
    ensures Carries(Product(value, w), at, a, b)
  {
    hide *;
    LinksIn(value, w, at);
    if w == [] {
      NoLinks(ts, value, a, b, at);
    } else {
      var init, last := w[..|w| - 1], w[|w| - 1];
      LastLink(ts, value, a, w, b, at);
      ProductCarries(ts, value, a, init, From(last), at);
      ProductLast(value, w);
      ThenCarries(Product(value, init), LinkPose(value, last), at, a, From(last), b);
    }
  }

  /** Along a walk over static links the product carries the coordinates at its end to those at its start. */
  lemma WalkCarries(ts: seq<Transform>, a: Frame, w: seq<Link>, b: Frame, at: map<Frame, Vec3>)
    requires ValidAngles(ts) && OnePoint(ts, at) && Walk(ts, a, w, b) && Static(w) && b in at
    requires forall l :: l in w ==> l.tf in ts
    ensures Carries(Product(Declared(ts), w), at, a, b)
  {
    hide DeclaredPose, InParent, Apply, Then, Inverse, Product, LinkPose, OnePoint, ValidAngles, Walk, From, To;
    forall l | l in w ensures l.tf in Declared(ts) && Carries(LinkPose(Declared(ts), l), at, From(l), To(l)) {
      LinkCarries(ts, l, at);
    }
    ProductCarries(ts, Declared(ts), a, w, b, at);
  }

  lemma ApplyIdentity(p: Vec3)
    ensures Apply(IDENTITY, p) == p && Rigid(IDENTITY)
  {
    RotateOne(p);
  }

  /** A successful lookup carries the coordinates of any point from the source frame to the target frame, by what the
      links declare, on whatever declaration. */
  lemma LookupCarries(ts: seq<Transform>, target: Frame, source: Frame, iso: Isometry, at: map<Frame, Vec3>)
    requires ValidAngles(ts) && Answer(FrameTree(ts), target, source, Ok(iso))
    requires OnePoint(ts, at) && source in at
    ensures target in at && Apply(iso, at[source]) == at[target]
  {
    var w :| Route(ts, target, w, source) && Static(w) && Composes(ts, w, iso);
    RouteWalks(ts, target, w, source);
    WalkCarries(ts, target, w, source, at);
  }

  /** On a rooted tree every point of every frame has coordinates in all of them. */
  lemma PointEverywhere(ts: seq<Transform>, root: Frame, f: Frame, p: Vec3) returns (at: map<Frame, Vec3>)
    requires RootedTree(ts, root) && ValidAngles(ts) && f in FrameSet(ts)
    ensures OnePoint(ts, at) && at.Keys == FrameSet(ts) && at[f] == p
  {
    hide RootedTree, RootPose, FrameSet, Apply, Inverse, Then, InParent, DeclaredPose;
    var value := Declared(ts);
    DeclaredMoment(ts);
    var x := Apply(RootPose(ts, value, root, f), p);
    at := map g | g in FrameSet(ts) :: Apply(Inverse(RootPose(ts, value, root, g)), x);
    ApplyInverse(RootPose(ts, value, root, f), p);
    forall t | t in ts && !t.dynamic
      ensures t.parent in at && t.child in at && at[t.parent] == InParent(t, at[t.child])
    {
      ChildPose(ts, value, root, t);
      UpOne(t, RootPose(ts, value, root, t.parent), x);
    }
  }

  lemma UpOne(t: Transform, up: Isometry, x: Vec3)
    requires Angles(t.rpy) && Rigid(up)
    ensures InParent(t, Apply(Inverse(Then(up, DeclaredPose(t))), x)) == Apply(Inverse(up), x)
  {
    var pose := DeclaredPose(t);
    PoseTurns(t, Apply(Inverse(Then(up, pose)), x));
    hide InParent, Apply, Inverse, Then, DeclaredPose;
    InverseThen(up, pose);
    InverseRigid(pose);
    InverseRigid(up);
    ThenApply(Inverse(pose), Inverse(up), x);
    ApplyInverse(pose, Apply(Inverse(up), x));
  }

  /** So a lookup on a rooted tree answers with the one motion of points that the declaration gives. */
  lemma LookupMovesPoints(ts: seq<Transform>, root: Frame, target: Frame, source: Frame, iso: Isometry, p: Vec3)
    requires RootedTree(ts, root) && ValidAngles(ts) && Answer(FrameTree(ts), target, source, Ok(iso))
    ensures exists at ::
      OnePoint(ts, at) && source in at && target in at && at[source] == p && at[target] == Apply(iso, p)
    ensures forall at :: OnePoint(ts, at) && source in at && at[source] == p ==>
      target in at && at[target] == Apply(iso, p)
  {
    hide Answer, OnePoint, Apply, RootedTree;
    AnsweredNamed(ts, target, source, iso);
    var at := PointEverywhere(ts, root, source, p);
    LookupCarries(ts, target, source, iso, at);
    forall at | OnePoint(ts, at) && source in at && at[source] == p
      ensures target in at && at[target] == Apply(iso, p) {
      LookupCarries(ts, target, source, iso, at);
    }
  }

  lemma AnsweredNamed(ts: seq<Transform>, target: Frame, source: Frame, iso: Isometry)
    requires Answer(FrameTree(ts), target, source, Ok(iso))
    ensures source in FrameSet(ts)
  {
    HasNamed(FrameTree(ts), source);
  }

  /** The lookup over one static link: turned about x by roll, about y by pitch, about z by yaw, and shifted. */
  lemma LinkAnswered(ts: seq<Transform>, root: Frame, t: Transform, r: Result<Isometry, LookupError>)
    requires RootedTree(ts, root) && ValidAngles(ts) && t in ts && !t.dynamic
    requires Answer(FrameTree(ts), t.parent, t.child, r)
    ensures r.Ok? && forall p :: Apply(r.value, p) == InParent(t, p)
  {
    hide RootedTree, Answer, Apply, InParent;
    FrameMember(ts, t);
    var w := [Link(t, false)];
    assert w[..0] == [] && Walk(ts, t.parent, w, t.child);
    assert Static(w);
    LookupSucceeds(ts, root, t.parent, t.child, r);
    forall p ensures Apply(r.value, p) == InParent(t, p) {
      var at := PointEverywhere(ts, root, t.child, p);
      LookupCarries(ts, t.parent, t.child, r.value, at);
      assert at[t.parent] == InParent(t, at[t.child]);
    }
  }
}
