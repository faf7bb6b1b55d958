/**
 * Rigid motions of frames.go: quaternions, rotations and isometries, over the reals.
 *
 * Quaternions are (x, y, z, w) as in the source.  Angles enter only through the cosine and sine of
 * their halves, so a roll-pitch-yaw triple is given by three points of the unit circle.
 */
module Isometries {

  datatype Vec3 = Vec3(x: real, y: real, z: real)

  datatype Quat = Quat(x: real, y: real, z: real, w: real)

  /** The pose of one frame in another: first rotate, then translate. */
  datatype Isometry = Isometry(translation: Vec3, rotation: Quat)

  /** Cosine and sine of half an angle. */
  datatype HalfAngle = HalfAngle(c: real, s: real)

  datatype RPY = RPY(roll: HalfAngle, pitch: HalfAngle, yaw: HalfAngle)

  const ZERO := Vec3(0.0, 0.0, 0.0)
  const NO_ROTATION := Quat(0.0, 0.0, 0.0, 1.0)
  const IDENTITY := Isometry(ZERO, NO_ROTATION)

  /** Multiplication under a name, so that products are matched by their factors. */
  function Mul(a: real, b: real): real {
    a * b
  }

  function Add3(a: Vec3, b: Vec3): Vec3 {
    Vec3(a.x + b.x, a.y + b.y, a.z + b.z)
  }

  function Neg3(a: Vec3): Vec3 {
    Vec3(-a.x, -a.y, -a.z)
  }

  function Dot(a: Vec3, b: Vec3): real {
    Mul(a.x, b.x) + Mul(a.y, b.y) + Mul(a.z, b.z)
  }

  function Cross(a: Vec3, b: Vec3): Vec3 {
    Vec3(
      Mul(a.y, b.z) - Mul(a.z, b.y),
      Mul(a.z, b.x) - Mul(a.x, b.z),
      Mul(a.x, b.y) - Mul(a.y, b.x))
  }

  function QuatMul(a: Quat, b: Quat): Quat {
    Quat(
      Mul(a.w, b.x) + Mul(a.x, b.w) + Mul(a.y, b.z) - Mul(a.z, b.y),
      Mul(a.w, b.y) - Mul(a.x, b.z) + Mul(a.y, b.w) + Mul(a.z, b.x),
      Mul(a.w, b.z) + Mul(a.x, b.y) - Mul(a.y, b.x) + Mul(a.z, b.w),
      Mul(a.w, b.w) - Mul(a.x, b.x) - Mul(a.y, b.y) - Mul(a.z, b.z))
  }

  function QuatConj(q: Quat): Quat {
    Quat(-q.x, -q.y, -q.z, q.w)
  }

  function Norm2(q: Quat): real {
    Mul(q.x, q.x) + Mul(q.y, q.y) + Mul(q.z, q.z) + Mul(q.w, q.w)
  }

  predicate Unit(q: Quat) {
    Norm2(q) == 1.0
  }

  /** The doubled inner vector 2 (u x v + w v) of the source's rotation, where q is (u, w). */
  function Inner(q: Quat, v: Vec3): Vec3 {
    var t := Cross(Vec3(q.x, q.y, q.z), v);
    Vec3(2.0 * (t.x + Mul(q.w, v.x)), 2.0 * (t.y + Mul(q.w, v.y)), 2.0 * (t.z + Mul(q.w, v.z)))
  }

  /** The source's rotation: v + u x Inner. */
  function Rotate(q: Quat, v: Vec3): Vec3 {
    Add3(v, Cross(Vec3(q.x, q.y, q.z), Inner(q, v)))
  }

  function QuatFromRPY(rpy: RPY): Quat {
    var RPY(HalfAngle(cr, sr), HalfAngle(cp, sp), HalfAngle(cy, sy)) := rpy;
    Quat(
      Mul(Mul(sr, cp), cy) - Mul(Mul(cr, sp), sy),
      Mul(Mul(cr, sp), cy) + Mul(Mul(sr, cp), sy),
      Mul(Mul(cr, cp), sy) - Mul(Mul(sr, sp), cy),
      Mul(Mul(cr, cp), cy) + Mul(Mul(sr, sp), sy))
  }

  function Then(a: Isometry, b: Isometry): Isometry {
    Isometry(Add3(a.translation, Rotate(a.rotation, b.translation)), QuatMul(a.rotation, b.rotation))
  }

  function Inverse(a: Isometry): Isometry {
    var q := QuatConj(a.rotation);
    Isometry(Neg3(Rotate(q, a.translation)), q)
  }

  function Apply(a: Isometry, p: Vec3): Vec3 {
    Add3(a.translation, Rotate(a.rotation, p))
  }

  predicate Rigid(a: Isometry) {
    Unit(a.rotation)
  }

  // ----- quaternion algebra -----

  // Associativity, component by component: d stands for the product of a and b, e for that of b
  // and c.  Over plain reals the solver sees polynomials.
  lemma AssocPolynomials(a1: real, a2: real, a3: real, a0: real, b1: real, b2: real, b3: real, b0: real,
                         c1: real, c2: real, c3: real, c0: real, d1: real, d2: real, d3: real, d0: real,
                         e1: real, e2: real, e3: real, e0: real)
    requires d1 == a0 * b1 + a1 * b0 + a2 * b3 - a3 * b2 && d2 == a0 * b2 - a1 * b3 + a2 * b0 + a3 * b1
    requires d3 == a0 * b3 + a1 * b2 - a2 * b1 + a3 * b0 && d0 == a0 * b0 - a1 * b1 - a2 * b2 - a3 * b3
    requires e1 == b0 * c1 + b1 * c0 + b2 * c3 - b3 * c2 && e2 == b0 * c2 - b1 * c3 + b2 * c0 + b3 * c1
    requires e3 == b0 * c3 + b1 * c2 - b2 * c1 + b3 * c0 && e0 == b0 * c0 - b1 * c1 - b2 * c2 - b3 * c3
    ensures d0 * c1 + d1 * c0 + d2 * c3 - d3 * c2 == a0 * e1 + a1 * e0 + a2 * e3 - a3 * e2
    ensures d0 * c0 - d1 * c1 - d2 * c2 - d3 * c3 == a0 * e0 - a1 * e1 - a2 * e2 - a3 * e3
  {
    assert d0 * c1 == (a0 * b0 - a1 * b1 - a2 * b2 - a3 * b3) * c1;
    assert d1 * c0 == (a0 * b1 + a1 * b0 + a2 * b3 - a3 * b2) * c0;
    assert d2 * c3 == (a0 * b2 - a1 * b3 + a2 * b0 + a3 * b1) * c3;
    assert d3 * c2 == (a0 * b3 + a1 * b2 - a2 * b1 + a3 * b0) * c2;
    assert a0 * e1 == a0 * (b0 * c1 + b1 * c0 + b2 * c3 - b3 * c2);
    assert a1 * e0 == a1 * (b0 * c0 - b1 * c1 - b2 * c2 - b3 * c3);
    assert a2 * e3 == a2 * (b0 * c3 + b1 * c2 - b2 * c1 + b3 * c0);
    assert a3 * e2 == a3 * (b0 * c2 - b1 * c3 + b2 * c0 + b3 * c1);
    assert d0 * c0 == (a0 * b0 - a1 * b1 - a2 * b2 - a3 * b3) * c0;
    assert d1 * c1 == (a0 * b1 + a1 * b0 + a2 * b3 - a3 * b2) * c1;
    assert d2 * c2 == (a0 * b2 - a1 * b3 + a2 * b0 + a3 * b1) * c2;
    assert d3 * c3 == (a0 * b3 + a1 * b2 - a2 * b1 + a3 * b0) * c3;
    assert a0 * e0 == a0 * (b0 * c0 - b1 * c1 - b2 * c2 - b3 * c3);
    assert a1 * e1 == a1 * (b0 * c1 + b1 * c0 + b2 * c3 - b3 * c2);
    assert a2 * e2 == a2 * (b0 * c2 - b1 * c3 + b2 * c0 + b3 * c1);
    assert a3 * e3 == a3 * (b0 * c3 + b1 * c2 - b2 * c1 + b3 * c0);
  }

  lemma AssocProducts(a1: real, a2: real, a3: real, a0: real, b1: real, b2: real, b3: real, b0: real,
                      c1: real, c2: real, c3: real, c0: real, d1: real, d2: real, d3: real, d0: real,
                      e1: real, e2: real, e3: real, e0: real)
    requires d1 == Mul(a0, b1) + Mul(a1, b0) + Mul(a2, b3) - Mul(a3, b2)
    requires d2 == Mul(a0, b2) - Mul(a1, b3) + Mul(a2, b0) + Mul(a3, b1)
    requires d3 == Mul(a0, b3) + Mul(a1, b2) - Mul(a2, b1) + Mul(a3, b0)
    requires d0 == Mul(a0, b0) - Mul(a1, b1) - Mul(a2, b2) - Mul(a3, b3)
    requires e1 == Mul(b0, c1) + Mul(b1, c0) + Mul(b2, c3) - Mul(b3, c2)
    requires e2 == Mul(b0, c2) - Mul(b1, c3) + Mul(b2, c0) + Mul(b3, c1)
    requires e3 == Mul(b0, c3) + Mul(b1, c2) - Mul(b2, c1) + Mul(b3, c0)
    requires e0 == Mul(b0, c0) - Mul(b1, c1) - Mul(b2, c2) - Mul(b3, c3)
    ensures Mul(d0, c1) + Mul(d1, c0) + Mul(d2, c3) - Mul(d3, c2)
         == Mul(a0, e1) + Mul(a1, e0) + Mul(a2, e3) - Mul(a3, e2)
    ensures Mul(d0, c0) - Mul(d1, c1) - Mul(d2, c2) - Mul(d3, c3)
         == Mul(a0, e0) - Mul(a1, e1) - Mul(a2, e2) - Mul(a3, e3)
  {
    AssocPolynomials(a1, a2, a3, a0, b1, b2, b3, b0, c1, c2, c3, c0, d1, d2, d3, d0, e1, e2, e3, e0);
  }

  lemma QuatMulAssoc(a: Quat, b: Quat, c: Quat)
    ensures QuatMul(QuatMul(a, b), c) == QuatMul(a, QuatMul(b, c))
  {
    var d, e := QuatMul(a, b), QuatMul(b, c);
    // The product commutes with the cyclic renaming x -> y -> z -> x, so one identity serves three.
    AssocProducts(a.x, a.y, a.z, a.w, b.x, b.y, b.z, b.w, c.x, c.y, c.z, c.w, d.x, d.y, d.z, d.w, e.x, e.y, e.z, e.w);
    AssocProducts(a.y, a.z, a.x, a.w, b.y, b.z, b.x, b.w, c.y, c.z, c.x, c.w, d.y, d.z, d.x, d.w, e.y, e.z, e.x, e.w);
    AssocProducts(a.z, a.x, a.y, a.w, b.z, b.x, b.y, b.w, c.z, c.x, c.y, c.w, d.z, d.x, d.y, d.w, e.z, e.x, e.y, e.w);
  }

  lemma NormPolynomial(a1: real, a2: real, a3: real, a0: real, b1: real, b2: real, b3: real, b0: real,
                       d1: real, d2: real, d3: real, d0: real)
    requires d1 == a0 * b1 + a1 * b0 + a2 * b3 - a3 * b2 && d2 == a0 * b2 - a1 * b3 + a2 * b0 + a3 * b1
    requires d3 == a0 * b3 + a1 * b2 - a2 * b1 + a3 * b0 && d0 == a0 * b0 - a1 * b1 - a2 * b2 - a3 * b3
    ensures d1 * d1 + d2 * d2 + d3 * d3 + d0 * d0
         == (a1 * a1 + a2 * a2 + a3 * a3 + a0 * a0) * (b1 * b1 + b2 * b2 + b3 * b3 + b0 * b0)
  {
  }

  /** Euler's four-square identity. */
  lemma QuatMulNorm(a: Quat, b: Quat)
    ensures Norm2(QuatMul(a, b)) == Mul(Norm2(a), Norm2(b))
  {
    var d := QuatMul(a, b);
    NormPolynomial(a.x, a.y, a.z, a.w, b.x, b.y, b.z, b.w, d.x, d.y, d.z, d.w);
  }

  lemma ConjProducts(a: real, b: real)
    ensures Mul(-a, -b) == Mul(b, a) && Mul(-a, b) == -Mul(b, a) == Mul(a, -b) && Mul(a, b) == Mul(b, a)
  {
  }

  lemma QuatConjMul(a: Quat, b: Quat)
    ensures QuatConj(QuatMul(a, b)) == QuatMul(QuatConj(b), QuatConj(a))
  {
    ConjProducts(b.x, a.x); ConjProducts(b.x, a.y); ConjProducts(b.x, a.z); ConjProducts(b.x, a.w);
    ConjProducts(b.y, a.x); ConjProducts(b.y, a.y); ConjProducts(b.y, a.z); ConjProducts(b.y, a.w);
    ConjProducts(b.z, a.x); ConjProducts(b.z, a.y); ConjProducts(b.z, a.z); ConjProducts(b.z, a.w);
    ConjProducts(b.w, a.x); ConjProducts(b.w, a.y); ConjProducts(b.w, a.z); ConjProducts(b.w, a.w);
  }

  lemma QuatMulConj(a: Quat)
    ensures QuatMul(a, QuatConj(a)) == Quat(0.0, 0.0, 0.0, Norm2(a))
    ensures QuatMul(QuatConj(a), a) == Quat(0.0, 0.0, 0.0, Norm2(a))
  {
  }

  lemma QuatMulOne(a: Quat)
    ensures QuatMul(a, NO_ROTATION) == a == QuatMul(NO_ROTATION, a)
  {
  }

  /** The textbook rotation: q (v, 0) conj(q). */
  function Sandwich(q: Quat, v: Vec3): Quat {
    QuatMul(QuatMul(q, Pure(v)), QuatConj(q))
  }

  function Pure(v: Vec3): Quat {
    Quat(v.x, v.y, v.z, 0.0)
  }

  // p is the product of q and (v, 0), t the vector Inner(q, v).
  lemma SandwichPolynomial(x: real, y: real, z: real, w: real, v1: real, v2: real, v3: real,
                           p1: real, p2: real, p3: real, p0: real, t2: real, t3: real)
    requires x * x + y * y + z * z + w * w == 1.0
    requires p1 == w * v1 + y * v3 - z * v2 && p2 == w * v2 - x * v3 + z * v1
    requires p3 == w * v3 + x * v2 - y * v1 && p0 == -(x * v1) - y * v2 - z * v3
    requires t2 == 2.0 * (z * v1 - x * v3 + w * v2) && t3 == 2.0 * (x * v2 - y * v1 + w * v3)
    ensures -(p0 * x) + p1 * w - p2 * z + p3 * y == v1 + (y * t3 - z * t2)
  {
    Spread3(-x, v1, -y, v2, -z, v3, x, p0);
    Spread3(w, v1, y, v3, -z, v2, w, p1);
    Spread3(w, v2, -x, v3, z, v1, z, p2);
    Spread3(w, v3, x, v2, -y, v1, y, p3);
    Spread3(x, v2, -y, v1, w, v3, y, t3 / 2.0);
    Spread3(z, v1, -x, v3, w, v2, z, t2 / 2.0);
    SpreadUnit(x, y, z, w, v1);
  }

  /** A sum of three products, multiplied out. */
  lemma Spread3(a: real, p: real, b: real, q: real, c: real, r: real, k: real, sum: real)
    requires sum == a * p + b * q + c * r
    ensures k * sum == sum * k == k * a * p + k * b * q + k * c * r
  {
  }

  lemma SpreadUnit(x: real, y: real, z: real, w: real, v: real)
    requires x * x + y * y + z * z + w * w == 1.0
    ensures v == x * x * v + y * y * v + z * z * v + w * w * v
  {
    var sum := x * x + y * y + z * z + w * w;
    assert v == sum * v;
  }

  lemma SandwichScalar(x: real, y: real, z: real, w: real, v1: real, v2: real, v3: real,
                       p1: real, p2: real, p3: real, p0: real)
    requires p1 == w * v1 + y * v3 - z * v2 && p2 == w * v2 - x * v3 + z * v1
    requires p3 == w * v3 + x * v2 - y * v1 && p0 == -(x * v1) - y * v2 - z * v3
    ensures p0 * w + p1 * x + p2 * y + p3 * z == 0.0
  {
    Spread3(-x, v1, -y, v2, -z, v3, w, p0);
    Spread3(w, v1, y, v3, -z, v2, x, p1);
    Spread3(w, v2, -x, v3, z, v1, y, p2);
    Spread3(w, v3, x, v2, -y, v1, z, p3);
  }

  lemma SandwichProducts(x: real, y: real, z: real, w: real, v1: real, v2: real, v3: real,
                         p1: real, p2: real, p3: real, p0: real, t2: real, t3: real)
    requires Mul(x, x) + Mul(y, y) + Mul(z, z) + Mul(w, w) == 1.0
    requires p1 == Mul(w, v1) + Mul(y, v3) - Mul(z, v2) && p2 == Mul(w, v2) - Mul(x, v3) + Mul(z, v1)
    requires p3 == Mul(w, v3) + Mul(x, v2) - Mul(y, v1) && p0 == -Mul(x, v1) - Mul(y, v2) - Mul(z, v3)
    requires t2 == 2.0 * (Mul(z, v1) - Mul(x, v3) + Mul(w, v2)) && t3 == 2.0 * (Mul(x, v2) - Mul(y, v1) + Mul(w, v3))
    ensures Mul(p0, -x) + Mul(p1, w) + Mul(p2, -z) - Mul(p3, -y) == v1 + (Mul(y, t3) - Mul(z, t2))
    ensures Mul(p0, w) - Mul(p1, -x) - Mul(p2, -y) - Mul(p3, -z) == 0.0
  {
    SandwichPolynomial(x, y, z, w, v1, v2, v3, p1, p2, p3, p0, t2, t3);
    SandwichScalar(x, y, z, w, v1, v2, v3, p1, p2, p3, p0);
  }

  lemma TimesZero(q: Quat)
    ensures Mul(q.x, 0.0) == Mul(q.y, 0.0) == Mul(q.z, 0.0) == Mul(q.w, 0.0) == 0.0
  {
  }

  lemma RotateIsSandwich(q: Quat, v: Vec3)
    requires Unit(q)
    ensures Sandwich(q, v) == Pure(Rotate(q, v))
  {
    TimesZero(q);
    var p := QuatMul(q, Pure(v));
    var t2 := Inner(q, v);
    SandwichProducts(q.x, q.y, q.z, q.w, v.x, v.y, v.z, p.x, p.y, p.z, p.w, t2.y, t2.z);
    SandwichProducts(q.y, q.z, q.x, q.w, v.y, v.z, v.x, p.y, p.z, p.x, p.w, t2.z, t2.x);
    SandwichProducts(q.z, q.x, q.y, q.w, v.z, v.x, v.y, p.z, p.x, p.y, p.w, t2.x, t2.y);
  }

  lemma MulAdd(a: real, b: real, c: real)
    ensures Mul(a, b + c) == Mul(a, b) + Mul(a, c)
  {
  }

  lemma CrossAdd(u: Vec3, v: Vec3, v': Vec3)
    ensures Cross(u, Add3(v, v')) == Add3(Cross(u, v), Cross(u, v'))
  {
    MulAdd(u.x, v.y, v'.y); MulAdd(u.x, v.z, v'.z);
    MulAdd(u.y, v.x, v'.x); MulAdd(u.y, v.z, v'.z);
    MulAdd(u.z, v.x, v'.x); MulAdd(u.z, v.y, v'.y);
  }

  lemma InnerAdd(q: Quat, v: Vec3, v': Vec3)
    ensures Inner(q, Add3(v, v')) == Add3(Inner(q, v), Inner(q, v'))
  {
    CrossAdd(Vec3(q.x, q.y, q.z), v, v');
    MulAdd(q.w, v.x, v'.x); MulAdd(q.w, v.y, v'.y); MulAdd(q.w, v.z, v'.z);
  }

  lemma RotateAdd(q: Quat, v: Vec3, v': Vec3)
    ensures Rotate(q, Add3(v, v')) == Add3(Rotate(q, v), Rotate(q, v'))
  {
    InnerAdd(q, v, v');
    CrossAdd(Vec3(q.x, q.y, q.z), Inner(q, v), Inner(q, v'));
  }

  function About(axis: Vec3, h: HalfAngle): Quat {
    Quat(Mul(h.s, axis.x), Mul(h.s, axis.y), Mul(h.s, axis.z), h.c)
  }

  lemma Units(a: real)
    ensures Mul(a, 0.0) == 0.0 == Mul(0.0, a) && Mul(a, 1.0) == a == Mul(1.0, a)
  {
  }

  /** Roll-pitch-yaw means: roll about x first, then pitch about y, then yaw about z. */
  lemma RPYIsYawPitchRoll(rpy: RPY)
    ensures QuatFromRPY(rpy) ==
      QuatMul(About(Vec3(0.0, 0.0, 1.0), rpy.yaw),
              QuatMul(About(Vec3(0.0, 1.0, 0.0), rpy.pitch), About(Vec3(1.0, 0.0, 0.0), rpy.roll)))
  {
    var RPY(HalfAngle(cr, sr), HalfAngle(cp, sp), HalfAngle(cy, sy)) := rpy;
    Units(sr); Units(cr); Units(sp); Units(cp); Units(sy); Units(cy); Units(0.0);
    ConjProducts(sr, sp); ConjProducts(sr, cp); ConjProducts(cr, sp); ConjProducts(cr, cp);
    var inner := QuatMul(About(Vec3(0.0, 1.0, 0.0), rpy.pitch), About(Vec3(1.0, 0.0, 0.0), rpy.roll));
    assert inner == Quat(Mul(sr, cp), Mul(cr, sp), -Mul(sr, sp), Mul(cr, cp));
    ConjProducts(Mul(sr, cp), sy);
    ConjProducts(Mul(cr, sp), sy);
    ConjProducts(Mul(sr, sp), sy);
    ConjProducts(Mul(cr, cp), sy);
    ConjProducts(Mul(sr, cp), cy);
    ConjProducts(Mul(cr, sp), cy);
    ConjProducts(Mul(sr, sp), cy);
    ConjProducts(Mul(cr, cp), cy);
    Units(Mul(sr, cp)); Units(Mul(cr, sp)); Units(-Mul(sr, sp)); Units(Mul(cr, cp));
  }

  // ----- rotations -----

  /** Rotating by a product is rotating twice. */
  lemma RotateMul(a: Quat, b: Quat, v: Vec3)
    requires Unit(a) && Unit(b)
    ensures Unit(QuatMul(a, b))
    ensures Rotate(QuatMul(a, b), v) == Rotate(a, Rotate(b, v))
  {
    QuatMulNorm(a, b);
    var ab, pv := QuatMul(a, b), Pure(v);
    calc {
      Pure(Rotate(ab, v));
    ==  { RotateIsSandwich(ab, v); QuatConjMul(a, b); }
      QuatMul(QuatMul(ab, pv), QuatMul(QuatConj(b), QuatConj(a)));
    ==  { QuatMulAssoc(QuatMul(ab, pv), QuatConj(b), QuatConj(a)); }
      QuatMul(QuatMul(QuatMul(ab, pv), QuatConj(b)), QuatConj(a));
    ==  { QuatMulAssoc(a, b, pv); QuatMulAssoc(a, QuatMul(b, pv), QuatConj(b)); }
      QuatMul(QuatMul(a, Sandwich(b, v)), QuatConj(a));
    ==  { RotateIsSandwich(b, v); RotateIsSandwich(a, Rotate(b, v)); }
      Pure(Rotate(a, Rotate(b, v)));
    }
  }

  lemma ConjUnit(q: Quat)
    requires Unit(q)
    ensures Unit(QuatConj(q)) && QuatConj(QuatConj(q)) == q
    ensures QuatMul(q, QuatConj(q)) == NO_ROTATION == QuatMul(QuatConj(q), q)
  {
    QuatMulConj(q);
    ConjProducts(q.x, q.x); ConjProducts(q.y, q.y); ConjProducts(q.z, q.z);
  }

  lemma RotateOne(v: Vec3)
    ensures Rotate(NO_ROTATION, v) == v
  {
  }

  /** The conjugate rotates back. */
  lemma RotateConj(q: Quat, v: Vec3)
    requires Unit(q)
    ensures Rotate(QuatConj(q), Rotate(q, v)) == v == Rotate(q, Rotate(QuatConj(q), v))
  {
    ConjUnit(q);
    RotateMul(QuatConj(q), q, v);
    RotateMul(q, QuatConj(q), v);
    RotateOne(v);
  }

  lemma RotateKeepsLength(q: Quat, v: Vec3)
    requires Unit(q)
    ensures Dot(Rotate(q, v), Rotate(q, v)) == Dot(v, v)
  {
    RotateIsSandwich(q, v);
    ConjUnit(q);
    QuatMulNorm(q, Pure(v));
    QuatMulNorm(QuatMul(q, Pure(v)), QuatConj(q));
    assert Norm2(Pure(v)) == Dot(v, v);
    assert Norm2(Pure(Rotate(q, v))) == Dot(Rotate(q, v), Rotate(q, v));
  }

  lemma DotSquare(v: Vec3, w: Vec3)
    ensures Dot(Add3(v, w), Add3(v, w)) == Dot(v, v) + 2.0 * Dot(v, w) + Dot(w, w)
  {
  }

  /** Rotations preserve dot products, hence lengths and angles: by polarisation. */
  lemma RotateKeepsDot(q: Quat, v: Vec3, w: Vec3)
    requires Unit(q)
    ensures Dot(Rotate(q, v), Rotate(q, w)) == Dot(v, w)
  {
    RotateKeepsLength(q, v);
    RotateKeepsLength(q, w);
    RotateKeepsLength(q, Add3(v, w));
    RotateAdd(q, v, w);
    DotSquare(v, w);
    DotSquare(Rotate(q, v), Rotate(q, w));
  }

  // ----- isometries form a group acting on points -----

  lemma ThenRigid(a: Isometry, b: Isometry)
    requires Rigid(a) && Rigid(b)
    ensures Rigid(Then(a, b)) && Rigid(Inverse(a))
  {
    QuatMulNorm(a.rotation, b.rotation);
    ConjUnit(a.rotation);
  }

  /** a.Then(b) moves a point by b first and by a second. */
  lemma ThenApply(a: Isometry, b: Isometry, p: Vec3)
    requires Rigid(a) && Rigid(b)
    ensures Apply(Then(a, b), p) == Apply(a, Apply(b, p))
  {
    RotateMul(a.rotation, b.rotation, p);
    RotateAdd(a.rotation, b.translation, Rotate(b.rotation, p));
  }

  lemma ThenAssoc(a: Isometry, b: Isometry, c: Isometry)
    requires Rigid(a) && Rigid(b) && Rigid(c)
    ensures Then(Then(a, b), c) == Then(a, Then(b, c))
  {
    QuatMulAssoc(a.rotation, b.rotation, c.rotation);
    ThenApply(a, b, c.translation);
  }

  lemma ThenIdentity(a: Isometry)
    ensures Then(a, IDENTITY) == a == Then(IDENTITY, a)
  {
    QuatMulOne(a.rotation);
    RotateOne(a.translation);
    RotateZero(a.rotation);
  }

  lemma RotateZero(q: Quat)
    ensures Rotate(q, ZERO) == ZERO
  {
  }

  lemma RotateNeg(q: Quat, v: Vec3)
    ensures Rotate(q, Neg3(v)) == Neg3(Rotate(q, v))
  {
    RotateAdd(q, v, Neg3(v));
    RotateZero(q);
  }

  /** Inverse is a two-sided inverse. */
  lemma ThenInverse(a: Isometry)
    requires Rigid(a)
    ensures Then(a, Inverse(a)) == IDENTITY == Then(Inverse(a), a)
  {
    ConjUnit(a.rotation);
    var q := QuatConj(a.rotation);
    RotateNeg(a.rotation, Rotate(q, a.translation));
    RotateConj(a.rotation, a.translation);
  }

  /** A frame's pose seen from itself and back again. */
  lemma ApplyInverse(a: Isometry, p: Vec3)
    requires Rigid(a)
    ensures Apply(Inverse(a), Apply(a, p)) == p == Apply(a, Apply(Inverse(a), p))
  {
    ThenRigid(a, a);
    ThenInverse(a);
    ThenApply(Inverse(a), a, p);
    ThenApply(a, Inverse(a), p);
    RotateOne(p);
  }

  lemma InverseThen(a: Isometry, b: Isometry)
    requires Rigid(a) && Rigid(b)
    ensures Inverse(Then(a, b)) == Then(Inverse(b), Inverse(a))
  {
    var i, j := Inverse(a), Inverse(b);
    ThenRigid(a, b); ThenRigid(b, a); ThenRigid(j, i);
    var k := Inverse(Then(a, b));
    ThenRigid(Then(a, b), a);
    calc {
      k;
    ==  { ThenIdentity(k); ThenInverse(a); }
      Then(k, Then(a, i));
    ==  { ThenIdentity(a); ThenInverse(b); ThenAssoc(a, b, j); }
      Then(k, Then(Then(Then(a, b), j), i));
    ==  { ThenAssoc(Then(a, b), j, i); ThenAssoc(k, Then(a, b), Then(j, i)); }
      Then(Then(k, Then(a, b)), Then(j, i));
    ==  { ThenInverse(Then(a, b)); ThenIdentity(Then(j, i)); }
      Then(j, i);
    }
  }

  // ----- roll, pitch, yaw -----

  predicate OnCircle(h: HalfAngle) {
    Mul(h.c, h.c) + Mul(h.s, h.s) == 1.0
  }

  predicate Angles(rpy: RPY) {
    OnCircle(rpy.roll) && OnCircle(rpy.pitch) && OnCircle(rpy.yaw)
  }

  /** Every declared orientation is a rotation. */
  lemma QuatFromRPYUnit(rpy: RPY)
    requires Angles(rpy)
    ensures Unit(QuatFromRPY(rpy))
  {
    RPYIsYawPitchRoll(rpy);
    var r := About(Vec3(1.0, 0.0, 0.0), rpy.roll);
    var p := About(Vec3(0.0, 1.0, 0.0), rpy.pitch);
    var y := About(Vec3(0.0, 0.0, 1.0), rpy.yaw);
    QuatMulNorm(p, r);
    QuatMulNorm(y, QuatMul(p, r));
  }
}
