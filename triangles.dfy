// triangle.h: the face normal of a triangle, its padded bounding box and the
// Moller-Trumbore intersection, whose guards decide whether the hit record is
// written.

module Triangles {
  import opened Util
  import opened Vectors
  import opened Rays
  import opened Boxes
  import opened Hittables

  datatype Triangle<M> = Triangle(a: Vec3, b: Vec3, c: Vec3, mat: M)

  /** Triangle::normal: the unit vector along cross(b - a, c - a). `sqrt` stands for std::sqrt. */
  function Normal<M>(tri: Triangle<M>, sqrt: real -> real): Vec3
  {
    UnitVector(Cross(Sub(tri.b, tri.a), Sub(tri.c, tri.a)), sqrt)
  }

  /** The normal is perpendicular to both edges from `a`, whatever `sqrt` returns. */
  lemma NormalPerpendicular<M>(tri: Triangle<M>, sqrt: real -> real)
    ensures Dot(Normal(tri, sqrt), Sub(tri.b, tri.a)) == 0.0
    ensures Dot(Normal(tri, sqrt), Sub(tri.c, tri.a)) == 0.0
  {
    var e1, e2 := Sub(tri.b, tri.a), Sub(tri.c, tri.a);
    var n := Cross(e1, e2);
    CrossOrthogonal(e1, e2);
    var len := sqrt(n.LengthSquared());
    if len > 0.0 {
      DotScale(n, e1, 1.0 / len);
      DotScale(n, e2, 1.0 / len);
    }
  }

  // ---------------------------------------------------------------------------
  // Triangle::getBoundingBox

  /** The box of the three vertices before padding: min of the mins, max of the maxes. */
  function VertexBox<M>(tri: Triangle<M>): (box: Aabb)
    ensures ValidBox(box)
    ensures InBox(box, tri.a) && InBox(box, tri.b) && InBox(box, tri.c)
  {
    Aabb(Min(Min(tri.a, tri.b), tri.c), Max(Max(tri.a, tri.b), tri.c))
  }

  /**
   * Triangle::getBoundingBox: the vertex box with every dimension thinner than
   * MIN_SIZE raised to MIN_SIZE by moving `max` only.
   */
  function BoundingBox<M>(tri: Triangle<M>): (box: Aabb)
    ensures box.min == VertexBox(tri).min && Contains(box, VertexBox(tri)) && ValidBox(box)
    ensures box.max.x - box.min.x >= MinSize && box.max.y - box.min.y >= MinSize && box.max.z - box.min.z >= MinSize
    ensures InBox(box, tri.a) && InBox(box, tri.b) && InBox(box, tri.c)
  {
    var box := PadToMinSize(VertexBox(tri));
    InBoxMonotone(box, VertexBox(tri), tri.a);
    InBoxMonotone(box, VertexBox(tri), tri.b);
    InBoxMonotone(box, VertexBox(tri), tri.c);
    box
  }

  /** The vertex box is the least box holding the three vertices. */
  lemma VertexBoxLeast<M>(tri: Triangle<M>, box: Aabb)
    requires InBox(box, tri.a) && InBox(box, tri.b) && InBox(box, tri.c)
    ensures Contains(box, VertexBox(tri))
  {
  }

  // ---------------------------------------------------------------------------
  // Triangle::hit

  /** The quantities Triangle::hit derives once the determinant is known to be usable. */
  datatype Solution = Solution(u: real, v: real, t: real)

  /** The determinant z = dot(b - a, cross(d, c - a)). */
  function Determinant<M>(tri: Triangle<M>, r: Ray): real
  {
    Dot(Sub(tri.b, tri.a), Cross(r.direction, Sub(tri.c, tri.a)))
  }

  /** The first guard: the ray is (nearly) parallel to the triangle's plane. */
  predicate Parallel<M>(tri: Triangle<M>, r: Ray)
  {
    -0.00000001 < Determinant(tri, r) < 0.00000001
  }

  /** u = f dot(s, h), v = f dot(d, q), t = f dot(c - a, q) with f = 1 / z, s = o - a, q = cross(s, b - a). */
  function Solve<M>(tri: Triangle<M>, r: Ray): Solution
    requires !Parallel(tri, r)
  {
    var e1, e2 := Sub(tri.b, tri.a), Sub(tri.c, tri.a);
    var h := Cross(r.direction, e2);
    var f := 1.0 / Dot(e1, h);
    var s := Sub(r.origin, tri.a);
    var q := Cross(s, e1);
    Solution(f * Dot(s, h), f * Dot(r.direction, q), f * Dot(e2, q))
  }

  /** u and v are barycentric coordinates inside the triangle. */
  predicate InsideTriangle(sol: Solution)
  {
    0.0 <= sol.u <= 1.0 && 0.0 <= sol.v && sol.u + sol.v <= 1.0
  }

  /** The record Triangle::hit writes before returning true. */
  function Record<M>(tri: Triangle<M>, r: Ray, t: real, rec: HitRecord<M>, sqrt: real -> real): (rec': HitRecord<M>)
    ensures rec'.t == t && rec'.p == At(r, t) && rec'.mat == tri.mat
    ensures rec'.frontFace <==> Dot(r.direction, Normal(tri, sqrt)) < 0.0
  {
    rec.(t := t, p := At(r, t), normal := Normal(tri, sqrt)).SetFaceNormal(r, Normal(tri, sqrt)).(mat := tri.mat)
  }

  /**
   * Triangle::hit: false when the determinant is within 1e-8 of zero, when u
   * is outside [0, 1], when v < 0 or u + v > 1, or when t is outside
   * [tMin, tMax]; only then is the record written.
   */
  function Hit<M>(tri: Triangle<M>, r: Ray, tMin: real, tMax: real, rec: HitRecord<M>, sqrt: real -> real): (o: HitOutcome<M>)
    ensures HitProtocol(r, tMin, tMax, rec, o)
    ensures Parallel(tri, r) ==> !o.hit
    ensures o.hit ==> !Parallel(tri, r) && InsideTriangle(Solve(tri, r)) && o.rec.t == Solve(tri, r).t
    ensures o.hit ==> o.rec.mat == tri.mat
  {
    if Parallel(tri, r) then Miss(rec)
    else
      var sol := Solve(tri, r);
      if sol.u < 0.0 || sol.u > 1.0 then Miss(rec)
      else if sol.v < 0.0 || sol.u + sol.v > 1.0 then Miss(rec)
      else if sol.t < tMin || sol.t > tMax then Miss(rec)
      else HitOutcome(true, Record(tri, r, sol.t, rec, sqrt))
  }

  // ---------------------------------------------------------------------------
  // What u, v and t mean: Cramer's rule for o + t d == a + u (b - a) + v (c - a).

  /**
   * Cramer's rule on each axis: z s == dot(s, h) e1 + dot(d, q) e2 - dot(e2, q) d,
   * with h = cross(d, e2), q = cross(s, e1) and z = dot(e1, h).
   */
  lemma CramerX(d: Vec3, e1: Vec3, e2: Vec3, s: Vec3, z: real, su: real, dv: real, et: real)
    requires z == Dot(e1, Cross(d, e2)) && su == Dot(s, Cross(d, e2))
    requires dv == Dot(d, Cross(s, e1)) && et == Dot(e2, Cross(s, e1))
    ensures z * s.x == su * e1.x + dv * e2.x - et * d.x
  {
  }

  lemma CramerY(d: Vec3, e1: Vec3, e2: Vec3, s: Vec3, z: real, su: real, dv: real, et: real)
    requires z == Dot(e1, Cross(d, e2)) && su == Dot(s, Cross(d, e2))
    requires dv == Dot(d, Cross(s, e1)) && et == Dot(e2, Cross(s, e1))
    ensures z * s.y == su * e1.y + dv * e2.y - et * d.y
  {
  }

  lemma CramerZ(d: Vec3, e1: Vec3, e2: Vec3, s: Vec3, z: real, su: real, dv: real, et: real)
    requires z == Dot(e1, Cross(d, e2)) && su == Dot(s, Cross(d, e2))
    requires dv == Dot(d, Cross(s, e1)) && et == Dot(e2, Cross(s, e1))
    ensures z * s.z == su * e1.z + dv * e2.z - et * d.z
  {
  }

  /** Dividing one axis of Cramer's rule by z: s == u e1 + v e2 - t d on that axis. */
  lemma DivideByDeterminant(z: real, f: real, sx: real, su: real, dv: real, et: real,
                            e1x: real, e2x: real, dx: real)
    requires f * z == 1.0
    requires z * sx == su * e1x + dv * e2x - et * dx
    ensures sx == (f * su) * e1x + (f * dv) * e2x - (f * et) * dx
  {
    assert sx == f * (z * sx);
    assert f * (su * e1x + dv * e2x - et * dx) == (f * su) * e1x + (f * dv) * e2x - (f * et) * dx;
  }

  /** The three axes together: s == u e1 + v e2 - t d. */
  lemma SolveAxes(d: Vec3, e1: Vec3, e2: Vec3, s: Vec3, z: real, f: real, su: real, dv: real, et: real)
    requires f * z == 1.0
    requires z * s.x == su * e1.x + dv * e2.x - et * d.x
    requires z * s.y == su * e1.y + dv * e2.y - et * d.y
    requires z * s.z == su * e1.z + dv * e2.z - et * d.z
    ensures s == Sub(Add(Scale(e1, f * su), Scale(e2, f * dv)), Scale(d, f * et))
  {
    DivideByDeterminant(z, f, s.x, su, dv, et, e1.x, e2.x, d.x);
    DivideByDeterminant(z, f, s.y, su, dv, et, e1.y, e2.y, d.y);
    DivideByDeterminant(z, f, s.z, su, dv, et, e1.z, e2.z, d.z);
  }

  /** o - a == u e1 + v e2 - t d rearranges to o + t d == a + u e1 + v e2. */
  lemma Rearrange(o: Vec3, a: Vec3, d: Vec3, e1: Vec3, e2: Vec3, u: real, v: real, t: real)
    requires Sub(o, a) == Sub(Add(Scale(e1, u), Scale(e2, v)), Scale(d, t))
    ensures Add(o, Scale(d, t)) == Add(a, Add(Scale(e1, u), Scale(e2, v)))
  {
  }

  /**
   * The solution Triangle::hit computes is the point where the ray meets the
   * plane of the triangle, written in barycentric form: at parameter t the
   * ray is at a + u (b - a) + v (c - a).
   */
  lemma SolveIsIntersection<M>(tri: Triangle<M>, r: Ray)
    requires !Parallel(tri, r)
    ensures var sol := Solve(tri, r);
      At(r, sol.t) == Add(tri.a, Add(Scale(Sub(tri.b, tri.a), sol.u), Scale(Sub(tri.c, tri.a), sol.v)))
  {
    var d, e1, e2 := r.direction, Sub(tri.b, tri.a), Sub(tri.c, tri.a);
    var z := Dot(e1, Cross(d, e2));
    var f := 1.0 / z;
    var s := Sub(r.origin, tri.a);
    var su, dv, et := Dot(s, Cross(d, e2)), Dot(d, Cross(s, e1)), Dot(e2, Cross(s, e1));
    assert f * z == 1.0;
    CramerX(d, e1, e2, s, z, su, dv, et);
    CramerY(d, e1, e2, s, z, su, dv, et);
    CramerZ(d, e1, e2, s, z, su, dv, et);
    SolveAxes(d, e1, e2, s, z, f, su, dv, et);
    assert Solve(tri, r) == Solution(f * su, f * dv, f * et);
    Rearrange(r.origin, tri.a, d, e1, e2, f * su, f * dv, f * et);
  }

  /**
   * A hit reported by Triangle::hit lies in the triangle: its point is the
   * convex combination (1 - u - v) a + u b + v c with u, v >= 0 and u + v <= 1.
   */
  lemma HitInsideTriangle<M>(tri: Triangle<M>, r: Ray, tMin: real, tMax: real, rec: HitRecord<M>, sqrt: real -> real)
    requires Hit(tri, r, tMin, tMax, rec, sqrt).hit
    ensures var sol := Solve(tri, r);
      InsideTriangle(sol) &&
      Hit(tri, r, tMin, tMax, rec, sqrt).rec.p
        == Add(tri.a, Add(Scale(Sub(tri.b, tri.a), sol.u), Scale(Sub(tri.c, tri.a), sol.v)))
  {
    SolveIsIntersection(tri, r);
  }
}
