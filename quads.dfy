// quad.h: a parallelogram with corner Q and edges u and v. The constructor
// derives the plane (normal, D) and the vector w used to express a plane
// point in (u, v) coordinates, and computes the bounding box; `hit` intersects
// the plane and keeps the point only when both coordinates lie in [0, 1].

module Quads {
  import opened Util
  import opened Vectors
  import opened Rays
  import opened Boxes
  import opened Hittables

  // ---------------------------------------------------------------------------
  // The bounding box of set_bounding_box

  /** set_bounding_box as written: AABB(min, max) stores its two corners without ordering them. */
  function BoxAsWritten(q: Vec3, u: Vec3, v: Vec3): (b: Aabb)
    ensures 0.0 <= u.x && 0.0 <= u.y && 0.0 <= u.z && 0.0 <= v.x && 0.0 <= v.y && 0.0 <= v.z ==> b == Box(q, u, v)
  {
    PadToMinSize(Combine(Aabb(q, Add(Add(q, u), v)), Aabb(Add(q, u), Add(q, v))))
  }

  /**
   * The box as written can miss corners of the quad: whenever Q.y = 0, u.y = 1
   * and v.y = -1 (Q at the origin, u = (1, 1, 0), v = (1, -1, 0), say) the
   * diagonals' boxes give y in [0, 0], padded to [0, MIN_SIZE], while the
   * corners Q + u and Q + v have y = 1 and y = -1.
   */
  lemma BoxAsWrittenMissesCorners(q: Vec3, u: Vec3, v: Vec3)
    requires q.y == 0.0 && u.y == 1.0 && v.y == -1.0
    ensures !InBox(BoxAsWritten(q, u, v), Add(q, u)) && !InBox(BoxAsWritten(q, u, v), Add(q, v))
  {
    var c := Combine(Aabb(q, Add(Add(q, u), v)), Aabb(Add(q, u), Add(q, v)));
    ExampleFlat(q, u, v, c);
    FlatAxisPadded(c);
  }

  /** In the example both diagonals' boxes have y in [0, 0], and so does their combination. */
  lemma ExampleFlat(q: Vec3, u: Vec3, v: Vec3, c: Aabb)
    requires q.y == 0.0 && u.y == 1.0 && v.y == -1.0
    requires c == Combine(Aabb(q, Add(Add(q, u), v)), Aabb(Add(q, u), Add(q, v)))
    ensures c.min.y == 0.0 && c.max.y == 0.0
    ensures Add(q, u).y == 1.0 && Add(q, v).y == -1.0
  {
  }

  /** A flat y axis at 0 is padded to [0, MIN_SIZE]. */
  lemma FlatAxisPadded(c: Aabb)
    requires c.min.y == 0.0 && c.max.y == 0.0
    ensures PadToMinSize(c).min.y == 0.0 && PadToMinSize(c).max.y == MinSize
  {
  }

  /** The box spanned by two points in either order. */
  function PointsBox(p1: Vec3, p2: Vec3): (b: Aabb)
    ensures ValidBox(b) && InBox(b, p1) && InBox(b, p2)
  {
    Aabb(Min(p1, p2), Max(p1, p2))
  }

  /**
   * The box set_bounding_box is meant to compute ("the bounding box of all
   * four vertices"): each diagonal's box built from its two corners in either
   * order, combined, then padded to MIN_SIZE.
   */
  function Box(q: Vec3, u: Vec3, v: Vec3): (b: Aabb)
    ensures ValidBox(b)
    ensures b.max.x - b.min.x >= MinSize && b.max.y - b.min.y >= MinSize && b.max.z - b.min.z >= MinSize
    ensures InBox(b, q) && InBox(b, Add(q, u)) && InBox(b, Add(q, v)) && InBox(b, Add(Add(q, u), v))
  {
    var diagonals := Combine(PointsBox(q, Add(Add(q, u), v)), PointsBox(Add(q, u), Add(q, v)));
    var b := PadToMinSize(diagonals);
    InBoxMonotone(diagonals, PointsBox(q, Add(Add(q, u), v)), q);
    InBoxMonotone(diagonals, PointsBox(q, Add(Add(q, u), v)), Add(Add(q, u), v));
    InBoxMonotone(diagonals, PointsBox(Add(q, u), Add(q, v)), Add(q, u));
    InBoxMonotone(diagonals, PointsBox(Add(q, u), Add(q, v)), Add(q, v));
    InBoxMonotone(b, diagonals, q);
    InBoxMonotone(b, diagonals, Add(Add(q, u), v));
    InBoxMonotone(b, diagonals, Add(q, u));
    InBoxMonotone(b, diagonals, Add(q, v));
    b
  }

  /** The point with plane coordinates (alpha, beta): Q + alpha u + beta v. */
  function PlanePoint(q: Vec3, u: Vec3, v: Vec3, alpha: real, beta: real): Vec3
  {
    Add(q, Add(Scale(u, alpha), Scale(v, beta)))
  }

  /** 0 <= k <= 1 puts k * x between 0 and x. */
  lemma ScaleBetween(x: real, k: real)
    requires 0.0 <= k <= 1.0
    ensures (if x < 0.0 then x else 0.0) <= x * k <= (if x < 0.0 then 0.0 else x)
  {
    if x < 0.0 {
      assert x * k - x == -x * (1.0 - k);
      assert 0.0 <= -x * (1.0 - k);
    } else {
      assert x - x * k == x * (1.0 - k);
      assert 0.0 <= x * (1.0 - k);
    }
  }

  /** The least of the four corners on one axis, in the order Box combines them. */
  function CornerLo(q: real, u: real, v: real): (lo: real)
    ensures lo <= q && lo <= q + u && lo <= q + v && lo <= q + u + v
  {
    var d1 := if q < q + u + v then q else q + u + v;
    var d2 := if q + u < q + v then q + u else q + v;
    if d1 < d2 then d1 else d2
  }

  /** The greatest of the four corners on one axis, in the order Box combines them. */
  function CornerHi(q: real, u: real, v: real): (hi: real)
    ensures q <= hi && q + u <= hi && q + v <= hi && q + u + v <= hi
  {
    var d1 := if q > q + u + v then q else q + u + v;
    var d2 := if q + u > q + v then q + u else q + v;
    if d1 > d2 then d1 else d2
  }

  /** Box keeps the least corner as its min and raises the greatest corner at most by padding. */
  lemma BoxAxes(q: Vec3, u: Vec3, v: Vec3)
    ensures var b := Box(q, u, v);
      b.min.x == CornerLo(q.x, u.x, v.x) && CornerHi(q.x, u.x, v.x) <= b.max.x &&
      b.min.y == CornerLo(q.y, u.y, v.y) && CornerHi(q.y, u.y, v.y) <= b.max.y &&
      b.min.z == CornerLo(q.z, u.z, v.z) && CornerHi(q.z, u.z, v.z) <= b.max.z
  {
  }

  /** On one axis, q + alpha u + beta v lies between the least and greatest of the four corners. */
  lemma AxisBetweenCorners(q: real, u: real, v: real, alpha: real, beta: real)
    requires 0.0 <= alpha <= 1.0 && 0.0 <= beta <= 1.0
    ensures CornerLo(q, u, v) <= q + (u * alpha + v * beta) <= CornerHi(q, u, v)
  {
    ScaleBetween(u, alpha);
    ScaleBetween(v, beta);
  }

  lemma BoxAxisX(q: Vec3, u: Vec3, v: Vec3, alpha: real, beta: real)
    requires 0.0 <= alpha <= 1.0 && 0.0 <= beta <= 1.0
    ensures Box(q, u, v).min.x <= q.x + (u.x * alpha + v.x * beta) <= Box(q, u, v).max.x
  {
    BoxAxes(q, u, v);
    AxisBetweenCorners(q.x, u.x, v.x, alpha, beta);
  }

  lemma BoxAxisY(q: Vec3, u: Vec3, v: Vec3, alpha: real, beta: real)
    requires 0.0 <= alpha <= 1.0 && 0.0 <= beta <= 1.0
    ensures Box(q, u, v).min.y <= q.y + (u.y * alpha + v.y * beta) <= Box(q, u, v).max.y
  {
    BoxAxes(q, u, v);
    AxisBetweenCorners(q.y, u.y, v.y, alpha, beta);
  }

  lemma BoxAxisZ(q: Vec3, u: Vec3, v: Vec3, alpha: real, beta: real)
    requires 0.0 <= alpha <= 1.0 && 0.0 <= beta <= 1.0
    ensures Box(q, u, v).min.z <= q.z + (u.z * alpha + v.z * beta) <= Box(q, u, v).max.z
  {
    BoxAxes(q, u, v);
    AxisBetweenCorners(q.z, u.z, v.z, alpha, beta);
  }

  /** Every point of the parallelogram, not only the corners, lies in the box. */
  lemma BoxContainsQuad(q: Vec3, u: Vec3, v: Vec3, alpha: real, beta: real)
    requires 0.0 <= alpha <= 1.0 && 0.0 <= beta <= 1.0
    ensures InBox(Box(q, u, v), PlanePoint(q, u, v, alpha, beta))
  {
    PlanePointAxes(q, u, v, alpha, beta);
    BoxAxisX(q, u, v, alpha, beta);
    BoxAxisY(q, u, v, alpha, beta);
    BoxAxisZ(q, u, v, alpha, beta);
  }

  lemma PlanePointAxes(q: Vec3, u: Vec3, v: Vec3, alpha: real, beta: real)
    ensures PlanePoint(q, u, v, alpha, beta).x == q.x + (u.x * alpha + v.x * beta)
    ensures PlanePoint(q, u, v, alpha, beta).y == q.y + (u.y * alpha + v.y * beta)
    ensures PlanePoint(q, u, v, alpha, beta).z == q.z + (u.z * alpha + v.z * beta)
  {
  }

  // ---------------------------------------------------------------------------
  // Plane coordinates

  /** The scalar triple product is invariant under cyclic rotation of its arguments. */
  lemma TripleCyclic(a: Vec3, b: Vec3, c: Vec3)
    ensures Dot(a, Cross(b, c)) == Dot(b, Cross(c, a))
    ensures Dot(a, Cross(b, c)) == Dot(c, Cross(a, b))
  {
    TripleExpanded(a, b, c);
    TripleExpanded(b, c, a);
    TripleExpanded(c, a, b);
  }

  /** The scalar triple product written out as its six monomials, in the order a, b, c. */
  lemma TripleExpanded(a: Vec3, b: Vec3, c: Vec3)
    ensures Dot(a, Cross(b, c)) == a.x * b.y * c.z - a.x * b.z * c.y + a.y * b.z * c.x - a.y * b.x * c.z + a.z * b.x * c.y - a.z * b.y * c.x
  {
    assert a.x * Cross(b, c).x == a.x * b.y * c.z - a.x * b.z * c.y;
    assert a.y * Cross(b, c).y == a.y * b.z * c.x - a.y * b.x * c.z;
    assert a.z * Cross(b, c).z == a.z * b.x * c.y - a.z * b.y * c.x;
  }

  /** (p . a) s + (p . b) t + (p . c) w regrouped by the components of p. */
  lemma Regroup(p: Vec3, a: Vec3, b: Vec3, c: Vec3, s: real, t: real, w: real, kx: real, ky: real, kz: real)
    requires kx == a.x * s + b.x * t + c.x * w
    requires ky == a.y * s + b.y * t + c.y * w
    requires kz == a.z * s + b.z * t + c.z * w
    ensures Dot(p, a) * s + Dot(p, b) * t + Dot(p, c) * w == p.x * kx + p.y * ky + p.z * kz
  {
  }

  /** The x coefficient in the dual-basis expansion: cross(v, n), cross(n, u), cross(u, v) against u, v, n. */
  lemma DiagonalX(u: Vec3, v: Vec3, n: Vec3)
    ensures Cross(v, n).x * u.x + Cross(n, u).x * v.x + Cross(u, v).x * n.x == Dot(u, Cross(v, n))
  {
    assert Cross(v, n).x * u.x == u.x * v.y * n.z - u.x * v.z * n.y;
    assert Cross(n, u).x * v.x == u.z * v.x * n.y - u.y * v.x * n.z;
    assert Cross(u, v).x * n.x == u.y * v.z * n.x - u.z * v.y * n.x;
    TripleExpanded(u, v, n);
  }

  lemma OffDiagonalXY(u: Vec3, v: Vec3, n: Vec3)
    ensures Cross(v, n).y * u.x + Cross(n, u).y * v.x + Cross(u, v).y * n.x == 0.0
  {
    assert Cross(v, n).y * u.x == v.z * n.x * u.x - v.x * n.z * u.x;
    assert Cross(n, u).y * v.x == n.z * u.x * v.x - n.x * u.z * v.x;
    assert Cross(u, v).y * n.x == u.z * v.x * n.x - u.x * v.z * n.x;
  }

  lemma OffDiagonalXZ(u: Vec3, v: Vec3, n: Vec3)
    ensures Cross(v, n).z * u.x + Cross(n, u).z * v.x + Cross(u, v).z * n.x == 0.0
  {
    assert Cross(v, n).z * u.x == v.x * n.y * u.x - v.y * n.x * u.x;
    assert Cross(n, u).z * v.x == n.x * u.y * v.x - n.y * u.x * v.x;
    assert Cross(u, v).z * n.x == u.x * v.y * n.x - u.y * v.x * n.x;
  }

  /**
   * Any p expands in the basis u, v, n: with D = u . (v x n),
   * D p == (p . (v x n)) u + (p . (n x u)) v + (p . (u x v)) n; here the x axis.
   */
  lemma ExpandX(u: Vec3, v: Vec3, n: Vec3, p: Vec3)
    ensures Dot(u, Cross(v, n)) * p.x
         == Dot(p, Cross(v, n)) * u.x + Dot(p, Cross(n, u)) * v.x + Dot(p, Cross(u, v)) * n.x
  {
    DiagonalX(u, v, n);
    OffDiagonalXY(u, v, n);
    OffDiagonalXZ(u, v, n);
    Regroup(p, Cross(v, n), Cross(n, u), Cross(u, v), u.x, v.x, n.x, Dot(u, Cross(v, n)), 0.0, 0.0);
  }

  /** The axes rotated one place: (x, y, z) becomes (y, z, x). */
  function Rotate(a: Vec3): Vec3
  {
    Vec3(a.y, a.z, a.x)
  }

  lemma RotateCommutes(a: Vec3, b: Vec3)
    ensures Cross(Rotate(a), Rotate(b)) == Rotate(Cross(a, b))
    ensures Dot(Rotate(a), Rotate(b)) == Dot(a, b)
  {
  }

  lemma RotateAll(u: Vec3, v: Vec3, n: Vec3, p: Vec3)
    ensures Dot(Rotate(u), Cross(Rotate(v), Rotate(n))) == Dot(u, Cross(v, n))
    ensures Dot(Rotate(p), Cross(Rotate(v), Rotate(n))) == Dot(p, Cross(v, n))
    ensures Dot(Rotate(p), Cross(Rotate(n), Rotate(u))) == Dot(p, Cross(n, u))
    ensures Dot(Rotate(p), Cross(Rotate(u), Rotate(v))) == Dot(p, Cross(u, v))
  {
    RotateCommutes(v, n);
    RotateCommutes(n, u);
    RotateCommutes(u, v);
    RotateCommutes(u, Cross(v, n));
    RotateCommutes(p, Cross(v, n));
    RotateCommutes(p, Cross(n, u));
    RotateCommutes(p, Cross(u, v));
  }

  lemma ExpandY(u: Vec3, v: Vec3, n: Vec3, p: Vec3)
    ensures Dot(u, Cross(v, n)) * p.y
         == Dot(p, Cross(v, n)) * u.y + Dot(p, Cross(n, u)) * v.y + Dot(p, Cross(u, v)) * n.y
  {
    ExpandX(Rotate(u), Rotate(v), Rotate(n), Rotate(p));
    RotateAll(u, v, n, p);
  }

  lemma ExpandZ(u: Vec3, v: Vec3, n: Vec3, p: Vec3)
    ensures Dot(u, Cross(v, n)) * p.z
         == Dot(p, Cross(v, n)) * u.z + Dot(p, Cross(n, u)) * v.z + Dot(p, Cross(u, v)) * n.z
  {
    ExpandY(Rotate(u), Rotate(v), Rotate(n), Rotate(p));
    RotateAll(u, v, n, p);
  }

  /**
   * A vector p in the plane of u and v (p . n == 0 with n = u x v) satisfies
   * (n . n) p == al u + be v with al = n . (p x v) and be = n . (u x p).
   */
  lemma ExpandInPlane(u: Vec3, v: Vec3, p: Vec3, nn: real, al: real, be: real)
    requires Dot(p, Cross(u, v)) == 0.0
    requires nn == Dot(Cross(u, v), Cross(u, v))
    requires al == Dot(Cross(u, v), Cross(p, v)) && be == Dot(Cross(u, v), Cross(u, p))
    ensures nn * p.x == al * u.x + be * v.x
    ensures nn * p.y == al * u.y + be * v.y
    ensures nn * p.z == al * u.z + be * v.z
  {
    var n := Cross(u, v);
    TripleCyclic(u, v, n);
    TripleCyclic(p, v, n);
    TripleCyclic(p, n, u);
    ExpandX(u, v, n, p);
    ExpandY(u, v, n, p);
    ExpandZ(u, v, n, p);
  }

  /** Dividing one axis of the expansion by n . n. */
  lemma DivideByNormSquared(nn: real, k: real, px: real, al: real, be: real, ux: real, vx: real)
    requires k * nn == 1.0
    requires nn * px == al * ux + be * vx
    ensures px == ux * (k * al) + vx * (k * be)
  {
    assert px == k * (nn * px);
    assert k * (al * ux + be * vx) == ux * (k * al) + vx * (k * be);
  }

  /** The coordinates Quad::hit computes against w = k n are k times those against n. */
  lemma CoordinatesAgainstW(n: Vec3, k: real, p: Vec3, u: Vec3, v: Vec3)
    ensures Dot(Scale(n, k), Cross(p, v)) == k * Dot(n, Cross(p, v))
    ensures Dot(Scale(n, k), Cross(u, p)) == k * Dot(n, Cross(u, p))
  {
    DotScale(n, Cross(p, v), k);
    DotScale(n, Cross(u, p), k);
  }

  /**
   * A vector p in the plane of u and v is alpha u + beta v, where alpha and
   * beta are the coordinates Quad::hit computes with w = n / (n . n).
   */
  lemma PlaneCoordinates(u: Vec3, v: Vec3, p: Vec3)
    requires Dot(Cross(u, v), Cross(u, v)) != 0.0
    requires Dot(p, Cross(u, v)) == 0.0
    ensures var w := Scale(Cross(u, v), 1.0 / Dot(Cross(u, v), Cross(u, v)));
      p == Add(Scale(u, Dot(w, Cross(p, v))), Scale(v, Dot(w, Cross(u, p))))
  {
    var n := Cross(u, v);
    var nn := Dot(n, n);
    var k := 1.0 / nn;
    var al, be := Dot(n, Cross(p, v)), Dot(n, Cross(u, p));
    assert k * nn == 1.0;
    ExpandInPlane(u, v, p, nn, al, be);
    DivideByNormSquared(nn, k, p.x, al, be, u.x, v.x);
    DivideByNormSquared(nn, k, p.y, al, be, u.y, v.y);
    DivideByNormSquared(nn, k, p.z, al, be, u.z, v.z);
    CoordinatesAgainstW(n, k, p, u, v);
  }

  // ---------------------------------------------------------------------------
  // The quad object

  /** Quad::is_interior: true exactly for coordinates in [0, 1], and only then are rec.u, rec.v written. */
  function IsInterior<M>(a: real, b: real, rec: HitRecord<M>): (o: HitOutcome<M>)
    ensures o.hit <==> 0.0 <= a <= 1.0 && 0.0 <= b <= 1.0
    ensures o.hit ==> o.rec == rec.(u := a, v := b)
    ensures !o.hit ==> o.rec == rec
  {
    if a < 0.0 || a > 1.0 || b < 0.0 || b > 1.0 then Miss(rec)
    else HitOutcome(true, rec.(u := a, v := b))
  }

  class Quad<M> {
    var q: Vec3
    var u: Vec3
    var v: Vec3
    var w: Vec3
    var mat: M
    var bbox: Aabb
    var normal: Vec3
    var d: real

    /**
     * The fields the constructor derives from Q, u and v, given the `sqrt`
     * that unit_vector used.
     */
    ghost predicate Valid(sqrt: real -> real)
      reads this
    {
      var n := Cross(u, v);
      Dot(n, n) != 0.0 &&
      normal == UnitVector(n, sqrt) && d == Dot(normal, q) && w == Scale(n, 1.0 / Dot(n, n))
    }

    /**
     * Quad::Quad: n = u x v, normal = unit_vector(n), D = normal . Q,
     * w = n / (n . n), then set_bounding_box().
     */
    constructor(q: Vec3, u: Vec3, v: Vec3, mat: M, sqrt: real -> real)
      requires Dot(Cross(u, v), Cross(u, v)) != 0.0
      ensures this.q == q && this.u == u && this.v == v && this.mat == mat
      ensures Valid(sqrt)
      ensures bbox == BoxAsWritten(q, u, v)
    {
      this.q, this.u, this.v, this.mat := q, u, v, mat;
      var n := Cross(u, v);
      normal := UnitVector(n, sqrt);
      d := Dot(UnitVector(n, sqrt), q);
      w := Scale(n, 1.0 / Dot(n, n));
      bbox := Aabb(q, q);
      new;
      SetBoundingBox();
    }

    /**
     * Quad::set_bounding_box: combine the boxes of the two diagonals, each
     * stored with its corners unordered, then raise `max` on every axis
     * thinner than MIN_SIZE. The result can miss corners of the quad (see
     * BoxAsWrittenMissesCorners); Box is the box meant.
     */
    method SetBoundingBox()
      modifies this`bbox
      ensures bbox == BoxAsWritten(q, u, v)
    {
      var diagonals := Combine(Aabb(q, Add(Add(q, u), v)), Aabb(Add(q, u), Add(q, v)));
      bbox := diagonals;
      var boxSize := Sub(bbox.max, bbox.min);
      if boxSize.x < MinSize {
        bbox := bbox.(max := bbox.max.(x := bbox.min.x + MinSize));
      }
      assert bbox.min == diagonals.min && bbox.max.y == diagonals.max.y && bbox.max.z == diagonals.max.z;
      assert bbox.max.x == PadAxis(diagonals.min.x, diagonals.max.x);
      if boxSize.y < MinSize {
        bbox := bbox.(max := bbox.max.(y := bbox.min.y + MinSize));
      }
      assert bbox.min == diagonals.min && bbox.max.z == diagonals.max.z;
      assert bbox.max.y == PadAxis(diagonals.min.y, diagonals.max.y);
      if boxSize.z < MinSize {
        bbox := bbox.(max := bbox.max.(z := bbox.min.z + MinSize));
      }
      assert bbox == PadToMinSize(diagonals);
    }

    /** Quad::getBoundingBox. */
    function BoundingBox(): (b: Aabb)
      reads this
      ensures b == bbox
    {
      bbox
    }

    /**
     * Quad::hit: false when |normal . d| < 1e-8, when the plane parameter t is
     * outside [tMin, tMax], or when the plane coordinates are outside [0, 1];
     * otherwise the record gets u, v, t, p, mat and the face normal.
     */
    function Hit(r: Ray, tMin: real, tMax: real, rec: HitRecord<M>): (o: HitOutcome<M>)
      reads this
      ensures HitProtocol(r, tMin, tMax, rec, o)
      ensures Abs(Dot(normal, r.direction)) < 0.00000001 ==> !o.hit
      ensures o.hit ==> o.rec.mat == mat && 0.0 <= o.rec.u <= 1.0 && 0.0 <= o.rec.v <= 1.0
      ensures o.hit ==> Dot(normal, o.rec.p) == d
    {
      var denom := Dot(normal, r.direction);
      if Abs(denom) < 0.00000001 then Miss(rec)
      else
        var t := (d - Dot(normal, r.origin)) / denom;
        if t < tMin || t > tMax then Miss(rec)
        else
          var p := At(r, t);
          var ph := Sub(p, q);
          var alpha := Dot(w, Cross(ph, v));
          var beta := Dot(w, Cross(u, ph));
          var inside := IsInterior(alpha, beta, rec);
          if !inside.hit then Miss(rec)
          else
            PlaneParameter(normal, r, d, t, denom);
            HitOutcome(true, inside.rec.(t := t, p := p, mat := mat).SetFaceNormal(r, normal))
    }
  }

  /** The ray meets the plane n . x == D at t = (D - n . o) / (n . d). */
  lemma PlaneParameter(n: Vec3, r: Ray, d: real, t: real, denom: real)
    requires denom == Dot(n, r.direction) && denom != 0.0
    requires t == (d - Dot(n, r.origin)) / denom
    ensures Dot(n, At(r, t)) == d
  {
    DotScale(n, r.direction, t);
    assert Dot(n, At(r, t)) == Dot(n, r.origin) + Dot(n, Scale(r.direction, t));
    assert t * denom == d - Dot(n, r.origin);
  }

  /**
   * With a correct square root, a hit of a constructed quad lies in the
   * parallelogram: its point is Q + u' u + v' v for the recorded coordinates
   * u', v' in [0, 1], so it also lies in the box of all four corners (Box,
   * not the stored bbox, which can miss it).
   */
  lemma HitInsideQuad<M>(quad: Quad<M>, r: Ray, tMin: real, tMax: real, rec: HitRecord<M>, sqrt: real -> real)
    requires quad.Valid(sqrt)
    requires IsSqrt(sqrt(Cross(quad.u, quad.v).LengthSquared()), Cross(quad.u, quad.v).LengthSquared())
    requires quad.Hit(r, tMin, tMax, rec).hit
    ensures var o := quad.Hit(r, tMin, tMax, rec);
      o.rec.p == PlanePoint(quad.q, quad.u, quad.v, o.rec.u, o.rec.v) &&
      InBox(Box(quad.q, quad.u, quad.v), o.rec.p)
  {
    var o := quad.Hit(r, tMin, tMax, rec);
    var n := Cross(quad.u, quad.v);
    var ph := Sub(o.rec.p, quad.q);
    InPlane(n, quad.normal, quad.q, o.rec.p, sqrt);
    PlaneCoordinates(quad.u, quad.v, ph);
    assert o.rec.p == Add(quad.q, ph);
    BoxContainsQuad(quad.q, quad.u, quad.v, o.rec.u, o.rec.v);
  }

  /** A point on the plane normal . x == normal . Q is Q plus a vector orthogonal to n. */
  lemma InPlane(n: Vec3, normal: Vec3, q: Vec3, p: Vec3, sqrt: real -> real)
    requires Dot(n, n) != 0.0 && normal == UnitVector(n, sqrt)
    requires IsSqrt(sqrt(n.LengthSquared()), n.LengthSquared())
    requires Dot(normal, p) == Dot(normal, q)
    ensures Dot(Sub(p, q), n) == 0.0
  {
    LengthSquaredPositive(n);
    UnitVectorIsUnit(n, sqrt);
    var k :| k > 0.0 && normal == Scale(n, k);
    CancelScale(n, k, p, q);
    assert Dot(Sub(p, q), n) == Dot(n, p) - Dot(n, q);
  }

  /** Scaling the normal by a nonzero factor does not change which points share a plane. */
  lemma CancelScale(n: Vec3, k: real, p: Vec3, q: Vec3)
    requires k != 0.0 && Dot(Scale(n, k), p) == Dot(Scale(n, k), q)
    ensures Dot(n, p) == Dot(n, q)
  {
    DotScale(n, p, k);
    DotScale(n, q, k);
    CancelFactor(k, Dot(n, p), Dot(n, q));
  }

  lemma CancelFactor(k: real, a: real, b: real)
    requires k != 0.0 && k * a == k * b
    ensures a == b
  {
    assert k * (a - b) == 0.0;
  }
}
