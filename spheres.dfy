// sphere.h: the bounding box of a sphere and its ray intersection, which picks
// the nearer root of the ray-sphere quadratic when it lies in [t_min, t_max]
// and the farther one otherwise. `sqrt` stands for std::sqrt and `uvOf` for
// get_sphere_uv, whose acos/atan2 the model does not interpret.

module Spheres {
  import opened Util
  import opened Vectors
  import opened Rays
  import opened Boxes
  import opened Hittables

  datatype Sphere<M> = Sphere(center: Vec3, radius: real, mat: M)

  /** The texture coordinates get_sphere_uv computes from the outward normal. */
  datatype SurfaceCoords = SurfaceCoords(u: real, v: real)

  /** The point lies on the sphere's surface. */
  predicate OnSurface<M>(s: Sphere<M>, p: Vec3)
  {
    Sub(p, s.center).LengthSquared() == s.radius * s.radius
  }

  /** Sphere::getBoundingBox: center -/+ (radius, radius, radius). */
  function BoundingBox<M>(s: Sphere<M>): (b: Aabb)
    ensures b.min == Sub(s.center, Vec3(s.radius, s.radius, s.radius))
    ensures b.max == Add(s.center, Vec3(s.radius, s.radius, s.radius))
    ensures 0.0 <= s.radius ==> ValidBox(b)
  {
    var rv := Vec3(s.radius, s.radius, s.radius);
    Aabb(Sub(s.center, rv), Add(s.center, rv))
  }

  /** A number whose square is at most r * r (r >= 0) lies in [-r, r]. */
  lemma SquareBound(e: real, r: real, ee: real, rr: real)
    requires 0.0 <= r && ee == e * e && rr == r * r && ee <= rr
    ensures -r <= e <= r
  {
    if e > r {
      assert (e - r) * (e + r) == ee - rr;
      MulPos(e - r, e + r);
    } else if e < -r {
      assert (-e - r) * (-e + r) == ee - rr;
      MulPos(-e - r, -e + r);
    }
  }

  lemma MulPos(a: real, b: real)
    requires 0.0 < a && 0.0 < b
    ensures 0.0 < a * b
  {
  }

  /** Every point of the surface lies in the bounding box. */
  lemma SurfaceInBox<M>(s: Sphere<M>, p: Vec3)
    requires 0.0 <= s.radius && OnSurface(s, p)
    ensures InBox(BoundingBox(s), p)
  {
    var e := Sub(p, s.center);
    var rr := s.radius * s.radius;
    assert 0.0 <= e.y * e.y && 0.0 <= e.z * e.z && 0.0 <= e.x * e.x;
    SquareBound(e.x, s.radius, e.x * e.x, rr);
    SquareBound(e.y, s.radius, e.y * e.y, rr);
    SquareBound(e.z, s.radius, e.z * e.z, rr);
  }

  // ---------------------------------------------------------------------------
  // The quadratic of Sphere::hit

  /**
   * The coefficients Sphere::hit computes: a = |d|^2, h = d . (o - center) and
   * c = |o - center|^2 - radius^2, so that the ray is on the surface at t
   * exactly when a t^2 + 2 h t + c = 0.
   */
  datatype Coefficients = Coefficients(a: real, h: real, c: real)
  {
    function Discriminant(): real
    {
      h * h - a * c
    }

    function Value(t: real): real
    {
      a * t * t + 2.0 * h * t + c
    }
  }

  function QuadraticOf<M>(s: Sphere<M>, r: Ray): Coefficients
  {
    var oc := Sub(r.origin, s.center);
    Coefficients(r.direction.LengthSquared(), Dot(r.direction, oc), oc.LengthSquared() - s.radius * s.radius)
  }

  /** The record Sphere::hit writes at parameter t before returning true. */
  function Record<M>(s: Sphere<M>, r: Ray, t: real, rec: HitRecord<M>, uvOf: Vec3 -> SurfaceCoords): (rec': HitRecord<M>)
    requires s.radius != 0.0
    ensures rec'.t == t && rec'.p == At(r, t) && rec'.mat == s.mat
    ensures rec'.frontFace <==> Dot(r.direction, Scale(Sub(At(r, t), s.center), 1.0 / s.radius)) < 0.0
  {
    var p := At(r, t);
    var outward := Scale(Sub(p, s.center), 1.0 / s.radius);
    var uv := uvOf(outward);
    rec.(t := t, p := p, u := uv.u, v := uv.v, normal := outward).SetFaceNormal(r, outward).(mat := s.mat)
  }

  /**
   * Sphere::hit: no hit for a negative discriminant; otherwise the nearer root
   * (-h - sqrt(disc)) / a if it lies in [tMin, tMax], else the farther root
   * (-h + sqrt(disc)) / a if that does; the record is only written on a hit.
   */
  function Hit<M>(s: Sphere<M>, r: Ray, tMin: real, tMax: real, rec: HitRecord<M>,
                  sqrt: real -> real, uvOf: Vec3 -> SurfaceCoords): (o: HitOutcome<M>)
    requires r.direction.LengthSquared() != 0.0 && s.radius != 0.0
    ensures HitProtocol(r, tMin, tMax, rec, o)
    ensures o.hit ==> o.rec.mat == s.mat
    ensures QuadraticOf(s, r).Discriminant() < 0.0 ==> !o.hit
  {
    var k := QuadraticOf(s, r);
    var disc := k.Discriminant();
    if disc < 0.0 then Miss(rec)
    else
      var sd := sqrt(disc);
      var near := (-k.h - sd) / k.a;
      if tMin <= near <= tMax then HitOutcome(true, Record(s, r, near, rec, uvOf))
      else
        var far := (-k.h + sd) / k.a;
        if tMin <= far <= tMax then HitOutcome(true, Record(s, r, far, rec, uvOf))
        else Miss(rec)
  }

  // ---------------------------------------------------------------------------
  // The roots Sphere::hit picks are the points where the ray meets the surface.

  lemma SquareOfSum(e: real, f: real, t: real)
    ensures (e + f * t) * (e + f * t) == e * e + 2.0 * (f * e) * t + (f * f) * t * t
  {
  }

  /** The ray is on the surface at t exactly when the quadratic vanishes at t. */
  lemma SurfaceEquation<M>(s: Sphere<M>, r: Ray, t: real)
    ensures OnSurface(s, At(r, t)) <==> QuadraticOf(s, r).Value(t) == 0.0
  {
    var oc := Sub(r.origin, s.center);
    var d := r.direction;
    var e := Sub(At(r, t), s.center);
    assert e == Vec3(oc.x + d.x * t, oc.y + d.y * t, oc.z + d.z * t);
    SquareOfSum(oc.x, d.x, t);
    SquareOfSum(oc.y, d.y, t);
    SquareOfSum(oc.z, d.z, t);
    assert e.LengthSquared() == oc.LengthSquared() + 2.0 * Dot(d, oc) * t + d.LengthSquared() * t * t;
  }

  /** a * (a t^2 + 2 h t + c) == (a t + h)^2 - (h^2 - a c). */
  lemma CompletedSquare(k: Coefficients, t: real, w: real)
    requires w == k.a * t + k.h
    ensures k.a * k.Value(t) == w * w - k.Discriminant()
  {
    assert k.a * k.Value(t) == k.a * k.a * t * t + 2.0 * k.a * k.h * t + k.a * k.c;
    assert w * w == k.a * k.a * t * t + 2.0 * k.a * k.h * t + k.h * k.h;
  }

  /** With a > 0, the quadratic vanishes at t exactly when (a t + h)^2 is the discriminant. */
  lemma ValueZeroIff(k: Coefficients, t: real, w: real)
    requires 0.0 < k.a && w == k.a * t + k.h
    ensures k.Value(t) == 0.0 <==> w * w == k.Discriminant()
  {
    CompletedSquare(k, t, w);
    if k.Value(t) != 0.0 {
      assert k.a * k.Value(t) != 0.0;
    }
  }

  /** A number whose square is sd^2 (sd >= 0) is sd or -sd. */
  lemma SquareRoots(w: real, sd: real)
    requires 0.0 <= sd && w * w == sd * sd
    ensures w == sd || w == -sd
  {
    assert (w - sd) * (w + sd) == w * w - sd * sd;
  }

  /** (-h - sd) / a and (-h + sd) / a are the two parameters t with a t + h == -sd and == sd. */
  lemma RootParameter(a: real, h: real, sd: real, t: real, w: real)
    requires 0.0 < a && w == a * t + h
    ensures w == -sd <==> t == (-h - sd) / a
    ensures w == sd <==> t == (-h + sd) / a
  {
  }

  /** For sd >= 0 the root with -sd is the nearer one. */
  lemma RootsOrdered(a: real, h: real, sd: real)
    requires 0.0 < a && 0.0 <= sd
    ensures (-h - sd) / a <= (-h + sd) / a
  {
    MulPosLe(-h - sd, -h + sd, 1.0 / a);
  }

  lemma DirectionPositive(r: Ray)
    requires r.direction.LengthSquared() != 0.0
    ensures 0.0 < r.direction.LengthSquared()
  {
    LengthSquaredPositive(r.direction);
  }

  /** Both candidate roots Sphere::hit may return lie on the surface. */
  lemma RootsOnSurface<M>(s: Sphere<M>, r: Ray, sd: real, t: real)
    requires r.direction.LengthSquared() != 0.0
    requires IsSqrt(sd, QuadraticOf(s, r).Discriminant())
    requires t == (-QuadraticOf(s, r).h - sd) / QuadraticOf(s, r).a || t == (-QuadraticOf(s, r).h + sd) / QuadraticOf(s, r).a
    ensures OnSurface(s, At(r, t))
  {
    var k := QuadraticOf(s, r);
    DirectionPositive(r);
    var w := k.a * t + k.h;
    RootParameter(k.a, k.h, sd, t, w);
    assert w * w == sd * sd;
    ValueZeroIff(k, t, w);
    SurfaceEquation(s, r, t);
  }

  /** A parameter at which the ray meets the surface is one of the two roots. */
  lemma SurfacePointIsRoot<M>(s: Sphere<M>, r: Ray, sd: real, t: real)
    requires r.direction.LengthSquared() != 0.0
    requires OnSurface(s, At(r, t))
    requires 0.0 <= QuadraticOf(s, r).Discriminant() ==> IsSqrt(sd, QuadraticOf(s, r).Discriminant())
    ensures 0.0 <= QuadraticOf(s, r).Discriminant()
    ensures t == (-QuadraticOf(s, r).h - sd) / QuadraticOf(s, r).a || t == (-QuadraticOf(s, r).h + sd) / QuadraticOf(s, r).a
  {
    var k := QuadraticOf(s, r);
    DirectionPositive(r);
    var w := k.a * t + k.h;
    SurfaceEquation(s, r, t);
    ValueZeroIff(k, t, w);
    assert 0.0 <= w * w;
    SquareRoots(w, sd);
    RootParameter(k.a, k.h, sd, t, w);
  }

  /** Given an exact square root, a reported hit lies on the sphere. */
  lemma HitOnSurface<M>(s: Sphere<M>, r: Ray, tMin: real, tMax: real, rec: HitRecord<M>,
                        sqrt: real -> real, uvOf: Vec3 -> SurfaceCoords)
    requires r.direction.LengthSquared() != 0.0 && s.radius != 0.0
    requires 0.0 <= QuadraticOf(s, r).Discriminant() ==> IsSqrt(sqrt(QuadraticOf(s, r).Discriminant()), QuadraticOf(s, r).Discriminant())
    ensures Hit(s, r, tMin, tMax, rec, sqrt, uvOf).hit ==> OnSurface(s, Hit(s, r, tMin, tMax, rec, sqrt, uvOf).rec.p)
  {
    var o := Hit(s, r, tMin, tMax, rec, sqrt, uvOf);
    if o.hit {
      var k := QuadraticOf(s, r);
      RootsOnSurface(s, r, sqrt(k.Discriminant()), o.rec.t);
    }
  }

  /**
   * Given an exact square root, Sphere::hit finds the nearest surface point in
   * [tMin, tMax]: whenever the ray meets the surface at some t' in range, the
   * call reports a hit at a distance no greater than t'.
   */
  lemma HitIsNearest<M>(s: Sphere<M>, r: Ray, tMin: real, tMax: real, rec: HitRecord<M>,
                        sqrt: real -> real, uvOf: Vec3 -> SurfaceCoords, t': real)
    requires r.direction.LengthSquared() != 0.0 && s.radius != 0.0
    requires 0.0 <= QuadraticOf(s, r).Discriminant() ==> IsSqrt(sqrt(QuadraticOf(s, r).Discriminant()), QuadraticOf(s, r).Discriminant())
    requires tMin <= t' <= tMax && OnSurface(s, At(r, t'))
    ensures Hit(s, r, tMin, tMax, rec, sqrt, uvOf).hit
    ensures Hit(s, r, tMin, tMax, rec, sqrt, uvOf).rec.t <= t'
  {
    var k := QuadraticOf(s, r);
    var sd := sqrt(k.Discriminant());
    SurfacePointIsRoot(s, r, sd, t');
    DirectionPositive(r);
    RootsOrdered(k.a, k.h, sd);
  }
}
