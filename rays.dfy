// ray.h: a ray with origin, direction and time, the point at a parameter, and
// the mirror reflection and refraction of a direction about a normal.

module Rays {
  import opened Util
  import opened Vectors

  datatype Ray = Ray(origin: Vec3, direction: Vec3, tm: real)

  /** `ray()`: zero origin and direction at time 0. */
  function DefaultRay(): (r: Ray)
    ensures r.origin == Zero() && r.direction == Zero() && r.tm == 0.0
  {
    Ray(Zero(), Zero(), 0.0)
  }

  /** `ray(origin, direction)`: the two-argument constructor fixes the time at 0. */
  function RayAt0(origin: Vec3, direction: Vec3): (r: Ray)
    ensures r.origin == origin && r.direction == direction && r.tm == 0.0
  {
    Ray(origin, direction, 0.0)
  }

  /** ray::at: origin + direction * t. */
  function At(r: Ray, t: real): Vec3
  {
    Add(r.origin, Scale(r.direction, t))
  }

  /** The ray starts at its origin and moves along its direction by t per unit of parameter. */
  lemma AtIsAffine(r: Ray, t: real)
    ensures At(r, 0.0) == r.origin
    ensures Sub(At(r, t), r.origin) == Scale(r.direction, t)
  {
  }

  /** ray::reflect: v - n * (2 * dot(v, n)). */
  function Reflect(v: Vec3, n: Vec3): (w: Vec3)
    ensures Dot(v, n) == 0.0 || n == Zero() ==> w == v
  {
    Sub(v, Scale(n, 2.0 * Dot(v, n)))
  }

  /** dot(v - n*k, n) == dot(v, n) - k * dot(n, n). */
  lemma DotSubScale(v: Vec3, n: Vec3, k: real)
    ensures Dot(Sub(v, Scale(n, k)), n) == Dot(v, n) - k * Dot(n, n)
  {
  }

  /** Reflecting about a unit normal flips the component along the normal. */
  lemma ReflectFlipsNormalComponent(v: Vec3, n: Vec3)
    requires Dot(n, n) == 1.0
    ensures Dot(Reflect(v, n), n) == -Dot(v, n)
  {
    DotSubScale(v, n, 2.0 * Dot(v, n));
  }

  /** Reflecting twice about the same unit normal gives the original direction back. */
  lemma ReflectInvolution(v: Vec3, n: Vec3)
    requires Dot(n, n) == 1.0
    ensures Reflect(Reflect(v, n), n) == v
  {
    var w := Reflect(v, n);
    ReflectFlipsNormalComponent(v, n);
    assert Reflect(w, n) == Sub(w, Scale(n, -2.0 * Dot(v, n)));
  }

  /** Reflection about a unit normal preserves the squared length. */
  lemma ReflectPreservesLength(v: Vec3, n: Vec3)
    requires Dot(n, n) == 1.0
    ensures Reflect(v, n).LengthSquared() == v.LengthSquared()
  {
    var d := Dot(v, n);
    var w := Reflect(v, n);
    assert w.LengthSquared() == v.LengthSquared() - 4.0 * d * d + 4.0 * d * d * Dot(n, n);
  }

  /** std::fmin on two ordinary numbers. */
  function FMin(a: real, b: real): (r: real)
    ensures r <= a && r <= b && (r == a || r == b)
  {
    if a < b then a else b
  }

  /**
   * ray::refract: the part of the outgoing direction perpendicular to the normal
   * is (uv + n*cos) * eta, and the parallel part has length sqrt|1 - |perp|^2|.
   * `sqrt` stands for std::sqrt.
   */
  function Refract(uv: Vec3, n: Vec3, etaiOverEtat: real, sqrt: real -> real): Vec3
  {
    var cosTheta := FMin(Dot(Scale(uv, -1.0), n), 1.0);
    var perp := Scale(Add(uv, Scale(n, cosTheta)), etaiOverEtat);
    var parallel := Scale(n, -sqrt(Abs(1.0 - perp.LengthSquared())));
    Add(perp, parallel)
  }

  /** Two non-negative numbers with equal squares are equal. */
  lemma SquareRootUnique(s: real, c: real, cc: real)
    requires 0.0 <= s && 0.0 <= c && cc == c * c && s * s == cc
    ensures s == c
  {
    assert (s - c) * (s + c) == 0.0;
    if s + c == 0.0 {
    } else {
      assert s - c == 0.0;
    }
  }

  /**
   * Across a boundary with equal indices (eta = 1) a unit direction entering a
   * unit normal's surface (0 <= -dot(uv, n) <= 1) passes straight through.
   */
  lemma RefractMatchedIndexIsIdentity(uv: Vec3, n: Vec3, sqrt: real -> real)
    requires Dot(uv, uv) == 1.0 && Dot(n, n) == 1.0
    requires 0.0 <= -Dot(uv, n) <= 1.0
    requires IsSqrt(sqrt(Dot(uv, n) * Dot(uv, n)), Dot(uv, n) * Dot(uv, n))
    ensures Refract(uv, n, 1.0, sqrt) == uv
  {
    var c := -Dot(uv, n);
    var w := Add(uv, Scale(n, c));
    ParallelLength(uv, n, c, sqrt);
    assert FMin(Dot(Scale(uv, -1.0), n), 1.0) == c;
    assert Scale(w, 1.0) == w;
    assert Add(w, Scale(n, -c)) == uv;
  }

  /** The length of the parallel part in the matched-index case is the cosine itself. */
  lemma ParallelLength(uv: Vec3, n: Vec3, c: real, sqrt: real -> real)
    requires Dot(uv, uv) == 1.0 && Dot(n, n) == 1.0
    requires c == -Dot(uv, n) && 0.0 <= c
    requires IsSqrt(sqrt(Dot(uv, n) * Dot(uv, n)), Dot(uv, n) * Dot(uv, n))
    ensures sqrt(Abs(1.0 - Add(uv, Scale(n, c)).LengthSquared())) == c
  {
    var cc := c * c;
    assert cc == Dot(uv, n) * Dot(uv, n);
    PerpLength(uv, n, c, cc);
    MulNonnegSelf(c, cc);
    assert Abs(1.0 - Add(uv, Scale(n, c)).LengthSquared()) == cc;
    SquareRootUnique(sqrt(cc), c, cc);
  }

  lemma PerpLength(uv: Vec3, n: Vec3, c: real, cc: real)
    requires Dot(uv, uv) == 1.0 && Dot(n, n) == 1.0 && c == -Dot(uv, n) && cc == c * c
    ensures Add(uv, Scale(n, c)).LengthSquared() == 1.0 - cc
  {
    var w := Add(uv, Scale(n, c));
    assert w.LengthSquared() == Dot(uv, uv) + 2.0 * c * Dot(uv, n) + c * c * Dot(n, n);
  }

  lemma MulNonnegSelf(c: real, cc: real)
    requires 0.0 <= c && cc == c * c
    ensures 0.0 <= cc
  {
  }
}
