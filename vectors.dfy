// vec3.h: the three-component vector used for points, directions and (inside
// `color`) RGB triples. The static operations are pure functions on the value
// type `Vec3`; `init`, `normalize` and `operator[]` change a vector in place and
// live on the class `Vec3Cell`.

module Vectors {
  import opened Util

  datatype Vec3 = Vec3(x: real, y: real, z: real)
  {
    /** Reading through `operator[]`: 0 is x, 1 is y, any other index is z. */
    function At(i: int): real
    {
      if i == 0 then x else if i == 1 then y else z
    }

    /** `v` with the component `operator[](i)` refers to replaced by `val`. */
    function With(i: int, val: real): Vec3
    {
      if i == 0 then this.(x := val) else if i == 1 then this.(y := val) else this.(z := val)
    }

    function LengthSquared(): real
    {
      x * x + y * y + z * z
    }
  }

  /** The default constructor `vec3()`. */
  function Zero(): Vec3
  {
    Vec3(0.0, 0.0, 0.0)
  }

  /** vec3::add and `operator+`. */
  function Add(a: Vec3, b: Vec3): Vec3
  {
    Vec3(a.x + b.x, a.y + b.y, a.z + b.z)
  }

  /** vec3::sub and `operator-`. */
  function Sub(a: Vec3, b: Vec3): Vec3
  {
    Vec3(a.x - b.x, a.y - b.y, a.z - b.z)
  }

  /** vec3::scale and `operator*(double)`. */
  function Scale(v: Vec3, d: real): Vec3
  {
    Vec3(v.x * d, v.y * d, v.z * d)
  }

  /** `operator*(const vec3 &)`: the componentwise (Hadamard) product. */
  function Mul(a: Vec3, b: Vec3): Vec3
  {
    Vec3(a.x * b.x, a.y * b.y, a.z * b.z)
  }

  function Dot(a: Vec3, b: Vec3): real
  {
    a.x * b.x + a.y * b.y + a.z * b.z
  }

  function Cross(a: Vec3, b: Vec3): Vec3
  {
    Vec3(a.y * b.z - a.z * b.y,
         a.z * b.x - a.x * b.z,
         a.x * b.y - a.y * b.x)
  }

  /** vec3::min: per component the smaller input (the second one on ties). */
  function Min(v1: Vec3, v2: Vec3): (r: Vec3)
    ensures r.x <= v1.x && r.x <= v2.x && (r.x == v1.x || r.x == v2.x)
    ensures r.y <= v1.y && r.y <= v2.y && (r.y == v1.y || r.y == v2.y)
    ensures r.z <= v1.z && r.z <= v2.z && (r.z == v1.z || r.z == v2.z)
  {
    Vec3(if v1.x < v2.x then v1.x else v2.x,
         if v1.y < v2.y then v1.y else v2.y,
         if v1.z < v2.z then v1.z else v2.z)
  }

  /** vec3::max: per component the larger input. */
  function Max(v1: Vec3, v2: Vec3): (r: Vec3)
    ensures r.x >= v1.x && r.x >= v2.x && (r.x == v1.x || r.x == v2.x)
    ensures r.y >= v1.y && r.y >= v2.y && (r.y == v1.y || r.y == v2.y)
    ensures r.z >= v1.z && r.z >= v2.z && (r.z == v1.z || r.z == v2.z)
  {
    Vec3(if v1.x > v2.x then v1.x else v2.x,
         if v1.y > v2.y then v1.y else v2.y,
         if v1.z > v2.z then v1.z else v2.z)
  }

  /** Componentwise `a <= b`. */
  predicate Le(a: Vec3, b: Vec3)
  {
    a.x <= b.x && a.y <= b.y && a.z <= b.z
  }

  /**
   * vec3::unit_vector: `v` scaled by 1/length when the length is positive, the
   * zero vector otherwise. `sqrt` stands for std::sqrt.
   */
  function UnitVector(v: Vec3, sqrt: real -> real): (r: Vec3)
    ensures v == Zero() ==> r == Zero()
    ensures sqrt(v.LengthSquared()) <= 0.0 ==> r == Zero()
  {
    var len := sqrt(v.LengthSquared());
    if len > 0.0 then Scale(v, 1.0 / len) else Zero()
  }

  /** vec3::near_zero: every component is strictly within 1e-8 of zero. */
  predicate NearZero(v: Vec3): (b: bool)
    ensures v == Zero() ==> b
    ensures b ==> Abs(v.x) + Abs(v.y) + Abs(v.z) < 0.00000003
  {
    Abs(v.x) < 0.00000001 && Abs(v.y) < 0.00000001 && Abs(v.z) < 0.00000001
  }

  // ---------------------------------------------------------------------------
  // Algebraic facts about the operations above.

  /** Subtracting what was added gives the vector back. */
  lemma SubAddCancel(a: Vec3, b: Vec3)
    ensures Sub(Add(a, b), b) == a
  {
  }

  lemma DotCommutes(a: Vec3, b: Vec3)
    ensures Dot(a, b) == Dot(b, a)
  {
  }

  /** The cross product is orthogonal to both of its arguments. */
  lemma CrossOrthogonal(a: Vec3, b: Vec3)
    ensures Dot(Cross(a, b), a) == 0.0
    ensures Dot(Cross(a, b), b) == 0.0
  {
  }

  /** min/max of a vector with itself is that vector (used for combine(A, A) == A). */
  lemma MinMaxSelf(v: Vec3)
    ensures Min(v, v) == v && Max(v, v) == v
  {
  }

  /** The scalar factors out of a dot product. */
  lemma DotScale(a: Vec3, b: Vec3, d: real)
    ensures Dot(Scale(a, d), b) == d * Dot(a, b)
    ensures Dot(a, Scale(b, d)) == d * Dot(a, b)
  {
  }

  /** Each `operator[]` index names exactly one component and writing it changes nothing else. */
  lemma WithAt(v: Vec3, i: int, j: int, val: real)
    ensures v.With(i, val).At(i) == val
    ensures (i == j || (i !in {0, 1} && j !in {0, 1})) || v.With(i, val).At(j) == v.At(j)
  {
  }

  /** Only the zero vector has length 0. */
  lemma LengthSquaredPositive(v: Vec3)
    ensures 0.0 <= v.LengthSquared()
    ensures v.x != 0.0 || v.y != 0.0 || v.z != 0.0 ==> 0.0 < v.x * v.x + v.y * v.y + v.z * v.z
  {
  }

  /**
   * With a correct square root, unit_vector of a vector of nonzero length has
   * length 1 and points the same way.
   */
  lemma UnitVectorIsUnit(v: Vec3, sqrt: real -> real)
    requires 0.0 < v.LengthSquared()
    requires IsSqrt(sqrt(v.LengthSquared()), v.LengthSquared())
    ensures UnitVector(v, sqrt).LengthSquared() == 1.0
    ensures exists k: real :: k > 0.0 && UnitVector(v, sqrt) == Scale(v, k)
  {
    var n := v.LengthSquared();
    var len := sqrt(n);
    assert len > 0.0;
    var k := 1.0 / len;
    assert k * k * n == 1.0 by {
      assert k * len == 1.0;
      assert k * k * (len * len) == (k * len) * (k * len);
    }
    var u := Scale(v, k);
    assert u.LengthSquared() == k * k * n;
    assert UnitVector(v, sqrt) == u;
  }

  // ---------------------------------------------------------------------------

  /** A vec3 object whose fields are updated in place (`init`, `normalize`, `operator[]`). */
  class Vec3Cell {
    var x: real
    var y: real
    var z: real

    /** `vec3()`: all three components zero. */
    constructor ()
      ensures Value() == Zero()
    {
      x, y, z := 0.0, 0.0, 0.0;
    }

    /** The vector the object currently holds. */
    function Value(): Vec3
      reads this
    {
      Vec3(x, y, z)
    }

    /** vec3::init: overwrite all three components. */
    method Init(x': real, y': real, z': real)
      modifies this
      ensures Value() == Vec3(x', y', z')
    {
      x := x';
      y := y';
      z := z';
    }

    /** Reading through `operator[]`. */
    function Get(i: int): (r: real)
      reads this
      ensures r == (if i == 0 then x else if i == 1 then y else z)
    {
      Value().At(i)
    }

    /** Writing through the reference `operator[]` returns: only that component changes. */
    method Set(i: int, val: real)
      modifies this
      ensures Value() == old(Value()).With(i, val)
      ensures Get(i) == val
    {
      if i == 0 {
        x := val;
      } else if i == 1 {
        y := val;
      } else {
        z := val;
      }
    }

    /**
     * vec3::normalize: divide every component by the length when the length is
     * positive; a zero-length vector keeps its fields.
     */
    method Normalize(sqrt: real -> real)
      modifies this
      ensures sqrt(old(Value()).LengthSquared()) <= 0.0 ==> Value() == old(Value())
      ensures Value() == UnitVector(old(Value()), sqrt) || sqrt(old(Value()).LengthSquared()) <= 0.0
      ensures old(Value()) == Zero() ==> Value() == Zero()
    {
      var len := sqrt(Value().LengthSquared());
      if len > 0.0 {
        x := x / len;
        y := y / len;
        z := z / len;
      }
    }
  }
}
