// aabb.h: axis-aligned bounding boxes, their union (`combine`) and the slab
// test that narrows a ray's parameter interval axis by axis. The minimum-size
// padding that triangle.h and quad.h both apply to their boxes lives here too.

module Boxes {
  import opened Util
  import opened Vectors
  import opened Rays

  datatype Aabb = Aabb(min: Vec3, max: Vec3)

  /** A parameter interval [lo, hi] along a ray. */
  datatype Interval = Interval(lo: real, hi: real)

  /** What AABB::hit leaves behind: its verdict and the narrowed t_min and t_max. */
  datatype SlabResult = SlabResult(hit: bool, tMin: real, tMax: real)

  /** The box is not inverted on any axis. */
  predicate ValidBox(b: Aabb)
  {
    Le(b.min, b.max)
  }

  /** `inner` lies inside `outer` on every axis. */
  predicate Contains(outer: Aabb, inner: Aabb)
  {
    Le(outer.min, inner.min) && Le(inner.max, outer.max)
  }

  /** The point `p` lies in the closed box. */
  predicate InBox(b: Aabb, p: Vec3)
  {
    Le(b.min, p) && Le(p, b.max)
  }

  /** AABB::combine: the componentwise min of the mins and max of the maxes. */
  function Combine(b1: Aabb, b2: Aabb): (r: Aabb)
    ensures Contains(r, b1) && Contains(r, b2)
    ensures ValidBox(b1) || ValidBox(b2) ==> ValidBox(r)
  {
    Aabb(Min(b1.min, b2.min), Max(b1.max, b2.max))
  }

  /** combine is the least box containing both arguments. */
  lemma CombineLeast(b1: Aabb, b2: Aabb, c: Aabb)
    requires Contains(c, b1) && Contains(c, b2)
    ensures Contains(c, Combine(b1, b2))
  {
  }

  /** combine(A, A) == A. */
  lemma CombineSelf(b: Aabb)
    ensures Combine(b, b) == b
  {
    MinMaxSelf(b.min);
    MinMaxSelf(b.max);
  }

  lemma CombineCommutes(b1: Aabb, b2: Aabb)
    ensures Combine(b1, b2) == Combine(b2, b1)
  {
  }

  lemma CombineAssociates(b1: Aabb, b2: Aabb, b3: Aabb)
    ensures Combine(Combine(b1, b2), b3) == Combine(b1, Combine(b2, b3))
  {
  }

  lemma ContainsSelf(b: Aabb)
    ensures Contains(b, b)
  {
  }

  /** Two boxes that contain each other are the same box. */
  lemma ContainsAntisymmetric(a: Aabb, b: Aabb)
    requires Contains(a, b) && Contains(b, a)
    ensures a == b
  {
  }

  lemma ContainsTransitive(a: Aabb, b: Aabb, c: Aabb)
    requires Contains(a, b) && Contains(b, c)
    ensures Contains(a, c)
  {
  }

  /** A point of a box inside another lies in the other. */
  lemma InBoxMonotone(outer: Aabb, inner: Aabb, p: Vec3)
    requires Contains(outer, inner) && InBox(inner, p)
    ensures InBox(outer, p)
  {
  }

  // ---------------------------------------------------------------------------
  // AABB::hit, the slab test

  /** The model of the slab test needs every direction component nonzero (no infinities). */
  predicate NonzeroDirection(r: Ray)
  {
    r.direction.x != 0.0 && r.direction.y != 0.0 && r.direction.z != 0.0
  }

  /**
   * On one axis with plane coordinates mn and mx, ray origin o and invD = 1/d
   * for the ray direction d: the parameters where the ray crosses the two
   * planes, swapped when invD is negative.
   */
  function SlabInterval(mn: real, mx: real, o: real, invD: real): Interval
  {
    var t0 := (mn - o) * invD;
    var t1 := (mx - o) * invD;
    if invD < 0.0 then Interval(t1, t0) else Interval(t0, t1)
  }

  /** 1 / d, the `1.0 / r.direction()[axis]` of AABB::hit. */
  function Inv(d: real): real
    requires d != 0.0
  {
    1.0 / d
  }

  /** The parameter interval in which the ray lies between the two planes of `axis`. */
  function AxisInterval(b: Aabb, r: Ray, axis: int): Interval
    requires r.direction.At(axis) != 0.0
  {
    SlabInterval(b.min.At(axis), b.max.At(axis), r.origin.At(axis), Inv(r.direction.At(axis)))
  }

  /** std::max(a, b) and std::min(a, b) on ordinary numbers. */
  function StdMax(a: real, b: real): real { if a < b then b else a }
  function StdMin(a: real, b: real): real { if b < a then b else a }

  /** The three axis intervals of the slab test, x first. */
  function AxisIntervals(b: Aabb, r: Ray): (ivs: seq<Interval>)
    requires NonzeroDirection(r)
    ensures |ivs| == 3 && forall a :: 0 <= a < 3 ==> ivs[a] == AxisInterval(b, r, a)
  {
    [AxisInterval(b, r, 0), AxisInterval(b, r, 1), AxisInterval(b, r, 2)]
  }

  /**
   * The slab test from `axis` on: narrow [lo, hi] by each remaining axis
   * interval and stop with false as soon as the interval is empty. The result
   * is the verdict and the final values of t_min and t_max.
   */
  function Narrow(ivs: seq<Interval>, axis: nat, lo: real, hi: real): (res: SlabResult)
    requires axis <= |ivs|
    ensures lo <= res.tMin && res.tMax <= hi
    ensures axis < |ivs| ==> (res.hit <==> res.tMin < res.tMax)
    ensures axis == |ivs| ==> res == SlabResult(true, lo, hi)
    decreases |ivs| - axis
  {
    if axis == |ivs| then SlabResult(true, lo, hi)
    else
      var lo' := StdMax(ivs[axis].lo, lo);
      var hi' := StdMin(ivs[axis].hi, hi);
      if hi' <= lo' then SlabResult(false, lo', hi')
      else Narrow(ivs, axis + 1, lo', hi')
  }

  /** AABB::hit as a function: the verdict and the narrowed t_min, t_max. */
  function SlabTest(b: Aabb, r: Ray, lo: real, hi: real): (s: SlabResult)
    requires NonzeroDirection(r)
    ensures lo <= s.tMin && s.tMax <= hi
    ensures s.hit <==> s.tMin < s.tMax
  {
    Narrow(AxisIntervals(b, r), 0, lo, hi)
  }

  /**
   * AABB::hit: the three-axis loop that narrows the reference parameters t_min
   * and t_max in place and returns false as soon as they cross.
   */
  method Hit(b: Aabb, r: Ray, tMin: real, tMax: real) returns (hit: bool, tMin': real, tMax': real)
    requires NonzeroDirection(r)
    ensures SlabResult(hit, tMin', tMax') == SlabTest(b, r, tMin, tMax)
    ensures tMin <= tMin' && tMax' <= tMax
    ensures hit <==> tMin' < tMax'
  {
    ghost var ivs := AxisIntervals(b, r);
    tMin', tMax' := tMin, tMax;
    var axis := 0;
    while axis < 3
      invariant 0 <= axis <= 3
      invariant Narrow(ivs, axis, tMin', tMax') == SlabTest(b, r, tMin, tMax)
      invariant tMin <= tMin' && tMax' <= tMax
      invariant 0 < axis ==> tMin' < tMax'
    {
      var d, o := r.direction.At(axis), r.origin.At(axis);
      var mn, mx := b.min.At(axis), b.max.At(axis);
      var invD := Inv(d);
      var t0 := (mn - o) * invD;
      var t1 := (mx - o) * invD;
      if invD < 0.0 {
        t0, t1 := t1, t0;
      }
      SlabStep(mn, mx, o, invD, t0, t1);
      assert ivs[axis] == Interval(t0, t1);
      tMin' := StdMax(t0, tMin');
      tMax' := StdMin(t1, tMax');
      if tMax' <= tMin' {
        return false, tMin', tMax';
      }
      axis := axis + 1;
    }
    hit := true;
  }

  /** One pass of the loop of AABB::hit computes the axis interval. */
  lemma SlabStep(mn: real, mx: real, o: real, invD: real, t0: real, t1: real)
    requires invD < 0.0 ==> t0 == (mx - o) * invD && t1 == (mn - o) * invD
    requires 0.0 <= invD ==> t0 == (mn - o) * invD && t1 == (mx - o) * invD
    ensures Interval(t0, t1) == SlabInterval(mn, mx, o, invD)
  {
  }

  /** For a box that is not inverted, the swapped interval of every axis is ordered. */
  lemma SlabIntervalOrdered(mn: real, mx: real, o: real, d: real)
    requires d != 0.0 && mn <= mx
    ensures SlabInterval(mn, mx, o, Inv(d)).lo <= SlabInterval(mn, mx, o, Inv(d)).hi
  {
    var invD := Inv(d);
    if invD < 0.0 {
      MulNegLe(mn - o, mx - o, invD);
    } else {
      assert 0.0 < invD;
      MulPosLe(mn - o, mx - o, invD);
    }
  }

  lemma MulPosLe(a: real, b: real, k: real)
    requires a <= b && 0.0 < k
    ensures a * k <= b * k
  {
    assert b * k - a * k == (b - a) * k;
  }

  lemma MulPosLt(a: real, b: real, k: real)
    requires a < b && 0.0 < k
    ensures a * k < b * k
  {
    assert b * k - a * k == (b - a) * k;
  }

  lemma MulNegLe(a: real, b: real, k: real)
    requires a <= b && k < 0.0
    ensures b * k <= a * k
  {
    assert a * k - b * k == (b - a) * (-k);
  }

  lemma MulNegLt(a: real, b: real, k: real)
    requires a < b && k < 0.0
    ensures b * k < a * k
  {
    assert a * k - b * k == (b - a) * (-k);
  }

  /** On one axis: a parameter inside the axis interval puts the ray between the two planes. */
  lemma SlabIntervalSound(mn: real, mx: real, o: real, d: real, t: real)
    requires d != 0.0
    requires SlabInterval(mn, mx, o, Inv(d)).lo <= t <= SlabInterval(mn, mx, o, Inv(d)).hi
    ensures mn <= o + d * t <= mx
  {
    var inv := Inv(d);
    assert inv * d == 1.0;
    if d > 0.0 {
      assert 0.0 < inv;
      MulPosLe((mn - o) * inv, t, d);
      MulPosLe(t, (mx - o) * inv, d);
      assert (mn - o) * inv * d == mn - o;
      assert (mx - o) * inv * d == mx - o;
    } else {
      assert inv < 0.0;
      MulNegLe((mx - o) * inv, t, d);
      MulNegLe(t, (mn - o) * inv, d);
      assert (mn - o) * inv * d == mn - o;
      assert (mx - o) * inv * d == mx - o;
    }
  }

  /** On one axis: a ray strictly between the two planes has its parameter strictly inside the axis interval. */
  lemma SlabIntervalComplete(mn: real, mx: real, o: real, d: real, t: real)
    requires d != 0.0
    requires mn < o + d * t < mx
    ensures SlabInterval(mn, mx, o, Inv(d)).lo < t < SlabInterval(mn, mx, o, Inv(d)).hi
  {
    var inv := Inv(d);
    assert inv * d == 1.0;
    assert d * t * inv == t;
    if d > 0.0 {
      assert 0.0 < inv;
      MulPosLt(mn - o, d * t, inv);
      MulPosLt(d * t, mx - o, inv);
    } else {
      assert inv < 0.0;
      MulNegLt(mn - o, d * t, inv);
      MulNegLt(d * t, mx - o, inv);
    }
  }

  /** The ray at `t` is between the two planes of `axis`. */
  predicate BetweenPlanes(b: Aabb, r: Ray, axis: int, t: real)
  {
    b.min.At(axis) <= r.origin.At(axis) + r.direction.At(axis) * t <= b.max.At(axis)
  }

  /** The ray at `t` is strictly between the two planes of `axis`. */
  predicate StrictlyBetweenPlanes(b: Aabb, r: Ray, axis: int, t: real)
  {
    b.min.At(axis) < r.origin.At(axis) + r.direction.At(axis) * t < b.max.At(axis)
  }

  /** The ray at `t` is between the planes of every axis from `axis` on. */
  predicate BetweenPlanesFrom(b: Aabb, r: Ray, axis: nat, t: real)
  {
    forall a :: axis <= a < 3 ==> BetweenPlanes(b, r, a, t)
  }

  /** The ray at `t` is strictly between the planes of every axis from `axis` on. */
  predicate StrictlyBetweenPlanesFrom(b: Aabb, r: Ray, axis: nat, t: real)
  {
    forall a :: axis <= a < 3 ==> StrictlyBetweenPlanes(b, r, a, t)
  }

  /** Every parameter in `iv` puts the ray between the two planes of `axis`. */
  ghost predicate IntervalSound(iv: Interval, b: Aabb, r: Ray, axis: int)
  {
    forall t :: iv.lo <= t <= iv.hi ==> BetweenPlanes(b, r, axis, t)
  }

  /** Every parameter that puts the ray strictly between the planes of `axis` is strictly inside `iv`. */
  ghost predicate IntervalComplete(iv: Interval, b: Aabb, r: Ray, axis: int)
  {
    forall t :: StrictlyBetweenPlanes(b, r, axis, t) ==> iv.lo < t < iv.hi
  }

  lemma AxisIntervalExact(b: Aabb, r: Ray, axis: int)
    requires 0 <= axis < 3 && r.direction.At(axis) != 0.0
    ensures IntervalSound(AxisInterval(b, r, axis), b, r, axis)
    ensures IntervalComplete(AxisInterval(b, r, axis), b, r, axis)
  {
    var mn, mx, o, d := b.min.At(axis), b.max.At(axis), r.origin.At(axis), r.direction.At(axis);
    forall t | AxisInterval(b, r, axis).lo <= t <= AxisInterval(b, r, axis).hi
      ensures BetweenPlanes(b, r, axis, t)
    {
      SlabIntervalSound(mn, mx, o, d, t);
    }
    forall t | StrictlyBetweenPlanes(b, r, axis, t)
      ensures AxisInterval(b, r, axis).lo < t < AxisInterval(b, r, axis).hi
    {
      SlabIntervalComplete(mn, mx, o, d, t);
    }
  }

  lemma {:induction false} NarrowSound(ivs: seq<Interval>, b: Aabb, r: Ray, axis: nat, lo: real, hi: real, t: real)
    requires axis <= |ivs| == 3
    requires forall a :: axis <= a < 3 ==> IntervalSound(ivs[a], b, r, a)
    requires Narrow(ivs, axis, lo, hi).hit
    requires Narrow(ivs, axis, lo, hi).tMin <= t <= Narrow(ivs, axis, lo, hi).tMax
    ensures BetweenPlanesFrom(b, r, axis, t)
    decreases 3 - axis
  {
    if axis < 3 {
      var lo' := StdMax(ivs[axis].lo, lo);
      var hi' := StdMin(ivs[axis].hi, hi);
      NarrowSound(ivs, b, r, axis + 1, lo', hi', t);
      assert IntervalSound(ivs[axis], b, r, axis);
      assert BetweenPlanes(b, r, axis, t);
    }
  }

  lemma {:induction false} NarrowComplete(ivs: seq<Interval>, b: Aabb, r: Ray, axis: nat, lo: real, hi: real, t: real)
    requires axis <= |ivs| == 3
    requires forall a :: axis <= a < 3 ==> IntervalComplete(ivs[a], b, r, a)
    requires lo < t < hi
    requires StrictlyBetweenPlanesFrom(b, r, axis, t)
    ensures Narrow(ivs, axis, lo, hi).hit
    ensures Narrow(ivs, axis, lo, hi).tMin < t < Narrow(ivs, axis, lo, hi).tMax
    decreases 3 - axis
  {
    if axis < 3 {
      assert StrictlyBetweenPlanes(b, r, axis, t);
      assert IntervalComplete(ivs[axis], b, r, axis);
      var lo' := StdMax(ivs[axis].lo, lo);
      var hi' := StdMin(ivs[axis].hi, hi);
      assert lo' < t < hi';
      NarrowComplete(ivs, b, r, axis + 1, lo', hi', t);
    }
  }

  /** The three axis intervals are exactly the parameters between each pair of planes. */
  lemma AxisIntervalsExact(b: Aabb, r: Ray)
    requires NonzeroDirection(r)
    ensures forall a :: 0 <= a < 3 ==> IntervalSound(AxisIntervals(b, r)[a], b, r, a)
    ensures forall a :: 0 <= a < 3 ==> IntervalComplete(AxisIntervals(b, r)[a], b, r, a)
  {
    AxisIntervalExact(b, r, 0);
    AxisIntervalExact(b, r, 1);
    AxisIntervalExact(b, r, 2);
  }

  /**
   * Soundness of the slab test: every parameter in the narrowed interval of a
   * reported hit puts the ray inside the box.
   */
  lemma SlabTestSound(b: Aabb, r: Ray, lo: real, hi: real, t: real)
    requires NonzeroDirection(r)
    requires SlabTest(b, r, lo, hi).hit
    requires SlabTest(b, r, lo, hi).tMin <= t <= SlabTest(b, r, lo, hi).tMax
    ensures InBox(b, At(r, t))
  {
    AxisIntervalsExact(b, r);
    NarrowSound(AxisIntervals(b, r), b, r, 0, lo, hi, t);
    BetweenPlanesInBox(b, r, t);
  }

  /** Between the planes of all three axes means inside the box. */
  lemma BetweenPlanesInBox(b: Aabb, r: Ray, t: real)
    requires BetweenPlanesFrom(b, r, 0, t)
    ensures InBox(b, At(r, t))
  {
    assert BetweenPlanes(b, r, 0, t) && BetweenPlanes(b, r, 1, t) && BetweenPlanes(b, r, 2, t);
  }

  /** The point is strictly inside the box on every axis. */
  predicate InBoxInterior(b: Aabb, p: Vec3)
  {
    b.min.x < p.x < b.max.x && b.min.y < p.y < b.max.y && b.min.z < p.z < b.max.z
  }

  /**
   * Completeness of the slab test: a parameter strictly inside (lo, hi) whose
   * point is strictly inside the box makes the test succeed, and the narrowed
   * interval still contains it. Pruning a node on a failed box test therefore
   * never loses such a hit.
   */
  lemma SlabTestComplete(b: Aabb, r: Ray, lo: real, hi: real, t: real)
    requires NonzeroDirection(r)
    requires lo < t < hi && InBoxInterior(b, At(r, t))
    ensures SlabTest(b, r, lo, hi).hit
    ensures SlabTest(b, r, lo, hi).tMin < t < SlabTest(b, r, lo, hi).tMax
  {
    assert StrictlyBetweenPlanes(b, r, 0, t) && StrictlyBetweenPlanes(b, r, 1, t) && StrictlyBetweenPlanes(b, r, 2, t);
    assert StrictlyBetweenPlanesFrom(b, r, 0, t);
    AxisIntervalsExact(b, r);
    NarrowComplete(AxisIntervals(b, r), b, r, 0, lo, hi, t);
  }

  // ---------------------------------------------------------------------------
  // Minimum box thickness (triangle.h getBoundingBox, quad.h set_bounding_box)

  /** `const float MIN_SIZE = 0.01f`: the single-precision value nearest 0.01, exactly. */
  const MinSize: real := 0.00999999977648258209228515625

  /** The new max of one axis: raised to min + MIN_SIZE when the box is thinner than MIN_SIZE. */
  function PadAxis(mn: real, mx: real): (mx': real)
    ensures mx' - mn >= MinSize && mx <= mx'
    ensures mx - mn >= MinSize ==> mx' == mx
  {
    if mx - mn < MinSize then mn + MinSize else mx
  }

  /** Raise `max` on every axis where the box is thinner than MIN_SIZE; `min` is kept. */
  function PadToMinSize(b: Aabb): (r: Aabb)
    ensures r.min == b.min && Contains(r, b) && ValidBox(r)
    ensures r.max.x - r.min.x >= MinSize && r.max.y - r.min.y >= MinSize && r.max.z - r.min.z >= MinSize
  {
    Aabb(b.min, Vec3(PadAxis(b.min.x, b.max.x), PadAxis(b.min.y, b.max.y), PadAxis(b.min.z, b.max.z)))
  }

  /** Padding a box that is already thick enough changes nothing, so padding is idempotent. */
  lemma PadIdempotent(b: Aabb)
    ensures PadToMinSize(PadToMinSize(b)) == PadToMinSize(b)
  {
  }
}
