// perlin.h: gradient noise. Three tables of 256 entries, each a shuffle of
// 0 .. 255, select one of 256 random unit vectors at every corner of the unit
// lattice cell around a point; the noise value blends the eight corners'
// contributions with the smoothstep weights. `turbulance` sums octaves of the
// noise. `rand` stands for C `rand()`, indexed by how many draws came before;
// the random vectors of the constructor are passed in as `draws`.

module PerlinNoise {
  import opened Util
  import opened Vectors

  /** perlin::point_count. */
  const PointCount: int := 256

  /** The indices 0, 1, ..., n - 1 in order. */
  function Iota(n: nat): (s: seq<int>)
    ensures |s| == n && forall i :: 0 <= i < n ==> s[i] == i
  {
    seq(n, i => i)
  }

  /** `s` holds each of 0 .. |s| - 1 exactly once. */
  ghost predicate IsIndexPermutation(s: seq<int>)
  {
    multiset(s) == multiset(Iota(|s|))
  }

  /** Every entry of an index permutation is a valid index. */
  lemma PermutationEntryInRange(s: seq<int>, i: int)
    requires IsIndexPermutation(s) && 0 <= i < |s|
    ensures 0 <= s[i] < |s|
  {
    assert s[i] in multiset(s);
    assert s[i] in multiset(Iota(|s|));
    var j :| 0 <= j < |s| && Iota(|s|)[j] == s[i];
  }

  /** The exchange of two entries. */
  function Swap(s: seq<int>, i: int, j: int): (r: seq<int>)
    requires 0 <= i < |s| && 0 <= j < |s|
    ensures |r| == |s|
  {
    s[i := s[j]][j := s[i]]
  }

  /** An exchange keeps the multiset of entries. */
  lemma SwapPermutes(s: seq<int>, i: int, j: int)
    requires 0 <= i < |s| && 0 <= j < |s|
    ensures multiset(Swap(s, i, j)) == multiset(s)
  {
  }

  /**
   * The swap partner of index i in permute, random_int(0, i): the draw
   * reduced modulo i + 1, written as repeated subtraction (see TargetIsRandomInt).
   */
  function Target(i: int, draw: Draw): (t: int)
    requires 0 <= i
    ensures 0 <= t <= i
    decreases draw
  {
    if draw <= i then draw else Target(i, draw - (i + 1))
  }

  /** Target is exactly Util.RandomInt(0, i, draw). */
  lemma {:induction false} TargetIsRandomInt(i: int, draw: Draw)
    requires 0 <= i
    ensures Target(i, draw) == RandomInt(0, i, draw)
    decreases draw
  {
    var m := i + 1;
    assert RandomInt(0, i, draw) == draw % m;
    if draw > i {
      TargetIsRandomInt(i, draw - m);
      assert RandomInt(0, i, draw - m) == (draw - m) % m;
      ModStep(draw, m);
    } else {
      ModUnique(draw, m, 0, draw);
    }
  }

  /**
   * The swaps perlin::permute makes: for i = top, top - 1, ..., 1 it exchanges
   * entry i with entry random_int(0, i), the draws being rand(k), rand(k + 1), ....
   */
  function Shuffle(s: seq<int>, top: int, rand: nat -> Draw, k: nat): (r: seq<int>)
    requires top < |s|
    ensures |r| == |s|
    decreases top
  {
    if top <= 0 then s
    else Shuffle(Swap(s, top, Target(top, rand(k))), top - 1, rand, k + 1)
  }

  /** A shuffle is a permutation of what it started from. */
  lemma {:induction false} ShufflePermutes(s: seq<int>, top: int, rand: nat -> Draw, k: nat)
    requires top < |s|
    ensures multiset(Shuffle(s, top, rand, k)) == multiset(s)
    decreases top
  {
    if top > 0 {
      var s' := Swap(s, top, Target(top, rand(k)));
      SwapPermutes(s, top, Target(top, rand(k)));
      ShufflePermutes(s', top - 1, rand, k + 1);
    }
  }

  /** A shuffle leaves the entries above `top` where they were. */
  lemma {:induction false} ShuffleKeepsAbove(s: seq<int>, top: int, rand: nat -> Draw, k: nat, m: int)
    requires top < m < |s| && 0 <= m
    ensures Shuffle(s, top, rand, k)[m] == s[m]
    decreases top
  {
    if top > 0 {
      var s' := Swap(s, top, Target(top, rand(k)));
      ShuffleKeepsAbove(s', top - 1, rand, k + 1, m);
    }
  }

  /**
   * perlin::permute: the descending Fisher-Yates loop over p[0 .. n). It
   * changes nothing when n <= 1, and consumes one draw per swap.
   */
  method Permute(p: array<int>, n: int, rand: nat -> Draw, k: nat) returns (k': nat)
    requires n <= p.Length
    modifies p
    ensures p[..] == Shuffle(old(p[..]), n - 1, rand, k)
    ensures k' == k + (if n > 1 then n - 1 else 0)
  {
    ghost var goal := Shuffle(p[..], n - 1, rand, k);
    var i := n - 1;
    k' := k;
    while i > 0
      invariant i == n - 1 || 0 <= i < n - 1
      invariant k' == k + (n - 1 - i)
      invariant i < p.Length
      invariant Shuffle(p[..], i, rand, k') == goal
    {
      var target := Target(i, rand(k'));
      ShuffleStep(p[..], i, rand, k');
      SwapEntries(p, i, target);
      k' := k' + 1;
      i := i - 1;
    }
    ShuffleStep(p[..], i, rand, k');
  }

  /** Permute's result is a permutation of the table it was given, and the table is unchanged when n <= 1. */
  lemma PermuteKeepsEntries(s: seq<int>, n: int, rand: nat -> Draw, k: nat)
    requires n <= |s|
    ensures multiset(Shuffle(s, n - 1, rand, k)) == multiset(s)
    ensures n <= 1 ==> Shuffle(s, n - 1, rand, k) == s
  {
    ShufflePermutes(s, n - 1, rand, k);
    ShuffleStep(s, n - 1, rand, k);
  }

  /** One step of the shuffle: the swap at `top`, then the rest; nothing when top <= 0. */
  lemma ShuffleStep(s: seq<int>, top: int, rand: nat -> Draw, k: nat)
    requires top < |s|
    ensures top <= 0 ==> Shuffle(s, top, rand, k) == s
    ensures 0 < top ==> Shuffle(s, top, rand, k) == Shuffle(Swap(s, top, Target(top, rand(k))), top - 1, rand, k + 1)
  {
  }

  /** The in-place exchange of p[i] and p[j] through a temporary. */
  method SwapEntries(p: array<int>, i: int, j: int)
    requires 0 <= i < p.Length && 0 <= j < p.Length
    modifies p
    ensures p[..] == Swap(old(p[..]), i, j)
  {
    var tmp := p[i];
    p[i] := p[j];
    p[j] := tmp;
  }

  /** perlin::generate_perm: fills p with 0 .. 255 and shuffles it. */
  method GeneratePerm(p: array<int>, rand: nat -> Draw, k: nat) returns (k': nat)
    requires p.Length == PointCount
    modifies p
    ensures p[..] == Shuffle(Iota(PointCount), PointCount - 1, rand, k)
    ensures k' == k + PointCount - 1
  {
    var i := 0;
    while i < PointCount
      invariant 0 <= i <= PointCount
      invariant forall m :: 0 <= m < i ==> p[m] == m
    {
      p[i] := i;
      i := i + 1;
    }
    assert p[..] == Iota(PointCount);
    k' := Permute(p, PointCount, rand, k);
  }

  /** The table generate_perm leaves behind holds each of 0 .. 255 exactly once. */
  lemma GeneratedTableIsPermutation(rand: nat -> Draw, k: nat)
    ensures IsIndexPermutation(Shuffle(Iota(PointCount), PointCount - 1, rand, k))
  {
    ShufflePermutes(Iota(PointCount), PointCount - 1, rand, k);
  }

  /**
   * `x & 255` on a two's-complement int: the low eight bits, which is x modulo
   * 256 taken non-negative, so always a valid table index.
   */
  function Mask(x: int): (r: int)
    ensures 0 <= r < PointCount
    ensures 0 <= x < PointCount ==> r == x
  {
    x % 256
  }

  /** The mask repeats with period point_count, so the lattice tiles space every 256 cells. */
  lemma MaskPeriodic(x: int)
    ensures Mask(x + PointCount) == Mask(x)
    ensures (x - Mask(x)) % PointCount == 0
  {
  }

  /** 2 to the power n. */
  function Pow2(n: nat): (r: nat)
    ensures r >= 1
  {
    if n == 0 then 1 else 2 * Pow2(n - 1)
  }

  /** `a ^ b` on non-negative ints, bit by bit from the lowest. */
  function Xor(a: nat, b: nat): nat
    decreases a + b
  {
    if a == 0 && b == 0 then 0
    else (if a % 2 == b % 2 then 0 else 1) + 2 * Xor(a / 2, b / 2)
  }

  /** The XOR of two n-bit values is an n-bit value. */
  lemma {:induction false} XorBound(a: nat, b: nat, n: nat)
    requires a < Pow2(n) && b < Pow2(n)
    ensures Xor(a, b) < Pow2(n)
    decreases a + b
  {
    if !(a == 0 && b == 0) {
      assert n > 0;
      XorBound(a / 2, b / 2, n - 1);
    }
  }

  /** A value XORed with itself vanishes. */
  lemma {:induction false} XorSelf(a: nat)
    ensures Xor(a, a) == 0
    decreases a
  {
    if a != 0 {
      XorSelf(a / 2);
    }
  }

  /** Zero is the identity of XOR. */
  lemma {:induction false} XorZero(a: nat)
    ensures Xor(0, a) == a
    decreases a
  {
    if a != 0 {
      XorZero(a / 2);
    }
  }

  /** `a ^ b ^ c` on three table entries: again a valid index into randvec. */
  function Xor3(a: int, b: int, c: int): (r: int)
    requires 0 <= a < PointCount && 0 <= b < PointCount && 0 <= c < PointCount
    ensures 0 <= r < PointCount
  {
    assert Pow2(8) == PointCount;
    XorBound(a, b, 8);
    XorBound(Xor(a, b), c, 8);
    Xor(Xor(a, b), c)
  }

  /** Two equal entries cancel out of the XOR. */
  lemma Xor3Cancels(a: int, c: int)
    requires 0 <= a < PointCount && 0 <= c < PointCount
    ensures Xor3(a, a, c) == c
  {
    XorSelf(a);
    XorZero(c);
  }

  // ---------------------------------------------------------------------------
  // perlin_interp.

  /** The smoothstep weight t * t * (3 - 2 t). */
  function Smooth(t: real): real
  {
    t * t * (3.0 - 2.0 * t)
  }

  /**
   * The weight of the corner at offset `bit` along one axis. The source writes
   * `bit * s + (1 - bit) * (1 - s)`; for the offsets 0 and 1 it takes that is
   * 1 - s at offset 0 and s at offset 1.
   */
  function Blend(bit: int, s: real): real
  {
    if bit == 1 then s else 1.0 - s
  }

  /** Blend agrees with the source's arithmetic form at both offsets. */
  lemma BlendIsSourceFormula(bit: int, s: real)
    requires bit == 0 || bit == 1
    ensures Blend(bit, s) == bit as real * s + (1 - bit) as real * (1.0 - s)
  {
  }

  /**
   * The contribution of the corner at offsets (i, j, k) with vector g: the
   * three blend weights times the dot product of g with (u - i, v - j, w - k).
   */
  function Term(g: Vec3, u: real, v: real, w: real, i: int, j: int, k: int): real
  {
    Blend(i, Smooth(u)) * Blend(j, Smooth(v)) * Blend(k, Smooth(w)) * Dot(g, Vec3(u - i as real, v - j as real, w - k as real))
  }

  /** The offsets of corner c[i][j][k], stored at index n = 4i + 2j + k. */
  function OffsetI(n: int): int { if n >= 4 then 1 else 0 }
  function OffsetJ(n: int): int { if 2 <= n < 4 || 6 <= n then 1 else 0 }
  function OffsetK(n: int): int { if n == 1 || n == 3 || n == 5 || n == 7 then 1 else 0 }

  /** The sum of the first n corner contributions, in the loop's order. */
  function InterpSum(c: seq<Vec3>, u: real, v: real, w: real, n: int): real
    requires |c| == 8 && 0 <= n <= 8
  {
    if n == 0 then 0.0
    else InterpSum(c, u, v, w, n - 1) + Term(c[n - 1], u, v, w, OffsetI(n - 1), OffsetJ(n - 1), OffsetK(n - 1))
  }

  /** perlin::perlin_interp: the triple loop accumulating the eight contributions. */
  method PerlinInterp(c: seq<Vec3>, u: real, v: real, w: real) returns (accum: real)
    requires |c| == 8
    ensures accum == InterpSum(c, u, v, w, 8)
  {
    accum := 0.0;
    for i := 0 to 2
      invariant accum == InterpSum(c, u, v, w, 4 * i)
    {
      for j := 0 to 2
        invariant accum == InterpSum(c, u, v, w, 4 * i + 2 * j)
      {
        for k := 0 to 2
          invariant accum == InterpSum(c, u, v, w, 4 * i + 2 * j + k)
        {
          var contribution := Term(c[4 * i + 2 * j + k], u, v, w, i, j, k);
          InterpSumStep(c, u, v, w, i, j, k, contribution);
          accum := accum + contribution;
        }
      }
    }
  }

  /** Corner [i][j][k] is the next term of the sum. */
  lemma InterpSumStep(c: seq<Vec3>, u: real, v: real, w: real, i: int, j: int, k: int, contribution: real)
    requires |c| == 8 && 0 <= i < 2 && 0 <= j < 2 && 0 <= k < 2
    requires contribution == Term(c[4 * i + 2 * j + k], u, v, w, i, j, k)
    ensures InterpSum(c, u, v, w, 4 * i + 2 * j + k + 1) == InterpSum(c, u, v, w, 4 * i + 2 * j + k) + contribution
  {
    var n := 4 * i + 2 * j + k;
    assert OffsetI(n) == i && OffsetJ(n) == j && OffsetK(n) == k;
  }

  /** At a lattice point every contribution vanishes: the noise is zero there. */
  lemma InterpZeroAtCorner(c: seq<Vec3>)
    requires |c| == 8
    ensures InterpSum(c, 0.0, 0.0, 0.0, 8) == 0.0
  {
    assert Smooth(0.0) == 0.0;
    assert Blend(1, 0.0) == 0.0 && Blend(0, 0.0) == 1.0;
    assert Term(c[0], 0.0, 0.0, 0.0, 0, 0, 0) == 0.0;
    assert InterpSum(c, 0.0, 0.0, 0.0, 1) == 0.0;
    assert InterpSum(c, 0.0, 0.0, 0.0, 2) == 0.0;
    assert InterpSum(c, 0.0, 0.0, 0.0, 3) == 0.0;
    assert InterpSum(c, 0.0, 0.0, 0.0, 4) == 0.0;
    assert InterpSum(c, 0.0, 0.0, 0.0, 5) == 0.0;
    assert InterpSum(c, 0.0, 0.0, 0.0, 6) == 0.0;
    assert InterpSum(c, 0.0, 0.0, 0.0, 7) == 0.0;
  }

  /** The two blend weights along an axis add up to one. */
  lemma BlendPartitionsUnity(s: real)
    ensures Blend(0, s) + Blend(1, s) == 1.0
  {
  }

  /** The fractional part p - floor(p) that noise interpolates with lies in [0, 1). */
  function Frac(x: real): (f: real)
    ensures 0.0 <= f < 1.0 && f == x - x.Floor as real
  {
    x - x.Floor as real
  }

  // ---------------------------------------------------------------------------
  // turbulance.

  /** 0.5 to the power n. */
  function HalfPow(n: nat): (r: real)
    ensures 0.0 < r <= 1.0
  {
    if n == 0 then 1.0 else 0.5 * HalfPow(n - 1)
  }

  /** The sum the turbulance loop accumulates for a fixed sample: octave i weighs 0.5^(i+1). */
  function OctaveSum(noise: real, depth: nat): real
  {
    if depth == 0 then 0.0 else OctaveSum(noise, depth - 1) + HalfPow(depth) * noise
  }

  /** The octave weights form a geometric series: depth octaves of one sample give (1 - 0.5^depth) times it. */
  lemma {:induction false} OctaveSumClosedForm(noise: real, depth: nat)
    ensures OctaveSum(noise, depth) == noise * (1.0 - HalfPow(depth))
  {
    if depth > 0 {
      OctaveSumClosedForm(noise, depth - 1);
      assert HalfPow(depth) == 0.5 * HalfPow(depth - 1);
    }
  }

  /** Every entry of the table is an index into a table of point_count entries. */
  ghost predicate EntriesInRange(a: array<int>)
    reads a
  {
    forall m :: 0 <= m < a.Length ==> 0 <= a[m] < PointCount
  }

  /** A table of point_count entries that is an index permutation has its entries in range. */
  lemma PermutationInRange(a: array<int>)
    requires a.Length == PointCount && IsIndexPermutation(a[..])
    ensures EntriesInRange(a)
  {
    forall m | 0 <= m < a.Length
      ensures 0 <= a[m] < PointCount
    {
      PermutationEntryInRange(a[..], m);
    }
  }

  /** The constructor's first loop: the unit vector of each random draw. */
  method UnitVectors(draws: seq<Vec3>, sqrt: real -> real) returns (vs: array<Vec3>)
    ensures fresh(vs) && vs.Length == |draws|
    ensures forall i :: 0 <= i < |draws| ==> vs[i] == UnitVector(draws[i], sqrt)
  {
    vs := new Vec3[|draws|];
    for i := 0 to |draws|
      invariant forall m :: 0 <= m < i ==> vs[m] == UnitVector(draws[m], sqrt)
    {
      vs[i] := UnitVector(draws[i], sqrt);
    }
  }

  class Perlin {
    var randvec: array<Vec3>
    var permX: array<int>
    var permY: array<int>
    var permZ: array<int>

    /**
     * All four tables have point_count entries and every permutation-table
     * entry indexes randvec; the constructor establishes the stronger fact
     * that each permutation table holds every index exactly once.
     */
    ghost predicate Valid()
      reads this, randvec, permX, permY, permZ
    {
      randvec.Length == PointCount &&
      permX.Length == PointCount && permY.Length == PointCount && permZ.Length == PointCount &&
      EntriesInRange(permX) && EntriesInRange(permY) && EntriesInRange(permZ)
    }

    /**
     * perlin::perlin: randvec[i] is the unit vector of the i-th random draw,
     * then perm_x, perm_y and perm_z are generated in that order from
     * consecutive runs of rand(), 255 draws each.
     */
    constructor (draws: seq<Vec3>, sqrt: real -> real, rand: nat -> Draw, k: nat)
      requires |draws| == PointCount
      ensures Valid()
      ensures IsIndexPermutation(permX[..]) && IsIndexPermutation(permY[..]) && IsIndexPermutation(permZ[..])
      ensures forall i :: 0 <= i < PointCount ==> randvec[i] == UnitVector(draws[i], sqrt)
      ensures permX[..] == Shuffle(Iota(PointCount), PointCount - 1, rand, k)
      ensures permY[..] == Shuffle(Iota(PointCount), PointCount - 1, rand, k + 255)
      ensures permZ[..] == Shuffle(Iota(PointCount), PointCount - 1, rand, k + 510)
      ensures fresh(randvec) && fresh(permX) && fresh(permY) && fresh(permZ)
    {
      var vs := UnitVectors(draws, sqrt);
      var px := new int[PointCount];
      var py := new int[PointCount];
      var pz := new int[PointCount];
      var k1 := GeneratePerm(px, rand, k);
      var k2 := GeneratePerm(py, rand, k1);
      var k3 := GeneratePerm(pz, rand, k2);
      GeneratedTableIsPermutation(rand, k);
      GeneratedTableIsPermutation(rand, k1);
      GeneratedTableIsPermutation(rand, k2);
      PermutationInRange(px);
      PermutationInRange(py);
      PermutationInRange(pz);
      randvec, permX, permY, permZ := vs, px, py, pz;
    }

    /** The random vector that lattice corner (i, j, k) selects. */
    function Gradient(i: int, j: int, k: int): Vec3
      reads this, randvec, permX, permY, permZ
      requires Valid()
    {
      randvec[Xor3(permX[Mask(i)], permY[Mask(j)], permZ[Mask(k)])]
    }

    /** The gradient lattice repeats every point_count cells along each axis. */
    lemma GradientPeriodic(i: int, j: int, k: int)
      requires Valid()
      ensures Gradient(i + PointCount, j, k) == Gradient(i, j, k)
      ensures Gradient(i, j + PointCount, k) == Gradient(i, j, k)
      ensures Gradient(i, j, k + PointCount) == Gradient(i, j, k)
    {
      MaskPeriodic(i);
      MaskPeriodic(j);
      MaskPeriodic(k);
    }

    /** The eight corners of the cell whose lowest corner is (i, j, k), corner [di][dj][dk] at 4 di + 2 dj + dk. */
    function Corners(i: int, j: int, k: int): (c: seq<Vec3>)
      reads this, randvec, permX, permY, permZ
      requires Valid()
      ensures |c| == 8
      ensures forall n :: 0 <= n < 8 ==> c[n] == Gradient(i + OffsetI(n), j + OffsetJ(n), k + OffsetK(n))
    {
      [Gradient(i, j, k), Gradient(i, j, k + 1), Gradient(i, j + 1, k), Gradient(i, j + 1, k + 1),
       Gradient(i + 1, j, k), Gradient(i + 1, j, k + 1), Gradient(i + 1, j + 1, k), Gradient(i + 1, j + 1, k + 1)]
    }

    /** The noise value at p: the corners of p's lattice cell blended at p's fractional position. */
    function NoiseAt(p: Vec3): real
      reads this, randvec, permX, permY, permZ
      requires Valid()
    {
      InterpSum(Corners(p.x.Floor, p.y.Floor, p.z.Floor), Frac(p.x), Frac(p.y), Frac(p.z), 8)
    }

    /** The triple loop of perlin::noise that reads the eight corner vectors of the cell at (i, j, k). */
    method GatherCorners(i: int, j: int, k: int) returns (c: seq<Vec3>)
      requires Valid()
      ensures c == Corners(i, j, k)
    {
      c := [];
      for di := 0 to 2
        invariant |c| == 4 * di
        invariant forall n :: 0 <= n < |c| ==> c[n] == Gradient(i + OffsetI(n), j + OffsetJ(n), k + OffsetK(n))
      {
        for dj := 0 to 2
          invariant |c| == 4 * di + 2 * dj
          invariant forall n :: 0 <= n < |c| ==> c[n] == Gradient(i + OffsetI(n), j + OffsetJ(n), k + OffsetK(n))
        {
          for dk := 0 to 2
            invariant |c| == 4 * di + 2 * dj + dk
            invariant forall n :: 0 <= n < |c| ==> c[n] == Gradient(i + OffsetI(n), j + OffsetJ(n), k + OffsetK(n))
          {
            assert OffsetI(|c|) == di && OffsetJ(|c|) == dj && OffsetK(|c|) == dk;
            c := c + [Gradient(i + di, j + dj, k + dk)];
          }
        }
      }
      assert |c| == 8;
    }

    /** perlin::noise: the fractional position inside the cell, the corner vectors, and their interpolation. */
    method Noise(p: Vec3) returns (r: real)
      requires Valid()
      ensures r == NoiseAt(p)
    {
      var u := p.x - p.x.Floor as real;
      var v := p.y - p.y.Floor as real;
      var w := p.z - p.z.Floor as real;
      var c := GatherCorners(p.x.Floor, p.y.Floor, p.z.Floor);
      r := PerlinInterp(c, u, v, w);
    }

    /** The noise vanishes at every lattice point. */
    lemma NoiseZeroAtLatticePoints(p: Vec3)
      requires Valid()
      requires p.x == p.x.Floor as real && p.y == p.y.Floor as real && p.z == p.z.Floor as real
      ensures NoiseAt(p) == 0.0
    {
      InterpZeroAtCorner(Corners(p.x.Floor, p.y.Floor, p.z.Floor));
    }

    /**
     * perlin::turbulance: octave i adds 0.5^(i+1) times the noise at temp_p.
     * vec3::scale returns a new vector, which the loop discards, so temp_p stays
     * p: the result is |noise(p)| scaled by 1 - 0.5^depth, never negative.
     */
    method Turbulence(p: Vec3, depth: int) returns (r: real)
      requires Valid()
      ensures r == Abs(OctaveSum(NoiseAt(p), if depth > 0 then depth else 0))
    {
      ghost var n0 := NoiseAt(p);
      var accum := 0.0;
      var tempP := p;
      var weight := 0.5;
      var i := 0;
      while i < depth
        invariant 0 <= i && (depth > 0 ==> i <= depth) && (depth <= 0 ==> i == 0)
        invariant tempP == p && weight == HalfPow(i + 1)
        invariant accum == OctaveSum(n0, i)
      {
        var n := Noise(tempP);
        OctaveStep(n0, i, weight, n);
        accum := accum + weight * n;
        weight := weight * 0.5;
        i := i + 1;
      }
      r := Abs(accum);
    }
  }

  /**
   * What turbulance returns for a sample that every octave repeats:
   * |noise| scaled by 1 - 0.5^depth, never negative.
   */
  lemma TurbulenceClosedForm(noise: real, depth: nat)
    ensures Abs(OctaveSum(noise, depth)) == Abs(noise) * (1.0 - HalfPow(depth))
    ensures Abs(OctaveSum(noise, depth)) >= 0.0
  {
    OctaveSumClosedForm(noise, depth);
    AbsScale(noise, 1.0 - HalfPow(depth));
  }

  /** One more octave adds its weight times the sample. */
  lemma OctaveStep(noise: real, i: nat, weight: real, n: real)
    requires weight == HalfPow(i + 1) && n == noise
    ensures OctaveSum(noise, i + 1) == OctaveSum(noise, i) + weight * n
  {
  }

  /** |x k| == |x| k for k >= 0. */
  lemma AbsScale(x: real, k: real)
    requires 0.0 <= k
    ensures Abs(x * k) == Abs(x) * k
  {
    if x < 0.0 {
      assert x * k <= 0.0;
    }
  }
}
