// bvh.h: a bounding volume hierarchy over a range of primitives. The
// constructor draws a random axis, then either makes a node whose two child
// pointers name the same primitive (one element), takes two primitives as
// they are (two elements), or sorts the range in place by the chosen axis of
// each primitive's box minimum and recurses on the two halves. Every node's
// box is the combination of its children's boxes. `hit` prunes on the node's
// slab test, which narrows the interval handed to both children, and queries
// the right child no farther than the left child's hit.
//
// Primitives are a type parameter P; `boxOf` is getBoundingBox and `hitOf`
// is a primitive's `hit`, both supplied by the caller.

module Bvh {
  import opened Util
  import opened Vectors
  import opened Rays
  import opened Boxes
  import opened Hittables

  /** A child pointer: a primitive, or a nested bvh_node with its box. */
  datatype Tree<P> = Leaf(prim: P) | Node(left: Tree<P>, right: Tree<P>, bbox: Aabb)

  /** getBoundingBox of a child: the primitive's own box, or the node's stored box. */
  function BoxOf<P>(t: Tree<P>, boxOf: P -> Aabb): Aabb
  {
    match t
    case Leaf(p) => boxOf(p)
    case Node(_, _, b) => b
  }

  /** The primitives at the leaves, left to right. */
  function Fringe<P>(t: Tree<P>): seq<P>
  {
    match t
    case Leaf(p) => [p]
    case Node(l, r, _) => Fringe(l) + Fringe(r)
  }

  /** The number of bvh_node objects, each of which draws one random axis. */
  function Nodes<P>(t: Tree<P>): nat
  {
    match t
    case Leaf(_) => 0
    case Node(l, r, _) => 1 + Nodes(l) + Nodes(r)
  }

  /** Every node's box is the combination of its children's boxes (bvh.h, end of the constructor). */
  predicate WellFormed<P>(t: Tree<P>, boxOf: P -> Aabb)
  {
    match t
    case Leaf(_) => true
    case Node(l, r, b) => b == Combine(BoxOf(l, boxOf), BoxOf(r, boxOf)) && WellFormed(l, boxOf) && WellFormed(r, boxOf)
  }

  // ---------------------------------------------------------------------------
  // The comparators

  /** The coordinate of a primitive's box minimum on `axis` (0 is x, 1 is y, anything else z). */
  function SortKey<P>(boxOf: P -> Aabb, axis: int, x: P): real
  {
    boxOf(x).min.At(axis)
  }

  /** box_x_compare, box_y_compare and box_z_compare, selected by `axis` as the constructor does. */
  function BoxCompare<P>(boxOf: P -> Aabb, axis: int, a: P, b: P): (less: bool)
    ensures axis == 0 ==> (less <==> boxOf(a).min.x < boxOf(b).min.x)
    ensures axis == 1 ==> (less <==> boxOf(a).min.y < boxOf(b).min.y)
    ensures axis == 2 ==> (less <==> boxOf(a).min.z < boxOf(b).min.z)
  {
    SortKey(boxOf, axis, a) < SortKey(boxOf, axis, b)
  }

  /** a[lo..hi] is in nondecreasing order of the box minimum on `axis`. */
  ghost predicate SortedRange<P>(a: array<P>, lo: int, hi: int, boxOf: P -> Aabb, axis: int)
    requires 0 <= lo <= hi <= a.Length
    reads a
  {
    forall p, q :: lo <= p < q < hi ==> SortKey(boxOf, axis, a[p]) <= SortKey(boxOf, axis, a[q])
  }

  // ---------------------------------------------------------------------------
  // std::sort(objects + start, objects + end, comparator)

  /** Exchange two neighbouring entries. */
  method SwapDown<P>(a: array<P>, j: int)
    requires 0 < j < a.Length
    modifies a
    ensures a[j - 1] == old(a[j]) && a[j] == old(a[j - 1])
    ensures forall m :: 0 <= m < a.Length && m != j - 1 && m != j ==> a[m] == old(a[m])
    ensures multiset(a[..]) == old(multiset(a[..]))
  {
    a[j - 1], a[j] := a[j], a[j - 1];
  }

  /**
   * Sort a[start..end] in place by the comparator for `axis`; only that range changes and it
   * keeps its elements. An insertion sort stands in for std::sort, which
   * promises exactly this.
   */
  method SortRange<P>(a: array<P>, start: int, end: int, boxOf: P -> Aabb, axis: int)
    requires 0 <= start <= end <= a.Length
    modifies a
    ensures SortedRange(a, start, end, boxOf, axis)
    ensures a[..start] == old(a[..start]) && a[end..] == old(a[end..])
    ensures multiset(a[start..end]) == old(multiset(a[start..end]))
  {
    ghost var a0 := a[..];
    var i := start;
    while i < end
      invariant start <= i <= end
      invariant SortedRange(a, start, i, boxOf, axis)
      invariant a[..start] == a0[..start] && a[end..] == a0[end..]
      invariant multiset(a[..]) == multiset(a0)
    {
      InsertOne(a, start, end, i, boxOf, axis);
      i := i + 1;
    }
    RangeMultiset(a[..], a0, start, end);
  }

  /** One pass of insertion: move a[i] down into the sorted prefix a[start..i]. */
  method InsertOne<P>(a: array<P>, start: int, end: int, i: int, boxOf: P -> Aabb, axis: int)
    requires 0 <= start <= i < end <= a.Length
    requires SortedRange(a, start, i, boxOf, axis)
    modifies a
    ensures SortedRange(a, start, i + 1, boxOf, axis)
    ensures a[..start] == old(a[..start]) && a[end..] == old(a[end..])
    ensures multiset(a[..]) == old(multiset(a[..]))
  {
    var j := i;
    while start < j && BoxCompare(boxOf, axis, a[j], a[j - 1])
      invariant start <= j <= i
      invariant forall p, q :: start <= p < q <= i && p != j && q != j ==> SortKey(boxOf, axis, a[p]) <= SortKey(boxOf, axis, a[q])
      invariant forall q :: j < q <= i ==> SortKey(boxOf, axis, a[j]) <= SortKey(boxOf, axis, a[q])
      invariant forall p, q :: start <= p < j < q <= i ==> SortKey(boxOf, axis, a[p]) <= SortKey(boxOf, axis, a[q])
      invariant forall m :: 0 <= m < a.Length && (m < start || i < m) ==> a[m] == old(a[m])
      invariant multiset(a[..]) == old(multiset(a[..]))
    {
      SwapDown(a, j);
      j := j - 1;
    }
    assert a[..start] == old(a[..start]);
    assert a[end..] == old(a[end..]);
  }

  /** Two arrays with the same elements that agree outside [start, end) have the same elements inside it. */
  lemma RangeMultiset<P>(s: seq<P>, t: seq<P>, start: int, end: int)
    requires 0 <= start <= end <= |s| == |t|
    requires multiset(s) == multiset(t)
    requires s[..start] == t[..start] && s[end..] == t[end..]
    ensures multiset(s[start..end]) == multiset(t[start..end])
  {
    assert s == s[..start] + s[start..end] + s[end..];
    assert t == t[..start] + t[start..end] + t[end..];
    assert multiset(s) == multiset(s[..start]) + multiset(s[start..end]) + multiset(s[end..]);
    assert multiset(t) == multiset(t[..start]) + multiset(t[start..end]) + multiset(t[end..]);
    forall x
      ensures multiset(s[start..end])[x] == multiset(t[start..end])[x]
    {
      assert multiset(s)[x] == multiset(s[..start])[x] + multiset(s[start..end])[x] + multiset(s[end..])[x];
      assert multiset(t)[x] == multiset(t[..start])[x] + multiset(t[start..end])[x] + multiset(t[end..])[x];
    }
  }

  // ---------------------------------------------------------------------------
  // The constructor

  /**
   * bvh_node::bvh_node(objects, start, end). `rand(k)` is the k-th value of
   * rand(); the node draws one and its subtrees draw the next ones in
   * pre-order, and `k'` is the next unused index. The range must be non-empty:
   * on an empty range the constructor recurses on the same range forever
   * (see SplitRanges).
   */
  method Build<P(!new)>(objects: array<P>, start: int, end: int, boxOf: P -> Aabb, rand: nat -> Draw, k: nat)
    returns (t: Tree<P>, k': nat)
    requires 0 <= start < end <= objects.Length
    modifies objects
    decreases end - start, 1
    ensures t.Node? && WellFormed(t, boxOf)
    ensures k' == k + Nodes(t)
    ensures objects[..start] == old(objects[..start]) && objects[end..] == old(objects[end..])
    ensures multiset(objects[start..end]) == old(multiset(objects[start..end]))
    ensures forall x :: x in Fringe(t) <==> x in old(objects[start..end])
    ensures old(multiset(objects[start..end])) <= multiset(Fringe(t))
    ensures end - start == 1 ==>
      t == Node(Leaf(old(objects[start])), Leaf(old(objects[start])), Combine(boxOf(old(objects[start])), boxOf(old(objects[start]))))
    ensures end - start == 2 ==>
      objects[..] == old(objects[..]) && t.left == Leaf(objects[start]) && t.right == Leaf(objects[start + 1])
    ensures end - start >= 3 ==>
      t.left.Node? && t.right.Node? && Partitioned(Fringe(t.left), Fringe(t.right), boxOf, RandomInt(0, 2, rand(k)))
  {
    var axis := RandomInt(0, 2, rand(k));
    var span := end - start;
    if span == 1 {
      t := Node(Leaf(objects[start]), Leaf(objects[start]), Combine(boxOf(objects[start]), boxOf(objects[start])));
      k' := k + 1;
      assert objects[start..end] == [objects[start]];
    } else if span == 2 {
      t := Node(Leaf(objects[start]), Leaf(objects[start + 1]), Combine(boxOf(objects[start]), boxOf(objects[start + 1])));
      k' := k + 1;
      assert objects[start..end] == [objects[start], objects[start + 1]];
    } else {
      t, k' := BuildSplit(objects, start, end, boxOf, rand, k, axis);
    }
  }

  /**
   * The recursive case of the constructor (three or more primitives): sort
   * the range by `axis`, split at mid = start + span / 2 and build each half.
   */
  method BuildSplit<P(!new)>(objects: array<P>, start: int, end: int, boxOf: P -> Aabb, rand: nat -> Draw, k: nat, axis: int)
    returns (t: Tree<P>, k': nat)
    requires 0 <= start && end - start >= 3 && end <= objects.Length
    modifies objects
    decreases end - start, 0
    ensures t.Node? && t.left.Node? && t.right.Node? && WellFormed(t, boxOf)
    ensures k' == k + Nodes(t)
    ensures objects[..start] == old(objects[..start]) && objects[end..] == old(objects[end..])
    ensures multiset(objects[start..end]) == old(multiset(objects[start..end]))
    ensures forall x :: x in Fringe(t) <==> x in old(objects[start..end])
    ensures old(multiset(objects[start..end])) <= multiset(Fringe(t))
    ensures Partitioned(Fringe(t.left), Fringe(t.right), boxOf, axis)
  {
    ghost var before := objects[..];
    SortRange(objects, start, end, boxOf, axis);
    ghost var sorted := objects[..];
    var mid := start + (end - start) / 2;
    assert objects[start..mid] == sorted[start..mid];
    var left, k1 := Build(objects, start, mid, boxOf, rand, k + 1);
    assert forall x :: x in Fringe(left) <==> x in sorted[start..mid];
    ghost var afterLeft := objects[..];
    assert objects[mid..end] == afterLeft[mid..end];
    var right, k2 := Build(objects, mid, end, boxOf, rand, k1);
    assert forall x :: x in Fringe(right) <==> x in afterLeft[mid..end];
    t := Node(left, right, Combine(BoxOf(left, boxOf), BoxOf(right, boxOf)));
    k' := k2;
    SplitOutcome(before, sorted, afterLeft, objects[..], start, mid, end, Fringe(left), Fringe(right), boxOf, axis);
  }

  /**
   * The bookkeeping of the recursive case, over the array's contents before
   * the sort, after it, after the left call and after the right call.
   */
  lemma SplitOutcome<P>(before: seq<P>, sorted: seq<P>, afterLeft: seq<P>, final: seq<P>,
                        start: int, mid: int, end: int, ls: seq<P>, rs: seq<P>, boxOf: P -> Aabb, axis: int)
    requires 0 <= start < mid < end <= |before| == |sorted| == |afterLeft| == |final|
    requires sorted[..start] == before[..start] && sorted[end..] == before[end..]
    requires multiset(sorted[start..end]) == multiset(before[start..end])
    requires forall p, q :: start <= p < q < end ==> SortKey(boxOf, axis, sorted[p]) <= SortKey(boxOf, axis, sorted[q])
    requires afterLeft[..start] == sorted[..start] && afterLeft[mid..] == sorted[mid..]
    requires multiset(afterLeft[start..mid]) == multiset(sorted[start..mid])
    requires forall x :: x in ls <==> x in sorted[start..mid]
    requires multiset(sorted[start..mid]) <= multiset(ls)
    requires final[..mid] == afterLeft[..mid] && final[end..] == afterLeft[end..]
    requires multiset(final[mid..end]) == multiset(afterLeft[mid..end])
    requires forall x :: x in rs <==> x in afterLeft[mid..end]
    requires multiset(afterLeft[mid..end]) <= multiset(rs)
    ensures final[..start] == before[..start] && final[end..] == before[end..]
    ensures multiset(final[start..end]) == multiset(before[start..end])
    ensures forall x :: x in ls + rs <==> x in before[start..end]
    ensures multiset(before[start..end]) <= multiset(ls + rs)
    ensures Partitioned(ls, rs, boxOf, axis)
  {
    SplitFrames(sorted, afterLeft, final, start, mid, end);
    ChildrenCover(sorted, start, mid, end, ls, rs);
    SameMembers(before[start..end], sorted[start..end]);
    SortedHalves(sorted, start, mid, end, boxOf, axis, ls, rs);
  }

  /** The two halves' fringes together hold the whole range, each primitive at least as often. */
  lemma ChildrenCover<P>(sorted: seq<P>, start: int, mid: int, end: int, ls: seq<P>, rs: seq<P>)
    requires 0 <= start <= mid <= end <= |sorted|
    requires forall x :: x in ls <==> x in sorted[start..mid]
    requires forall x :: x in rs <==> x in sorted[mid..end]
    requires multiset(sorted[start..mid]) <= multiset(ls) && multiset(sorted[mid..end]) <= multiset(rs)
    ensures forall x :: x in ls + rs <==> x in sorted[start..end]
    ensures multiset(sorted[start..end]) <= multiset(ls + rs)
  {
    assert sorted[start..end] == sorted[start..mid] + sorted[mid..end];
  }

  /** Sequences with the same elements counted with multiplicity have the same members. */
  lemma SameMembers<P>(a: seq<P>, b: seq<P>)
    requires multiset(a) == multiset(b)
    ensures forall x :: x in a <==> x in b
  {
    forall x
      ensures x in a <==> x in b
    {
      assert x in a <==> x in multiset(a);
      assert x in b <==> x in multiset(b);
    }
  }

  /** Every primitive on the left has a box minimum no greater, on `axis`, than every primitive on the right. */
  ghost predicate Partitioned<P>(ls: seq<P>, rs: seq<P>, boxOf: P -> Aabb, axis: int)
  {
    forall x, y :: x in ls && y in rs ==> SortKey(boxOf, axis, x) <= SortKey(boxOf, axis, y)
  }

  /**
   * The bookkeeping of the recursive case: the left call changes only
   * [start, mid), the right call only [mid, end), so the range keeps its
   * elements and everything outside it is unchanged.
   */
  lemma SplitFrames<P>(sorted: seq<P>, afterLeft: seq<P>, final: seq<P>, start: int, mid: int, end: int)
    requires 0 <= start < mid < end <= |sorted| == |afterLeft| == |final|
    requires afterLeft[..start] == sorted[..start] && afterLeft[mid..] == sorted[mid..]
    requires multiset(afterLeft[start..mid]) == multiset(sorted[start..mid])
    requires final[..mid] == afterLeft[..mid] && final[end..] == afterLeft[end..]
    requires multiset(final[mid..end]) == multiset(afterLeft[mid..end])
    ensures final[..start] == sorted[..start] && final[end..] == sorted[end..]
    ensures multiset(final[start..end]) == multiset(sorted[start..end])
    ensures final[start..mid] == afterLeft[start..mid] && afterLeft[mid..end] == sorted[mid..end]
  {
    assert final[..start] == afterLeft[..mid][..start];
    assert afterLeft[end..] == afterLeft[mid..][end - mid..];
    assert final[start..mid] == afterLeft[..mid][start..];
    assert afterLeft[mid..end] == afterLeft[mid..][..end - mid];
    assert sorted[mid..end] == sorted[mid..][..end - mid];
    assert final[start..end] == final[start..mid] + final[mid..end];
    assert sorted[start..end] == sorted[start..mid] + sorted[mid..end];
    assert multiset(final[start..end]) == multiset(final[start..mid]) + multiset(final[mid..end]);
    assert multiset(sorted[start..end]) == multiset(sorted[start..mid]) + multiset(sorted[mid..end]);
    assert multiset(final[start..mid]) == multiset(sorted[start..mid]);
    assert multiset(final[mid..end]) == multiset(sorted[mid..end]);
    assert final[start..mid] == afterLeft[..mid][start..];
    assert afterLeft[mid..end] == afterLeft[mid..][..end - mid];
  }

  /**
   * The sort leaves every entry of [start, mid) no greater than every entry
   * of [mid, end); the two subtrees hold exactly those entries.
   */
  lemma SortedHalves<P>(sorted: seq<P>, start: int, mid: int, end: int,
                        boxOf: P -> Aabb, axis: int, ls: seq<P>, rs: seq<P>)
    requires 0 <= start < mid < end <= |sorted|
    requires forall p, q :: start <= p < q < end ==> SortKey(boxOf, axis, sorted[p]) <= SortKey(boxOf, axis, sorted[q])
    requires forall x :: x in ls <==> x in sorted[start..mid]
    requires forall y :: y in rs <==> y in sorted[mid..end]
    ensures Partitioned(ls, rs, boxOf, axis)
  {
    forall x, y | x in ls && y in rs
      ensures SortKey(boxOf, axis, x) <= SortKey(boxOf, axis, y)
    {
      var p :| start <= p < mid && sorted[p] == x;
      var q :| mid <= q < end && sorted[q] == y;
    }
  }

  // ---------------------------------------------------------------------------
  // The empty range

  /** The two ranges the constructor recurses on, with mid = start + span / 2. */
  datatype Split = Split(leftStart: int, leftEnd: int, rightStart: int, rightEnd: int)

  function SplitRanges(start: int, end: int): (s: Split)
    requires start <= end
    ensures s.leftStart == start && s.leftEnd == s.rightStart && s.rightEnd == end
  {
    var mid := start + (end - start) / 2;
    Split(start, mid, mid, end)
  }

  /** With three or more primitives both halves are non-empty and strictly smaller, so the recursion ends. */
  lemma SplitShrinks(start: int, end: int)
    requires end - start >= 3
    ensures var s := SplitRanges(start, end);
      start < s.leftEnd < end &&
      s.leftEnd - s.leftStart < end - start && s.rightEnd - s.rightStart < end - start
  {
  }

  /**
   * An empty range (span 0) falls through to the recursive case, and its
   * right half is the very same empty range: the constructor calls itself
   * with unchanged arguments and never returns.
   */
  lemma EmptyRangeRecursesOnItself(start: int)
    ensures var s := SplitRanges(start, start);
      s.rightStart == start && s.rightEnd == start && s.leftStart == s.leftEnd
  {
  }

  // ---------------------------------------------------------------------------
  // Traversal

  /**
   * bvh_node::hit (and, at a leaf, the primitive's own `hit`). The node's
   * slab test narrows [tMin, tMax]; the left child is queried on the narrowed
   * interval, the right child on the same interval cut at the left's hit
   * distance, with the record the left child left behind.
   */
  function TreeHit<P, M>(t: Tree<P>, hitOf: (P, Ray, real, real, HitRecord<M>) -> HitOutcome<M>,
                         r: Ray, tMin: real, tMax: real, rec: HitRecord<M>): (o: HitOutcome<M>)
    requires NonzeroDirection(r)
    ensures t.Node? && !SlabTest(t.bbox, r, tMin, tMax).hit ==> o == Miss(rec)
  {
    match t
    case Leaf(p) => hitOf(p, r, tMin, tMax, rec)
    case Node(left, right, b) =>
      var s := SlabTest(b, r, tMin, tMax);
      if !s.hit then Miss(rec)
      else
        var hl := TreeHit(left, hitOf, r, s.tMin, s.tMax, rec);
        var hr := TreeHit(right, hitOf, r, s.tMin, if hl.hit then hl.rec.t else s.tMax, hl.rec);
        HitOutcome(hl.hit || hr.hit, hr.rec)
  }

  /** Every primitive's `hit` keeps the protocol: a miss leaves the record, a hit is in range on the ray. */
  ghost predicate PrimitivesKeepProtocol<P(!new), M(!new)>(hitOf: (P, Ray, real, real, HitRecord<M>) -> HitOutcome<M>)
  {
    forall p, r, tMin, tMax, rec :: HitProtocol(r, tMin, tMax, rec, hitOf(p, r, tMin, tMax, rec))
  }

  /** If every primitive keeps the hit protocol, so does every tree built over them. */
  lemma {:induction false} TreeHitProtocol<P(!new), M(!new)>(t: Tree<P>, hitOf: (P, Ray, real, real, HitRecord<M>) -> HitOutcome<M>,
                                                r: Ray, tMin: real, tMax: real, rec: HitRecord<M>)
    requires NonzeroDirection(r) && PrimitivesKeepProtocol(hitOf)
    ensures HitProtocol(r, tMin, tMax, rec, TreeHit(t, hitOf, r, tMin, tMax, rec))
  {
    match t
    case Leaf(p) =>
    case Node(left, right, b) =>
      var s := SlabTest(b, r, tMin, tMax);
      if s.hit {
        var hl := TreeHit(left, hitOf, r, s.tMin, s.tMax, rec);
        TreeHitProtocol(left, hitOf, r, s.tMin, s.tMax, rec);
        TreeHitProtocol(right, hitOf, r, s.tMin, if hl.hit then hl.rec.t else s.tMax, hl.rec);
      }
  }

  /**
   * A hit reported by a node lies in the node's box: the distance is inside
   * the interval the slab test narrowed, where the ray is inside the box.
   */
  lemma HitInsideNodeBox<P(!new), M(!new)>(t: Tree<P>, hitOf: (P, Ray, real, real, HitRecord<M>) -> HitOutcome<M>,
                               r: Ray, tMin: real, tMax: real, rec: HitRecord<M>)
    requires NonzeroDirection(r) && PrimitivesKeepProtocol(hitOf)
    requires t.Node? && TreeHit(t, hitOf, r, tMin, tMax, rec).hit
    ensures InBox(t.bbox, TreeHit(t, hitOf, r, tMin, tMax, rec).rec.p)
  {
    var s := SlabTest(t.bbox, r, tMin, tMax);
    var o := TreeHit(t, hitOf, r, tMin, tMax, rec);
    var hl := TreeHit(t.left, hitOf, r, s.tMin, s.tMax, rec);
    TreeHitProtocol(t.left, hitOf, r, s.tMin, s.tMax, rec);
    TreeHitProtocol(t.right, hitOf, r, s.tMin, if hl.hit then hl.rec.t else s.tMax, hl.rec);
    SlabTestSound(t.bbox, r, tMin, tMax, o.rec.t);
  }

  /**
   * When the left child hits, the node hits, and no farther than the left
   * child: the right child may only replace the record with a nearer hit.
   */
  lemma NoFartherThanLeft<P(!new), M(!new)>(t: Tree<P>, hitOf: (P, Ray, real, real, HitRecord<M>) -> HitOutcome<M>,
                                r: Ray, tMin: real, tMax: real, rec: HitRecord<M>)
    requires NonzeroDirection(r) && PrimitivesKeepProtocol(hitOf)
    requires t.Node? && SlabTest(t.bbox, r, tMin, tMax).hit
    requires TreeHit(t.left, hitOf, r, SlabTest(t.bbox, r, tMin, tMax).tMin, SlabTest(t.bbox, r, tMin, tMax).tMax, rec).hit
    ensures var hl := TreeHit(t.left, hitOf, r, SlabTest(t.bbox, r, tMin, tMax).tMin, SlabTest(t.bbox, r, tMin, tMax).tMax, rec);
      var o := TreeHit(t, hitOf, r, tMin, tMax, rec);
      o.hit && o.rec.t <= hl.rec.t
  {
    var s := SlabTest(t.bbox, r, tMin, tMax);
    var hl := TreeHit(t.left, hitOf, r, s.tMin, s.tMax, rec);
    TreeHitProtocol(t.right, hitOf, r, s.tMin, hl.rec.t, hl.rec);
  }

  /** A leaf's primitive box lies within the box of every node above it. */
  lemma {:induction false} LeafBoxContained<P>(t: Tree<P>, boxOf: P -> Aabb, x: P)
    requires WellFormed(t, boxOf) && x in Fringe(t)
    ensures Contains(BoxOf(t, boxOf), boxOf(x))
  {
    match t
    case Leaf(p) =>
      assert x == p;
      ContainsSelf(boxOf(p));
    case Node(l, r, b) =>
      if x in Fringe(l) {
        LeafBoxContained(l, boxOf, x);
        ContainsTransitive(b, BoxOf(l, boxOf), boxOf(x));
      } else {
        LeafBoxContained(r, boxOf, x);
        ContainsTransitive(b, BoxOf(r, boxOf), boxOf(x));
      }
  }

  /**
   * Pruning loses nothing: when a node's slab test fails on (tMin, tMax), no
   * point of the ray strictly inside that interval lies strictly inside the
   * box of any primitive below the node.
   */
  lemma PruneLosesNothing<P>(t: Tree<P>, boxOf: P -> Aabb, r: Ray, tMin: real, tMax: real, x: P, s: real)
    requires NonzeroDirection(r) && WellFormed(t, boxOf) && t.Node?
    requires !SlabTest(t.bbox, r, tMin, tMax).hit
    requires x in Fringe(t) && tMin < s < tMax
    ensures !InBoxInterior(boxOf(x), At(r, s))
  {
    if InBoxInterior(boxOf(x), At(r, s)) {
      LeafBoxContained(t, boxOf, x);
      assert InBoxInterior(t.bbox, At(r, s));
      SlabTestComplete(t.bbox, r, tMin, tMax, s);
    }
  }

  /** A node's box is the least box containing the boxes of all primitives below it. */
  lemma {:induction false} TreeBoxLeast<P>(t: Tree<P>, boxOf: P -> Aabb, c: Aabb)
    requires WellFormed(t, boxOf)
    requires forall x :: x in Fringe(t) ==> Contains(c, boxOf(x))
    ensures Contains(c, BoxOf(t, boxOf))
  {
    match t
    case Leaf(p) =>
      assert p in Fringe(t);
    case Node(l, r, b) =>
      TreeBoxLeast(l, boxOf, c);
      TreeBoxLeast(r, boxOf, c);
      CombineLeast(BoxOf(l, boxOf), BoxOf(r, boxOf), c);
  }

  // ---------------------------------------------------------------------------
  // Nearest-hit semantics

  /**
   * Every primitive's `hit` reports the nearest point of its surface strictly
   * inside the open interval it is asked about, whatever record it is handed:
   * a hit lies strictly inside (a, b); a narrower interval never yields a hit
   * nearer than the wider one's; and the wider interval's hit, when it lies
   * inside the narrower interval, is the narrower interval's hit as well.
   */
  ghost predicate ReportsNearest<P(!new), M(!new)>(hitOf: (P, Ray, real, real, HitRecord<M>) -> HitOutcome<M>)
  {
    (forall p, r, a, b, rec :: hitOf(p, r, a, b, rec).hit ==> a < hitOf(p, r, a, b, rec).rec.t < b) &&
    (forall p, r, a, b, rec, a', b', rec' | a <= a' && b' <= b ::
       (hitOf(p, r, a', b', rec').hit ==>
          hitOf(p, r, a, b, rec).hit && hitOf(p, r, a, b, rec).rec.t <= hitOf(p, r, a', b', rec').rec.t) &&
       (hitOf(p, r, a, b, rec).hit && a' < hitOf(p, r, a, b, rec).rec.t < b' ==>
          hitOf(p, r, a', b', rec').hit && hitOf(p, r, a', b', rec').rec.t == hitOf(p, r, a, b, rec).rec.t))
  }

  /**
   * The tree finds every primitive hit that lies strictly inside the
   * primitive's box: if a primitive below the node hits, over some interval
   * around [tMin, tMax], at a distance inside (tMin, tMax), the tree hits no
   * farther away.
   */
  lemma {:induction false} TreeFindsEveryHit<P(!new), M(!new)>(t: Tree<P>, boxOf: P -> Aabb,
                                   hitOf: (P, Ray, real, real, HitRecord<M>) -> HitOutcome<M>,
                                   r: Ray, tMin: real, tMax: real, rec: HitRecord<M>,
                                   x: P, a: real, b: real, rec0: HitRecord<M>)
    requires NonzeroDirection(r) && WellFormed(t, boxOf)
    requires PrimitivesKeepProtocol(hitOf) && ReportsNearest(hitOf)
    requires x in Fringe(t) && a <= tMin && tMax <= b
    requires hitOf(x, r, a, b, rec0).hit && tMin < hitOf(x, r, a, b, rec0).rec.t < tMax
    requires InBoxInterior(boxOf(x), At(r, hitOf(x, r, a, b, rec0).rec.t))
    ensures TreeHit(t, hitOf, r, tMin, tMax, rec).hit
    ensures TreeHit(t, hitOf, r, tMin, tMax, rec).rec.t <= hitOf(x, r, a, b, rec0).rec.t
  {
    var tau := hitOf(x, r, a, b, rec0).rec.t;
    match t
    case Leaf(p) =>
      assert x == p;
    case Node(left, right, bb) =>
      LeafBoxContained(t, boxOf, x);
      assert InBoxInterior(bb, At(r, tau));
      SlabTestComplete(bb, r, tMin, tMax, tau);
      var s := SlabTest(bb, r, tMin, tMax);
      var hl := TreeHit(left, hitOf, r, s.tMin, s.tMax, rec);
      TreeHitProtocol(left, hitOf, r, s.tMin, s.tMax, rec);
      var u := if hl.hit then hl.rec.t else s.tMax;
      TreeHitProtocol(right, hitOf, r, s.tMin, u, hl.rec);
      if x in Fringe(left) {
        TreeFindsEveryHit(left, boxOf, hitOf, r, s.tMin, s.tMax, rec, x, a, b, rec0);
      } else if hl.hit && hl.rec.t <= tau {
      } else {
        TreeFindsEveryHit(right, boxOf, hitOf, r, s.tMin, u, hl.rec, x, a, b, rec0);
      }
  }

  /**
   * Every hit the tree reports is the hit of one primitive below it, queried
   * on a sub-interval of [tMin, tMax]: the record is that primitive's record.
   */
  lemma {:induction false} TreeHitComesFromFringe<P(!new), M(!new)>(t: Tree<P>,
                                        hitOf: (P, Ray, real, real, HitRecord<M>) -> HitOutcome<M>,
                                        r: Ray, tMin: real, tMax: real, rec: HitRecord<M>)
    requires NonzeroDirection(r) && PrimitivesKeepProtocol(hitOf)
    requires TreeHit(t, hitOf, r, tMin, tMax, rec).hit
    ensures exists x, a, b, rec' ::
              x in Fringe(t) && tMin <= a && b <= tMax &&
              hitOf(x, r, a, b, rec').hit && hitOf(x, r, a, b, rec').rec == TreeHit(t, hitOf, r, tMin, tMax, rec).rec
  {
    var o := TreeHit(t, hitOf, r, tMin, tMax, rec);
    match t
    case Leaf(p) =>
      assert p in Fringe(t) && hitOf(p, r, tMin, tMax, rec).hit && hitOf(p, r, tMin, tMax, rec).rec == o.rec;
    case Node(left, right, bb) =>
      var s := SlabTest(bb, r, tMin, tMax);
      var hl := TreeHit(left, hitOf, r, s.tMin, s.tMax, rec);
      TreeHitProtocol(left, hitOf, r, s.tMin, s.tMax, rec);
      var u := if hl.hit then hl.rec.t else s.tMax;
      var hr := TreeHit(right, hitOf, r, s.tMin, u, hl.rec);
      TreeHitProtocol(right, hitOf, r, s.tMin, u, hl.rec);
      if hr.hit {
        TreeHitComesFromFringe(right, hitOf, r, s.tMin, u, hl.rec);
        var x, a, b, rec' :| x in Fringe(right) && s.tMin <= a && b <= u &&
          hitOf(x, r, a, b, rec').hit && hitOf(x, r, a, b, rec').rec == hr.rec;
        assert x in Fringe(t) && tMin <= a && b <= tMax;
      } else {
        TreeHitComesFromFringe(left, hitOf, r, s.tMin, s.tMax, rec);
        var x, a, b, rec' :| x in Fringe(left) && s.tMin <= a && b <= s.tMax &&
          hitOf(x, r, a, b, rec').hit && hitOf(x, r, a, b, rec').rec == hl.rec;
        assert x in Fringe(t) && tMin <= a && b <= tMax;
      }
  }

  /**
   * bvh_node::hit finds the closest hit, as a linear scan over the
   * primitives would: every primitive hit in (tMin, tMax) strictly inside
   * the primitive's box is matched by a tree hit no farther away, and every
   * tree hit is no nearer than some primitive's own hit over (tMin, tMax).
   */
  lemma TreeHitIsNearest<P(!new), M(!new)>(t: Tree<P>, boxOf: P -> Aabb,
                                           hitOf: (P, Ray, real, real, HitRecord<M>) -> HitOutcome<M>,
                                           r: Ray, tMin: real, tMax: real, rec: HitRecord<M>)
    requires NonzeroDirection(r) && WellFormed(t, boxOf)
    requires PrimitivesKeepProtocol(hitOf) && ReportsNearest(hitOf)
    ensures forall x, rec0 ::
              (x in Fringe(t) && hitOf(x, r, tMin, tMax, rec0).hit &&
               InBoxInterior(boxOf(x), At(r, hitOf(x, r, tMin, tMax, rec0).rec.t))) ==>
              (TreeHit(t, hitOf, r, tMin, tMax, rec).hit &&
               TreeHit(t, hitOf, r, tMin, tMax, rec).rec.t <= hitOf(x, r, tMin, tMax, rec0).rec.t)
    ensures TreeHit(t, hitOf, r, tMin, tMax, rec).hit ==>
      exists x :: x in Fringe(t) && hitOf(x, r, tMin, tMax, rec).hit &&
        hitOf(x, r, tMin, tMax, rec).rec.t <= TreeHit(t, hitOf, r, tMin, tMax, rec).rec.t
  {
    forall x, rec0 | x in Fringe(t) && hitOf(x, r, tMin, tMax, rec0).hit &&
      InBoxInterior(boxOf(x), At(r, hitOf(x, r, tMin, tMax, rec0).rec.t))
      ensures TreeHit(t, hitOf, r, tMin, tMax, rec).hit &&
        TreeHit(t, hitOf, r, tMin, tMax, rec).rec.t <= hitOf(x, r, tMin, tMax, rec0).rec.t
    {
      TreeFindsEveryHit(t, boxOf, hitOf, r, tMin, tMax, rec, x, tMin, tMax, rec0);
    }
    var o := TreeHit(t, hitOf, r, tMin, tMax, rec);
    if o.hit {
      TreeHitComesFromFringe(t, hitOf, r, tMin, tMax, rec);
      var x, a, b, rec' :| x in Fringe(t) && tMin <= a && b <= tMax &&
        hitOf(x, r, a, b, rec').hit && hitOf(x, r, a, b, rec').rec == o.rec;
      assert hitOf(x, r, tMin, tMax, rec).hit && hitOf(x, r, tMin, tMax, rec).rec.t <= o.rec.t;
    }
  }

  /**
   * The one-primitive node the constructor builds for a range of one element
   * hits exactly when its primitive does, at the same distance and point,
   * provided a hit lies strictly inside the primitive's box.
   */
  lemma SinglePrimitiveTree<P(!new), M(!new)>(x: P, boxOf: P -> Aabb,
                                              hitOf: (P, Ray, real, real, HitRecord<M>) -> HitOutcome<M>,
                                              r: Ray, tMin: real, tMax: real, rec: HitRecord<M>)
    requires NonzeroDirection(r) && PrimitivesKeepProtocol(hitOf) && ReportsNearest(hitOf)
    requires hitOf(x, r, tMin, tMax, rec).hit ==> InBoxInterior(boxOf(x), At(r, hitOf(x, r, tMin, tMax, rec).rec.t))
    ensures var o := TreeHit(Node(Leaf(x), Leaf(x), Combine(boxOf(x), boxOf(x))), hitOf, r, tMin, tMax, rec);
      var h := hitOf(x, r, tMin, tMax, rec);
      o.hit == h.hit && (o.hit ==> o.rec.t == h.rec.t && o.rec.p == h.rec.p)
  {
    var t := Node(Leaf(x), Leaf(x), Combine(boxOf(x), boxOf(x)));
    assert Fringe(t) == [x, x];
    TreeHitIsNearest(t, boxOf, hitOf, r, tMin, tMax, rec);
    TreeHitProtocol(t, hitOf, r, tMin, tMax, rec);
  }
}
