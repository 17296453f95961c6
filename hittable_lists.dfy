// hittable_list.h: a list of primitives with one bounding box over all of them
// and a BVH built over them, and the loader that turns the lines of a Wavefront
// OBJ file into such a list of triangles. Each primitive's virtual
// getBoundingBox and hit are passed in as the functions `boxOf` and `hitOf`.
// Reading the file and splitting each line into tokens happen before the model:
// the loader receives the lines already classified as `ObjLine` values.

module HittableLists {
  import opened Util
  import opened Vectors
  import opened Rays
  import opened Boxes
  import opened Hittables
  import opened Bvh
  import Triangles

  /** The box of a non-empty list: the box of its first object combined, left to right, with the others'. */
  function FoldBoxes<P>(objects: seq<P>, boxOf: P -> Aabb): Aabb
    requires |objects| > 0
  {
    if |objects| == 1 then boxOf(objects[0])
    else Combine(FoldBoxes(objects[..|objects| - 1], boxOf), boxOf(objects[|objects| - 1]))
  }

  /** HittableList::computeBoundingBox as a value: the all-zero box for an empty list. */
  function ListBox<P>(objects: seq<P>, boxOf: P -> Aabb): Aabb
  {
    if |objects| == 0 then Aabb(Zero(), Zero()) else FoldBoxes(objects, boxOf)
  }

  /** The folded box contains the box of every object of the list. */
  lemma {:induction false} FoldContainsAll<P>(objects: seq<P>, boxOf: P -> Aabb, x: P)
    requires x in objects
    ensures Contains(FoldBoxes(objects, boxOf), boxOf(x))
  {
    var n := |objects|;
    if n == 1 {
      ContainsSelf(boxOf(x));
    } else if x == objects[n - 1] {
    } else {
      var init := objects[..n - 1];
      assert objects == init + [objects[n - 1]];
      assert x in init;
      FoldContainsAll(init, boxOf, x);
      ContainsTransitive(FoldBoxes(objects, boxOf), FoldBoxes(init, boxOf), boxOf(x));
    }
  }

  /** ... and it is the least such box. */
  lemma {:induction false} FoldLeast<P>(objects: seq<P>, boxOf: P -> Aabb, c: Aabb)
    requires |objects| > 0
    requires forall x :: x in objects ==> Contains(c, boxOf(x))
    ensures Contains(c, FoldBoxes(objects, boxOf))
  {
    var n := |objects|;
    if n == 1 {
      assert objects[0] in objects;
    } else {
      var init := objects[..n - 1];
      assert forall x :: x in init ==> x in objects;
      assert objects[n - 1] in objects;
      FoldLeast(init, boxOf, c);
      CombineLeast(FoldBoxes(init, boxOf), boxOf(objects[n - 1]), c);
    }
  }

  /**
   * A well-formed BVH over exactly the objects of a non-empty list has the
   * list's box at its root, whatever order the objects are in.
   */
  lemma BvhBoxIsListBox<P(!new)>(t: Tree<P>, objects: seq<P>, boxOf: P -> Aabb)
    requires WellFormed(t, boxOf) && |objects| > 0
    requires forall x :: x in Fringe(t) <==> x in objects
    ensures BoxOf(t, boxOf) == ListBox(objects, boxOf)
  {
    var f := FoldBoxes(objects, boxOf);
    forall x | x in Fringe(t)
      ensures Contains(f, boxOf(x))
    {
      assert x in objects;
      FoldContainsAll(objects, boxOf, x);
    }
    TreeBoxLeast(t, boxOf, f);
    forall x | x in objects
      ensures Contains(BoxOf(t, boxOf), boxOf(x))
    {
      LeafBoxContained(t, boxOf, x);
    }
    FoldLeast(objects, boxOf, BoxOf(t, boxOf));
    ContainsAntisymmetric(f, BoxOf(t, boxOf));
  }

  /** Adding an object can only grow the box of a non-empty list. */
  lemma ListBoxGrows<P>(objects: seq<P>, boxOf: P -> Aabb, x: P)
    requires |objects| > 0
    ensures Contains(ListBox(objects + [x], boxOf), ListBox(objects, boxOf))
    ensures Contains(ListBox(objects + [x], boxOf), boxOf(x))
  {
    assert (objects + [x])[..|objects|] == objects;
  }

  class HittableList<P(!new), M> {
    var objects: seq<P>
    var mat: Option<M>
    var bbox: Aabb
    var localBvh: Option<Tree<P>>

    /**
     * The BVH, when there is one, is well formed and holds exactly the list's
     * objects, and the list's box is the box of those objects.
     */
    ghost predicate Valid(boxOf: P -> Aabb)
      reads this
    {
      bbox == ListBox(objects, boxOf) &&
      (localBvh.Some? ==> WellFormed(localBvh.value, boxOf) && forall x :: x in Fringe(localBvh.value) <==> x in objects)
    }

    /** A default-constructed list: no objects, no material, the zero box, no BVH. */
    constructor ()
      ensures objects == [] && mat == None && bbox == Aabb(Zero(), Zero()) && localBvh == None
    {
      objects := [];
      mat := None;
      bbox := Aabb(Zero(), Zero());
      localBvh := None;
    }

    /** HittableList::add: appends the object; the box and the BVH are not updated. */
    method Add(obj: P)
      modifies this
      ensures objects == old(objects) + [obj]
      ensures mat == old(mat) && bbox == old(bbox) && localBvh == old(localBvh)
    {
      objects := objects + [obj];
    }

    /** HittableList::computeBoundingBox: the zero box when empty, else the fold of combine. */
    method ComputeBoundingBox(boxOf: P -> Aabb)
      modifies this
      ensures bbox == ListBox(objects, boxOf)
      ensures objects == old(objects) && mat == old(mat) && localBvh == old(localBvh)
    {
      if |objects| == 0 {
        bbox := Aabb(Vec3(0.0, 0.0, 0.0), Vec3(0.0, 0.0, 0.0));
        return;
      }
      var b := boxOf(objects[0]);
      var i := 1;
      while i < |objects|
        invariant 1 <= i <= |objects|
        invariant b == FoldBoxes(objects[..i], boxOf)
      {
        assert objects[..i + 1][..i] == objects[..i];
        b := Combine(b, boxOf(objects[i]));
        i := i + 1;
      }
      assert objects[..i] == objects;
      bbox := b;
    }

    /** HittableList::getBoundingBox. */
    function BoundingBox(): (b: Aabb)
      reads this
      ensures b == bbox
    {
      bbox
    }

    /**
     * HittableList::hit: the list's own box narrows [tMin, tMax] first; then
     * the BVH, if any, is searched over the narrowed interval.
     */
    function Hit(hitOf: (P, Ray, real, real, HitRecord<M>) -> HitOutcome<M>,
                 r: Ray, tMin: real, tMax: real, rec: HitRecord<M>): (o: HitOutcome<M>)
      reads this
      requires NonzeroDirection(r)
      ensures !SlabTest(bbox, r, tMin, tMax).hit ==> o == Miss(rec)
      ensures localBvh.None? ==> o == Miss(rec)
    {
      var s := SlabTest(bbox, r, tMin, tMax);
      if !s.hit then Miss(rec)
      else match localBvh
        case None => Miss(rec)
        case Some(t) => TreeHit(t, hitOf, r, s.tMin, s.tMax, rec)
    }
  }

  /**
   * The list keeps the hit protocol when its primitives do, and a hit lies in
   * the list's box.
   */
  lemma ListHitProtocol<P(!new), M(!new)>(list: HittableList<P, M>, hitOf: (P, Ray, real, real, HitRecord<M>) -> HitOutcome<M>,
                                          r: Ray, tMin: real, tMax: real, rec: HitRecord<M>)
    requires NonzeroDirection(r) && PrimitivesKeepProtocol(hitOf)
    ensures HitProtocol(r, tMin, tMax, rec, list.Hit(hitOf, r, tMin, tMax, rec))
    ensures list.Hit(hitOf, r, tMin, tMax, rec).hit ==> InBox(list.bbox, list.Hit(hitOf, r, tMin, tMax, rec).rec.p)
  {
    var s := SlabTest(list.bbox, r, tMin, tMax);
    if s.hit && list.localBvh.Some? {
      var o := TreeHit(list.localBvh.value, hitOf, r, s.tMin, s.tMax, rec);
      TreeHitProtocol(list.localBvh.value, hitOf, r, s.tMin, s.tMax, rec);
      SlabTestLe(list.bbox, r, tMin, tMax);
      if o.hit {
        SlabTestSound(list.bbox, r, tMin, tMax, o.rec.t);
      }
    }
  }

  /** The slab test only narrows the interval it is given. */
  lemma SlabTestLe(b: Aabb, r: Ray, lo: real, hi: real)
    requires NonzeroDirection(r)
    ensures lo <= SlabTest(b, r, lo, hi).tMin && SlabTest(b, r, lo, hi).tMax <= hi
  {
  }

  // ---------------------------------------------------------------------------
  // The OBJ loader.

  /** The three 1-based vertex indices of a face line. */
  datatype FaceIndices = FaceIndices(v1: int, v2: int, v3: int)

  /**
   * One line of an OBJ file, as its first token classifies it: a vertex
   * `v x y z`, a face `f v1 v2 v3` (None when the three indices do not parse),
   * or anything else, which the loader skips.
   */
  datatype ObjLine = VertexLine(x: real, y: real, z: real) | FaceLine(indices: Option<FaceIndices>) | OtherLine

  /** What the loader has gathered so far: the vertices and the triangles. */
  datatype ObjState<M> = ObjState(vertices: seq<Vec3>, triangles: seq<Triangles.Triangle<M>>)

  /** A 1-based index names a vertex that has already been read. */
  predicate ValidIndex(i: int, vertices: seq<Vec3>)
  {
    0 <= i - 1 < |vertices|
  }

  /** The effect of one line on the loader's state. */
  function ParseLine<M>(st: ObjState<M>, line: ObjLine, mat: M): (st': ObjState<M>)
    ensures st.vertices <= st'.vertices && st.triangles <= st'.triangles
    ensures |st'.vertices| + |st'.triangles| <= |st.vertices| + |st.triangles| + 1
    ensures !line.VertexLine? ==> st'.vertices == st.vertices
    ensures !line.FaceLine? ==> st'.triangles == st.triangles
  {
    match line
    case VertexLine(x, y, z) => st.(vertices := st.vertices + [Vec3(x, y, z)])
    case FaceLine(None) => st
    case FaceLine(Some(f)) =>
      if ValidIndex(f.v1, st.vertices) && ValidIndex(f.v2, st.vertices) && ValidIndex(f.v3, st.vertices) then
        var tri := Triangles.Triangle(st.vertices[f.v1 - 1], st.vertices[f.v2 - 1], st.vertices[f.v3 - 1], mat);
        st.(triangles := st.triangles + [tri])
      else st
    case OtherLine => st
  }

  /** The loader's state after the given lines, read front to back. */
  function ParseLines<M>(lines: seq<ObjLine>, mat: M): (st: ObjState<M>)
    ensures |st.vertices| + |st.triangles| <= |lines|
  {
    if |lines| == 0 then ObjState([], [])
    else ParseLine(ParseLines(lines[..|lines| - 1], mat), lines[|lines| - 1], mat)
  }

  /** The points of the vertex lines, in file order. */
  function VertexPoints(lines: seq<ObjLine>): (ps: seq<Vec3>)
    ensures |ps| <= |lines|
  {
    if |lines| == 0 then []
    else
      var rest := VertexPoints(lines[1..]);
      match lines[0]
      case VertexLine(x, y, z) => [Vec3(x, y, z)] + rest
      case _ => rest
  }

  /** The number of face lines. */
  function FaceCount(lines: seq<ObjLine>): nat
  {
    if |lines| == 0 then 0 else (if lines[0].FaceLine? then 1 else 0) + FaceCount(lines[1..])
  }

  lemma {:induction false} VertexPointsAppend(a: seq<ObjLine>, b: seq<ObjLine>)
    ensures VertexPoints(a + b) == VertexPoints(a) + VertexPoints(b)
  {
    if |a| > 0 {
      assert (a + b)[1..] == a[1..] + b;
      VertexPointsAppend(a[1..], b);
    } else {
      assert a + b == b;
    }
  }

  lemma {:induction false} FaceCountAppend(a: seq<ObjLine>, b: seq<ObjLine>)
    ensures FaceCount(a + b) == FaceCount(a) + FaceCount(b)
  {
    if |a| > 0 {
      assert (a + b)[1..] == a[1..] + b;
      FaceCountAppend(a[1..], b);
    } else {
      assert a + b == b;
    }
  }

  /**
   * Every vertex line contributes its point, in order, and nothing else does;
   * every triangle comes from a face line, so there are at most as many as faces.
   */
  lemma {:induction false} ParseLinesCounts<M>(lines: seq<ObjLine>, mat: M)
    ensures ParseLines(lines, mat).vertices == VertexPoints(lines)
    ensures |ParseLines(lines, mat).triangles| <= FaceCount(lines)
  {
    if |lines| > 0 {
      var init := lines[..|lines| - 1];
      var last := lines[|lines| - 1];
      assert lines == init + [last];
      ParseLinesCounts(init, mat);
      VertexPointsAppend(init, [last]);
      FaceCountAppend(init, [last]);
      assert [last][1..] == [];
    }
  }

  /** Reading more lines never changes the vertices and triangles already gathered. */
  lemma {:induction false} ParseLinesExtends<M>(lines: seq<ObjLine>, i: nat, mat: M)
    requires i <= |lines|
    ensures ParseLines(lines[..i], mat).vertices <= ParseLines(lines, mat).vertices
    ensures ParseLines(lines[..i], mat).triangles <= ParseLines(lines, mat).triangles
  {
    if i < |lines| {
      var init := lines[..|lines| - 1];
      assert init[..i] == lines[..i];
      ParseLinesExtends(init, i, mat);
    } else {
      assert lines[..i] == lines;
    }
  }

  /** Every triangle's corners are vertices of the file, and it carries the loader's material. */
  lemma {:induction false} TrianglesUseVertices<M>(lines: seq<ObjLine>, mat: M)
    ensures forall tri :: tri in ParseLines(lines, mat).triangles ==>
      tri.a in ParseLines(lines, mat).vertices && tri.b in ParseLines(lines, mat).vertices &&
      tri.c in ParseLines(lines, mat).vertices && tri.mat == mat
  {
    if |lines| > 0 {
      var init := lines[..|lines| - 1];
      TrianglesUseVertices(init, mat);
      var st := ParseLines(init, mat);
      var st' := ParseLines(lines, mat);
      assert st.vertices <= st'.vertices;
      forall tri | tri in st'.triangles
        ensures tri.a in st'.vertices && tri.b in st'.vertices && tri.c in st'.vertices && tri.mat == mat
      {
        if tri in st.triangles {
          assert tri.a in st.vertices && tri.b in st.vertices && tri.c in st.vertices;
        }
      }
    }
  }

  /** A face may only name vertices above it in the file: a forward reference is dropped. */
  lemma ForwardReferenceDropped<M>(mat: M)
    ensures ParseLines([FaceLine(Some(FaceIndices(1, 1, 1))), VertexLine(0.0, 0.0, 0.0)], mat).triangles == []
    ensures ParseLines([VertexLine(0.0, 0.0, 0.0), FaceLine(Some(FaceIndices(1, 1, 1)))], mat).triangles ==
      [Triangles.Triangle(Zero(), Zero(), Zero(), mat)]
  {
    var a := [FaceLine(Some(FaceIndices(1, 1, 1))), VertexLine(0.0, 0.0, 0.0)];
    assert a[..1][..0] == [];
    var b := [VertexLine(0.0, 0.0, 0.0), FaceLine(Some(FaceIndices(1, 1, 1)))];
    assert b[..1][..0] == [];
  }

  /** The box function the loader's list and BVH use: Triangle::getBoundingBox. */
  function TriangleBox<M>(tri: Triangles.Triangle<M>): Aabb
  {
    Triangles.BoundingBox(tri)
  }

  /**
   * HittableList::load_triangles_from_obj: reads the lines, collects vertices
   * and triangles, computes the list's box and, when there is at least one
   * triangle, builds the BVH over the list's objects (reordering them as the
   * build sorts). `rand` and `k` supply the build's random axis draws.
   */
  method LoadTrianglesFromObj<M(!new)>(lines: seq<ObjLine>, mat: M, rand: nat -> Draw, k: nat)
    returns (list: HittableList<Triangles.Triangle<M>, M>, k': nat)
    ensures fresh(list)
    ensures list.mat == Some(mat)
    ensures multiset(list.objects) == multiset(ParseLines(lines, mat).triangles)
    ensures list.bbox == ListBox(ParseLines(lines, mat).triangles, TriangleBox)
    ensures list.Valid(TriangleBox)
    ensures list.localBvh.Some? <==> |ParseLines(lines, mat).triangles| > 0
    ensures list.localBvh.Some? ==> BoxOf(list.localBvh.value, TriangleBox) == list.bbox
    ensures list.localBvh.None? ==> k' == k
  {
    list := new HittableList();
    list.mat := Some(mat);
    ReadObjLines(list, lines, mat);
    list.ComputeBoundingBox(TriangleBox);
    k' := k;
    if |list.objects| > 0 {
      k' := BuildListBvh(list, TriangleBox, rand, k);
    }
  }

  /** The reading loop of load_triangles_from_obj: vertices are kept locally, triangles added to the list. */
  method ReadObjLines<M(!new)>(list: HittableList<Triangles.Triangle<M>, M>, lines: seq<ObjLine>, mat: M)
    requires list.objects == []
    modifies list
    ensures list.objects == ParseLines(lines, mat).triangles
    ensures list.mat == old(list.mat) && list.localBvh == old(list.localBvh)
  {
    var vertices: seq<Vec3> := [];
    var i := 0;
    while i < |lines|
      invariant 0 <= i <= |lines|
      invariant vertices == ParseLines(lines[..i], mat).vertices
      invariant list.objects == ParseLines(lines[..i], mat).triangles
      invariant list.mat == old(list.mat) && list.localBvh == old(list.localBvh)
    {
      assert lines[..i + 1][..i] == lines[..i];
      match lines[i] {
        case VertexLine(x, y, z) =>
          vertices := vertices + [Vec3(x, y, z)];
        case FaceLine(None) =>
        case FaceLine(Some(f)) =>
          var v1, v2, v3 := f.v1 - 1, f.v2 - 1, f.v3 - 1;
          if v1 >= 0 && v2 >= 0 && v3 >= 0 && v1 < |vertices| && v2 < |vertices| && v3 < |vertices| {
            list.Add(Triangles.Triangle(vertices[v1], vertices[v2], vertices[v3], mat));
          }
        case OtherLine =>
      }
      i := i + 1;
    }
    assert lines[..i] == lines;
  }

  /**
   * `new bvh_node(objects.data(), 0, objects.size())` on a non-empty list: the
   * build reorders the list's own storage and the list keeps the tree.
   */
  method BuildListBvh<P(!new), M>(list: HittableList<P, M>, boxOf: P -> Aabb, rand: nat -> Draw, k: nat) returns (k': nat)
    requires |list.objects| > 0 && list.bbox == ListBox(list.objects, boxOf)
    modifies list
    ensures multiset(list.objects) == old(multiset(list.objects))
    ensures list.bbox == old(list.bbox) && list.mat == old(list.mat)
    ensures list.Valid(boxOf) && list.localBvh.Some?
    ensures BoxOf(list.localBvh.value, boxOf) == list.bbox
  {
    var objs := list.objects;
    var arr := new P[|objs|](j requires 0 <= j < |objs| => objs[j]);
    assert arr[0..arr.Length] == objs;
    var t;
    t, k' := Build(arr, 0, arr.Length, boxOf, rand, k);
    assert arr[..] == arr[0..arr.Length];
    assert multiset(arr[..]) == multiset(objs);
    list.objects := arr[..];
    list.localBvh := Some(t);
    forall x
      ensures x in objs <==> x in list.objects
    {
      assert x in objs <==> multiset(objs)[x] > 0;
      assert x in list.objects <==> multiset(list.objects)[x] > 0;
    }
    BvhBoxIsListBox(t, list.objects, boxOf);
    BvhBoxIsListBox(t, objs, boxOf);
  }
}
