# A verified model of a small path tracer's core

This project models, in Dafny, the sequential core of a small C++ path
tracer:

- the bounding-volume hierarchy (`bvh_node`): how it is built and how it is traversed;
- axis-aligned boxes (`AABB`) and the slab test;
- `vec3` and `ray` algebra;
- the hit logic of spheres, triangles and quads, and the `hit_record` they fill in;
- the hittable list and its OBJ loader;
- materials (`scatter`, `emitted`) and textures;
- the Perlin noise tables (Fisher–Yates permutation, masked indexing, turbulence);
- colour utilities (gamma, HSV, byte quantisation) and the small `Util` helpers;
- the camera: its set-up, `get_ray`, `sample_square` and the recursive `ray_color`.

Coordinates are mathematical reals.

- `sqrt`, `pow` and `tan` are function parameters, and lemmas that need them correct say so in their preconditions.
- Every random draw is an explicit parameter: `rand()` is a stream `rand: nat -> Draw` indexed by a draw counter, and random unit vectors, offsets and times are values passed in.
- A `hit_record &` out-parameter is a `HitRecord` value passed in and returned with the verdict (`HitOutcome`). A miss therefore returns the caller's record unchanged, which is the C++ guarantee that no field is written before every guard passes.
- State the C++ code changes in place is modelled as such:
  - `bvh_node`'s constructor sorts the caller's array in place, and `permute` swaps entries of an `array<int>` in place;
  - `AABB::hit` is a loop narrowing its reference parameters;
  - the objects whose fields are written in place are classes: `HittableList`, `Quad`, `Material` (metal writes the base `reflectivity` through `rec.mat`), `perlin`, `Camera`, and a mutable `vec3`.

Modules follow the source files:

| module | source |
|---|---|
| Util | util.h |
| Vectors | vec3.h |
| Rays | ray.h |
| Boxes | aabb.h |
| Hittables | hittable.h |
| Spheres | sphere.h |
| Triangles | triangle.h |
| Quads | quad.h |
| Bvh | bvh.h |
| HittableLists | hittable_list.h |
| Colors | color.h |
| PerlinNoise | perlin.h |
| Textures | texture.h |
| Materials | material.h |
| Cameras | camera.cpp |

## Model

| member | source | states |
|---|---|---|
| Util.Trunc | camera.cpp:12 | `static_cast<int>` truncates toward zero: for x ≥ 0 the result is the floor, for x < 0 the ceiling |
| Util.CRem | color.h:36 | C++ `%` on ints: the remainder takes the sign of the dividend and is smaller than the divisor in magnitude; for non-negative operands it is Euclidean `%` |
| Util.Clamp | util.h:55-69 | with arguments (min, max, num): min when num < min, max when num > max, num otherwise; within [min, max] whenever min ≤ max |
| Util.ClampIdempotent | util.h:55-69 | clamping an already clamped value changes nothing |
| Util.RandomInt | util.h:49-52 | `a + rand() % (b - a + 1)` lies in [a, b] and its offset from a is the draw modulo the range size |
| Util.LinearToGamma | util.h:17-24 | 0 for every input ≤ 0; for a positive input and a correct sqrt, a non-negative value whose square is the input |
| Util.ModUnique | util.h:51 | the remainder modulo m is the unique r in [0, m) with a = m q + r (used to relate the recursive table target to `random_int`) |
| Util.ModStep | util.h:51 | subtracting the modulus once does not change the remainder |
| Vectors.Min | vec3.h:138-152 | every component is ≤ both inputs' and equals one of them |
| Vectors.Max | vec3.h:146-152 | every component is ≥ both inputs' and equals one of them |
| Vectors.UnitVector | vec3.h:115-123 | the zero vector, or any vector whose computed length is not positive, maps to the zero vector |
| Vectors.UnitVectorIsUnit | vec3.h:115-123 | with a correct sqrt, a non-zero vector maps to a positive multiple of itself of squared length 1 |
| Vectors.SubAddCancel | vec3.h:28-64 | sub(add(a, b), b) == a |
| Vectors.DotCommutes | vec3.h:55-58 | dot(a, b) == dot(b, a) |
| Vectors.CrossOrthogonal | vec3.h:46-58 | cross(a, b) is orthogonal to both a and b |
| Vectors.MinMaxSelf | vec3.h:138-152 | min(v, v) == max(v, v) == v |
| Vectors.DotScale | vec3.h:55-70 | scaling either argument by d scales the dot product by d |
| Vectors.WithAt | vec3.h:154-162 | writing through `operator[]` at i then reading at i gives the value written; reading an index that names another field gives the old value |
| Vectors.LengthSquaredPositive | vec3.h:73-76 | the squared length is non-negative, and positive for a non-zero vector |
| Vectors.Vec3Cell.constructor | vec3.h:14 | the default vector is (0, 0, 0) |
| Vectors.Vec3Cell.Init | vec3.h:20-25 | `init` overwrites x, y and z with the given values |
| Vectors.Vec3Cell.Get | vec3.h:154-162 | index 0 reads x, index 1 reads y, any other index reads z |
| Vectors.Vec3Cell.Set | vec3.h:154-162 | assigning through `operator[]` changes exactly the selected field |
| Vectors.Vec3Cell.Normalize | vec3.h:34-43 | a vector whose length is not positive is left unchanged; otherwise the fields become the unit vector |
| Vectors.Add | vec3.h:28-31 | no contract of its own: componentwise sum; Vectors.SubAddCancel states its inverse |
| Vectors.Sub | vec3.h:61-64 | no contract of its own: componentwise difference; Vectors.SubAddCancel states that it undoes add |
| Vectors.Scale | vec3.h:67-70 | no contract of its own: componentwise product by d; Vectors.DotScale relates it to dot |
| Vectors.Dot | vec3.h:55-58 | no contract of its own: the sum of componentwise products; Vectors.DotCommutes, Vectors.DotScale and Vectors.LengthSquaredPositive state its properties |
| Vectors.Cross | vec3.h:46-52 | no contract of its own: the cross product; Vectors.CrossOrthogonal states its orthogonality to both arguments |
| Vectors.NearZero | vec3.h:125-130 | the zero vector is near zero, and a near-zero vector has components summing in absolute value below 3e-8 |
| Rays.DefaultRay | ray.h:14 | the default ray has zero origin, zero direction and time 0 |
| Rays.RayAt0 | ray.h:20-21 | the two-argument constructor keeps origin and direction and sets time 0 |
| Rays.At | ray.h:26-29 | no contract of its own: origin + direction · t; Rays.AtIsAffine states it |
| Rays.Reflect | ray.h:32-38 | a vector orthogonal to n, or any vector reflected about the zero normal, is returned unchanged; the unit-normal properties are the three Reflect lemmas |
| Rays.Refract | ray.h:40-47 | no contract of its own: perpendicular part (uv + n·cos θ)·η plus parallel part −n·√\|1 − \|perp\|²\|; Rays.RefractMatchedIndexIsIdentity states its matched-index behaviour |
| Rays.AtIsAffine | ray.h:26-29 | at(0) is the origin, and at(t) − origin is direction · t |
| Rays.ReflectFlipsNormalComponent | ray.h:32-38 | for a unit normal, the reflection's component along n is the negated original component |
| Rays.ReflectInvolution | ray.h:32-38 | for a unit normal, reflecting twice returns the vector |
| Rays.ReflectPreservesLength | ray.h:32-38 | for a unit normal, reflection preserves squared length |
| Rays.FMin | ray.h:43 | `std::fmin` is ≤ both arguments and equals one of them |
| Rays.RefractMatchedIndexIsIdentity | ray.h:40-47 | with index ratio 1, a unit direction entering a unit normal's face passes through unchanged |
| Boxes.Combine | aabb.h:18-23 | the combined box contains both boxes, and is a valid box when either is |
| Boxes.CombineLeast | aabb.h:18-23 | any box containing both contains their combination, so combine is exactly the componentwise min/max hull |
| Boxes.CombineSelf | aabb.h:18-23 | combine(A, A) == A |
| Boxes.CombineCommutes | aabb.h:18-23 | combine is commutative |
| Boxes.CombineAssociates | aabb.h:18-23 | combine is associative |
| Boxes.ContainsSelf | aabb.h:18-23 | containment is reflexive |
| Boxes.ContainsAntisymmetric | aabb.h:18-23 | containment is antisymmetric |
| Boxes.ContainsTransitive | aabb.h:18-23 | containment is transitive |
| Boxes.InBoxMonotone | aabb.h:18-23 | a point in an inner box is in every box containing it |
| Boxes.AxisIntervals | aabb.h:34-44 | the three per-axis slab intervals, x first |
| Boxes.Narrow | aabb.h:46-57 | the narrowed interval lies inside the incoming one; after at least one axis the verdict is true exactly when t_min < t_max |
| Boxes.SlabTest | aabb.h:27-58 | the narrowed interval lies inside [t_min, t_max], and the verdict is true exactly when the narrowed t_min < t_max |
| Boxes.Hit | aabb.h:27-58 | the loop computes the slab test, only narrows t_min and t_max, and returns true iff t_min < t_max on return |
| Boxes.SlabStep | aabb.h:37-44 | the pair (t0, t1) after the swap on a negative inverse direction is the ordered slab interval |
| Boxes.SlabIntervalOrdered | aabb.h:40-44 | for a box with min ≤ max, t0 ≤ t1 after the swap |
| Boxes.SlabIntervalSound | aabb.h:37-44 | every t in the slab interval puts the ray between the two planes of that axis |
| Boxes.SlabIntervalComplete | aabb.h:37-44 | every t strictly between the planes lies strictly inside the slab interval |
| Boxes.AxisIntervalExact | aabb.h:34-44 | each axis interval is sound and complete for its pair of planes |
| Boxes.NarrowSound | aabb.h:46-57 | every t in the interval the loop returns on a hit lies between the planes of all remaining axes |
| Boxes.NarrowComplete | aabb.h:46-57 | a t strictly inside the incoming interval and strictly between all planes survives the loop |
| Boxes.AxisIntervalsExact | aabb.h:34-44 | all three axis intervals are sound and complete |
| Boxes.SlabTestSound | aabb.h:27-58 | on a hit, the ray at every t in the narrowed interval is inside the box |
| Boxes.BetweenPlanesInBox | aabb.h:27-58 | being between the planes of all three axes is being inside the box |
| Boxes.SlabTestComplete | aabb.h:27-58 | a ray point strictly inside the box at a t strictly inside the interval makes the test succeed with t strictly inside the result |
| Boxes.PadAxis | triangle.h:83-94 | a side shorter than MIN_SIZE = 0.01f is raised to exactly MIN_SIZE by moving max only; a long-enough side is unchanged |
| Boxes.PadToMinSize | quad.h:28-43 | padding keeps min, contains the unpadded box, and makes every side at least MIN_SIZE |
| Boxes.PadIdempotent | quad.h:28-43 | padding a padded box changes nothing |
| Hittables.HitRecord.SetFaceNormal | hittable.h:32-36 | front_face iff dot(direction, outward) < 0; the normal is outward on a front face and its negation otherwise; p, t, u, v and mat are untouched |
| Hittables.Miss | hittable.h:50 | a miss returns false and the caller's record unchanged |
| Hittables.FaceNormalOpposesRay | hittable.h:34-35 | after set_face_normal, dot(direction, normal) ≤ 0 |
| Spheres.BoundingBox | sphere.h:150-155 | the box is center ± (radius, radius, radius), valid when radius ≥ 0 |
| Spheres.SurfaceInBox | sphere.h:150-155 | every surface point of a sphere with radius ≥ 0 lies in its box |
| Spheres.Record | sphere.h:138-145 | the record written on a hit: t, at(t), the sphere's material, and front_face from the outward normal (p − center)/radius |
| Spheres.Hit | sphere.h:114-148 | the result obeys the hit protocol (a miss leaves the record alone, a hit has t in [t_min, t_max] and p = at(t)); a hit carries the sphere's material; a negative discriminant is a miss |
| Spheres.SurfaceEquation | sphere.h:116-123 | at(t) is on the sphere iff t is a root of a t² + 2 h t + c |
| Spheres.RootsOnSurface | sphere.h:127-132 | both roots (−h ∓ √disc)/a are points of the surface |
| Spheres.SurfacePointIsRoot | sphere.h:123-132 | every surface point along the ray is one of the two roots, and then the discriminant is non-negative |
| Spheres.RootsOrdered | sphere.h:128-132 | the nearer root is tried first: (−h − √disc)/a ≤ (−h + √disc)/a |
| Spheres.HitOnSurface | sphere.h:114-148 | with a correct sqrt, the point of a hit is on the sphere |
| Spheres.HitIsNearest | sphere.h:128-135 | with a correct sqrt, any surface point at a t' in [t_min, t_max] guarantees a hit, at a t no farther than t' |
| Triangles.NormalPerpendicular | triangle.h:24-31 | the normal is orthogonal to both edges b − a and c − a |
| Triangles.Normal | triangle.h:24-31 | no contract of its own: unit_vector((b − a) × (c − a)); Triangles.NormalPerpendicular states its orthogonality to both edges |
| Triangles.VertexBox | triangle.h:75-76 | the min/max hull of the three vertices is a valid box containing each |
| Triangles.VertexBoxLeast | triangle.h:75-76 | any box containing the three vertices contains the hull, so its corners are the componentwise min and max |
| Triangles.BoundingBox | triangle.h:72-98 | the min corner is the hull's, every side is at least MIN_SIZE, and all three vertices are inside |
| Triangles.Record | triangle.h:64-68 | the record written on a hit: t, at(t), the triangle's material, front_face from the triangle's normal |
| Triangles.Hit | triangle.h:33-70 | the hit protocol holds; a determinant in (−1e-8, 1e-8) is a miss; a hit has barycentrics u in [0, 1], v ≥ 0, u + v ≤ 1 and t equal to the solved t; a hit carries the triangle's material |
| Triangles.SolveIsIntersection | triangle.h:45-58 | the solved (u, v, t) satisfy at(t) == a + u(b − a) + v(c − a) (Cramer's rule) |
| Triangles.HitInsideTriangle | triangle.h:33-70 | the point of a hit lies in the triangle at its barycentric coordinates |
| Quads.PointsBox | quad.h:23-24 | the box of two points, ordered per axis, is valid and contains both |
| Quads.Box | quad.h:20-44 | the corrected quad box is valid, at least MIN_SIZE thick on every axis, and contains all four corners |
| Quads.BoxContainsQuad | quad.h:20-44 | every point Q + αu + βv with α, β in [0, 1] lies in the corrected box |
| Quads.BoxAsWrittenMissesCorners | quad.h:23-26 | with the boxes built as written, the corners Q + u and Q + v can fall outside the box |
| Quads.BoxAsWritten | quad.h:23-26 | the box set_bounding_box stores; it agrees with the corrected Box when every component of u and v is non-negative |
| Quads.PlaneCoordinates | quad.h:63-65 | for a point p in the plane of u and v, (w · (p × v), w · (u × p)) are its coordinates along u and v |
| Quads.IsInterior | quad.h:77-88 | true iff a and b both lie in [0, 1], then with u = a and v = b written; otherwise the record is untouched |
| Quads.Quad.constructor | quad.h:9-18 | keeps Q, u, v and mat, sets normal, D and w from u × v, and the box to the as-written BoxAsWritten (the unordered diagonal boxes combined, then padded) |
| Quads.Quad.SetBoundingBox | quad.h:20-44 | writes BoxAsWritten, combine(AABB(Q, Q+u+v), AABB(Q+u, Q+v)) padded to MIN_SIZE, to the bbox field and nothing else |
| Quads.Quad.BoundingBox | quad.h:46 | returns the stored box |
| Quads.Quad.Hit | quad.h:48-75 | the hit protocol holds; \|dot(normal, direction)\| < 1e-8 is a miss; a hit carries the quad's material, (u, v) in [0, 1]², and a point on the plane dot(normal, p) = D |
| Quads.PlaneParameter | quad.h:57 | t = (D − n · origin)/(n · direction) puts at(t) on the plane |
| Quads.HitInsideQuad | quad.h:48-75 | the point of a hit is Q + αu + βv at its recorded (u, v), so it lies in the corrected four-corner Box; the stored bbox (BoxAsWritten) can miss it |
| Bvh.BoxCompare | bvh.h:83-96 | box_x/y/z_compare order by the min corner on the chosen axis |
| Bvh.SwapDown | bvh.h:44 | one exchange step of the in-place sort: two neighbours swap and nothing else changes |
| Bvh.InsertOne | bvh.h:44 | inserting the next entry keeps the prefix sorted and the array a permutation, and leaves entries outside the range alone |
| Bvh.SortRange | bvh.h:43-44 | `std::sort(objects + start, objects + end, comparator)`: the range becomes sorted by the axis key and a permutation of itself; entries outside the range are unchanged |
| Bvh.Build | bvh.h:15-53 | the node is well formed (each box is the combination of its children's); span 1 gives two leaves of the same primitive; span 2 takes the two entries in order without sorting; span ≥ 3 splits a sorted range at the midpoint into two non-empty subtrees partitioned by the random axis; only the range is reordered, as a permutation; the leaves hold exactly the range's primitives; one draw is used per node |
| Bvh.BuildSplit | bvh.h:41-48 | the span ≥ 3 branch: sort, split at mid, build both halves, combine; every left primitive's key is ≤ every right primitive's |
| Bvh.SplitRanges | bvh.h:27-48 | the two recursive ranges are [start, mid) and [mid, end) with mid = start + span/2 |
| Bvh.SplitShrinks | bvh.h:41-48 | for span ≥ 3, start < mid < end and both halves are strictly shorter, so the recursion terminates |
| Bvh.EmptyRangeRecursesOnItself | bvh.h:27-48 | for span 0 the right recursive range is the same empty range again |
| Bvh.TreeHit | bvh.h:56-66 | a node whose box test fails is a miss, with the record unchanged and neither child queried; its nearest-hit semantics are Bvh.TreeHitIsNearest |
| Bvh.TreeHitProtocol | bvh.h:56-66 | if every primitive obeys the hit protocol, so does the tree (right child bounded by the left's t; result hit_left \|\| hit_right) |
| Bvh.HitInsideNodeBox | bvh.h:56-66 | the point of a tree hit lies in the node's box, because the interval was narrowed by the box test before either child was queried |
| Bvh.NoFartherThanLeft | bvh.h:62-65 | when the left child hits, the node hits no farther than the left child's distance |
| Bvh.LeafBoxContained | bvh.h:52 | each node box contains the box of every primitive below it |
| Bvh.TreeBoxLeast | bvh.h:52 | a box containing every primitive's box contains the root box, so the root box is exactly their hull |
| Bvh.PruneLosesNothing | bvh.h:59-60 | when the box test fails, no primitive's box interior meets the ray inside the interval, so pruning drops no hit |
| Bvh.TreeFindsEveryHit | bvh.h:56-66 | when primitives report their nearest hit, a primitive hit strictly inside its box and inside (t_min, t_max) makes the tree hit, no farther away |
| Bvh.TreeHitComesFromFringe | bvh.h:56-66 | every tree hit's record is the record of one primitive below the node, queried on a sub-interval of [t_min, t_max] |
| Bvh.TreeHitIsNearest | bvh.h:56-66 | the tree's hit is the closest one a linear scan would find: no farther than any primitive hit inside its box, and no nearer than some primitive's own hit over (t_min, t_max) |
| Bvh.SinglePrimitiveTree | bvh.h:29-34 | the one-element node (both children the same primitive) hits exactly when its primitive does, at the same t and point |
| HittableLists.FoldContainsAll | hittable_list.h:51-55 | the folded box contains every object's box |
| HittableLists.FoldLeast | hittable_list.h:51-55 | the folded box is contained in any box containing all the objects' boxes |
| HittableLists.BvhBoxIsListBox | hittable_list.h:127-128 | the BVH built over the list has the same root box as the list |
| HittableLists.ListBoxGrows | hittable_list.h:27-55 | adding an object grows the list box to contain both the old box and the new object's |
| HittableLists.HittableList.constructor | hittable_list.h:18-21 | a new list is empty, without material, with the zero box and no BVH |
| HittableLists.HittableList.Add | hittable_list.h:27-30 | appends exactly one object at the end; nothing else changes |
| HittableLists.HittableList.ComputeBoundingBox | hittable_list.h:42-56 | the loop leaves bbox equal to the zero box for an empty list and to the left fold of combine otherwise |
| HittableLists.HittableList.BoundingBox | hittable_list.h:59-62 | returns the stored box |
| HittableLists.HittableList.Hit | hittable_list.h:33-40 | a miss when the list's box test fails or when there is no BVH |
| HittableLists.ListHitProtocol | hittable_list.h:33-40 | the list's hit obeys the hit protocol, and a hit lies inside the list's box |
| HittableLists.VertexPointsAppend | hittable_list.h:87-92 | the vertices of two line sequences read one after the other are the concatenation |
| HittableLists.FaceCountAppend | hittable_list.h:94-121 | face lines add up over concatenation |
| HittableLists.ParseLinesCounts | hittable_list.h:84-122 | the loader's vertices are exactly the `v` lines' points in file order, and there are at most as many triangles as `f` lines |
| HittableLists.ParseLinesExtends | hittable_list.h:78-123 | reading more lines only appends vertices and triangles |
| HittableLists.ParseLine | hittable_list.h:84-118 | one line only appends: a `v` line adds at most one vertex, an `f` line at most one triangle, and any other line changes nothing |
| HittableLists.ParseLines | hittable_list.h:78-122 | the loader holds no more vertices and triangles together than there were lines |
| HittableLists.TrianglesUseVertices | hittable_list.h:99-111 | every triangle is built from vertices already read and carries the loader's material |
| HittableLists.ForwardReferenceDropped | hittable_list.h:107-116 | a face naming a vertex not yet read adds nothing; after the vertex is read, the same face adds its triangle |
| HittableLists.ReadObjLines | hittable_list.h:78-123 | the read loop leaves the list's objects equal to the triangles of the valid faces, in file order |
| HittableLists.BuildListBvh | hittable_list.h:127-128 | building the list's BVH keeps the objects as a permutation and the box, and gives a BVH whose root box is the list box |
| HittableLists.LoadTrianglesFromObj | hittable_list.h:64-131 | the loaded list has the given material, holds exactly the parsed triangles, its box is their folded box, and it gets a BVH exactly when it has a triangle, whose root box is the list box |
| Colors.Black | color.h:15 | the default colour is (0, 0, 0) |
| Colors.GammaOneIsIdentity | color.h:20-26 | with gamma 1 (and pow(x, 1) = x), gamma correction changes nothing |
| Colors.GammaKeepsBlack | color.h:20-26 | black stays black when pow(0, 1/gamma) = 0 |
| Colors.GammaCorrected | color.h:20-26 | no contract of its own: each channel raised to 1/γ through the given pow; Colors.GammaOneIsIdentity and Colors.GammaKeepsBlack state its properties |
| Colors.HsvSector | color.h:30-36 | the sector `int(h*6) % 6` under C++ truncation lies in −5..5 |
| Colors.HsvToRgb | color.h:28-53 | a negative sector gives the magenta fallback; zero saturation with a valid sector gives the grey (v, v, v) |
| Colors.HsvSectorInRange | color.h:30-36 | for 0 ≤ h < 1 the sector is one of 0..5 and equals int(h*6), so the fallback is never taken |
| Colors.HsvNegativeHueIsMagenta | color.h:30-51 | for −1 < h ≤ −1/6 the sector is negative and the result is magenta |
| Colors.HsvMinusOneWrapsToZero | color.h:30-36 | at h = −1 the sector is −6 % 6 = 0, so the colour equals that of h = 0 |
| Colors.HsvComponentsInUnit | color.h:31-49 | for 0 ≤ h < 1 and s, v in [0, 1], every component is in [0, v] and one of them equals v |
| Colors.ChannelByte | color.h:57-62 | int(256 · clamp(0, 0.999, c)) is in [0, 255]; c ≥ 0.999 gives 255 and c ≤ 0 gives 0 |
| Colors.Bytes | color.h:55-64 | each of the three bytes written is in [0, 255] |
| Colors.ChannelByteRoundTrip | color.h:57-62 | the channel k/256 quantises back to byte k, for every byte k |
| Colors.ChannelByteMonotone | color.h:57-62 | a brighter channel never gives a smaller byte |
| Colors.BlackBytes | color.h:55-64 | black is written as 0 0 0 |
| PerlinNoise.Iota | perlin.h:65-66 | the first loop of generate_perm: p[i] = i for every i < 256 |
| PerlinNoise.SwapPermutes | perlin.h:76-78 | one exchange preserves the multiset of entries |
| PerlinNoise.Target | perlin.h:75 | the swap partner lies in [0, i] |
| PerlinNoise.TargetIsRandomInt | perlin.h:75 | the swap partner is `random_int(0, i)` on the same draw |
| PerlinNoise.ShufflePermutes | perlin.h:71-80 | the descending swap loop preserves the multiset of entries |
| PerlinNoise.ShuffleKeepsAbove | perlin.h:71-80 | entries above the starting index are never touched |
| PerlinNoise.ShuffleStep | perlin.h:73-79 | one iteration swaps p[i] with p[target] and continues at i − 1 with the next draw; no iteration when i ≤ 0 |
| PerlinNoise.SwapEntries | perlin.h:76-78 | the three assignments through tmp exchange p[i] and p[j] and change nothing else |
| PerlinNoise.Permute | perlin.h:71-80 | the loop leaves the array equal to the shuffle of its old contents and uses n − 1 draws (none when n ≤ 1) |
| PerlinNoise.PermuteKeepsEntries | perlin.h:71-80 | permute preserves the multiset, and with n ≤ 1 changes nothing |
| PerlinNoise.GeneratePerm | perlin.h:63-69 | the table becomes the shuffle of 0..255, using 255 draws |
| PerlinNoise.GeneratedTableIsPermutation | perlin.h:63-69 | the generated table is a permutation of 0..255 |
| PerlinNoise.Mask | perlin.h:33-35 | `k & 255` lies in [0, 255] and is k itself for k in that range |
| PerlinNoise.MaskPeriodic | perlin.h:33-35 | masking has period 256 and differs from k by a multiple of 256 |
| PerlinNoise.XorBound | perlin.h:33-35 | the XOR of two values below 2^n is below 2^n |
| PerlinNoise.XorSelf | perlin.h:33-35 | a ^ a == 0 |
| PerlinNoise.XorZero | perlin.h:33-35 | 0 ^ a == a |
| PerlinNoise.Xor3 | perlin.h:33-35 | the XOR of three table entries in [0, 255] is a valid randvec index |
| PerlinNoise.Xor3Cancels | perlin.h:33-35 | a ^ a ^ c == c |
| PerlinNoise.BlendIsSourceFormula | perlin.h:93 | the corner weight is i · uu + (1 − i)(1 − uu) for i in {0, 1} |
| PerlinNoise.BlendPartitionsUnity | perlin.h:93 | the two corner weights of an axis sum to 1 |
| PerlinNoise.PerlinInterp | perlin.h:81-97 | the triple loop accumulates the eight corner contributions in loop order |
| PerlinNoise.InterpSumStep | perlin.h:88-94 | each iteration adds the contribution of corner (i, j, k) |
| PerlinNoise.InterpZeroAtCorner | perlin.h:81-97 | at (u, v, w) = (0, 0, 0) the interpolation is 0 |
| PerlinNoise.Frac | perlin.h:21-23 | p − floor(p) lies in [0, 1) |
| PerlinNoise.OctaveSumClosedForm | perlin.h:44-51 | the octave weights 0.5^(k+1) on an unchanged point sum to noise · (1 − 2^−depth) |
| PerlinNoise.PermutationInRange | perlin.h:33-35 | every entry of a permutation table lies in [0, 255] |
| PerlinNoise.UnitVectors | perlin.h:9-12 | randvec[i] is the unit vector of the i-th random draw |
| PerlinNoise.Perlin.constructor | perlin.h:7-17 | randvec holds the unit vectors of the draws, and the three tables are permutations of 0..255 built from consecutive stretches of draws |
| PerlinNoise.Perlin.GradientPeriodic | perlin.h:33-35 | the corner gradient has period 256 in each lattice coordinate |
| PerlinNoise.Perlin.Corners | perlin.h:30-35 | corner n is the gradient at (i + di, j + dj, k + dk) with (di, dj, dk) the bits of n |
| PerlinNoise.Perlin.GatherCorners | perlin.h:28-35 | the triple loop collects exactly the eight corner gradients |
| PerlinNoise.Perlin.Noise | perlin.h:19-38 | noise(p) is the interpolation of the corner gradients of p's lattice cell at p's fractional offsets |
| PerlinNoise.Perlin.NoiseZeroAtLatticePoints | perlin.h:19-38 | noise is 0 at every lattice point |
| PerlinNoise.Perlin.Turbulence | perlin.h:40-54 | the loop returns \|Σ 0.5^(k+1) · noise(p)\| over depth octaves, all sampling the same p because the scaled point is discarded |
| PerlinNoise.TurbulenceClosedForm | perlin.h:40-54 | turbulence equals \|noise(p)\| · (1 − 2^−depth) and is never negative |
| PerlinNoise.OctaveStep | perlin.h:48-49 | one octave adds weight · noise with the weight 0.5^(i+1) |
| Textures.Checker | texture.h:54-55 | the checker keeps inv_scale with inv_scale · scale = 1 |
| Textures.Value | texture.h:24-99 | no contract of its own: the dispatch of the four `value` overrides; Textures.SolidIgnoresCoordinates, Textures.CheckerChoosesByParity, Textures.ImageValue and Textures.NoiseIsGrey state each case |
| Textures.Grey | texture.h:41 | (1, 1, 1) · g has all three components equal to g |
| Textures.CheckerIsEven | texture.h:62-66 | C++ `(x + y + z) % 2 == 0` holds exactly when the cell-index sum is even, negative sums included |
| Textures.EvenRemainder | texture.h:66 | the truncating remainder by 2 is 0 iff the number is even |
| Textures.TexelIndex | texture.h:93-94 | int(s · n) for s in [0, 1] lies in [0, n]; s = 1 gives n, s = 0 gives 0 |
| Textures.ImageIndices | texture.h:90-94 | the pixel indices satisfy 0 ≤ i ≤ width and 0 ≤ j ≤ height |
| Textures.PixelColor | texture.h:98-99 | each byte times 1/255 lies in [0, 1]; 255 gives 1, 0 gives 0 |
| Textures.ImageValue | texture.h:82-100 | an image without rows gives cyan (0, 1, 1); otherwise the pixel at the clamped, flipped indices; every component is in [0, 1] |
| Textures.SolidIgnoresCoordinates | texture.h:24-27 | a solid colour returns its albedo for all u, v, p |
| Textures.CheckerChoosesByParity | texture.h:60-69 | the checker returns the even texture's value iff the sum of floor(p/scale) over the axes is even, the odd texture's otherwise |
| Textures.CellShift | texture.h:62 | moving one scale along an axis moves the cell index by one |
| Textures.CheckerShiftFlips | texture.h:55-66 | shifting p.x by the checker's scale flips the parity |
| Textures.CheckerShiftTwiceKeeps | texture.h:55-66 | shifting p.x by twice the scale keeps the parity |
| Textures.CheckerOfSameIsSame | texture.h:60-69 | a checker of one texture with itself is that texture |
| Textures.ImageEdgeIndices | texture.h:90-94 | u ≥ 1 and v ≤ 0 read index (width, height), one past the last pixel |
| Textures.ImageOriginIndices | texture.h:90-94 | u ≤ 0 and v ≥ 1 read pixel (0, 0) |
| Textures.NoiseIsGrey | texture.h:38-44 | a noise texture's three components are equal to the turbulence at p |
| Textures.SampleNoiseTexture | texture.h:38-44 | with its own generator, the noise texture is grey at the 7-octave turbulence, \|noise(p)\| · (1 − 2^−7), never negative |
| Materials.LambertianDirection | material.h:37-40 | the direction is normal + random unit, or the normal when that sum is near zero; it is never near zero unless the normal is |
| Materials.RefractionRatio | material.h:101 | 1/refraction_index on a front face, refraction_index otherwise |
| Materials.Material.Outcome | material.h:20-108 | scattering happens exactly for lambertian, metal and dielectric, and a scattered ray starts at rec.p with the incoming ray's time |
| Materials.Material.constructor | material.h:30-92 | keeps the kind and the class's own reflectivity |
| Materials.Material.Emitted | material.h:15-83 | only a diffuse light emits, and it emits its texture's value at (u, v, p); every other material emits black |
| Materials.Material.Scatter | material.h:20-108 | returns true exactly for lambertian, metal and dielectric, with the attenuation and ray of Outcome; the out-parameters are unchanged on false; metal also writes its reflectivity into rec.mat |
| Materials.ScattersUnlessBaseOrLight | material.h:20-87 | scatter succeeds iff the material is neither the base material nor a diffuse light |
| Materials.ScatteredRayStartsAtHit | material.h:41-106 | every scattered ray starts at rec.p with the incoming ray's time |
| Materials.AttenuationByKind | material.h:42-99 | lambertian attenuation is the texture at (rec.u, rec.v, rec.p), metal's the albedo, dielectric's white |
| Materials.LambertianDirectionNotDegenerate | material.h:37-40 | off a surface whose normal is not near zero, a lambertian bounce never has a near-zero direction |
| Materials.MetalWithoutFuzzIsMirror | material.h:61-63 | with zero fuzz, metal scatters along the unit reflection |
| Materials.DielectricDirection | material.h:101-106 | the dielectric's direction is refract(unit direction, normal, ri) |
| Materials.MatchedDielectricPassesStraight | material.h:96-108 | a dielectric of index 1 passes a ray straight through along its unit direction |
| Cameras.Pixel00AsWrittenIsCorner | camera.cpp:46-48 | as written, pixel_00_loc is the viewport's corner, and differs from the first pixel's centre whenever the pixel steps do not cancel |
| Cameras.Pixel00AsWritten | camera.cpp:46-48 | no contract of its own: pixel_00_loc as written, (du + dv) scaled by the integer 1 / 2 plus the corner; Cameras.Pixel00AsWrittenIsCorner states that it is the corner |
| Cameras.Pixel00 | camera.cpp:46-48 | no contract of its own: the intended first-pixel centre, corner + (du + dv)/2; Cameras.SamplePointInCell states its use |
| Cameras.SamplePointAsWritten | camera.cpp:46-97 | with pixel_00_loc as written, the sample of pixel (i, j) at offset (a, b) is corner + (i + a) du + (j + b) dv, straddling the cell's corner |
| Cameras.SamplePointInCell | camera.cpp:46-97 | with the corrected pixel_00_loc, the sample of pixel (i, j) at offset (a, b) is corner + (i + a + ½) du + (j + b + ½) dv |
| Cameras.SampleSquare | camera.cpp:143-148 | offsets lie in [−0.5, 0.5) × [−0.5, 0.5) × {0} |
| Cameras.Camera.constructor | camera.cpp:3-49 | image_height = int(width / aspect_ratio); forward and right from look_at and up; background (0.7, 0.8, 1); pixel steps are the viewport edges over the pixel counts; pixel_00_loc is computed as written and so equals the viewport's upper-left corner; the member up stays zero |
| Cameras.Camera.GetRay | camera.cpp:90-104 | the ray starts at the camera centre, carries the drawn time, and points at the pixel's sample point |
| Cameras.Camera.RayColor | camera.cpp:51-87 | black when depth ≤ 0 and when the ray misses the scene queried from t_min = 0.01; recursion on depth − 1 only |
| Cameras.NonScatteringHitReturnsEmission | camera.cpp:76-81 | a hit on a non-scattering material returns its emission exactly, with no gamma |
| Cameras.LastLevelSeesOnlyEmission | camera.cpp:83-86 | at depth 1 a scattering hit returns gamma(emission), because the deeper call is black |
| Cameras.NoLightsAllBlack | camera.cpp:51-87 | without diffuse lights (and pow(0, 1/γ) = 0) every ray is black at every depth |
| Cameras.EmptySceneIsBlack | camera.cpp:59-71 | in a scene nothing hits, every ray is black: the sky gradient never reaches the image |

## Left out

- Randomness is not modelled. `rand()`, `random_double` and `random_unit_vector`'s rejection loop are replaced by explicit draws passed in as parameters: a stream `rand` indexed by a counter, random unit vectors, sample offsets and ray times.
- Floating point is not modelled. Coordinates are exact reals, so rounding, infinities and NaNs are absent. `std::sqrt`, `std::pow`, `std::tan`, `acos` and `atan2` are function parameters; `get_sphere_uv` is the parameter `uvOf`.
- The slab test requires every direction component to be non-zero. In IEEE arithmetic a zero component gives infinite `1/d`, which has no real counterpart.
- `Camera::render` is not modelled: it is file output and progress printing. The `fprintf` of `write_to_file` is likewise left out; only the bytes it prints are modelled (Colors.Bytes).
- `Util::print_obj_bounding_box` is a diagnostic that re-reads the file and prints. The OBJ loader's `std::cerr` messages are also left out.
- The OBJ file is read as a sequence of already tokenised lines: a vertex line, a face line with its first three integers or none, or any other line. Opening the file and its failure exception are left out.
- rtw_image (rtw_stb_image.h) is not part of this model. An image is its width, its height and an oracle from pixel position to three bytes.
- The scene, `scene_root->hit` with t_max = ∞, is an oracle of the camera. scene_setup.cpp and project.cpp are not part of this model.
- Memory ownership is left out: the destructor deleting an aliased leaf twice, and raw-pointer handoff.
- The default `hit_record` (t = INFINITY) is not modelled. Each primitive receives the caller's record, and a record's fields are only read after a hit has written them.
- HittableLists.HittableList.constructor: C++ leaves `mat` uninitialised; the model starts it as `None`, and the loader sets it.
- camera.h's constructor declaration is not modelled; camera.cpp's definitions are.
- Bvh.Build: the leaves hold every primitive of the range and only those, and their multiset contains the range's. It is not stated as equal, because a one-element range puts the same primitive in both leaves, so the leaves hold one extra copy.
- Bvh.SortRange: `std::sort` is modelled by an insertion sort over the same comparator. The contract states what `std::sort` promises (sorted and a permutation). It does not fix the order of equal keys, which `std::sort` leaves unspecified.
- Bvh.TreeHit: primitives are reached through an abstract `hitOf` function and boxes through `boxOf`. Virtual dispatch and pointers are not modelled.
- Bvh.TreeHitIsNearest: it assumes that every primitive reports the nearest point of its surface inside the open interval it is asked about (Bvh.ReportsNearest); that is not proved here for Triangle and Quad, and for Sphere only its completeness half is (Spheres.HitIsNearest).
- Bvh.TreeFindsEveryHit: it covers primitive hits strictly inside the primitive's box. A hit on the box's surface can fall on a slab interval that the strict `t_max <= t_min` test of aabb.h:51 rejects, so such a grazing hit may be pruned, and nothing is promised about it.
- Materials.Material.Scatter: a dielectric must have a non-zero index when hit on a front face. With index 0, C++ divides by zero.
- Cameras.Camera.RayColor: the metal's write of `reflectivity` into `rec.mat` is not threaded through the recursion, because that member is never read. The random unit vector is indexed by depth.
- Cameras.Camera.constructor: it requires a non-zero aspect ratio, width and image height. C++ would divide by zero there.
- Textures.Value: a noise texture holds its turbulence function (Perlin noise at 7 octaves, see Textures.SampleNoiseTexture) rather than a generator object; its unused `scale` is kept but not read.
- PerlinNoise.Perlin.NoiseAt: the smoothstep weights are exact reals. `int(floor(p))` is not bounded to 32 bits.
- PerlinNoise.Xor: bitwise XOR is defined on non-negative integers by recursion on bits. It is applied only to masked values in [0, 255].
- PerlinNoise.Mask: `k & 255` is modelled as the Euclidean remainder by 256, which equals it on two's-complement integers, negative ones included.

## Findings

| source | as written | input that shows it | evidently intended | confidence | as-written member | corrected member |
|---|---|---|---|---|---|---|
| hittable_list.h:127-128 | the loader always builds `bvh_node(objects, 0, size)`; for span 0 the constructor takes the `else` branch with mid == start and recurses on the same empty range forever | an OBJ file with no valid face line, e.g. only `v` lines | build the BVH only when the list has a triangle | not executed | Bvh.EmptyRangeRecursesOnItself | HittableLists.LoadTrianglesFromObj |
| camera.cpp:47 | `vec3::scale(pixel_00_loc, 1 / 2)` divides integers, scaling the half-step sum by 0, so pixel_00_loc is the viewport's upper-left corner | any camera, e.g. width 2 and aspect ratio 1, where du + dv ≠ 0 | scale by 0.5, so that pixel (0, 0) is sampled around its own centre | not executed | Cameras.Pixel00AsWrittenIsCorner | Cameras.SamplePointInCell |
| quad.h:23-26 | the two boxes are built from the corner pairs (Q, Q+u+v) and (Q+u, Q+v) without ordering min and max, so combine takes the hull of the wrong corners | Q.y = 0, u.y = 1, v.y = −1: the box's y range is [0, 0] but Q+u has y = 1 | the box of all four corners | not executed | Quads.BoxAsWrittenMissesCorners | Quads.BoxContainsQuad |
