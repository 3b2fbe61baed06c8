# Signed-distance grid of the hourglass cavity

This project models the core of `scripts/generate_sdf.py`, the Blender script
that samples the signed distance field of the hourglass cavity mesh on a
regular voxel grid, and proves properties of that model.

- `TriangleDistance` models `distance_point_to_triangle`. The dot products
  d1..d6 classify the point into one of the code's regions: vertex a, vertex
  b, edge ab, vertex c, edge ac, "region 6", the zero-area fallback, or the
  face. The distance is measured to the feature of that region. Region 6
  measures to vertex c, as the code does. An edge division whose denominator
  is zero is an error result (`ZeroDivisionError`), not a precondition.
- `GridLayout` holds the index arithmetic of the voxel grid. Voxel (x, y, z)
  sits at flat position `(x*n + y)*n + z`, with x slowest and z fastest. It
  also holds the divisor `total_points // 10` of the progress counter.
- `BoundingBox` models the world-space corners and their per-axis `min` and
  `max`. It covers the padding, the step `(max - min) / grid_size`, and the
  voxel centres `min + (i + 0.5) * step`.
- `MeshQueries` models the triangle list built from the faces, the min-fold
  of `min_dist` and the nested `is_inside`. `is_inside` is the parity of the
  number of triangles for which the ray-hit call, made with the script's
  argument order, reports a hit. This module also holds the sign rule that
  combines the min-fold and `is_inside`.
- `SdfBuilder` models `compute_sdf` itself. It is imperative: the triangle
  loop, the triple voxel loop that appends to the data list, the inner
  min-fold loop, the hit-count loop, and the progress modulo.
- `Geometry`, `ExtendedReals` and `Outcomes` are shared definitions.
  `Geometry` covers vectors over the reals and the properties assumed of
  `Vector.length`. `ExtendedReals` covers floats with `+inf` and `-inf`.
  `Outcomes` is a `Result` type with `ZeroDivisionError`.

Python raises `ZeroDivisionError` in three places, and each becomes an error
result:

- `grid_size == 0` fails when computing `step`.
- `1 <= grid_size <= 2` fails at the progress modulo after the first voxel.
- A triangle fails when a == b and p lies beyond a in the direction of c.

`SdfBuilder.ComputeSdf` states exactly when it fails. A negative grid size
runs no iteration and returns an empty data list, as in Python.
`TriangleDistance.DistanceDefinedWhenAB` shows that any triangle with a != b
has a distance.

Where the script departs from what a signed-distance builder usually does,
the model follows the script:

- the inside test makes one ray-hit call per triangle and takes the parity
  of the hits;
- an empty mesh is not rejected up front, and every value is then `+inf`;
- a non-positive grid size is not rejected up front;
- region 6 returns |p - c|;
- the data list is laid out with x slowest and z fastest, position
  `(x*n + y)*n + z`.

## Model

| member | source | states |
|---|---|---|
| TriangleDistance.DistancePointToTriangle | scripts/generate_sdf.py:7-61 | every branch returns a non-negative distance, and the function fails exactly on the division-by-zero edge case of the classification |
| TriangleDistance.EdgeParameter | scripts/generate_sdf.py:32-50 | under the edge branch's guards, `v = d1/(d1-d3)` (and `w = d2/(d2-d6)`) lies in [0,1] and solves `v*(d1-d3) = d1`; the division fails exactly when both dot products are zero |
| TriangleDistance.SelectRegion | scripts/generate_sdf.py:20-60 | the guard chain: an edge branch's interpolation parameter lies in [0,1], and the face branch is reached only when `ab.cross(ac)` has non-zero length |
| TriangleDistance.EdgeDenominators | scripts/generate_sdf.py:12-48 | the denominator `d1 - d3` is `ab.ab` and `d2 - d6` is `ac.ac` |
| TriangleDistance.SelectFailsOnlyOnZeroEdge | scripts/generate_sdf.py:33-48 | a division by zero needs d1 = d3 = 0 or d2 = d6 = 0 |
| TriangleDistance.SelectWithAEqualsB | scripts/generate_sdf.py:20-36 | with the dot products of a triangle with a == b, region 3 divides by zero exactly when d2 > 0 |
| TriangleDistance.SelectWithAEqualsC | scripts/generate_sdf.py:20-36 | with the dot products of a triangle with a == c and a != b, nothing divides by zero |
| TriangleDistance.SecondEdgeZeroOnlyWhenAEqualsC | scripts/generate_sdf.py:45-48 | region 5's d2 = d6 = 0 forces a == c |
| TriangleDistance.FirstEdgeGap | scripts/generate_sdf.py:31-34 | region 3's denominator `d1 - d3` is positive when a != b |
| TriangleDistance.DivisionByZeroExactly | scripts/generate_sdf.py:31-50 | the classification divides by zero if and only if a == b and `(c-a).(p-a) > 0`; a triangle with a == c never does |
| TriangleDistance.DistanceAtVertexA | scripts/generate_sdf.py:20-22 | a point on vertex a is at distance 0 |
| TriangleDistance.DistanceAtVertexB | scripts/generate_sdf.py:24-29 | a point on vertex b is at distance 0, by region 2 or, when a == b, by region 1 |
| TriangleDistance.DistanceDefinedWhenAB | scripts/generate_sdf.py:31-61 | a triangle with a != b always has a distance |
| TriangleDistance.Region6Example | scripts/generate_sdf.py:52-55 | the dot products of the right triangle (0,0,0), (1,0,0), (0,1,0) and the point (1,1,0) reach region 6, which measures to c rather than to edge bc |
| TriangleDistance.DotsOf | scripts/generate_sdf.py:12-41 | definition, no contract: the six dot products d1..d6 of `ab` and `ac` with `ap`, `bp` and `cp` |
| TriangleDistance.Classify | scripts/generate_sdf.py:20-60 | definition, no contract: the guard chain `SelectRegion` applied to `DotsOf` and to the test that `ab.cross(ac)` has length 0 |
| GridLayout.Flat | scripts/generate_sdf.py:125-138 | definition, no contract: the position `(x*n + y)*n + z` at which the triple loop appends voxel (x, y, z) |
| BoundingBox.VoxelCentre | scripts/generate_sdf.py:128 | definition, no contract: `min_corner + Vector((x+0.5, y+0.5, z+0.5)) * step`, the product taken componentwise |
| MeshQueries.DistanceTo | scripts/generate_sdf.py:132 | definition, no contract: the call `distance_point_to_triangle(point, tri[0], tri[1], tri[2])` |
| MeshQueries.Inside | scripts/generate_sdf.py:119 | definition, no contract: `hit_count % 2 == 1` |
| MeshQueries.RayDirection | scripts/generate_sdf.py:111 | definition, no contract: `ray_direction = Vector((1.0, 0.0, 0.0))` |
| SdfBuilder.SdfVolume | scripts/generate_sdf.py:81-86 | definition, no contract: the dictionary `sdf_data` with `size`, `min`, `max` and `data` |
| GridLayout.FlatCarry | scripts/generate_sdf.py:125-138 | finishing a row or a plane continues at the next flat position, and the last plane ends at n^3 |
| GridLayout.FlatDecodes | scripts/generate_sdf.py:125-138 | each voxel's flat position lies below n^3 and decodes back to (x, y, z) |
| GridLayout.DecodeInRange | scripts/generate_sdf.py:125-138 | each position below n^3 decodes to a voxel of the grid whose flat position it is |
| GridLayout.ProgressDivisorZero | scripts/generate_sdf.py:122-142 | `total_points // 10` is zero if and only if grid_size <= 2 |
| BoundingBox.Transformed | scripts/generate_sdf.py:65 | one world-space corner per corner, in order |
| BoundingBox.Coordinates | scripts/generate_sdf.py:66-71 | the list of one coordinate of every corner |
| BoundingBox.MinOf | scripts/generate_sdf.py:66-68 | `min` is at most every element and is one of them |
| BoundingBox.MaxOf | scripts/generate_sdf.py:69-71 | `max` is at least every element and is one of them |
| BoundingBox.PaddedBox | scripts/generate_sdf.py:65-75 | each corner lies `padding` inside the box on every axis, and each face of the box is `padding` away from some corner |
| BoundingBox.PaddedBoxOrdered | scripts/generate_sdf.py:73-75 | with padding >= 0, min <= max on every axis; with padding > 0, min < max |
| BoundingBox.Step | scripts/generate_sdf.py:78 | fails exactly for grid_size == 0; otherwise grid_size steps span the box on every axis |
| BoundingBox.AxisCentreInside | scripts/generate_sdf.py:128 | on one axis with max > min, the centre of cell i lies strictly between min and max |
| BoundingBox.CentreInsideBox | scripts/generate_sdf.py:128 | every voxel centre lies strictly between min_corner and max_corner on each axis where max > min |
| ExtendedReals.Neg | scripts/generate_sdf.py:137 | negation maps a finite x to -x, keeps the infinities infinite, and swaps negative and positive |
| MeshQueries.WorldTriangles | scripts/generate_sdf.py:99-105 | one triangle at most per face |
| MeshQueries.WorldTrianglesConcat | scripts/generate_sdf.py:99-105 | the list of concatenated faces is the concatenation of their lists: faces are kept in order |
| MeshQueries.WorldTrianglesSingle | scripts/generate_sdf.py:100-105 | a face contributes its world-space triangle if it has three vertices and nothing otherwise |
| MeshQueries.TriangulatedFaces | scripts/generate_sdf.py:97-105 | when every face is a triangle, the list holds each face's world-space triangle at the face's index |
| MeshQueries.NearestOf | scripts/generate_sdf.py:130-134 | `min_dist` is `+inf` for no triangles and is always a distance (non-negative or `+inf`) |
| MeshQueries.NearestFailsExactly | scripts/generate_sdf.py:130-134 | the fold fails if and only if some triangle's distance fails |
| MeshQueries.NearestIsMinimum | scripts/generate_sdf.py:130-134 | `min_dist` is at most every triangle's distance and equals one of them when there are triangles |
| MeshQueries.NearestStep | scripts/generate_sdf.py:131-134 | one loop step takes the smaller of `min_dist` and the next distance |
| MeshQueries.NearestFails | scripts/generate_sdf.py:131-132 | a failing distance makes the fold fail |
| MeshQueries.NearestPermutation | scripts/generate_sdf.py:130-134 | `min_dist` does not depend on the order of the triangles |
| MeshQueries.NearestDistance | scripts/generate_sdf.py:130-134 | the loop computes the fold `NearestOf` |
| MeshQueries.HitCount | scripts/generate_sdf.py:112-118 | the hit count is at most the number of triangles |
| MeshQueries.HitCountAppend | scripts/generate_sdf.py:112-118 | hit counts of concatenated lists add up |
| MeshQueries.HitCountRemove | scripts/generate_sdf.py:112-118 | the count is that of the list without one triangle, plus its own hit |
| MeshQueries.HitCountPermutation | scripts/generate_sdf.py:109-119 | the hit count and `is_inside` do not depend on the order of the triangles |
| MeshQueries.IsInside | scripts/generate_sdf.py:109-119 | `is_inside` holds if and only if the ray-hit call reports a hit for an odd number of triangles |
| MeshQueries.SignedDistance | scripts/generate_sdf.py:136-137 | the magnitude is `min_dist`, a negative value implies inside, and an inside point is never positive |
| MeshQueries.Sample | scripts/generate_sdf.py:128-137 | a sample fails exactly when `min_dist` fails; its magnitude is `min_dist`, a negative sample is inside and an inside sample is never positive |
| MeshQueries.EmptyMeshSample | scripts/generate_sdf.py:130-137 | with no triangles the sample is `+inf` |
| MeshQueries.SampleFailsExactly | scripts/generate_sdf.py:128-137 | a sample fails if and only if some triangle has a == b and `(c-a).(p-a) > 0` |
| SdfBuilder.AppendVoxel | scripts/generate_sdf.py:138 | appending a voxel's value at its own flat position keeps every position holding its voxel's value |
| SdfBuilder.FilledGrid | scripts/generate_sdf.py:125-138 | once n^3 positions are filled, every voxel's value sits at its flat position |
| SdfBuilder.EmptyMeshGrid | scripts/generate_sdf.py:99-137 | every voxel of a mesh whose faces give no triangle (none at all, or none with three vertices) is `+inf` |
| SdfBuilder.CollectTriangles | scripts/generate_sdf.py:99-105 | the loop builds the triangle list `WorldTriangles` |
| SdfBuilder.SamplePoint | scripts/generate_sdf.py:128-137 | the body of the voxel loop computes `Sample` |
| SdfBuilder.SampleGrid | scripts/generate_sdf.py:122-143 | the data list has n^3 entries and holds voxel (x, y, z) at `(x*n+y)*n+z`; it fails exactly for 1 <= n <= 2 or a failing voxel; without triangles every entry is `+inf` |
| SdfBuilder.ComputeSdf | scripts/generate_sdf.py:63-146 | size, min and max are grid_size and the padded corners; the data list has grid_size^3 entries in x-slowest order; the call fails exactly for 0 <= grid_size <= 2 or a failing voxel; a mesh without faces gives all `+inf` |

## Left out

- Blender scene and mesh access is not modelled: `obj.bound_box`, `obj.data`,
  `bmesh` and `bmesh.ops.triangulate`. The model takes the bounding-box
  corners and the faces' vertex lists as inputs. `TriangulatedFaces` states
  what follows when triangulation gives three vertices per face.
- `obj.matrix_world @` is a function parameter `world`. Its matrix arithmetic
  is not modelled.
- `mathutils.geometry.intersect_ray_tri` is a predicate parameter `hits`.
  `hits(p, (1,0,0), t)` stands for the call of lines 114-116 with the
  arguments in the script's order. The documented mathutils signature is
  `intersect_ray_tri(v1, v2, v3, ray, orig, clip=True)`, so that call
  treats the point, (1,0,0) and the first vertex as the triangle, and casts
  the ray from the third vertex along the second. It is therefore not a +x
  ray from `p`. No result of the model depends on what `hits` computes:
  parity and order independence hold for every `hits`.
- `Vector.length` is a parameter `len` that is only assumed to be
  non-negative and zero exactly at the zero vector. The square root is not
  modelled, so distances are not proved to be Euclidean.
- Floats are reals extended with `+inf` and `-inf`. Rounding, NaN and
  overflow are not modelled.
- `print` progress messages are not modelled. The modulo that can fail is
  kept.
- `export_sdf_to_json` and the file path are not modelled: they are file
  output.
- The TypeScript and GPU particle integrator and its rendering are not part
  of this model.
- `ComputeSdf` requires a non-empty corner list. Blender's `bound_box` always
  has eight corners, so `min` of an empty list (a `ValueError`) is not
  modelled.
- `grid_size` is an integer. A float grid size, which `range` would reject,
  is not modelled.
- Region6Example: the counterexample to a distance to edge bc is stated on
  the dot products d1..d6. It is not stated on the vertex coordinates, and
  not on a Euclidean length. The reason is solver cost. Computing `DotsOf` of
  the four literal points exceeds the verifier's resource budget, even when
  split into helper lemmas per subtraction and per dot product. The
  Euclidean length needs a square root, which the model leaves abstract.
- `ComputeSdf` and `SampleGrid` describe a failing voxel through
  `VoxelSample`, not through the voxel's triangles.
  `MeshQueries.SampleFailsExactly` gives the triangle-level condition for
  one point.
