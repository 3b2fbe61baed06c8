/** `compute_sdf`: samples the signed distance of the mesh at the centre of
    every voxel of an n x n x n grid laid over the padded bounding box, and
    appends the values to a flat list, x slowest and z fastest. */
module SdfBuilder {
  import opened Geometry
  import opened ExtendedReals
  import opened Outcomes
  import opened GridLayout
  import opened BoundingBox
  import opened MeshQueries

  /** The dictionary `sdf_data`: `size`, `min`, `max` and `data`. */
  datatype SdfVolume = SdfVolume(size: int, min: Vec3, max: Vec3, data: seq<ExtReal>)

  /** The value the grid holds for voxel (x, y, z). */
  function VoxelSample(len: Vec3 -> real, hits: (Vec3, Vec3, Triangle) -> bool, box: Box, n: int,
                       tris: seq<Triangle>, x: int, y: int, z: int): Result<ExtReal>
    requires IsLength(len) && n != 0
  {
    Sample(len, hits, VoxelCentre(box.lo, Step(box, n).value, x, y, z), tris)
  }

  /** The value the grid holds at flat position k. */
  function SampleAtPosition(len: Vec3 -> real, hits: (Vec3, Vec3, Triangle) -> bool, box: Box, n: int,
                            tris: seq<Triangle>, k: int): Result<ExtReal>
    requires IsLength(len) && n > 0
  {
    VoxelSample(len, hits, box, n, tris, VoxelX(n, k), VoxelY(n, k), VoxelZ(n, k))
  }

  /** Every position of `data` so far holds the value of its voxel. */
  ghost predicate FilledUpTo(len: Vec3 -> real, hits: (Vec3, Vec3, Triangle) -> bool, box: Box, n: int,
                             tris: seq<Triangle>, data: seq<ExtReal>)
    requires IsLength(len)
  {
    forall k :: 0 <= k < |data| ==> n > 0 && SampleAtPosition(len, hits, box, n, tris, k) == Ok(data[k])
  }

  /** Appending the value of voxel (x, y, z) at its own position keeps every
      position filled with the value of its voxel. */
  lemma AppendVoxel(len: Vec3 -> real, hits: (Vec3, Vec3, Triangle) -> bool, box: Box, n: int,
                    tris: seq<Triangle>, data: seq<ExtReal>, x: int, y: int, z: int, v: ExtReal)
    requires IsLength(len) && 0 <= x < n && 0 <= y < n && 0 <= z < n
    requires FilledUpTo(len, hits, box, n, tris, data) && |data| == Flat(n, x, y, z)
    requires VoxelSample(len, hits, box, n, tris, x, y, z) == Ok(v)
    ensures FilledUpTo(len, hits, box, n, tris, data + [v])
  {
    FlatDecodes(n, x, y, z);
    var data' := data + [v];
    forall k | 0 <= k < |data'|
      ensures n > 0 && SampleAtPosition(len, hits, box, n, tris, k) == Ok(data'[k])
    {
      if k < |data| {
        assert data'[k] == data[k];
      }
    }
  }

  /** Once all n^3 positions are filled, every voxel's value sits at its flat
      position. */
  lemma FilledGrid(len: Vec3 -> real, hits: (Vec3, Vec3, Triangle) -> bool, box: Box, n: int,
                   tris: seq<Triangle>, data: seq<ExtReal>)
    requires IsLength(len) && n > 0
    requires FilledUpTo(len, hits, box, n, tris, data) && |data| == n * n * n
    ensures forall x, y, z :: 0 <= x < n && 0 <= y < n && 0 <= z < n ==>
      0 <= Flat(n, x, y, z) < |data| &&
      VoxelSample(len, hits, box, n, tris, x, y, z) == Ok(data[Flat(n, x, y, z)])
  {
    forall x, y, z | 0 <= x < n && 0 <= y < n && 0 <= z < n
      ensures 0 <= Flat(n, x, y, z) < |data|
      ensures VoxelSample(len, hits, box, n, tris, x, y, z) == Ok(data[Flat(n, x, y, z)])
    {
      FlatDecodes(n, x, y, z);
    }
  }

  /** The grid of a mesh whose faces give no triangle (no faces at all, or
      none with three vertices) is all `+inf`: nothing fails and no point is
      inside. */
  lemma EmptyMeshGrid(len: Vec3 -> real, hits: (Vec3, Vec3, Triangle) -> bool, world: Vec3 -> Vec3,
                      faces: seq<seq<Vec3>>, box: Box, n: int, x: int, y: int, z: int)
    requires IsLength(len) && n != 0 && WorldTriangles(world, faces) == []
    ensures VoxelSample(len, hits, box, n, WorldTriangles(world, faces), x, y, z) == Ok(PosInf)
  {
    EmptyMeshSample(len, hits, VoxelCentre(box.lo, Step(box, n).value, x, y, z));
  }

  /** The loop of `compute_sdf` that builds the `triangles` list from the faces. */
  method CollectTriangles(world: Vec3 -> Vec3, faces: seq<seq<Vec3>>) returns (tris: seq<Triangle>)
    ensures tris == WorldTriangles(world, faces)
  {
    tris := [];
    var i := 0;
    while i < |faces|
      invariant 0 <= i <= |faces|
      invariant tris == WorldTriangles(world, faces[..i])
    {
      assert faces[..i + 1][..i] == faces[..i];
      var face := faces[i];
      if |face| == 3 {
        tris := tris + [Triangle(world(face[0]), world(face[1]), world(face[2]))];
      }
      i := i + 1;
    }
    assert faces[..i] == faces;
  }

  /** The body of the innermost voxel loop of `compute_sdf`: the nearest distance at
      the point, negated when the point is inside. */
  method SamplePoint(len: Vec3 -> real, hits: (Vec3, Vec3, Triangle) -> bool, point: Vec3, tris: seq<Triangle>)
    returns (r: Result<ExtReal>)
    requires IsLength(len)
    ensures r == Sample(len, hits, point, tris)
  {
    var minDist := NearestDistance(len, point, tris);
    if minDist.Err? {
      return Err(minDist.error);
    }
    var inside := IsInside(hits, point, tris);
    var signed := if inside then Neg(minDist.value) else minDist.value;
    return Ok(signed);
  }

  /** The triple voxel loop of `compute_sdf`, with its progress counter: the value of every voxel of the
      n x n x n grid over `box`, x slowest and z fastest. It fails when a
      distance divides by zero, and, after the first value, when the progress
      divisor `total_points // 10` is zero. */
  method SampleGrid(len: Vec3 -> real, hits: (Vec3, Vec3, Triangle) -> bool, box: Box, n: int,
                    tris: seq<Triangle>)
    returns (r: Result<seq<ExtReal>>)
    requires IsLength(len) && n != 0
    ensures r.Ok? ==> |r.value| == if n > 0 then n * n * n else 0
    ensures r.Ok? ==> forall x, y, z :: 0 <= x < n && 0 <= y < n && 0 <= z < n ==>
      0 <= Flat(n, x, y, z) < |r.value| &&
      VoxelSample(len, hits, box, n, tris, x, y, z) == Ok(r.value[Flat(n, x, y, z)])
    ensures r.Err? <==> (1 <= n <= 2 ||
                         exists x, y, z :: 0 <= x < n && 0 <= y < n && 0 <= z < n &&
                           VoxelSample(len, hits, box, n, tris, x, y, z).Err?)
    ensures r.Ok? && tris == [] ==> forall k :: 0 <= k < |r.value| ==> r.value[k] == PosInf
  {
    var step := Step(box, n).value;
    var total := n * n * n;
    var current := 0;
    var data: seq<ExtReal> := [];
    var x := 0;
    while x < n
      invariant 0 <= x && (x <= n || x == 0)
      invariant |data| == Flat(n, x, 0, 0) && current == |data|
      invariant x > 0 ==> |data| > 0
      invariant |data| > 0 ==> n >= 3
      invariant FilledUpTo(len, hits, box, n, tris, data)
    {
      var y := 0;
      while y < n
        invariant 0 <= y <= n
        invariant |data| == Flat(n, x, y, 0) && current == |data|
        invariant y > 0 ==> |data| > 0
        invariant |data| > 0 ==> n >= 3
        invariant FilledUpTo(len, hits, box, n, tris, data)
      {
        var z := 0;
        while z < n
          invariant 0 <= z <= n
          invariant |data| == Flat(n, x, y, z) && current == |data|
          invariant z > 0 ==> |data| > 0
          invariant |data| > 0 ==> n >= 3
          invariant FilledUpTo(len, hits, box, n, tris, data)
        {
          var signed := SamplePoint(len, hits, VoxelCentre(box.lo, step, x, y, z), tris);
          if signed.Err? {
            assert VoxelSample(len, hits, box, n, tris, x, y, z).Err?;
            return Err(signed.error);
          }
          AppendVoxel(len, hits, box, n, tris, data, x, y, z, signed.value);
          data := data + [signed.value];
          current := current + 1;
          // the progress report `current_point % (total_points // 10)`
          ProgressDivisorZero(n);
          if total / 10 == 0 {
            return Err(ZeroDivisionError);
          }
          z := z + 1;
        }
        FlatCarry(n, x, y);
        y := y + 1;
      }
      FlatCarry(n, x, y);
      x := x + 1;
    }
    FlatCarry(n, x, 0);
    if n > 0 {
      FilledGrid(len, hits, box, n, tris, data);
    }
    if tris == [] {
      forall k | 0 <= k < |data|
        ensures data[k] == PosInf
      {
        EmptyMeshSample(len, hits, VoxelCentre(box.lo, step, VoxelX(n, k), VoxelY(n, k), VoxelZ(n, k)));
      }
    }
    return Ok(data);
  }

  /** `compute_sdf(obj, grid_size, padding)`, with the object given by its
      bounding-box corners and its triangulated faces in local coordinates,
      its world matrix as `world`, and the length and ray-hit routines of
      `mathutils` as `len` and `hits`. */
  method ComputeSdf(len: Vec3 -> real, hits: (Vec3, Vec3, Triangle) -> bool, world: Vec3 -> Vec3,
                    corners: seq<Vec3>, faces: seq<seq<Vec3>>, gridSize: int, padding: real)
    returns (r: Result<SdfVolume>)
    requires IsLength(len) && |corners| > 0
    ensures var box := PaddedBox(Transformed(world, corners), padding);
      r.Ok? ==> r.value.size == gridSize && r.value.min == box.lo && r.value.max == box.hi
    ensures r.Ok? ==> |r.value.data| == if gridSize > 0 then gridSize * gridSize * gridSize else 0
    ensures var box := PaddedBox(Transformed(world, corners), padding);
      var tris := WorldTriangles(world, faces);
      r.Ok? ==> forall x, y, z :: 0 <= x < gridSize && 0 <= y < gridSize && 0 <= z < gridSize ==>
        0 <= Flat(gridSize, x, y, z) < |r.value.data| &&
        VoxelSample(len, hits, box, gridSize, tris, x, y, z) == Ok(r.value.data[Flat(gridSize, x, y, z)])
    ensures var box := PaddedBox(Transformed(world, corners), padding);
      var tris := WorldTriangles(world, faces);
      r.Err? <==> (0 <= gridSize <= 2 ||
                   exists x, y, z :: 0 <= x < gridSize && 0 <= y < gridSize && 0 <= z < gridSize &&
                     VoxelSample(len, hits, box, gridSize, tris, x, y, z).Err?)
    ensures r.Ok? && WorldTriangles(world, faces) == [] ==>
      forall k :: 0 <= k < |r.value.data| ==> r.value.data[k] == PosInf
  {
    var box := PaddedBox(Transformed(world, corners), padding);
    var step := Step(box, gridSize);
    if step.Err? {
      return Err(step.error);
    }
    var tris := CollectTriangles(world, faces);
    var data := SampleGrid(len, hits, box, gridSize, tris);
    if data.Err? {
      return Err(data.error);
    }
    return Ok(SdfVolume(gridSize, box.lo, box.hi, data.value));
  }
}
