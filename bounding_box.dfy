/** The sampling box of `compute_sdf`: the per-axis extremes of the
    world-space bounding-box corners, widened by the padding on every side,
    the step that splits it into n cells per axis, and the voxel centres. */
module BoundingBox {
  import opened Geometry
  import opened Outcomes

  /** The corners `min_corner` and `max_corner` of the padded box. */
  datatype Box = Box(lo: Vec3, hi: Vec3)

  /** `[obj.matrix_world @ Vector(corner) for corner in obj.bound_box]`. */
  function Transformed(world: Vec3 -> Vec3, vs: seq<Vec3>): (ws: seq<Vec3>)
    ensures |ws| == |vs|
    ensures forall i :: 0 <= i < |vs| ==> ws[i] == world(vs[i])
  {
    seq(|vs|, i requires 0 <= i < |vs| => world(vs[i]))
  }

  /** One coordinate of every point: `[v.x for v in bbox_corners]`. */
  function Coordinates(vs: seq<Vec3>, pick: Vec3 -> real): (cs: seq<real>)
    ensures |cs| == |vs|
    ensures forall i :: 0 <= i < |vs| ==> cs[i] == pick(vs[i])
  {
    seq(|vs|, i requires 0 <= i < |vs| => pick(vs[i]))
  }

  /** Python's `min` of a non-empty list of numbers. */
  function MinOf(s: seq<real>): (m: real)
    requires |s| > 0
    ensures forall i :: 0 <= i < |s| ==> m <= s[i]
    ensures exists i :: 0 <= i < |s| && m == s[i]
  {
    if |s| == 1 then s[0]
    else
      var rest := MinOf(s[..|s| - 1]);
      if s[|s| - 1] < rest then s[|s| - 1] else rest
  }

  /** Python's `max` of a non-empty list of numbers. */
  function MaxOf(s: seq<real>): (m: real)
    requires |s| > 0
    ensures forall i :: 0 <= i < |s| ==> s[i] <= m
    ensures exists i :: 0 <= i < |s| && m == s[i]
  {
    if |s| == 1 then s[0]
    else
      var rest := MaxOf(s[..|s| - 1]);
      if s[|s| - 1] > rest then s[|s| - 1] else rest
  }

  /** The componentwise minimum and maximum of the points, moved outwards by
      `padding` on every axis. */
  function PaddedBox(pts: seq<Vec3>, padding: real): (b: Box)
    requires |pts| > 0
    ensures forall i :: 0 <= i < |pts| ==>
      b.lo.x + padding <= pts[i].x <= b.hi.x - padding &&
      b.lo.y + padding <= pts[i].y <= b.hi.y - padding &&
      b.lo.z + padding <= pts[i].z <= b.hi.z - padding
    ensures exists i :: 0 <= i < |pts| && pts[i].x == b.lo.x + padding
    ensures exists i :: 0 <= i < |pts| && pts[i].y == b.lo.y + padding
    ensures exists i :: 0 <= i < |pts| && pts[i].z == b.lo.z + padding
    ensures exists i :: 0 <= i < |pts| && pts[i].x == b.hi.x - padding
    ensures exists i :: 0 <= i < |pts| && pts[i].y == b.hi.y - padding
    ensures exists i :: 0 <= i < |pts| && pts[i].z == b.hi.z - padding
  {
    var xs := Coordinates(pts, (v: Vec3) => v.x);
    var ys := Coordinates(pts, (v: Vec3) => v.y);
    var zs := Coordinates(pts, (v: Vec3) => v.z);
    Box(Vec3(MinOf(xs) - padding, MinOf(ys) - padding, MinOf(zs) - padding),
        Vec3(MaxOf(xs) + padding, MaxOf(ys) + padding, MaxOf(zs) + padding))
  }

  /** With a non-negative padding the box is never inverted, and with a
      positive padding it has positive extent on every axis. */
  lemma PaddedBoxOrdered(pts: seq<Vec3>, padding: real)
    requires |pts| > 0
    ensures padding >= 0.0 ==>
      PaddedBox(pts, padding).lo.x <= PaddedBox(pts, padding).hi.x &&
      PaddedBox(pts, padding).lo.y <= PaddedBox(pts, padding).hi.y &&
      PaddedBox(pts, padding).lo.z <= PaddedBox(pts, padding).hi.z
    ensures padding > 0.0 ==>
      PaddedBox(pts, padding).lo.x < PaddedBox(pts, padding).hi.x &&
      PaddedBox(pts, padding).lo.y < PaddedBox(pts, padding).hi.y &&
      PaddedBox(pts, padding).lo.z < PaddedBox(pts, padding).hi.z
  {
    var b := PaddedBox(pts, padding);
    assert b.lo.x + padding <= pts[0].x <= b.hi.x - padding;
    assert b.lo.y + padding <= pts[0].y <= b.hi.y - padding;
    assert b.lo.z + padding <= pts[0].z <= b.hi.z - padding;
  }

  /** `step = (max_corner - min_corner) / grid_size`: Python raises when the
      grid size is zero. Otherwise n steps span the box on every axis. */
  function Step(b: Box, n: int): (r: Result<Vec3>)
    ensures r.Err? <==> n == 0
    ensures r.Ok? ==>
      r.value.x * (n as real) == b.hi.x - b.lo.x &&
      r.value.y * (n as real) == b.hi.y - b.lo.y &&
      r.value.z * (n as real) == b.hi.z - b.lo.z
  {
    if n == 0 then Err(ZeroDivisionError)
    else Ok(Vec3((b.hi.x - b.lo.x) / (n as real),
                 (b.hi.y - b.lo.y) / (n as real),
                 (b.hi.z - b.lo.z) / (n as real)))
  }

  /** `min_corner + Vector((x + 0.5, y + 0.5, z + 0.5)) * step`. */
  function VoxelCentre(lo: Vec3, step: Vec3, x: int, y: int, z: int): Vec3 {
    Add(lo, Mul(Vec3(x as real + 0.5, y as real + 0.5, z as real + 0.5), step))
  }

  /** Strict monotonicity of multiplication by a positive real, for distinct
      factors. */
  lemma MulStrict(a: real, b: real, c: real)
    requires a < b && c > 0.0
    ensures a * c < b * c
  {
  }

  /** A point `t` steps from `lo`, where n steps of size s span lo..hi and
      0 < t < n, lies strictly between lo and hi. */
  lemma StrictlyBetween(lo: real, hi: real, s: real, t: real, n: real)
    requires lo < hi && n > 0.0 && s * n == hi - lo && 0.0 < t < n
    ensures lo < lo + t * s < hi
  {
    if s <= 0.0 {
      MulStrict(0.0, n, -s);
      assert false;
    }
    MulStrict(0.0, t, s);
    MulStrict(t, n, s);
  }

  /** Along one axis: the centre of cell i of n cells over lo..hi lies
      strictly between lo and hi. */
  lemma AxisCentreInside(lo: real, hi: real, n: int, i: int)
    requires n >= 1 && 0 <= i < n && lo < hi
    ensures lo < lo + (i as real + 0.5) * ((hi - lo) / (n as real)) < hi
  {
    StrictlyBetween(lo, hi, (hi - lo) / (n as real), i as real + 0.5, n as real);
  }

  /** Every voxel centre lies strictly inside the box on each axis along
      which the box has positive extent. */
  lemma CentreInsideBox(b: Box, n: int, x: int, y: int, z: int)
    requires n >= 1 && 0 <= x < n && 0 <= y < n && 0 <= z < n
    ensures Step(b, n).Ok?
    ensures b.lo.x < b.hi.x ==> b.lo.x < VoxelCentre(b.lo, Step(b, n).value, x, y, z).x < b.hi.x
    ensures b.lo.y < b.hi.y ==> b.lo.y < VoxelCentre(b.lo, Step(b, n).value, x, y, z).y < b.hi.y
    ensures b.lo.z < b.hi.z ==> b.lo.z < VoxelCentre(b.lo, Step(b, n).value, x, y, z).z < b.hi.z
  {
    if b.lo.x < b.hi.x {
      AxisCentreInside(b.lo.x, b.hi.x, n, x);
    }
    if b.lo.y < b.hi.y {
      AxisCentreInside(b.lo.y, b.hi.y, n, y);
    }
    if b.lo.z < b.hi.z {
      AxisCentreInside(b.lo.z, b.hi.z, n, z);
    }
  }
}
