/** Three-dimensional vectors over the reals, standing in for Blender's
    `mathutils.Vector`. Floating point is abstracted to `real`; the square root
    behind `Vector.length` is abstracted to any function that is non-negative
    and vanishes exactly at the zero vector (see IsLength). */
module Geometry {

  datatype Vec3 = Vec3(x: real, y: real, z: real)

  /** A triangle of a triangulated mesh face, by its three vertices. */
  datatype Triangle = Triangle(a: Vec3, b: Vec3, c: Vec3)

  const Zero: Vec3 := Vec3(0.0, 0.0, 0.0)

  function Add(u: Vec3, v: Vec3): Vec3 {
    Vec3(u.x + v.x, u.y + v.y, u.z + v.z)
  }

  function Sub(u: Vec3, v: Vec3): Vec3 {
    Vec3(u.x - v.x, u.y - v.y, u.z - v.z)
  }

  /** `v * k` for a scalar k. */
  function Scale(v: Vec3, k: real): Vec3 {
    Vec3(v.x * k, v.y * k, v.z * k)
  }

  /** `u * v` between two vectors: mathutils multiplies them component by component. */
  function Mul(u: Vec3, v: Vec3): Vec3 {
    Vec3(u.x * v.x, u.y * v.y, u.z * v.z)
  }

  function Dot(u: Vec3, v: Vec3): real {
    u.x * v.x + u.y * v.y + u.z * v.z
  }

  function Cross(u: Vec3, v: Vec3): Vec3 {
    Vec3(u.y * v.z - u.z * v.y, u.z * v.x - u.x * v.z, u.x * v.y - u.y * v.x)
  }

  function Abs(r: real): (a: real)
    ensures a >= 0.0 && (a == r || a == -r)
  {
    if r < 0.0 then -r else r
  }

  /** What the model assumes of `Vector.length`: it is never negative and it is
      zero exactly for the zero vector. */
  ghost predicate IsLength(len: Vec3 -> real) {
    forall v :: len(v) >= 0.0 && (len(v) == 0.0 <==> v == Zero)
  }

  /** The dot product is positive when every component product is non-negative
      and one of them is positive. Stated for two vectors so that it can be used
      with `u == v`, where the solver rewrites squares on its own. */
  lemma DotPositiveWhen(u: Vec3, w: Vec3)
    requires u.x * w.x >= 0.0 && u.y * w.y >= 0.0 && u.z * w.z >= 0.0
    requires u.x * w.x > 0.0 || u.y * w.y > 0.0 || u.z * w.z > 0.0
    ensures Dot(u, w) > 0.0
  {
  }

  /** The squared length `v . v` is never negative and is zero only for the zero vector. */
  lemma DotSelfZero(v: Vec3)
    ensures Dot(v, v) >= 0.0
    ensures Dot(v, v) == 0.0 <==> v == Zero
  {
    if v != Zero {
      DotPositiveWhen(v, v);
    }
  }
}
