/** What `compute_sdf` asks of the triangulated mesh at one sample point: the
    triangle list built from the faces, the nearest distance (the min-fold over
    `distance_point_to_triangle`), the inside test of the nested `is_inside`
    (parity of the number of triangles for which the ray-hit routine, called
    with the script's argument order, reports a hit), and the sign rule that combines
    the two. */
module MeshQueries {
  import opened Geometry
  import opened ExtendedReals
  import opened Outcomes
  import opened TriangleDistance

  /** `ray_direction` of `is_inside`, the second argument of the ray-hit call. */
  const RayDirection: Vec3 := Vec3(1.0, 0.0, 0.0)

  /** The `triangles` list that `compute_sdf` builds from the mesh faces: every face with three vertices, its
      vertices mapped to world space, in face order. */
  function WorldTriangles(world: Vec3 -> Vec3, faces: seq<seq<Vec3>>): (ts: seq<Triangle>)
    ensures |ts| <= |faces|
  {
    if |faces| == 0 then []
    else
      var rest := WorldTriangles(world, faces[..|faces| - 1]);
      var f := faces[|faces| - 1];
      if |f| == 3 then rest + [Triangle(world(f[0]), world(f[1]), world(f[2]))] else rest
  }

  /** The list of a concatenation of faces is the concatenation of the lists,
      and a single face contributes its world-space triangle exactly when it
      has three vertices: which faces are kept, and in which order. */
  lemma {:induction false} WorldTrianglesConcat(world: Vec3 -> Vec3, f: seq<seq<Vec3>>, g: seq<seq<Vec3>>)
    ensures WorldTriangles(world, f + g) == WorldTriangles(world, f) + WorldTriangles(world, g)
  {
    if |g| == 0 {
      assert f + g == f;
    } else {
      var g' := g[..|g| - 1];
      assert (f + g)[..|f + g| - 1] == f + g';
      WorldTrianglesConcat(world, f, g');
    }
  }

  lemma WorldTrianglesSingle(world: Vec3 -> Vec3, face: seq<Vec3>)
    ensures WorldTriangles(world, [face]) ==
      if |face| == 3 then [Triangle(world(face[0]), world(face[1]), world(face[2]))] else []
  {
    assert [face][..0] == [];
  }

  /** After triangulation every face has three vertices, and then the list
      holds one world-space triangle per face, in face order. */
  lemma {:induction false} TriangulatedFaces(world: Vec3 -> Vec3, faces: seq<seq<Vec3>>)
    requires forall i :: 0 <= i < |faces| ==> |faces[i]| == 3
    ensures |WorldTriangles(world, faces)| == |faces|
    ensures forall i :: 0 <= i < |faces| ==>
      WorldTriangles(world, faces)[i] == Triangle(world(faces[i][0]), world(faces[i][1]), world(faces[i][2]))
  {
    if |faces| > 0 {
      TriangulatedFaces(world, faces[..|faces| - 1]);
    }
  }

  /** `distance_point_to_triangle(point, tri[0], tri[1], tri[2])`. */
  function DistanceTo(len: Vec3 -> real, p: Vec3, t: Triangle): Result<real>
    requires IsLength(len)
  {
    DistancePointToTriangle(len, p, t.a, t.b, t.c)
  }

  /** `min_dist` after the distance loop of `compute_sdf`: it starts at `float('inf')`
      and takes every distance that is smaller. A division by zero in any
      distance stops the computation. */
  function NearestOf(len: Vec3 -> real, p: Vec3, tris: seq<Triangle>): (r: Result<ExtReal>)
    requires IsLength(len)
    ensures r.Ok? ==> IsDistance(r.value)
    ensures |tris| == 0 ==> r == Ok(PosInf)
  {
    if |tris| == 0 then Ok(PosInf)
    else
      match NearestOf(len, p, tris[..|tris| - 1])
      case Err(e) => Err(e)
      case Ok(m) =>
        match DistanceTo(len, p, tris[|tris| - 1])
        case Err(e) => Err(e)
        case Ok(d) => if Less(Finite(d), m) then Ok(Finite(d)) else Ok(m)
  }

  /** The fold fails exactly when one of the distances fails. */
  lemma {:induction false} NearestFailsExactly(len: Vec3 -> real, p: Vec3, tris: seq<Triangle>)
    requires IsLength(len)
    ensures NearestOf(len, p, tris).Ok? <==> forall i :: 0 <= i < |tris| ==> DistanceTo(len, p, tris[i]).Ok?
  {
    if |tris| > 0 {
      var prefix := tris[..|tris| - 1];
      NearestFailsExactly(len, p, prefix);
      assert forall i :: 0 <= i < |prefix| ==> prefix[i] == tris[i];
    }
  }

  /** `min_dist` is at most every triangle's distance, and, unless there are
      no triangles, equal to one of them. */
  lemma {:induction false} NearestIsMinimum(len: Vec3 -> real, p: Vec3, tris: seq<Triangle>)
    requires IsLength(len) && NearestOf(len, p, tris).Ok?
    ensures forall i :: 0 <= i < |tris| ==>
      DistanceTo(len, p, tris[i]).Ok? &&
      LessEq(NearestOf(len, p, tris).value, Finite(DistanceTo(len, p, tris[i]).value))
    ensures |tris| > 0 ==>
      exists i :: 0 <= i < |tris| && DistanceTo(len, p, tris[i]).Ok? &&
        NearestOf(len, p, tris).value == Finite(DistanceTo(len, p, tris[i]).value)
  {
    if |tris| > 0 {
      var prefix := tris[..|tris| - 1];
      var m := NearestOf(len, p, prefix).value;
      var d := DistanceTo(len, p, tris[|tris| - 1]).value;
      NearestIsMinimum(len, p, prefix);
      assert forall i :: 0 <= i < |prefix| ==> prefix[i] == tris[i];
      if |prefix| > 0 {
        var j :| 0 <= j < |prefix| && DistanceTo(len, p, prefix[j]).Ok? &&
          m == Finite(DistanceTo(len, p, prefix[j]).value);
        assert tris[j] == prefix[j];
      }
    }
  }

  /** `hit_count` after the loop of `is_inside`: the number of triangles the
      ray-hit call `hits(p, RayDirection, t)` reports a hit for. `hits` stands
      for `intersect_ray_tri(point, ray_direction, t.a, t.b, t.c)` with the
      arguments in the script's order; nothing here depends on what it computes. */
  function HitCount(hits: (Vec3, Vec3, Triangle) -> bool, p: Vec3, tris: seq<Triangle>): (c: nat)
    ensures c <= |tris|
  {
    if |tris| == 0 then 0
    else
      HitCount(hits, p, tris[..|tris| - 1]) + (if hits(p, RayDirection, tris[|tris| - 1]) then 1 else 0)
  }

  /** `is_inside(point)`: an odd number of hits. */
  predicate Inside(hits: (Vec3, Vec3, Triangle) -> bool, p: Vec3, tris: seq<Triangle>) {
    HitCount(hits, p, tris) % 2 == 1
  }

  /** The hits of a concatenation add up. */
  lemma {:induction false} HitCountAppend(hits: (Vec3, Vec3, Triangle) -> bool, p: Vec3, s: seq<Triangle>, t: seq<Triangle>)
    ensures HitCount(hits, p, s + t) == HitCount(hits, p, s) + HitCount(hits, p, t)
  {
    if |t| > 0 {
      assert (s + t)[..|s + t| - 1] == s + t[..|t| - 1];
      HitCountAppend(hits, p, s, t[..|t| - 1]);
    } else {
      assert s + t == s;
    }
  }

  /** The count of a list is that of the list without its j-th triangle, plus
      one if that triangle is hit. */
  lemma HitCountRemove(hits: (Vec3, Vec3, Triangle) -> bool, p: Vec3, t: seq<Triangle>, j: int)
    requires 0 <= j < |t|
    ensures HitCount(hits, p, t) ==
      HitCount(hits, p, t[..j] + t[j + 1..]) + (if hits(p, RayDirection, t[j]) then 1 else 0)
  {
    assert t == t[..j] + ([t[j]] + t[j + 1..]);
    HitCountAppend(hits, p, t[..j], [t[j]] + t[j + 1..]);
    HitCountAppend(hits, p, [t[j]], t[j + 1..]);
    HitCountAppend(hits, p, t[..j], t[j + 1..]);
    assert [t[j]][..0] == [];
  }

  /** Removing the j-th element removes one occurrence from the multiset. */
  lemma MultisetRemove(t: seq<Triangle>, j: int)
    requires 0 <= j < |t|
    ensures multiset(t[..j] + t[j + 1..]) == multiset(t) - multiset{t[j]}
  {
    assert t == t[..j] + [t[j]] + t[j + 1..];
    assert multiset(t) == multiset(t[..j]) + multiset{t[j]} + multiset(t[j + 1..]);
  }

  /** The hit count, and so `is_inside`, does not depend on the order of the
      triangles. */
  lemma {:induction false} HitCountPermutation(hits: (Vec3, Vec3, Triangle) -> bool, p: Vec3, s: seq<Triangle>, t: seq<Triangle>)
    requires multiset(s) == multiset(t)
    ensures HitCount(hits, p, s) == HitCount(hits, p, t)
    ensures Inside(hits, p, s) <==> Inside(hits, p, t)
  {
    if |s| == 0 {
      assert |t| == |multiset(t)| == 0;
    } else {
      var init, last := s[..|s| - 1], s[|s| - 1];
      assert multiset(init) == multiset(s) - multiset{last} by {
        assert s == init + [last];
      }
      assert last in multiset(t);
      var j :| 0 <= j < |t| && t[j] == last;
      MultisetRemove(t, j);
      HitCountPermutation(hits, p, init, t[..j] + t[j + 1..]);
      HitCountRemove(hits, p, t, j);
    }
  }

  /** Every element of a permutation of s occurs in s. */
  lemma PermutationMembers(s: seq<Triangle>, t: seq<Triangle>)
    requires multiset(s) == multiset(t)
    ensures forall j :: 0 <= j < |t| ==> t[j] in s
  {
    forall j | 0 <= j < |t|
      ensures t[j] in s
    {
      assert t[j] in multiset(t);
    }
  }

  /** The nearest distance does not depend on the order of the triangles
      either: it fails for both orders or for neither, and is the same
      minimum. */
  lemma NearestPermutation(len: Vec3 -> real, p: Vec3, s: seq<Triangle>, t: seq<Triangle>)
    requires IsLength(len) && multiset(s) == multiset(t)
    ensures NearestOf(len, p, s) == NearestOf(len, p, t)
  {
    PermutationMembers(s, t);
    PermutationMembers(t, s);
    NearestFailsExactly(len, p, s);
    NearestFailsExactly(len, p, t);
    var rs, rt := NearestOf(len, p, s), NearestOf(len, p, t);
    if |s| == 0 {
      assert |t| == |multiset(t)| == 0;
    } else if rs.Ok? {
      assert |t| == |multiset(t)| == |s|;
      NearestIsMinimum(len, p, s);
      NearestIsMinimum(len, p, t);
      var i :| 0 <= i < |s| && DistanceTo(len, p, s[i]).Ok? && rs.value == Finite(DistanceTo(len, p, s[i]).value);
      var j :| 0 <= j < |t| && DistanceTo(len, p, t[j]).Ok? && rt.value == Finite(DistanceTo(len, p, t[j]).value);
      var j' :| 0 <= j' < |t| && t[j'] == s[i];
      var i' :| 0 <= i' < |s| && s[i'] == t[j];
      assert LessEq(rt.value, rs.value);
      assert LessEq(rs.value, rt.value);
    }
  }

  /** `-min_dist if inside else min_dist`. The magnitude is the distance; a
      negative value means inside, and an inside point is never positive. */
  function SignedDistance(m: ExtReal, inside: bool): (s: ExtReal)
    ensures IsDistance(m) ==> Magnitude(s) == m
    ensures IsDistance(m) && Less(s, Finite(0.0)) ==> inside
    ensures inside && IsDistance(m) ==> !Less(Finite(0.0), s)
  {
    if inside then Neg(m) else m
  }

  /** The value stored for one sample point: the nearest distance with the
      sign of the inside test. */
  function Sample(len: Vec3 -> real, hits: (Vec3, Vec3, Triangle) -> bool, p: Vec3, tris: seq<Triangle>): (r: Result<ExtReal>)
    requires IsLength(len)
    ensures r.Ok? <==> NearestOf(len, p, tris).Ok?
    ensures r.Ok? ==> Magnitude(r.value) == NearestOf(len, p, tris).value
    ensures r.Ok? && Less(r.value, Finite(0.0)) ==> Inside(hits, p, tris)
    ensures r.Ok? && Inside(hits, p, tris) ==> !Less(Finite(0.0), r.value)
  {
    match NearestOf(len, p, tris)
    case Err(e) => Err(e)
    case Ok(m) => Ok(SignedDistance(m, Inside(hits, p, tris)))
  }

  /** With no triangles there is no fail-fast: the distance stays `+inf`, no
      hit is counted, and the sample is `+inf`. */
  lemma EmptyMeshSample(len: Vec3 -> real, hits: (Vec3, Vec3, Triangle) -> bool, p: Vec3)
    requires IsLength(len)
    ensures Sample(len, hits, p, []) == Ok(PosInf)
  {
    assert !Inside(hits, p, []);
  }

  /** A sample fails exactly when some triangle has a == b and the point lies
      beyond a in the direction of c. */
  lemma SampleFailsExactly(len: Vec3 -> real, hits: (Vec3, Vec3, Triangle) -> bool, p: Vec3, tris: seq<Triangle>)
    requires IsLength(len)
    ensures Sample(len, hits, p, tris).Err? <==>
      exists i :: 0 <= i < |tris| && tris[i].a == tris[i].b && Dot(Sub(tris[i].c, tris[i].a), Sub(p, tris[i].a)) > 0.0
  {
    forall i | 0 <= i < |tris|
      ensures DistanceTo(len, p, tris[i]).Err? <==>
        tris[i].a == tris[i].b && Dot(Sub(tris[i].c, tris[i].a), Sub(p, tris[i].a)) > 0.0
    {
      DivisionByZeroExactly(len, p, tris[i].a, tris[i].b, tris[i].c);
    }
    NearestFailsExactly(len, p, tris);
  }

  /** One step of the min-fold: the prefix grows by the next triangle. */
  lemma NearestStep(len: Vec3 -> real, p: Vec3, tris: seq<Triangle>, i: int, m: ExtReal)
    requires IsLength(len) && 0 <= i < |tris|
    requires NearestOf(len, p, tris[..i]) == Ok(m) && DistanceTo(len, p, tris[i]).Ok?
    ensures NearestOf(len, p, tris[..i + 1]) ==
      var d := DistanceTo(len, p, tris[i]).value;
      Ok(if Less(Finite(d), m) then Finite(d) else m)
  {
    assert tris[..i + 1][..i] == tris[..i];
  }

  /** A failing distance makes the whole fold fail. */
  lemma NearestFails(len: Vec3 -> real, p: Vec3, tris: seq<Triangle>, i: int)
    requires IsLength(len) && 0 <= i < |tris| && DistanceTo(len, p, tris[i]).Err?
    ensures NearestOf(len, p, tris).Err?
  {
    NearestFailsExactly(len, p, tris);
  }

  /** The distance loop of `compute_sdf` that folds `min_dist`. */
  method NearestDistance(len: Vec3 -> real, p: Vec3, tris: seq<Triangle>) returns (r: Result<ExtReal>)
    requires IsLength(len)
    ensures r == NearestOf(len, p, tris)
  {
    var minDist := PosInf;
    var i := 0;
    while i < |tris|
      invariant 0 <= i <= |tris|
      invariant NearestOf(len, p, tris[..i]) == Ok(minDist)
    {
      var t := tris[i];
      var dist := DistanceTo(len, p, t);
      if dist.Err? {
        NearestFails(len, p, tris, i);
        return Err(dist.error);
      }
      NearestStep(len, p, tris, i, minDist);
      if Less(Finite(dist.value), minDist) {
        minDist := Finite(dist.value);
      }
      i := i + 1;
    }
    assert tris[..i] == tris;
    return Ok(minDist);
  }

  /** `is_inside`, the function nested in `compute_sdf`. */
  method IsInside(hits: (Vec3, Vec3, Triangle) -> bool, p: Vec3, tris: seq<Triangle>) returns (inside: bool)
    ensures inside <==> HitCount(hits, p, tris) % 2 == 1
  {
    var hitCount := 0;
    var i := 0;
    while i < |tris|
      invariant 0 <= i <= |tris|
      invariant hitCount == HitCount(hits, p, tris[..i])
    {
      assert tris[..i + 1][..i] == tris[..i];
      if hits(p, RayDirection, tris[i]) {
        hitCount := hitCount + 1;
      }
      i := i + 1;
    }
    assert tris[..i] == tris;
    return hitCount % 2 == 1;
  }
}
