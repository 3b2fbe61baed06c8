/** The point-to-triangle distance of `distance_point_to_triangle`: the point is
    classified by the dot products d1..d6 into a Voronoi-style region of the
    triangle, and the distance is measured to the feature of that region. The
    guards are those of the code, including its region 6, which measures the
    distance to vertex c rather than to the edge bc. */
module TriangleDistance {
  import opened Geometry
  import opened Outcomes

  /** The six dot products of the classification, for `ab = b - a`, `ac = c - a`:
      d1 = ab.ap, d2 = ac.ap, d3 = ab.bp, d4 = ac.bp, d5 = ab.cp, d6 = ac.cp. */
  datatype Dots = Dots(d1: real, d2: real, d3: real, d4: real, d5: real, d6: real)

  function DotsOf(p: Vec3, a: Vec3, b: Vec3, c: Vec3): Dots {
    var ab := Sub(b, a);
    var ac := Sub(c, a);
    Dots(Dot(ab, Sub(p, a)), Dot(ac, Sub(p, a)),
         Dot(ab, Sub(p, b)), Dot(ac, Sub(p, b)),
         Dot(ab, Sub(p, c)), Dot(ac, Sub(p, c)))
  }

  /** The branch the classification ends in. The edge branches carry their
      interpolation parameter; `DivisionByZero` is an edge branch whose
      denominator `d1 - d3` or `d2 - d6` is zero, where Python raises. */
  datatype Region =
    | VertexA              // region 1
    | VertexB              // region 2
    | EdgeAB(v: real)      // region 3, projection a + ab * v
    | VertexC              // region 4
    | EdgeAC(w: real)      // region 5, projection a + ac * w
    | Region6              // region 6, measured to vertex c
    | Degenerate           // |ab x ac| == 0 after all regions failed
    | Face                 // distance to the plane of the triangle
    | DivisionByZero

  /** The interpolation parameter of an edge branch, `num / (num - end)`, under the
      branch's own guards `num >= 0` and `end <= 0` (d1 and d3 for region 3, d2 and
      d6 for region 5). Python raises when the denominator is zero. */
  function EdgeParameter(num: real, end: real): (r: Result<real>)
    requires num >= 0.0 && end <= 0.0
    ensures r.Ok? ==> 0.0 <= r.value <= 1.0 && r.value * (num - end) == num
    ensures r.Err? <==> num == 0.0 && end == 0.0
  {
    var den := num - end;
    if den == 0.0 then Err(ZeroDivisionError)
    else
      var t := num / den;
      assert t * den == num;
      Ok(t)
  }

  /** The guard chain of regions 1 to 6 and the zero-area test, on the dot
      products; `flat` is `ab.cross(ac).length == 0`. */
  function SelectRegion(d: Dots, flat: bool): (g: Region)
    ensures g.EdgeAB? ==> 0.0 <= g.v <= 1.0
    ensures g.EdgeAC? ==> 0.0 <= g.w <= 1.0
    ensures g.Face? ==> !flat
  {
    if d.d1 <= 0.0 && d.d2 <= 0.0 then VertexA
    else if d.d3 >= 0.0 && d.d4 <= d.d3 then VertexB
    else if d.d1 * d.d4 - d.d3 * d.d2 <= 0.0 && d.d1 >= 0.0 && d.d3 <= 0.0 then
      match EdgeParameter(d.d1, d.d3)
      case Ok(v) => EdgeAB(v)
      case Err(_) => DivisionByZero
    else if d.d6 >= 0.0 && d.d5 <= d.d6 then VertexC
    else if d.d5 * d.d2 - d.d1 * d.d6 <= 0.0 && d.d2 >= 0.0 && d.d6 <= 0.0 then
      match EdgeParameter(d.d2, d.d6)
      case Ok(w) => EdgeAC(w)
      case Err(_) => DivisionByZero
    else if d.d3 * d.d6 - d.d5 * d.d4 <= 0.0 && d.d4 - d.d3 >= 0.0 && d.d5 - d.d6 >= 0.0 then Region6
    else if flat then Degenerate
    else Face
  }

  function Classify(len: Vec3 -> real, p: Vec3, a: Vec3, b: Vec3, c: Vec3): Region {
    SelectRegion(DotsOf(p, a, b, c), len(Cross(Sub(b, a), Sub(c, a))) == 0.0)
  }

  /** `distance_point_to_triangle(p, a, b, c)`. */
  function DistancePointToTriangle(len: Vec3 -> real, p: Vec3, a: Vec3, b: Vec3, c: Vec3): (r: Result<real>)
    requires IsLength(len)
    ensures r.Ok? ==> r.value >= 0.0
    ensures r.Err? <==> Classify(len, p, a, b, c).DivisionByZero?
  {
    var ab := Sub(b, a);
    var ac := Sub(c, a);
    match Classify(len, p, a, b, c)
    case VertexA => Ok(len(Sub(p, a)))
    case VertexB => Ok(len(Sub(p, b)))
    case EdgeAB(v) => Ok(len(Sub(p, Add(a, Scale(ab, v)))))
    case VertexC => Ok(len(Sub(p, c)))
    case EdgeAC(w) => Ok(len(Sub(p, Add(a, Scale(ac, w)))))
    case Region6 => Ok(len(Sub(p, c)))
    case Degenerate => Ok(len(Sub(p, a)))
    case Face =>
      var denom := len(Cross(ab, ac));
      Ok(Abs(Dot(Sub(p, a), Cross(ab, ac))) / denom)
    case DivisionByZero => Err(ZeroDivisionError)
  }

  /** The denominator `d1 - d3` of region 3 is `ab . ab`, and `d2 - d6` of region 5
      is `ac . ac`. */
  lemma EdgeDenominators(p: Vec3, a: Vec3, b: Vec3, c: Vec3)
    ensures DotsOf(p, a, b, c).d1 - DotsOf(p, a, b, c).d3 == Dot(Sub(b, a), Sub(b, a))
    ensures DotsOf(p, a, b, c).d2 - DotsOf(p, a, b, c).d6 == Dot(Sub(c, a), Sub(c, a))
  {
  }

  /** Only an edge whose two dot products are both zero can fail. */
  lemma SelectFailsOnlyOnZeroEdge(d: Dots, flat: bool)
    requires SelectRegion(d, flat) == DivisionByZero
    ensures (d.d1 == 0.0 && d.d3 == 0.0) || (d.d2 == 0.0 && d.d6 == 0.0)
  {
  }

  /** The dot products of a triangle with `a == b`: region 3 fails exactly when
      `d2 > 0`. */
  lemma SelectWithAEqualsB(d: Dots, flat: bool)
    requires d.d1 == 0.0 && d.d3 == 0.0 && d.d4 == d.d2
    ensures SelectRegion(d, flat) == DivisionByZero <==> d.d2 > 0.0
  {
  }

  /** The dot products of a triangle with `a == c` and `a != b`: region 3 takes
      every point that passes regions 1 and 2, so nothing fails. */
  lemma SelectWithAEqualsC(d: Dots, flat: bool)
    requires d.d2 == 0.0 && d.d4 == 0.0 && d.d6 == 0.0 && d.d1 - d.d3 > 0.0
    ensures SelectRegion(d, flat) != DivisionByZero
  {
  }

  /** The dot products when `a == b`: d1 = d3 = 0, d4 = d2, and d2 = ac . ap. */
  lemma DotsWhenAEqualsB(p: Vec3, a: Vec3, c: Vec3)
    ensures DotsOf(p, a, a, c).d1 == 0.0 && DotsOf(p, a, a, c).d3 == 0.0
    ensures DotsOf(p, a, a, c).d4 == DotsOf(p, a, a, c).d2
    ensures DotsOf(p, a, a, c).d2 == Dot(Sub(c, a), Sub(p, a))
  {
    assert Sub(a, a) == Zero;
  }

  /** The dot products when `a == c`: d2 = d4 = d6 = 0. */
  lemma DotsWhenAEqualsC(p: Vec3, a: Vec3, b: Vec3)
    ensures DotsOf(p, a, b, a).d2 == 0.0 && DotsOf(p, a, b, a).d4 == 0.0 && DotsOf(p, a, b, a).d6 == 0.0
  {
    assert Sub(a, a) == Zero;
  }

  /** When `a != b`, region 5's denominator d2 - d6 = ac . ac is zero only for `a == c`. */
  lemma SecondEdgeZeroOnlyWhenAEqualsC(p: Vec3, a: Vec3, b: Vec3, c: Vec3)
    requires DotsOf(p, a, b, c).d2 == 0.0 && DotsOf(p, a, b, c).d6 == 0.0
    ensures a == c
  {
    var ac := Sub(c, a);
    if ac != Zero {
      DotSelfZero(ac);
      assert Dot(ac, ac) > 0.0;
      EdgeDenominators(p, a, b, c);
      assert false;
    }
  }

  /** When `a != b`, region 3's denominator d1 - d3 = ab . ab is positive. */
  lemma FirstEdgeGap(p: Vec3, a: Vec3, b: Vec3, c: Vec3)
    requires a != b
    ensures DotsOf(p, a, b, c).d1 - DotsOf(p, a, b, c).d3 > 0.0
  {
    var ab := Sub(b, a);
    assert ab != Zero;
    DotSelfZero(ab);
    assert Dot(ab, ab) > 0.0;
    EdgeDenominators(p, a, b, c);
  }

  /** The edge division fails exactly when a and b coincide and p lies beyond a
      in the direction of c. A triangle with `a == c` (and `a != b`) never fails. */
  lemma DivisionByZeroExactly(len: Vec3 -> real, p: Vec3, a: Vec3, b: Vec3, c: Vec3)
    ensures Classify(len, p, a, b, c) == DivisionByZero <==> a == b && Dot(Sub(c, a), Sub(p, a)) > 0.0
  {
    var flat := len(Cross(Sub(b, a), Sub(c, a))) == 0.0;
    if a == b {
      DotsWhenAEqualsB(p, a, c);
      SelectWithAEqualsB(DotsOf(p, a, b, c), flat);
    } else if Classify(len, p, a, b, c) == DivisionByZero {
      SelectFailsOnlyOnZeroEdge(DotsOf(p, a, b, c), flat);
      FirstEdgeGap(p, a, b, c);
      SecondEdgeZeroOnlyWhenAEqualsC(p, a, b, c);
      DotsWhenAEqualsC(p, a, b);
      SelectWithAEqualsC(DotsOf(p, a, b, c), flat);
      assert false;
    }
  }

  /** The dot products of a point on vertex a: d1 = d2 = 0. */
  lemma DotsAtVertexA(a: Vec3, b: Vec3, c: Vec3)
    ensures DotsOf(a, a, b, c).d1 == 0.0 && DotsOf(a, a, b, c).d2 == 0.0
  {
    assert Sub(a, a) == Zero;
  }

  /** The dot products of a point on vertex b: d3 = d4 = 0, and d1 = ab . ab. */
  lemma DotsAtVertexB(a: Vec3, b: Vec3, c: Vec3)
    ensures DotsOf(b, a, b, c).d3 == 0.0 && DotsOf(b, a, b, c).d4 == 0.0
    ensures DotsOf(b, a, b, c).d1 == Dot(Sub(b, a), Sub(b, a))
  {
    assert Sub(b, b) == Zero;
  }

  /** A point on vertex a is at distance zero (region 1). */
  lemma DistanceAtVertexA(len: Vec3 -> real, a: Vec3, b: Vec3, c: Vec3)
    requires IsLength(len)
    ensures DistancePointToTriangle(len, a, a, b, c) == Ok(0.0)
  {
    DotsAtVertexA(a, b, c);
    assert Classify(len, a, a, b, c) == VertexA;
    assert Sub(a, a) == Zero;
  }

  /** A point on vertex b is at distance zero: region 2 when `a != b`, region 1
      when the two vertices coincide. */
  lemma DistanceAtVertexB(len: Vec3 -> real, a: Vec3, b: Vec3, c: Vec3)
    requires IsLength(len)
    ensures DistancePointToTriangle(len, b, a, b, c) == Ok(0.0)
  {
    if a == b {
      DistanceAtVertexA(len, a, a, c);
    } else {
      var ab := Sub(b, a);
      assert ab != Zero;
      DotSelfZero(ab);
      assert Dot(ab, ab) > 0.0;
      DotsAtVertexB(a, b, c);
      assert Classify(len, b, a, b, c) == VertexB;
      assert Sub(b, b) == Zero;
    }
  }

  /** A triangle whose vertex a differs from b never divides by zero; in
      particular every triangle with three distinct vertices has a distance. */
  lemma DistanceDefinedWhenAB(len: Vec3 -> real, p: Vec3, a: Vec3, b: Vec3, c: Vec3)
    requires IsLength(len) && a != b
    ensures DistancePointToTriangle(len, p, a, b, c).Ok?
  {
    DivisionByZeroExactly(len, p, a, b, c);
  }

  /** Region 6 measures the distance to vertex c, not to the edge bc. For the
      right triangle a = (0,0,0), b = (1,0,0), c = (0,1,0) and the point
      p = (1,1,0) the dot products d1..d6 are 1, 1, 0, 1, 1, 0; the guard chain
      sends them to region 6, so the code returns |p - c| = 1 although the
      midpoint of bc is at distance 1/sqrt(2). */
  lemma Region6Example(flat: bool)
    ensures SelectRegion(Dots(1.0, 1.0, 0.0, 1.0, 1.0, 0.0), flat) == Region6
  {
  }
}
