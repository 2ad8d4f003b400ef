/** Points, the casts between float and unsigned points, barycentric weights and the
    screen projection. Float vectors (`glam::Vec2`, `Vec3`) carry exact reals. */
module Geometry {
  import opened Numeric

  datatype Option<T> = None | Some(value: T)

  datatype Vec2 = Vec2(x: real, y: real)
  datatype Vec3 = Vec3(x: real, y: real, z: real)
  /** `glam::UVec2`; the u32 upper bound is not modelled. */
  datatype UVec2 = UVec2(x: nat, y: nat)

  /** `UVec2::as_vec2`. */
  function AsVec2(p: UVec2): (v: Vec2)
    ensures AsUVec2(v) == p
  {
    TruncOfNat(p.x);
    TruncOfNat(p.y);
    Vec2(p.x as real, p.y as real)
  }

  /** `Vec2::as_uvec2`: each coordinate truncated toward zero, negatives saturated to 0. */
  function AsUVec2(v: Vec2): (u: UVec2)
    ensures v.x >= 0.0 ==> u.x as real <= v.x < u.x as real + 1.0
    ensures v.y >= 0.0 ==> u.y as real <= v.y < u.y as real + 1.0
    ensures v.x < 1.0 ==> u.x == 0
    ensures v.y < 1.0 ==> u.y == 0
  {
    UVec2(TruncToUnsigned(v.x), TruncToUnsigned(v.y))
  }

  /** The point at parameter t along a->b: `a + (b - a) * t`. */
  function Lerp(a: Vec2, b: Vec2, t: real): Vec2
  {
    Vec2(a.x + (b.x - a.x) * t, a.y + (b.y - a.y) * t)
  }

  /** Swaps the two coordinates (the line routine's transposition of the image). */
  function Transpose(p: Vec2): Vec2
  {
    Vec2(p.y, p.x)
  }

  // ---------------------------------------------------------------------------
  // Barycentric weights

  /** The three weights `(lambda1, lambda2, lambda3)` of a point against a triangle. */
  datatype Weights = Weights(l1: real, l2: real, l3: real)

  /** The common denominator of the first two weights, as the source writes it. */
  function Denominator(p1: Vec2, p2: Vec2, p3: Vec2): real
  {
    (p2.y - p3.y) * (p1.x - p3.x) + (p3.x - p2.x) * (p1.y - p3.y)
  }

  /** Barycentric weights of `p` against the integer triangle `pts`. A zero denominator
      makes the float division yield infinities or NaN, which no `>= 0` test accepts;
      that case is `None`. */
  function Barycentric(pts: seq<UVec2>, p: UVec2): (w: Option<Weights>)
    requires |pts| == 3
    ensures w.Some? <==> Denominator(AsVec2(pts[0]), AsVec2(pts[1]), AsVec2(pts[2])) != 0.0
    ensures w.Some? ==> w.value.l1 + w.value.l2 + w.value.l3 == 1.0
  {
    var q := AsVec2(p);
    var p1, p2, p3 := AsVec2(pts[0]), AsVec2(pts[1]), AsVec2(pts[2]);
    var den := Denominator(p1, p2, p3);
    if den == 0.0 then None
    else
      var lambda1 := ((p2.y - p3.y) * (q.x - p3.x) + (p3.x - p2.x) * (q.y - p3.y)) / den;
      var lambda2 := ((p3.y - p1.y) * (q.x - p3.x) + (p1.x - p3.x) * (q.y - p3.y)) / den;
      Some(Weights(lambda1, lambda2, 1.0 - lambda1 - lambda2))
  }

  /** The source's inside test: all three weights are non-negative (a closed triangle). */
  predicate Inside(pts: seq<UVec2>, p: UVec2)
    requires |pts| == 3
  {
    match Barycentric(pts, p)
    case None => false
    case Some(w) => w.l1 >= 0.0 && w.l2 >= 0.0 && w.l3 >= 0.0
  }

  /** Twice the signed area of the triangle (a, b, p): positive when p lies to the left of a->b. */
  function Edge(a: Vec2, b: Vec2, p: Vec2): real
  {
    (b.x - a.x) * (p.y - a.y) - (b.y - a.y) * (p.x - a.x)
  }

  lemma EdgeCyclic(a: Vec2, b: Vec2, c: Vec2)
    ensures Edge(a, b, c) == Edge(b, c, a) == Edge(c, a, b)
  {
  }

  lemma EdgeSwap(a: Vec2, b: Vec2, p: Vec2)
    ensures Edge(b, a, p) == -Edge(a, b, p)
  {
  }

  /** The three edge functions of p sum to the triangle's own (twice signed) area. */
  lemma EdgeSum(a: Vec2, b: Vec2, c: Vec2, p: Vec2)
    ensures Edge(b, c, p) + Edge(c, a, p) + Edge(a, b, p) == Edge(a, b, c)
  {
  }

  /** Reference inside test by edge signs: the triangle has non-zero area and p lies on
      the inner side of (or on) every edge, whichever the winding. */
  predicate EdgeInside(a: Vec2, b: Vec2, c: Vec2, p: Vec2)
  {
    var d := Edge(a, b, c);
    var e1, e2, e3 := Edge(b, c, p), Edge(c, a, p), Edge(a, b, p);
    (d > 0.0 && e1 >= 0.0 && e2 >= 0.0 && e3 >= 0.0) ||
    (d < 0.0 && e1 <= 0.0 && e2 <= 0.0 && e3 <= 0.0)
  }

  /** A quotient is non-negative exactly when numerator and denominator agree in sign. */
  lemma QuotientNonNegative(n: real, d: real)
    requires d != 0.0
    ensures n / d >= 0.0 <==> (d > 0.0 && n >= 0.0) || (d < 0.0 && n <= 0.0)
  {
    var q := n / d;
    assert q * d == n;
    if d > 0.0 {
      if q < 0.0 { assert q * d < 0.0; }
      if n < 0.0 { assert q < 0.0; }
    } else {
      if q < 0.0 { assert q * d > 0.0; }
      if n > 0.0 { assert q < 0.0; }
    }
  }

  /** `1 - n1/d - n2/d` is the ratio of what is left of the denominator. */
  lemma ThirdWeight(n1: real, n2: real, d: real)
    requires d != 0.0
    ensures 1.0 - n1 / d - n2 / d == (d - n1 - n2) / d
  {
    var q1, q2, q3 := n1 / d, n2 / d, (d - n1 - n2) / d;
    assert q1 * d == n1 && q2 * d == n2 && q3 * d == d - n1 - n2;
    assert (1.0 - q1 - q2) * d == d - q1 * d - q2 * d;
    MulCancel(1.0 - q1 - q2, q3, d);
  }

  lemma MulCancel(x: real, y: real, d: real)
    requires d != 0.0 && x * d == y * d
    ensures x == y
  {
    assert (x - y) * d == 0.0;
  }

  /** The weights are ratios of edge functions to the triangle's signed area. */
  lemma {:induction false} BarycentricIsEdgeRatio(pts: seq<UVec2>, p: UVec2)
    requires |pts| == 3
    ensures var a, b, c, q := AsVec2(pts[0]), AsVec2(pts[1]), AsVec2(pts[2]), AsVec2(p);
      && Denominator(a, b, c) == Edge(a, b, c)
      && (Edge(a, b, c) != 0.0 ==>
            Barycentric(pts, p) == Some(Weights(Edge(b, c, q) / Edge(a, b, c),
                                                Edge(c, a, q) / Edge(a, b, c),
                                                Edge(a, b, q) / Edge(a, b, c))))
  {
    var a, b, c, q := AsVec2(pts[0]), AsVec2(pts[1]), AsVec2(pts[2]), AsVec2(p);
    var d := Edge(a, b, c);
    assert Denominator(a, b, c) == d;
    if d != 0.0 {
      var n1 := (b.y - c.y) * (q.x - c.x) + (c.x - b.x) * (q.y - c.y);
      var n2 := (c.y - a.y) * (q.x - c.x) + (a.x - c.x) * (q.y - c.y);
      assert n1 == Edge(b, c, q);
      assert n2 == Edge(c, a, q);
      EdgeSum(a, b, c, q);
      ThirdWeight(n1, n2, d);
      var w := Barycentric(pts, p);
      assert w.value.l1 == n1 / d;
      assert w.value.l2 == n2 / d;
      assert w.value.l3 == 1.0 - n1 / d - n2 / d;
    }
  }

  /** The source's inside test agrees with the edge-sign test: the filled set is the
      closed triangle, and a zero-area triangle contains nothing. */
  lemma {:induction false} InsideIffEdgeInside(pts: seq<UVec2>, p: UVec2)
    requires |pts| == 3
    ensures Inside(pts, p) <==> EdgeInside(AsVec2(pts[0]), AsVec2(pts[1]), AsVec2(pts[2]), AsVec2(p))
  {
    var a, b, c, q := AsVec2(pts[0]), AsVec2(pts[1]), AsVec2(pts[2]), AsVec2(p);
    BarycentricIsEdgeRatio(pts, p);
    var d := Edge(a, b, c);
    if d != 0.0 {
      QuotientNonNegative(Edge(b, c, q), d);
      QuotientNonNegative(Edge(c, a, q), d);
      QuotientNonNegative(Edge(a, b, q), d);
    }
  }

  /** The weights are coordinates: they recombine the three vertices into the point. */
  lemma {:induction false} BarycentricReconstructs(pts: seq<UVec2>, p: UVec2)
    requires |pts| == 3
    requires Barycentric(pts, p).Some?
    ensures var w, a, b, c := Barycentric(pts, p).value, AsVec2(pts[0]), AsVec2(pts[1]), AsVec2(pts[2]);
      && w.l1 * a.x + w.l2 * b.x + w.l3 * c.x == p.x as real
      && w.l1 * a.y + w.l2 * b.y + w.l3 * c.y == p.y as real
  {
  }

  /** Each vertex has weight 1 on itself and 0 on the others. */
  lemma {:induction false} BarycentricAtVertices(pts: seq<UVec2>)
    requires |pts| == 3
    requires Barycentric(pts, pts[0]).Some?
    ensures Barycentric(pts, pts[0]) == Some(Weights(1.0, 0.0, 0.0))
    ensures Barycentric(pts, pts[1]) == Some(Weights(0.0, 1.0, 0.0))
    ensures Barycentric(pts, pts[2]) == Some(Weights(0.0, 0.0, 1.0))
  {
    var a, b, c := AsVec2(pts[0]), AsVec2(pts[1]), AsVec2(pts[2]);
    var d := Edge(a, b, c);
    BarycentricIsEdgeRatio(pts, pts[0]);
    BarycentricIsEdgeRatio(pts, pts[1]);
    BarycentricIsEdgeRatio(pts, pts[2]);
    EdgeCyclic(a, b, c);
    assert Edge(b, c, a) / d == 1.0 && Edge(c, a, b) / d == 1.0 && Edge(a, b, c) / d == 1.0;
    assert Edge(c, a, a) == 0.0 && Edge(a, b, a) == 0.0;
    assert Edge(b, c, b) == 0.0 && Edge(a, b, b) == 0.0;
    assert Edge(b, c, c) == 0.0 && Edge(c, a, c) == 0.0;
  }

  /** In exact arithmetic the inside test does not depend on the vertex order: rotating the
      vertices or swapping two of them (reversing the winding) changes nothing. */
  lemma {:induction false} InsideIndependentOfOrder(pts: seq<UVec2>, p: UVec2)
    requires |pts| == 3
    ensures Inside(pts, p) == Inside([pts[1], pts[2], pts[0]], p)
    ensures Inside(pts, p) == Inside([pts[1], pts[0], pts[2]], p)
  {
    var a, b, c, q := AsVec2(pts[0]), AsVec2(pts[1]), AsVec2(pts[2]), AsVec2(p);
    InsideIffEdgeInside(pts, p);
    InsideIffEdgeInside([pts[1], pts[2], pts[0]], p);
    InsideIffEdgeInside([pts[1], pts[0], pts[2]], p);
    EdgeCyclic(a, b, c);
    EdgeSwap(a, b, c);
    EdgeSwap(a, b, q);
    EdgeSwap(b, c, q);
    EdgeSwap(c, a, q);
  }

  // ---------------------------------------------------------------------------
  // Screen projection

  lemma ScaleHalfBounds(t: real, n: real)
    requires n >= 0.0 && -1.0 <= t <= 1.0
    ensures 0.0 <= Stretch(t, n) <= n
  {
    var h := n * 0.5;
    assert (t + 1.0) * h >= 0.0;
    assert (1.0 - t) * h >= 0.0;
    assert (t + 1.0) * h + (1.0 - t) * h == 2.0 * h;
  }

  lemma UnscaleHalf(t: real, n: real)
    requires n > 0.0
    ensures t == 2.0 * Stretch(t, n) / n - 1.0
  {
    var m := (t + 1.0) * (n * 0.5);
    var q := 2.0 * m / n;
    assert 2.0 * m == (t + 1.0) * n;
    assert q * n == 2.0 * m;
    MulCancel(q, t + 1.0, n);
  }

  /** Maps a vertex's x/y from the normalised range [-1, 1] onto [0, size] pixels:
      `(v.xy + 1) * size / 2`; the depth coordinate is dropped. */
  function Project(v: Vec3, size: UVec2): (s: Vec2)
    ensures v.x == -1.0 ==> s.x == 0.0
    ensures v.x == 1.0 ==> s.x == size.x as real
    ensures v.y == -1.0 ==> s.y == 0.0
    ensures v.y == 1.0 ==> s.y == size.y as real
  {
    Vec2(Stretch(v.x, size.x as real), Stretch(v.y, size.y as real))
  }

  /** One axis of the projection: `(t + 1) * (n * 0.5)`. */
  function Stretch(t: real, n: real): real
  {
    (t + 1.0) * (n * 0.5)
  }

  /** A vertex inside the normalised square lands inside the screen rectangle [0, size]. */
  lemma ProjectWithinScreen(v: Vec3, size: UVec2)
    requires -1.0 <= v.x <= 1.0 && -1.0 <= v.y <= 1.0
    ensures var s := Project(v, size);
      0.0 <= s.x <= size.x as real && 0.0 <= s.y <= size.y as real
  {
    ScaleHalfBounds(v.x, size.x as real);
    ScaleHalfBounds(v.y, size.y as real);
  }

  /** On a non-empty screen the projection is invertible: `v = 2 s / size - 1`. */
  lemma ProjectInvertible(v: Vec3, size: UVec2)
    requires size.x > 0 && size.y > 0
    ensures var s := Project(v, size);
      v.x == 2.0 * s.x / size.x as real - 1.0 && v.y == 2.0 * s.y / size.y as real - 1.0
  {
    UnscaleHalf(v.x, size.x as real);
    UnscaleHalf(v.y, size.y as real);
  }
}
