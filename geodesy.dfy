/** Option type used for JavaScript's `null` and for an absent value. */
module Wrappers {
  datatype Option<+T> = None | Some(value: T)
}

/**
  The numeric helpers of nav.js: points, JavaScript's rounding and remainder,
  the bearing normalisation, and the planar projection of a point onto a route
  segment. The trigonometric formulas (haversine distance, atan2 bearing, the
  dead-reckoning offsets) and Math.sqrt are not modelled; they are the fields
  of a `Geo` value that every caller passes in.
*/
module Geodesy {

  /** A `[lat, lng]` pair, in degrees. */
  datatype Point = Point(lat: real, lng: real)

  /** The range of `Math.atan2(y, x) * 180 / Math.PI`. */
  type Degrees = d: real | -180.0 <= d <= 180.0

  /** The transcendental parts of nav.js, left abstract. */
  datatype Geo = Geo(
    // calculateDistance: haversine great-circle distance in metres
    distance: (Point, Point) -> real,
    // the un-normalised bearing from calculateBearing, before `(b + 360) % 360`
    atan2Degrees: (Point, Point) -> Degrees,
    // Math.sqrt
    sqrt: real -> real,
    // (latDiff, lngDiff) of dead reckoning from (distance, heading, filteredLat)
    reckonOffset: (real, real, real) -> Point)

  /** Truncation toward zero, as JavaScript's `%` uses it. */
  function Trunc(x: real): (n: int)
    ensures x >= 0.0 ==> n == x.Floor
  {
    if x >= 0.0 then x.Floor else -((-x).Floor)
  }

  /** JavaScript's `x % y` on numbers: the remainder takes the sign of `x`. */
  function JsRem(x: real, y: real): real
    requires y != 0.0
  {
    x - y * (Trunc(x / y) as real)
  }

  /** JavaScript's `Math.round`: halves round toward +infinity. */
  function JsRound(x: real): int {
    (x + 0.5).Floor
  }

  /** calculateBearing: the bearing from `a` to `b`, normalised into [0, 360). */
  function CalculateBearing(g: Geo, a: Point, b: Point): (bearing: real)
    ensures 0.0 <= bearing < 360.0
    ensures g.atan2Degrees(a, b) >= 0.0 ==> bearing == g.atan2Degrees(a, b)
    ensures g.atan2Degrees(a, b) < 0.0 ==> bearing == g.atan2Degrees(a, b) + 360.0
  {
    var raw: real := g.atan2Degrees(a, b);
    var x := raw + 360.0;
    assert 0.5 <= x / 360.0 <= 1.5;
    JsRem(x, 360.0)
  }

  function SqDist(p: Point, q: Point): real {
    (p.lat - q.lat) * (p.lat - q.lat) + (p.lng - q.lng) * (p.lng - q.lng)
  }

  /** The point a fraction `t` of the way from `a` to `b`. */
  function Lerp(a: Point, b: Point, t: real): Point {
    Point(a.lat + t * (b.lat - a.lat), a.lng + t * (b.lng - a.lng))
  }

  predicate Between(lo: real, x: real, hi: real) {
    (lo <= x <= hi) || (hi <= x <= lo)
  }

  /** `c` lies in the bounding box of the segment `a`-`b`. */
  predicate InBox(c: Point, a: Point, b: Point) {
    Between(a.lat, c.lat, b.lat) && Between(a.lng, c.lng, b.lng)
  }

  /** `dot` of getClosestPointOnSegment: (p - a) . (b - a). */
  function Dot(p: Point, a: Point, b: Point): real {
    (p.lat - a.lat) * (b.lat - a.lat) + (p.lng - a.lng) * (b.lng - a.lng)
  }

  /** `len_sq` of getClosestPointOnSegment: |b - a|^2. */
  function LenSq(a: Point, b: Point): real {
    SqDist(b, a)
  }

  /** `param`: -1 for a degenerate segment, else dot / len_sq. */
  function Param(p: Point, a: Point, b: Point): real {
    if LenSq(a, b) != 0.0 then Dot(p, a, b) / LenSq(a, b) else -1.0
  }

  lemma MulNonneg(x: real, y: real)
    requires x >= 0.0 && y >= 0.0
    ensures x * y >= 0.0
  {
  }

  /** A fraction `t` in [0, 1] of `d` lies between 0 and `d`. */
  lemma ScaledBetween(x: real, d: real, t: real)
    requires 0.0 <= t <= 1.0
    ensures Between(x, x + t * d, x + d)
  {
    if d >= 0.0 {
      MulNonneg(t, d);
      MulNonneg(1.0 - t, d);
      assert (1.0 - t) * d == d - t * d;
    } else {
      MulNonneg(t, -d);
      MulNonneg(1.0 - t, -d);
      assert (1.0 - t) * (-d) == t * d - d;
      assert t * (-d) == -(t * d);
    }
  }

  lemma LerpInBox(a: Point, b: Point, t: real)
    requires 0.0 <= t <= 1.0
    ensures InBox(Lerp(a, b, t), a, b)
  {
    ScaledBetween(a.lat, b.lat - a.lat, t);
    ScaledBetween(a.lng, b.lng - a.lng, t);
  }

  /**
    getClosestPointOnSegment: the planar projection of `p` onto the segment
    `a`-`b`, clamped to its endpoints.
  */
  function ClosestPointOnSegment(p: Point, a: Point, b: Point): (c: Point)
    ensures InBox(c, a, b)
    ensures a == b ==> c == a
    ensures p == a ==> c == a
    ensures p == b ==> c == b
    ensures Param(p, a, b) < 0.0 ==> c == a
    ensures Param(p, a, b) > 1.0 ==> c == b
  {
    var t := Param(p, a, b);
    SqDistPositive(b, a);
    ParamAtEnds(a, b);
    if t < 0.0 then a
    else if t > 1.0 then b
    else
      LerpInBox(a, b, t);
      Lerp(a, b, t)
  }

  /** The projection is a point `a + t(b - a)` of the segment itself, with `t` in [0, 1]. */
  lemma ProjectionOnSegment(p: Point, a: Point, b: Point)
    ensures exists t :: 0.0 <= t <= 1.0 && ClosestPointOnSegment(p, a, b) == Lerp(a, b, t)
  {
    var s := Param(p, a, b);
    if s < 0.0 {
      assert ClosestPointOnSegment(p, a, b) == Lerp(a, b, 0.0);
    } else if s > 1.0 {
      assert ClosestPointOnSegment(p, a, b) == Lerp(a, b, 1.0);
    } else {
      assert ClosestPointOnSegment(p, a, b) == Lerp(a, b, s);
    }
  }

  /** The start of a segment has parameter 0 and the end parameter 1. */
  lemma ParamAtEnds(a: Point, b: Point)
    ensures a != b ==> Param(a, a, b) == 0.0
    ensures a != b ==> Param(b, a, b) == 1.0
  {
    SqDistPositive(b, a);
    if a != b {
      var L := LenSq(a, b);
      calc {
        Dot(a, a, b);
      ==
        0.0 * (b.lat - a.lat) + 0.0 * (b.lng - a.lng);
      ==
        0.0;
      }
      calc {
        Dot(b, a, b);
      ==
        (b.lat - a.lat) * (b.lat - a.lat) + (b.lng - a.lng) * (b.lng - a.lng);
      ==
        L;
      }
      assert L / L == 1.0;
    }
  }

  /** The squared distance from `p` to a point of the segment, as a polynomial in `t`. */
  lemma SqDistToLerp(p: Point, a: Point, b: Point, t: real)
    ensures SqDist(p, Lerp(a, b, t))
         == SqDist(p, a) - 2.0 * t * Dot(p, a, b) + t * t * LenSq(a, b)
  {
    LerpCoordinates(p, a, b, t);
    PlaneExpansion(p.lat, p.lng, a.lat, a.lng, b.lat, b.lng, t);
    Refold(p, a, b, t);
  }

  lemma LerpCoordinates(p: Point, a: Point, b: Point, t: real)
    ensures SqDist(p, Lerp(a, b, t))
         == (p.lat - (a.lat + t * (b.lat - a.lat))) * (p.lat - (a.lat + t * (b.lat - a.lat)))
            + (p.lng - (a.lng + t * (b.lng - a.lng))) * (p.lng - (a.lng + t * (b.lng - a.lng)))
  {
  }

  lemma Refold(p: Point, a: Point, b: Point, t: real)
    ensures ((p.lat - a.lat) * (p.lat - a.lat) + (p.lng - a.lng) * (p.lng - a.lng))
            - 2.0 * t * ((p.lat - a.lat) * (b.lat - a.lat) + (p.lng - a.lng) * (b.lng - a.lng))
            + t * t * ((b.lat - a.lat) * (b.lat - a.lat) + (b.lng - a.lng) * (b.lng - a.lng))
         == SqDist(p, a) - 2.0 * t * Dot(p, a, b) + t * t * LenSq(a, b)
  {
  }

  /** SqDistToLerp on coordinates. */
  lemma PlaneExpansion(p1: real, p2: real, a1: real, a2: real, b1: real, b2: real, t: real)
    ensures (p1 - (a1 + t * (b1 - a1))) * (p1 - (a1 + t * (b1 - a1)))
            + (p2 - (a2 + t * (b2 - a2))) * (p2 - (a2 + t * (b2 - a2)))
         == ((p1 - a1) * (p1 - a1) + (p2 - a2) * (p2 - a2))
            - 2.0 * t * ((p1 - a1) * (b1 - a1) + (p2 - a2) * (b2 - a2))
            + t * t * ((b1 - a1) * (b1 - a1) + (b2 - a2) * (b2 - a2))
  {
    CoordinateExpansion(p1, a1, b1, t);
    CoordinateExpansion(p2, a2, b2, t);
    SumOfQuadratics(
      (p1 - (a1 + t * (b1 - a1))) * (p1 - (a1 + t * (b1 - a1))),
      (p2 - (a2 + t * (b2 - a2))) * (p2 - (a2 + t * (b2 - a2))),
      (p1 - a1) * (p1 - a1), (p2 - a2) * (p2 - a2),
      (p1 - a1) * (b1 - a1), (p2 - a2) * (b2 - a2),
      (b1 - a1) * (b1 - a1), (b2 - a2) * (b2 - a2), t);
  }

  /** One coordinate of SqDistToLerp. */
  lemma CoordinateExpansion(p: real, a: real, b: real, t: real)
    ensures (p - (a + t * (b - a))) * (p - (a + t * (b - a)))
         == (p - a) * (p - a) - 2.0 * t * ((p - a) * (b - a)) + t * t * ((b - a) * (b - a))
  {
    var u, v := p - a, b - a;
    assert p - (a + t * (b - a)) == u - t * v;
    assert (u - t * v) * (u - t * v) == u * u - 2.0 * t * (u * v) + t * t * (v * v);
  }

  lemma SumOfQuadratics(s1: real, s2: real, x1: real, x2: real, y1: real, y2: real,
                        z1: real, z2: real, t: real)
    requires s1 == x1 - 2.0 * t * y1 + t * t * z1
    requires s2 == x2 - 2.0 * t * y2 + t * t * z2
    ensures s1 + s2 == (x1 + x2) - 2.0 * t * (y1 + y2) + t * t * (z1 + z2)
  {
  }

  lemma MulPos(x: real, y: real)
    requires x > 0.0 && y > 0.0
    ensures x * y > 0.0
  {
  }

  lemma MulNegNeg(x: real, y: real)
    requires x < 0.0 && y < 0.0
    ensures x * y > 0.0
  {
  }

  lemma SquareSign(x: real)
    ensures x * x >= 0.0
    ensures x != 0.0 ==> x * x > 0.0
  {
    if x > 0.0 {
      MulPos(x, x);
    } else if x < 0.0 {
      MulNegNeg(x, x);
    }
  }

  /** Squared distances are non-negative, and positive between distinct points. */
  lemma SqDistPositive(p: Point, q: Point)
    ensures SqDist(p, q) >= 0.0
    ensures p != q ==> SqDist(p, q) > 0.0
  {
    var x, y := p.lat - q.lat, p.lng - q.lng;
    SquareSign(x);
    SquareSign(y);
    if x != 0.0 {
      calc {
        SqDist(p, q);
      ==
        x * x + y * y;
      >=
        x * x;
      >
        0.0;
      }
    } else if y != 0.0 {
      calc {
        SqDist(p, q);
      ==
        x * x + y * y;
      >=
        y * y;
      >
        0.0;
      }
    } else {
      calc {
        SqDist(p, q);
      ==
        x * x + y * y;
      >=
        0.0;
      }
      assert p == q;
    }
  }

  lemma QuotientAboveOne(dot: real, L: real)
    requires L > 0.0 && dot / L > 1.0
    ensures dot > L
  {
    var s := dot / L;
    assert dot == s * L;
    MulPos(s - 1.0, L);
    assert (s - 1.0) * L == s * L - L;
  }

  lemma QuotientBelowZero(dot: real, L: real)
    requires L > 0.0 && dot / L < 0.0
    ensures dot < 0.0
  {
    var s := dot / L;
    assert dot == s * L;
    MulPos(-s, L);
    assert (-s) * L == -(s * L);
  }

  lemma ParamTimesLength(p: Point, a: Point, b: Point)
    requires LenSq(a, b) != 0.0
    ensures Dot(p, a, b) == Param(p, a, b) * LenSq(a, b)
  {
    DivMul(Dot(p, a, b), LenSq(a, b));
  }

  lemma DivMul(x: real, y: real)
    requires y != 0.0
    ensures (x / y) * y == x
  {
  }

  // The three cases of ProjectionIsClosest, over the polynomial
  // f(t) = -2 t dot + t^2 L (the squared distance less its constant term).

  lemma ClampedBelow(dot: real, L: real, t: real)
    requires L > 0.0 && dot < 0.0 && t >= 0.0
    ensures -2.0 * t * dot + t * t * L >= 0.0
  {
    MulNonneg(t, t * L - 2.0 * dot);
    assert t * (t * L - 2.0 * dot) == -2.0 * t * dot + t * t * L;
  }

  lemma ClampedAbove(dot: real, L: real, t: real)
    requires L > 0.0 && dot > L && 0.0 <= t <= 1.0
    ensures -2.0 * t * dot + t * t * L >= -2.0 * dot + L
  {
    MulNonneg(1.0 - t, 2.0 * dot - (1.0 + t) * L);
    assert (1.0 - t) * (2.0 * dot - (1.0 + t) * L)
        == (-2.0 * t * dot + t * t * L) - (-2.0 * dot + L);
  }

  lemma Unclamped(dot: real, L: real, s: real, t: real)
    requires L > 0.0 && dot == s * L
    ensures -2.0 * t * dot + t * t * L >= -2.0 * s * dot + s * s * L
  {
    var u := if t >= s then t - s else s - t;
    MulNonneg(u, u);
    MulNonneg(L, u * u);
    assert u * u == (t - s) * (t - s);
    assert L * ((t - s) * (t - s)) == (-2.0 * t * dot + t * t * L) - (-2.0 * s * dot + s * s * L);
  }

  // The same three cases with the squared distances named: `q` is the squared
  // distance at parameter `t`, `x0` the one at the start of the segment.

  lemma BelowCase(x0: real, dot: real, L: real, t: real, q: real)
    requires L > 0.0 && dot < 0.0 && t >= 0.0
    requires q == x0 - 2.0 * t * dot + t * t * L
    ensures x0 <= q
  {
    calc {
      q;
    ==
      x0 + (-2.0 * t * dot + t * t * L);
    >= { ClampedBelow(dot, L, t); }
      x0;
    }
  }

  lemma AboveCase(x0: real, dot: real, L: real, t: real, q1: real, q: real)
    requires L > 0.0 && dot > L && 0.0 <= t <= 1.0
    requires q1 == x0 - 2.0 * dot + L
    requires q == x0 - 2.0 * t * dot + t * t * L
    ensures q1 <= q
  {
    calc {
      q1;
    ==
      x0 + (-2.0 * dot + L);
    <= { ClampedAbove(dot, L, t); }
      x0 + (-2.0 * t * dot + t * t * L);
    ==
      q;
    }
  }

  lemma InsideCase(x0: real, dot: real, L: real, s: real, t: real, qs: real, q: real)
    requires L > 0.0 && dot == s * L
    requires qs == x0 - 2.0 * s * dot + s * s * L
    requires q == x0 - 2.0 * t * dot + t * t * L
    ensures qs <= q
  {
    calc {
      qs;
    ==
      x0 + (-2.0 * s * dot + s * s * L);
    <= { Unclamped(dot, L, s, t); }
      x0 + (-2.0 * t * dot + t * t * L);
    ==
      q;
    }
  }

  /**
    The projection is the point of the segment nearest to `p`: no point
    `Lerp(a, b, t)` with `t` in [0, 1] is closer.
  */
  lemma {:induction false} ProjectionIsClosest(p: Point, a: Point, b: Point, t: real)
    requires 0.0 <= t <= 1.0
    ensures SqDist(p, ClosestPointOnSegment(p, a, b)) <= SqDist(p, Lerp(a, b, t))
  {
    var s := Param(p, a, b);
    SqDistPositive(b, a);
    if a == b {
      assert Lerp(a, b, t) == a;
    } else if s < 0.0 {
      ProjectionBelow(p, a, b, t);
    } else if s > 1.0 {
      ProjectionAbove(p, a, b, t);
    } else {
      ParamTimesLength(p, a, b);
      ProjectionInside(p, a, b, s, t);
    }
  }

  lemma ProjectionBelow(p: Point, a: Point, b: Point, t: real)
    requires 0.0 <= t <= 1.0 && LenSq(a, b) > 0.0 && Param(p, a, b) < 0.0
    ensures SqDist(p, a) <= SqDist(p, Lerp(a, b, t))
  {
    QuotientBelowZero(Dot(p, a, b), LenSq(a, b));
    BelowTail(p, a, b, t);
  }

  lemma BelowTail(p: Point, a: Point, b: Point, t: real)
    requires 0.0 <= t <= 1.0 && LenSq(a, b) > 0.0 && Dot(p, a, b) < 0.0
    ensures SqDist(p, a) <= SqDist(p, Lerp(a, b, t))
  {
    SqDistToLerp(p, a, b, t);
    BelowCase(SqDist(p, a), Dot(p, a, b), LenSq(a, b), t, SqDist(p, Lerp(a, b, t)));
  }

  lemma ProjectionAbove(p: Point, a: Point, b: Point, t: real)
    requires 0.0 <= t <= 1.0 && LenSq(a, b) > 0.0 && Param(p, a, b) > 1.0
    ensures SqDist(p, b) <= SqDist(p, Lerp(a, b, t))
  {
    QuotientAboveOne(Dot(p, a, b), LenSq(a, b));
    AboveTail(p, a, b, t);
  }

  lemma AboveTail(p: Point, a: Point, b: Point, t: real)
    requires 0.0 <= t <= 1.0 && LenSq(a, b) > 0.0 && Dot(p, a, b) > LenSq(a, b)
    ensures SqDist(p, b) <= SqDist(p, Lerp(a, b, t))
  {
    SqDistToEnd(p, a, b);
    SqDistToLerp(p, a, b, t);
    AboveCase(SqDist(p, a), Dot(p, a, b), LenSq(a, b), t, SqDist(p, b), SqDist(p, Lerp(a, b, t)));
  }

  /** SqDistToLerp at the end of the segment. */
  lemma SqDistToEnd(p: Point, a: Point, b: Point)
    ensures SqDist(p, b) == SqDist(p, a) - 2.0 * Dot(p, a, b) + LenSq(a, b)
  {
    calc {
      SqDist(p, b);
    == { assert Lerp(a, b, 1.0) == b; }
      SqDist(p, Lerp(a, b, 1.0));
    == { SqDistToLerp(p, a, b, 1.0); }
      SqDist(p, a) - 2.0 * 1.0 * Dot(p, a, b) + 1.0 * 1.0 * LenSq(a, b);
    ==
      SqDist(p, a) - 2.0 * Dot(p, a, b) + LenSq(a, b);
    }
  }

  /** Any parameter `s` with `dot == s * len_sq` is a minimum of the squared distance. */
  lemma ProjectionInside(p: Point, a: Point, b: Point, s: real, t: real)
    requires LenSq(a, b) > 0.0 && Dot(p, a, b) == s * LenSq(a, b)
    ensures SqDist(p, Lerp(a, b, s)) <= SqDist(p, Lerp(a, b, t))
  {
    SqDistToLerp(p, a, b, t);
    SqDistToLerp(p, a, b, s);
    InsideCase(SqDist(p, a), Dot(p, a, b), LenSq(a, b), s, t,
               SqDist(p, Lerp(a, b, s)), SqDist(p, Lerp(a, b, t)));
  }

  /** pointToSegmentDistance: the planar distance from `p` to its projection. */
  function PointToSegmentDistance(g: Geo, p: Point, a: Point, b: Point): real {
    g.sqrt(SqDist(p, ClosestPointOnSegment(p, a, b)))
  }

  /** Math.sqrt does not decrease: the one property of it the lemmas below rely on. */
  ghost predicate MonotoneSqrt(g: Geo) {
    forall x: real, y: real :: 0.0 <= x <= y ==> g.sqrt(x) <= g.sqrt(y)
  }

  /** calculateDistance never returns a negative distance. */
  ghost predicate NonnegativeDistance(g: Geo) {
    forall p: Point, q: Point :: g.distance(p, q) >= 0.0
  }

  /**
    pointToSegmentDistance is the distance from `p` to the segment: it is
    the distance to one point of the segment, and no larger than the
    distance to any point of the segment.
  */
  lemma PointToSegmentDistanceIsMinimal(g: Geo, p: Point, a: Point, b: Point, t: real)
    requires MonotoneSqrt(g) && 0.0 <= t <= 1.0
    ensures exists s :: 0.0 <= s <= 1.0 && PointToSegmentDistance(g, p, a, b) == g.sqrt(SqDist(p, Lerp(a, b, s)))
    ensures PointToSegmentDistance(g, p, a, b) <= g.sqrt(SqDist(p, Lerp(a, b, t)))
  {
    ProjectionOnSegment(p, a, b);
    ProjectionIsClosest(p, a, b, t);
    SqDistPositive(p, ClosestPointOnSegment(p, a, b));
  }
}
