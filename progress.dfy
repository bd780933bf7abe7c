/**
  Where the user is along the current path (nav.js:481-570, 635-655): the
  nearest segment, the distance still to walk, the fraction of segments
  behind, and the waypoint to head for next. Every scan keeps the first
  index of the least distance.
*/
module Progress {
  import opened Wrappers
  import opened Geodesy
  import opened Argmin

  /** The distance from `p` to each segment `path[i]`-`path[i + 1]`, in path order. */
  function SegmentDistances(g: Geo, p: Point, path: seq<Point>): (ds: seq<real>)
    requires |path| >= 2
    ensures |ds| == |path| - 1
  {
    seq(|path| - 1, i requires 0 <= i < |path| - 1 => PointToSegmentDistance(g, p, path[i], path[i + 1]))
  }

  /** The segment index both calculatePathDistance and calculatePathProgress keep. */
  function ClosestSegment(g: Geo, p: Point, path: seq<Point>): (k: nat)
    requires |path| >= 2
    ensures k <= |path| - 2
  {
    FirstMin(SegmentDistances(g, p, path))
  }

  /**
    The kept segment is exactly the first of the nearest segments: an index
    `k` is it if and only if `k` is in `[0, len - 2]`, no segment is nearer
    and every earlier segment is strictly farther.
  */
  lemma ClosestSegmentSpec(g: Geo, p: Point, path: seq<Point>, k: int)
    requires |path| >= 2
    ensures k == ClosestSegment(g, p, path) <==> IsFirstMin(SegmentDistances(g, p, path), k)
  {
    if IsFirstMin(SegmentDistances(g, p, path), k) {
      FirstMinUnique(SegmentDistances(g, p, path), k);
    }
  }

  /** The summed lengths of the segments `lo` .. `hi - 1`, added in path order. */
  function Length(g: Geo, path: seq<Point>, lo: nat, hi: nat): real
    requires lo <= hi < |path|
    decreases hi - lo
  {
    if hi == lo then 0.0 else Length(g, path, lo, hi - 1) + g.distance(path[hi - 1], path[hi])
  }

  /** Walking `lo` .. `m` and then `m` .. `hi` covers `lo` .. `hi`. */
  lemma {:induction false} LengthSplit(g: Geo, path: seq<Point>, lo: nat, m: nat, hi: nat)
    requires lo <= m <= hi < |path|
    ensures Length(g, path, lo, hi) == Length(g, path, lo, m) + Length(g, path, m, hi)
    decreases hi - m
  {
    if hi > m {
      LengthSplit(g, path, lo, m, hi - 1);
    }
  }

  /** With non-negative distances a stretch of path has non-negative length. */
  lemma {:induction false} LengthNonnegative(g: Geo, path: seq<Point>, lo: nat, hi: nat)
    requires NonnegativeDistance(g) && lo <= hi < |path|
    ensures Length(g, path, lo, hi) >= 0.0
    decreases hi - lo
  {
    if hi > lo {
      LengthNonnegative(g, path, lo, hi - 1);
      assert g.distance(path[hi - 1], path[hi]) >= 0.0;
    }
  }

  /**
    calculatePathDistance: the distance from the user to the projection on
    the nearest segment, plus the lengths of the segments after it.
  */
  function RemainingDistance(g: Geo, p: Point, path: seq<Point>): real
    requires |path| >= 2
  {
    RemainingFrom(g, p, path, ClosestSegment(g, p, path))
  }

  /** The distance along the path once the user is nearest to segment `k`. */
  function RemainingFrom(g: Geo, p: Point, path: seq<Point>, k: nat): real
    requires k <= |path| - 2
  {
    g.distance(p, ClosestPointOnSegment(p, path[k], path[k + 1])) + Length(g, path, k + 1, |path| - 1)
  }

  /** When the last segment is the nearest, nothing is added after the projection. */
  lemma RemainingOnLastSegment(g: Geo, p: Point, path: seq<Point>)
    requires |path| >= 2 && ClosestSegment(g, p, path) == |path| - 2
    ensures RemainingDistance(g, p, path) == g.distance(p, ClosestPointOnSegment(p, path[|path| - 2], path[|path| - 1]))
  {
  }

  /**
    Standing on the last waypoint, with the last segment as the first
    nearest one, only the distance from the waypoint to itself remains.
  */
  lemma RemainingAtLastWaypoint(g: Geo, path: seq<Point>)
    requires |path| >= 2 && ClosestSegment(g, path[|path| - 1], path) == |path| - 2
    ensures RemainingDistance(g, path[|path| - 1], path) == g.distance(path[|path| - 1], path[|path| - 1])
  {
    RemainingOnLastSegment(g, path[|path| - 1], path);
  }

  /**
    On a path that comes back to its start, `[a, b, a]`, a user standing on
    the final waypoint is as near to the first segment as to the last, the
    scan keeps the first, and the whole return leg `b`-`a` still counts as
    remaining.
  */
  lemma ReturningPathAtEnd(g: Geo, a: Point, b: Point)
    ensures ClosestSegment(g, a, [a, b, a]) == 0
    ensures RemainingDistance(g, a, [a, b, a]) == g.distance(a, a) + g.distance(b, a)
  {
    var path := [a, b, a];
    var ds := SegmentDistances(g, a, path);
    assert ClosestPointOnSegment(a, a, b) == a;
    assert ClosestPointOnSegment(a, b, a) == a;
    assert ds[0] == ds[1];
    assert IsFirstMin(ds, 0);
    ClosestSegmentSpec(g, a, path, 0);
    assert Length(g, path, 1, 2) == g.distance(b, a);
  }

  /** With non-negative distances the remaining distance is not negative. */
  lemma RemainingNonnegative(g: Geo, p: Point, path: seq<Point>)
    requires |path| >= 2 && NonnegativeDistance(g)
    ensures RemainingDistance(g, p, path) >= 0.0
  {
    var k := ClosestSegment(g, p, path);
    LengthNonnegative(g, path, k + 1, |path| - 1);
    assert g.distance(p, ClosestPointOnSegment(p, path[k], path[k + 1])) >= 0.0;
  }

  /**
    The further along the path the nearest segment is, the less path is
    left after it: the tail summed from a later segment is a part of the
    tail summed from an earlier one.
  */
  lemma TailShrinks(g: Geo, path: seq<Point>, k1: nat, k2: nat)
    requires NonnegativeDistance(g) && k1 <= k2 <= |path| - 2
    ensures Length(g, path, k2 + 1, |path| - 1) <= Length(g, path, k1 + 1, |path| - 1)
  {
    LengthSplit(g, path, k1 + 1, k2 + 1, |path| - 1);
    LengthNonnegative(g, path, k1 + 1, k2 + 1);
  }

  /** The remaining distance never exceeds the distance to the path plus the whole path length. */
  lemma RemainingAtMostWholePath(g: Geo, p: Point, path: seq<Point>)
    requires |path| >= 2 && NonnegativeDistance(g)
    ensures var k := ClosestSegment(g, p, path);
      RemainingDistance(g, p, path)
        <= g.distance(p, ClosestPointOnSegment(p, path[k], path[k + 1])) + Length(g, path, 0, |path| - 1)
  {
    var k := ClosestSegment(g, p, path);
    LengthSplit(g, path, 0, k + 1, |path| - 1);
    LengthNonnegative(g, path, 0, k + 1);
  }

  /** The loops of calculatePathDistance: find the nearest segment, then add up what is left. */
  method CalculatePathDistance(g: Geo, user: Point, path: seq<Point>) returns (remaining: real)
    requires |path| >= 2
    ensures remaining == RemainingDistance(g, user, path)
  {
    ghost var ds := SegmentDistances(g, user, path);
    var minDistance: Option<real> := None;
    var closestSegmentIndex := 0;
    for i := 0 to |path| - 1
      invariant i == 0 ==> minDistance.None? && closestSegmentIndex == 0
      invariant i > 0 ==> closestSegmentIndex == FirstMin(ds[..i]) && minDistance == Some(ds[closestSegmentIndex])
    {
      var distance := PointToSegmentDistance(g, user, path[i], path[i + 1]);
      if i > 0 {
        FirstMinExtend(ds, i);
      }
      if minDistance.None? || distance < minDistance.value {
        minDistance := Some(distance);
        closestSegmentIndex := i;
      }
    }
    assert ds[..|path| - 1] == ds;
    assert closestSegmentIndex == ClosestSegment(g, user, path);
    var closestPoint := ClosestPointOnSegment(user, path[closestSegmentIndex], path[closestSegmentIndex + 1]);
    remaining := 0.0;
    remaining := remaining + g.distance(user, closestPoint);
    ghost var head := remaining;
    for i := closestSegmentIndex + 1 to |path| - 1
      invariant remaining == head + Length(g, path, closestSegmentIndex + 1, i)
    {
      remaining := remaining + g.distance(path[i], path[i + 1]);
    }
    assert remaining == RemainingFrom(g, user, path, closestSegmentIndex);
  }

  /** `closestSegment / (len - 1)`, or 0 without a position or without a segment. */
  function Progress(g: Geo, user: Option<Point>, path: seq<Point>): (r: real)
    ensures 0.0 <= r < 1.0
    ensures user.None? || |path| < 2 ==> r == 0.0
  {
    if user.None? || |path| < 2 then 0.0
    else
      FractionBelowOne(ClosestSegment(g, user.value, path), |path| - 1);
      (ClosestSegment(g, user.value, path) as real) / ((|path| - 1) as real)
  }

  lemma FractionBelowOne(k: nat, n: nat)
    requires k < n
    ensures 0.0 <= (k as real) / (n as real) < 1.0
  {
    DivMul(k as real, n as real);
    if (k as real) / (n as real) >= 1.0 {
      MulNonneg((k as real) / (n as real) - 1.0, n as real);
      assert false;
    }
  }

  /**
    calculatePathProgress and calculatePathDistance measure from the same
    segment: whichever segment `k` is the first of the nearest ones,
    progress is `k / (len - 1)` and the remaining distance is measured
    from `k`.
  */
  lemma SameSegment(g: Geo, user: Point, path: seq<Point>, k: nat)
    requires |path| >= 2 && IsFirstMin(SegmentDistances(g, user, path), k)
    ensures k <= |path| - 2
    ensures Progress(g, Some(user), path) == (k as real) / ((|path| - 1) as real)
    ensures RemainingDistance(g, user, path) == RemainingFrom(g, user, path, k)
  {
    ClosestSegmentSpec(g, user, path, k);
  }

  /** The loop of calculatePathProgress. */
  method CalculatePathProgress(g: Geo, user: Option<Point>, path: seq<Point>) returns (progress: real)
    ensures progress == Progress(g, user, path)
  {
    if user.None? || |path| < 2 {
      return 0.0;
    }
    ghost var ds := SegmentDistances(g, user.value, path);
    var closestSegment := 0;
    var minDistance: Option<real> := None;
    for i := 0 to |path| - 1
      invariant i == 0 ==> minDistance.None? && closestSegment == 0
      invariant i > 0 ==> closestSegment == FirstMin(ds[..i]) && minDistance == Some(ds[closestSegment])
    {
      var dist := PointToSegmentDistance(g, user.value, path[i], path[i + 1]);
      if i > 0 {
        FirstMinExtend(ds, i);
      }
      if minDistance.None? || dist < minDistance.value {
        minDistance := Some(dist);
        closestSegment := i;
      }
    }
    assert ds[..|path| - 1] == ds;
    progress := (closestSegment as real) / ((|path| - 1) as real);
  }

  /** The distance from `p` to every waypoint, in path order. */
  function WaypointDistances(g: Geo, p: Point, path: seq<Point>): (ds: seq<real>)
    ensures |ds| == |path|
  {
    seq(|path|, i requires 0 <= i < |path| => g.distance(p, path[i]))
  }

  /** getNextWaypoint's index: one past the first nearest waypoint, clamped to the last. */
  function NextWaypointIndex(g: Geo, p: Point, path: seq<Point>): (n: nat)
    requires |path| >= 1
    ensures 1 <= n + 1 <= |path|
  {
    var closest := FirstMin(WaypointDistances(g, p, path));
    if closest + 1 < |path| - 1 then closest + 1 else |path| - 1
  }

  function NextWaypoint(g: Geo, p: Point, path: seq<Point>): Point
    requires |path| >= 1
  {
    path[NextWaypointIndex(g, p, path)]
  }

  /**
    The waypoint returned is the one after the first nearest waypoint `k`,
    `path[min(k + 1, len - 1)]`; a one-point path returns its only point.
  */
  lemma NextWaypointSpec(g: Geo, p: Point, path: seq<Point>, k: int)
    requires |path| >= 1
    requires 0 <= k < |path|
    requires forall j :: 0 <= j < |path| ==> g.distance(p, path[k]) <= g.distance(p, path[j])
    requires forall j :: 0 <= j < k ==> g.distance(p, path[k]) < g.distance(p, path[j])
    ensures NextWaypointIndex(g, p, path) == if k + 1 < |path| - 1 then k + 1 else |path| - 1
    ensures k < |path| - 1 ==> NextWaypoint(g, p, path) == path[k + 1]
  {
    var ds := WaypointDistances(g, p, path);
    assert IsFirstMin(ds, k);
    FirstMinUnique(ds, k);
  }

  /** Near the end, at the last or the second-to-last waypoint, the next waypoint is the final one. */
  lemma NextWaypointAtEnd(g: Geo, p: Point, path: seq<Point>)
    requires |path| >= 1 && FirstMin(WaypointDistances(g, p, path)) >= |path| - 2
    ensures NextWaypoint(g, p, path) == path[|path| - 1]
  {
  }

  /** The loop of getNextWaypoint. */
  method GetNextWaypoint(g: Geo, user: Point, path: seq<Point>) returns (waypoint: Point)
    requires |path| >= 1
    ensures waypoint == NextWaypoint(g, user, path)
  {
    ghost var ds := WaypointDistances(g, user, path);
    var closestIndex := 0;
    var minDistance: Option<real> := None;
    for i := 0 to |path|
      invariant i == 0 ==> minDistance.None? && closestIndex == 0
      invariant i > 0 ==> closestIndex == FirstMin(ds[..i]) && minDistance == Some(ds[closestIndex])
    {
      var distance := g.distance(user, path[i]);
      if i > 0 {
        FirstMinExtend(ds, i);
      }
      if minDistance.None? || distance < minDistance.value {
        minDistance := Some(distance);
        closestIndex := i;
      }
    }
    assert ds[..|path|] == ds;
    var nextIndex := if closestIndex + 1 < |path| - 1 then closestIndex + 1 else |path| - 1;
    waypoint := path[nextIndex];
  }
}
