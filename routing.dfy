/**
  Route choice when navigation starts (nav.js:302-340): the routes whose key
  ends in `-<destination>` are the candidates, the one whose first waypoint
  is nearest to the user wins (the first one on ties), and it is used only
  when that start is under 50 m away; otherwise the path is a straight line
  from the user to the destination.
*/
module Routing {
  import opened Wrappers
  import opened Geodesy
  import opened Argmin
  import opened Campus

  /** The largest distance, in metres, from the user to a route's start for the route to be used. */
  const Threshold: real := 50.0

  predicate EndsWith(s: string, suffix: string) {
    |suffix| <= |s| && s[|s| - |suffix|..] == suffix
  }

  lemma LastCharDiffers(s: string, suffix: string)
    requires |s| > 0 && |suffix| > 0 && s[|s| - 1] != suffix[|suffix| - 1]
    ensures !EndsWith(s, suffix)
  {
    if |suffix| <= |s| {
      assert s[|s| - |suffix|..][|suffix| - 1] == s[|s| - 1];
    }
  }

  /** `key.endsWith('-' + destinationId)`. */
  predicate LeadsTo(r: Route, dest: string) {
    EndsWith(r.key, "-" + dest)
  }

  /** `Object.keys(paths).filter(...)`: the routes leading to `dest`, in table order. */
  function Candidates(routes: seq<Route>, dest: string): (cs: seq<Route>)
    ensures forall c :: c in cs <==> c in routes && LeadsTo(c, dest)
    ensures |cs| <= |routes|
  {
    if |routes| == 0 then []
    else (if LeadsTo(routes[0], dest) then [routes[0]] else []) + Candidates(routes[1..], dest)
  }

  /**
    `filter` keeps table order: the candidates of two tables one after the
    other are those of the first table followed by those of the second.
  */
  lemma {:induction false} CandidatesConcat(a: seq<Route>, b: seq<Route>, dest: string)
    ensures Candidates(a + b, dest) == Candidates(a, dest) + Candidates(b, dest)
  {
    if |a| > 0 {
      assert (a + b)[1..] == a[1..] + b;
      CandidatesConcat(a[1..], b, dest);
    } else {
      assert a + b == b;
    }
  }

  /** The distance from the user to the first waypoint of each candidate. */
  function StartDistances(g: Geo, user: Point, cs: seq<Route>): (ds: seq<real>)
    requires RoutesWellFormed(cs)
    ensures |ds| == |cs|
  {
    seq(|cs|, i requires 0 <= i < |cs| => g.distance(user, cs[i].points[0]))
  }

  /** findClosestPath: the key of the nearest candidate start, if it is under the threshold. */
  function ClosestPath(g: Geo, routes: seq<Route>, user: Point, dest: string): Option<string>
    requires RoutesWellFormed(routes)
  {
    var cs := Candidates(routes, dest);
    if |cs| == 0 then None
    else
      CandidatesWellFormed(routes, dest);
      var ds := StartDistances(g, user, cs);
      var k := FirstMin(ds);
      if ds[k] < Threshold then Some(cs[k].key) else None
  }

  lemma CandidatesWellFormed(routes: seq<Route>, dest: string)
    requires RoutesWellFormed(routes)
    ensures RoutesWellFormed(Candidates(routes, dest))
  {
    var cs := Candidates(routes, dest);
    forall i | 0 <= i < |cs| ensures |cs[i].points| >= 2 {
      assert cs[i] in cs;
    }
  }

  /**
    findClosestPath returns null exactly when no candidate start is under
    50 m (in particular when there is no candidate); otherwise it returns
    the key of a candidate whose start is under 50 m, nearer than every
    candidate before it and no farther than any after it.
  */
  lemma ClosestPathSpec(g: Geo, routes: seq<Route>, user: Point, dest: string)
    requires RoutesWellFormed(routes)
    ensures var cs := Candidates(routes, dest);
      RoutesWellFormed(cs) &&
      var ds := StartDistances(g, user, cs);
      && (ClosestPath(g, routes, user, dest).None? <==>
            forall i :: 0 <= i < |cs| ==> ds[i] >= Threshold)
      && (ClosestPath(g, routes, user, dest).Some? ==>
            exists k :: IsFirstMin(ds, k) && ds[k] < Threshold
              && cs[k].key == ClosestPath(g, routes, user, dest).value
              && LeadsTo(cs[k], dest))
  {
    var cs := Candidates(routes, dest);
    CandidatesWellFormed(routes, dest);
    if |cs| > 0 {
      var ds := StartDistances(g, user, cs);
      var k := FirstMin(ds);
      assert cs[k] in cs;
    }
  }

  /**
    The loop of findClosestPath: filter, return null when nothing is left,
    scan for the first strictly nearest start, then apply the threshold.
  */
  method FindClosestPath(g: Geo, routes: seq<Route>, user: Point, dest: string)
    returns (closest: Option<string>)
    requires RoutesWellFormed(routes)
    ensures closest == ClosestPath(g, routes, user, dest)
  {
    var possible := Candidates(routes, dest);
    if |possible| == 0 {
      return None;
    }
    CandidatesWellFormed(routes, dest);
    ghost var ds := StartDistances(g, user, possible);
    var closestPath: Option<string> := None;
    var minDistance: Option<real> := None;
    var k := 0;
    for i := 0 to |possible|
      invariant i == 0 ==> minDistance.None? && closestPath.None?
      invariant i > 0 ==>
        k == FirstMin(ds[..i]) && minDistance == Some(ds[k]) && closestPath == Some(possible[k].key)
    {
      var distance := g.distance(user, possible[i].points[0]);
      assert distance == ds[i];
      if i > 0 {
        FirstMinExtend(ds, i);
      }
      if minDistance.None? || distance < minDistance.value {
        minDistance := Some(distance);
        closestPath := Some(possible[i].key);
        k := i;
      }
    }
    assert ds[..|possible|] == ds;
    closest := if minDistance.value < Threshold then closestPath else None;
  }

  /** The key findClosestPath returns is the key of a route in the table that leads to `dest`. */
  lemma ClosestPathInRoutes(g: Geo, routes: seq<Route>, user: Point, dest: string)
    requires RoutesWellFormed(routes) && ClosestPath(g, routes, user, dest).Some?
    ensures exists i :: 0 <= i < |routes| && routes[i].key == ClosestPath(g, routes, user, dest).value
                        && LeadsTo(routes[i], dest)
  {
    ClosestPathSpec(g, routes, user, dest);
    var cs := Candidates(routes, dest);
    var k :| IsFirstMin(StartDistances(g, user, cs), k) && cs[k].key == ClosestPath(g, routes, user, dest).value
             && LeadsTo(cs[k], dest);
    assert cs[k] in routes;
  }

  /** `paths[pathKey]`: the waypoints stored under `key`. */
  function Lookup(routes: seq<Route>, key: string): (points: seq<Point>)
    requires exists i :: 0 <= i < |routes| && routes[i].key == key
    ensures exists i :: 0 <= i < |routes| && routes[i].key == key && routes[i].points == points
  {
    if routes[0].key == key then routes[0].points
    else
      var points := Lookup(routes[1..], key);
      var i :| 0 <= i < |routes[1..]| && routes[1..][i].key == key && routes[1..][i].points == points;
      assert routes[i + 1] == routes[1..][i];
      points
  }

  /** createStraightPath: the user's position, then the destination's. */
  function CreateStraightPath(user: Point, dest: Location): seq<Point> {
    [user, Position(dest)]
  }

  /** setupPath's choice: the stored route for the key findClosestPath returns, else the straight line. */
  function ChoosePath(g: Geo, routes: seq<Route>, user: Point, dest: string): seq<Point>
    requires RoutesWellFormed(routes) && dest in Locations
  {
    var key := ClosestPath(g, routes, user, dest);
    if key.Some? then
      ClosestPathInRoutes(g, routes, user, dest);
      Lookup(routes, key.value)
    else
      CreateStraightPath(user, Locations[dest])
  }

  /**
    The path setupPath draws is either a stored route leading to the
    destination, or exactly `[user, destination]` when findClosestPath
    returned null; either way it has at least two points.
  */
  lemma ChoosePathSpec(g: Geo, routes: seq<Route>, user: Point, dest: string)
    requires RoutesWellFormed(routes) && dest in Locations
    ensures ClosestPath(g, routes, user, dest).None? ==>
      ChoosePath(g, routes, user, dest) == [user, Position(Locations[dest])]
    ensures ClosestPath(g, routes, user, dest).Some? ==>
      exists i :: 0 <= i < |routes| && LeadsTo(routes[i], dest)
        && routes[i].key == ClosestPath(g, routes, user, dest).value
        && ChoosePath(g, routes, user, dest) == routes[i].points
    ensures |ChoosePath(g, routes, user, dest)| >= 2
  {
    var key := ClosestPath(g, routes, user, dest);
    if key.Some? {
      ClosestPathInRoutes(g, routes, user, dest);
      var points := Lookup(routes, key.value);
      var i :| 0 <= i < |routes| && routes[i].key == key.value && routes[i].points == points;
      assert LeadsTo(routes[i], dest);
    }
  }

  /** Route keys are one-way: no route of nav.js leads to the main gate, so the path there is straight. */
  lemma NoRouteToMainGate(g: Geo, user: Point)
    ensures ChoosePath(g, Routes, user, "main_gate") == [user, Position(Locations["main_gate"])]
  {
    TablesWellFormed();
    LastCharDiffers(Routes[0].key, "-main_gate");
    LastCharDiffers(Routes[1].key, "-main_gate");
    assert Candidates(Routes[1..][1..], "main_gate") == [];
    assert Candidates(Routes, "main_gate") == [];
  }

  /**
    A user standing on the main gate who asks for the library gets the
    stored 18-waypoint route, given only that the distance from a point to
    itself is under 50 m.
  */
  lemma MainGateToLibrary(g: Geo)
    requires g.distance(Routes[0].points[0], Routes[0].points[0]) < Threshold
    ensures ChoosePath(g, Routes, Routes[0].points[0], "library") == Routes[0].points
  {
    TablesWellFormed();
    assert LeadsTo(Routes[0], "library");
    LastCharDiffers(Routes[1].key, "-library");
    assert Candidates(Routes[1..][1..], "library") == [];
    assert Candidates(Routes, "library") == [Routes[0]];
  }
}
