/**
  getPathCoordinates of paths.js (paths.js:40-59) over that file's own
  `paths` table (paths.js:2-38). Each key `'<from>-<to>'` is split at its
  dashes and both ids are looked up in the page's `locations` table, which
  is a parameter here; a missing id makes the lookup throw. The first key,
  in table order, whose endpoints equal the requested start and end
  exactly, in either order, gives its waypoints as authored; without one
  the result is the straight line from start to end.
*/
module PathTable {
  import opened Wrappers
  import opened Geodesy
  import Campus

  /** The `paths` table of paths.js, in the order the object literal lists it. */
  const Paths: seq<Campus.Route> := [
    Campus.Route("main_gate-library", [
      Point(33.536187, -5.102405),
      Point(33.536500, -5.103000),
      Point(33.537000, -5.104000),
      Point(33.538000, -5.105500),
      Point(33.539955, -5.107425)
    ]),
    Campus.Route("main_gate-aud_17", [
      Point(33.536187, -5.102405),
      Point(33.536800, -5.103500),
      Point(33.537200, -5.105000),
      Point(33.537669, -5.106613)
    ]),
    Campus.Route("library-B_56", [
      Point(33.539955, -5.107425),
      Point(33.540500, -5.107300),
      Point(33.541500, -5.107100),
      Point(33.542620, -5.106947)
    ]),
    Campus.Route("aud_17-B_21", [
      Point(33.537669, -5.106613),
      Point(33.538500, -5.106700),
      Point(33.539500, -5.106800),
      Point(33.540701, -5.106833)
    ]),
    Campus.Route("B_21-B_56", [
      Point(33.540701, -5.106833),
      Point(33.541500, -5.106900),
      Point(33.542620, -5.106947)
    ])
  ]

  /** A call that either returns a value or throws a TypeError. */
  datatype Completion<T> = Returns(value: T) | Throws

  /** The text of `s` before its first '-', or all of `s` when it has none. */
  function BeforeDash(s: string): (r: string)
    ensures |r| <= |s| && r == s[..|r|] && '-' !in r
    ensures |r| < |s| ==> s[|r|] == '-'
  {
    if |s| == 0 || s[0] == '-' then []
    else [s[0]] + BeforeDash(s[1..])
  }

  /** `key.split('-')[0]`. */
  function FromId(key: string): string {
    BeforeDash(key)
  }

  /** `key.split('-')[1]`, which is `undefined`, read as the property name "undefined", when there is no dash. */
  function ToId(key: string): string {
    var from := BeforeDash(key);
    if |from| == |key| then "undefined" else BeforeDash(key[|from| + 1..])
  }

  /** Both ids of `key` name entries of `locs`, so the callback of `find` can read their coordinates. */
  predicate KeyResolves(locs: map<string, Point>, key: string) {
    FromId(key) in locs && ToId(key) in locs
  }

  /** The callback of `find`: the route's endpoints are (start, end) or (end, start), compared exactly. */
  predicate Matches(locs: map<string, Point>, key: string, start: Point, end: Point)
    requires KeyResolves(locs, key)
  {
    var from := locs[FromId(key)];
    var to := locs[ToId(key)];
    (from == start && to == end) || (to == start && from == end)
  }

  /** `Object.keys(paths).find(...)`: the first matching entry, or a throw at the first key that does not resolve. */
  function FindEntry(locs: map<string, Point>, table: seq<Campus.Route>, start: Point, end: Point)
    : Completion<Option<Campus.Route>>
  {
    if |table| == 0 then Returns(None)
    else if !KeyResolves(locs, table[0].key) then Throws
    else if Matches(locs, table[0].key, start, end) then Returns(Some(table[0]))
    else FindEntry(locs, table[1..], start, end)
  }

  /** getPathCoordinates. */
  function GetPathCoordinates(locs: map<string, Point>, start: Point, end: Point): (r: Completion<seq<Point>>)
  {
    match FindEntry(locs, Paths, start, end)
    case Throws => Throws
    case Returns(found) => if found.Some? then Returns(found.value.points) else Returns([start, end])
  }

  /** Every entry of a table resolves. */
  predicate KeysResolve(locs: map<string, Point>, table: seq<Campus.Route>) {
    forall i :: 0 <= i < |table| ==> KeyResolves(locs, table[i].key)
  }

  /**
    The match rule: when every key resolves, `find` returns the first entry
    whose endpoints match in either order, and nothing exactly when no
    entry matches; there is no distance tolerance.
  */
  lemma {:induction false} FindEntrySpec(locs: map<string, Point>, table: seq<Campus.Route>, start: Point, end: Point)
    requires KeysResolve(locs, table)
    ensures FindEntry(locs, table, start, end).Returns?
    ensures FindEntry(locs, table, start, end) == Returns(None)
        <==> forall i :: 0 <= i < |table| ==> !Matches(locs, table[i].key, start, end)
    ensures FindEntry(locs, table, start, end).Returns? && FindEntry(locs, table, start, end).value.Some? ==>
      exists i :: 0 <= i < |table| && FindEntry(locs, table, start, end).value.value == table[i]
        && Matches(locs, table[i].key, start, end)
        && forall j :: 0 <= j < i ==> !Matches(locs, table[j].key, start, end)
  {
    if |table| > 0 && !Matches(locs, table[0].key, start, end) {
      var rest := table[1..];
      assert KeysResolve(locs, rest) by {
        forall i | 0 <= i < |rest| ensures KeyResolves(locs, rest[i].key) {
          assert rest[i] == table[i + 1];
        }
      }
      FindEntrySpec(locs, rest, start, end);
      var r := FindEntry(locs, rest, start, end);
      if r.value.Some? {
        var i :| 0 <= i < |rest| && r.value.value == rest[i] && Matches(locs, rest[i].key, start, end)
          && forall j :: 0 <= j < i ==> !Matches(locs, rest[j].key, start, end);
        assert table[i + 1] == rest[i];
        forall j | 0 <= j < i + 1 ensures !Matches(locs, table[j].key, start, end) {
          if j > 0 {
            assert table[j] == rest[j - 1];
          }
        }
      } else {
        forall i | 0 <= i < |table| ensures !Matches(locs, table[i].key, start, end) {
          if i > 0 {
            assert table[i] == rest[i - 1];
          }
        }
      }
    }
  }

  /**
    When every key resolves, getPathCoordinates returns, always at least two
    points: the waypoints of a matching entry, or exactly `[start, end]` when
    no entry matches.
  */
  lemma GetPathCoordinatesSpec(locs: map<string, Point>, start: Point, end: Point)
    requires KeysResolve(locs, Paths)
    ensures GetPathCoordinates(locs, start, end).Returns?
    ensures |GetPathCoordinates(locs, start, end).value| >= 2
    ensures (forall i :: 0 <= i < |Paths| ==> !Matches(locs, Paths[i].key, start, end))
        ==> GetPathCoordinates(locs, start, end).value == [start, end]
    ensures (exists i :: 0 <= i < |Paths| && Matches(locs, Paths[i].key, start, end))
        ==> exists i :: 0 <= i < |Paths| && Matches(locs, Paths[i].key, start, end)
              && GetPathCoordinates(locs, start, end).value == Paths[i].points
  {
    FindEntrySpec(locs, Paths, start, end);
    var r := FindEntry(locs, Paths, start, end);
    if r.value.Some? {
      var i :| 0 <= i < |Paths| && r.value.value == Paths[i] && Matches(locs, Paths[i].key, start, end);
      RoutesHaveTwoPoints();
    }
  }

  /** Every route of the table has at least two waypoints. */
  lemma RoutesHaveTwoPoints()
    ensures forall i :: 0 <= i < |Paths| ==> |Paths[i].points| >= 2
  {
  }

  /** The text before the first dash is exactly the prefix up to that dash. */
  lemma BeforeFirstDash(s: string, i: nat)
    requires i < |s| && s[i] == '-' && '-' !in s[..i]
    ensures BeforeDash(s) == s[..i]
  {
    var r := BeforeDash(s);
    assert forall j :: 0 <= j < i ==> s[..i][j] == s[j];
    assert forall j :: 0 <= j < |r| ==> r[j] == s[j];
  }

  /** A string without a dash is its own text before the first dash. */
  lemma NoDash(s: string)
    requires '-' !in s
    ensures BeforeDash(s) == s
  {
    var r := BeforeDash(s);
    assert forall j :: 0 <= j < |s| ==> s[j] in s;
  }

  /** `'<from>-<to>'.split('-')` gives `from` and `to` when neither contains a dash. */
  lemma SplitKey(key: string, from: string, to: string)
    requires key == from + "-" + to && '-' !in from && '-' !in to
    ensures FromId(key) == from && ToId(key) == to
  {
    assert key[..|from|] == from;
    BeforeFirstDash(key, |from|);
    assert key[|from| + 1..] == to;
    NoDash(to);
  }

  /** The keys of the table split as their names say. */
  lemma KeyIds()
    ensures FromId(Paths[0].key) == "main_gate" && ToId(Paths[0].key) == "library"
    ensures FromId(Paths[1].key) == "main_gate" && ToId(Paths[1].key) == "aud_17"
    ensures FromId(Paths[2].key) == "library" && ToId(Paths[2].key) == "B_56"
    ensures FromId(Paths[3].key) == "aud_17" && ToId(Paths[3].key) == "B_21"
    ensures FromId(Paths[4].key) == "B_21" && ToId(Paths[4].key) == "B_56"
  {
    KeyIds0();
    KeyIds1();
    KeyIds2();
    KeyIds3();
    KeyIds4();
  }

  lemma KeyIds0()
    ensures FromId(Paths[0].key) == "main_gate" && ToId(Paths[0].key) == "library"
  {
    SplitKey(Paths[0].key, "main_gate", "library");
  }

  lemma KeyIds1()
    ensures FromId(Paths[1].key) == "main_gate" && ToId(Paths[1].key) == "aud_17"
  {
    SplitKey(Paths[1].key, "main_gate", "aud_17");
  }

  lemma KeyIds2()
    ensures FromId(Paths[2].key) == "library" && ToId(Paths[2].key) == "B_56"
  {
    SplitKey(Paths[2].key, "library", "B_56");
  }

  lemma KeyIds3()
    ensures FromId(Paths[3].key) == "aud_17" && ToId(Paths[3].key) == "B_21"
  {
    SplitKey(Paths[3].key, "aud_17", "B_21");
  }

  lemma KeyIds4()
    ensures FromId(Paths[4].key) == "B_21" && ToId(Paths[4].key) == "B_56"
  {
    SplitKey(Paths[4].key, "B_21", "B_56");
  }

  /** The campus locations of nav.js, by id, as points. */
  function CampusPositions(): (m: map<string, Point>)
    ensures m.Keys == Campus.Locations.Keys
  {
    map id | id in Campus.Locations :: Campus.Position(Campus.Locations[id])
  }

  /** With the campus locations every key of the table resolves, so getPathCoordinates never throws. */
  lemma CampusLocationsResolve(start: Point, end: Point)
    ensures KeysResolve(CampusPositions(), Paths)
    ensures GetPathCoordinates(CampusPositions(), start, end).Returns?
  {
    CampusKeysResolve();
    GetPathCoordinatesSpec(CampusPositions(), start, end);
  }

  lemma CampusKeysResolve()
    ensures KeysResolve(CampusPositions(), Paths)
  {
    KeyIds();
    var locs := CampusPositions();
    assert locs.Keys == {"main_gate", "library", "aud_17", "B_56", "B_21"};
    forall i | 0 <= i < |Paths| ensures KeyResolves(locs, Paths[i].key) {
      assert i == 0 || i == 1 || i == 2 || i == 3 || i == 4;
    }
  }

  /**
    A reverse match returns the stored route as authored: asking for the
    path from the library to the main gate gives the main gate-to-library
    waypoints, still starting at the main gate.
  */
  lemma ReverseMatchAsAuthored()
    ensures GetPathCoordinates(CampusPositions(),
                               CampusPositions()["library"], CampusPositions()["main_gate"])
         == Returns(Paths[0].points)
    ensures Paths[0].points[0] == CampusPositions()["main_gate"]
  {
    KeyIds0();
    var locs := CampusPositions();
    CampusPositionAt("library");
    CampusPositionAt("main_gate");
    FirstRouteEnds();
    assert Matches(locs, Paths[0].key, locs["library"], locs["main_gate"]);
  }

  /** Each campus id is at the position of its location. */
  lemma CampusPositionAt(id: string)
    requires id in Campus.Locations
    ensures id in CampusPositions() && CampusPositions()[id] == Campus.Position(Campus.Locations[id])
  {
  }

  /** The waypoints of the first route run from the main gate to the library. */
  lemma FirstRouteEnds()
    ensures Paths[0].points[0] == Campus.Position(Campus.Locations["main_gate"])
    ensures Paths[0].points[4] == Campus.Position(Campus.Locations["library"])
  {
  }

  /** The `locations` table of map.js, the page that calls getPathCoordinates (map.js:9-12). */
  const MapPageLocations: map<string, Point> := map[
    "parking_1" := Point(33.53765498423474, -5.1049750712180435),
    "academic_area" := Point(33.538753431708265, -5.107700991257563),
    "athletic_area" := Point(33.53982118719424, -5.108057817504243),
    "health_center" := Point(33.54037004446834, -5.105539775836056)
  ]

  /**
    As written, on the map page no route id is a location, so the callback
    throws at the very first key and getPathCoordinates fails for every
    request instead of falling back to a straight line.
  */
  lemma MapPageAlwaysThrows(start: Point, end: Point)
    ensures !KeyResolves(MapPageLocations, Paths[0].key)
    ensures GetPathCoordinates(MapPageLocations, start, end) == Throws
  {
    KeyIds0();
    MapPageIds();
  }

  /** The map page's ids are not the campus ids of the first route. */
  lemma MapPageIds()
    ensures "main_gate" !in MapPageLocations && "library" !in MapPageLocations
  {
    assert MapPageLocations.Keys == {"parking_1", "academic_area", "athletic_area", "health_center"};
  }
}
