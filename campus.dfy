/**
  The constant tables of nav.js: the campus locations with their arrival
  radius in metres (nav.js:11-17) and the predefined walking routes, keyed
  `'<from>-<to>'` in the order the object literal lists them (nav.js:20-60).
*/
module Campus {
  import opened Geodesy

  datatype Location = Location(name: string, lat: real, lng: real, radius: real)

  /** One entry of the `paths` object: its key and its waypoints. */
  datatype Route = Route(key: string, points: seq<Point>)

  function Position(l: Location): Point {
    Point(l.lat, l.lng)
  }

  const Locations: map<string, Location> := map[
    "main_gate" := Location("Main Gate", 33.536187, -5.102405, 15.0),
    "library" := Location("Mohammed 6 Library", 33.539955, -5.107425, 20.0),
    "aud_17" := Location("Auditorium 17", 33.537669, -5.106613, 15.0),
    "B_56" := Location("Building 56", 33.542620, -5.106947, 15.0),
    "B_21" := Location("Building 21", 33.540701, -5.106833, 15.0)
  ]

  /** The destination nav.js starts with. */
  const DefaultDestination: string := "library"

  const Routes: seq<Route> := [
    Route("main_gate-library", [
      Point(33.536187, -5.102405),
      Point(33.536300, -5.102600),
      Point(33.536400, -5.102800),
      Point(33.536500, -5.103000),
      Point(33.536700, -5.103300),
      Point(33.536900, -5.103600),
      Point(33.537100, -5.103900),
      Point(33.537300, -5.104200),
      Point(33.537500, -5.104500),
      Point(33.537700, -5.104800),
      Point(33.538000, -5.105100),
      Point(33.538300, -5.105400),
      Point(33.538600, -5.105700),
      Point(33.538900, -5.106000),
      Point(33.539200, -5.106300),
      Point(33.539500, -5.106600),
      Point(33.539800, -5.106900),
      Point(33.539955, -5.107425)
    ]),
    Route("library-B_56", [
      Point(33.539955, -5.107425),
      Point(33.540100, -5.107380),
      Point(33.540250, -5.107350),
      Point(33.540400, -5.107320),
      Point(33.540550, -5.107290),
      Point(33.540700, -5.107260),
      Point(33.540850, -5.107230),
      Point(33.541000, -5.107200),
      Point(33.541150, -5.107170),
      Point(33.541300, -5.107140),
      Point(33.541450, -5.107110),
      Point(33.541600, -5.107080),
      Point(33.541750, -5.107050),
      Point(33.541900, -5.107020),
      Point(33.542050, -5.106990),
      Point(33.542200, -5.106960),
      Point(33.542620, -5.106947)
    ])
  ]

  /** Every route has at least two waypoints, so it has a start and a first segment. */
  predicate RoutesWellFormed(routes: seq<Route>) {
    forall i :: 0 <= i < |routes| ==> |routes[i].points| >= 2
  }

  /** The tables agree with each other: routes are well formed and the default destination exists. */
  lemma TablesWellFormed()
    ensures RoutesWellFormed(Routes)
    ensures DefaultDestination in Locations
    ensures Routes[0].points[0] == Position(Locations["main_gate"])
    ensures Routes[0].points[|Routes[0].points| - 1] == Position(Locations["library"])
  {
  }
}
