/**
  The module-level navigation state of nav.js (nav.js:97-111) as a value,
  and what each entry point does to it: parseURL (nav.js:127-150), the reset
  at the start of initNavigation (nav.js:152-168), setupPath (nav.js:302-313),
  updateUserPosition (nav.js:368-433) and updateNavigationInfo
  (nav.js:435-479). The Navigator class updates its fields exactly as these
  functions say.
*/
module Navigation {
  import opened Wrappers
  import opened Geodesy
  import opened Kalman
  import opened Campus
  import opened Destination
  import opened Routing
  import opened Progress
  import opened Instructions
  import opened Arrival

  /** Every variable of nav.js that the modelled functions read or write, and the two filters' fields. */
  datatype NavState = NavState(
    userPosition: Option<Point>,
    destinationReached: bool,
    currentPath: seq<Point>,
    destinationId: string,
    arrivalConfirmationCount: nat,
    lastPosition: Option<Point>,
    lastTimestamp: int,
    lastSpeed: real,
    lastHeading: real,
    lat: Estimate,
    lng: Estimate)

  /** The filters nav.js builds once, with `R = Q = 0.01`. */
  const FreshFilter: Estimate := Estimate(0.01, 0.01, 1.0, None)

  /** The state when the script loads. */
  const Initial: NavState :=
    NavState(None, false, [], DefaultDestination, 0, None, 0, 0.0, 0.0, FreshFilter, FreshFilter)

  /**
    What the modelled code relies on between calls: the destination is a
    campus location, both filters are stable, and a known position comes
    with a path of at least two waypoints.
  */
  predicate Inv(s: NavState) {
    && s.destinationId in Locations
    && Stable(s.lat) && Stable(s.lng)
    && (s.userPosition.Some? ==> |s.currentPath| >= 2)
  }

  lemma InitialInv()
    ensures Inv(Initial)
  {
    TablesWellFormed();
  }

  /** One GPS reading: `position.coords` with `Date.now()` passed separately. */
  datatype Fix = Fix(lat: real, lng: real, accuracy: real, speed: Option<real>, heading: Option<real>)

  /** A number read in a condition: `null` and 0 are false. */
  predicate Truthy(v: Option<real>) {
    v.Some? && v.value != 0.0
  }

  /** `v || 0`. */
  function OrZero(v: Option<real>): real {
    if Truthy(v) then v.value else 0.0
  }

  /** The new state and the instruction text written, if any. */
  datatype Outcome = Outcome(state: NavState, shown: Option<Instruction>)

  /** The reset part of initNavigation: the path, the destination and the filters are kept. */
  function Reset(s: NavState): NavState {
    s.(arrivalConfirmationCount := 0, userPosition := None, destinationReached := false,
       lastPosition := None, lastTimestamp := 0, lastSpeed := 0.0, lastHeading := 0.0)
  }

  /** parseURL: the destination changes only when the URL names a campus location. */
  function ParseStep(s: NavState, url: Url): NavState {
    var found := Resolve(url);
    if found.Some? then s.(destinationId := found.value) else s
  }

  /** updateNavigationInfo. */
  function InfoStep(g: Geo, s: NavState, accuracy: real): Outcome
    requires Inv(s)
  {
    if s.userPosition.None? then Outcome(s, None)
    else
      var dest := Locations[s.destinationId];
      var user := s.userPosition.value;
      var inside := g.distance(user, Position(dest)) < dest.radius + accuracy;
      var a := ArrivalStep(Arrival(s.arrivalConfirmationCount, s.destinationReached), inside);
      var shown :=
        if !inside then NavigationInstruction(g, user, s.currentPath, RemainingDistance(g, user, s.currentPath))
        else if a.count >= Confirmations then Arrived
        else Approaching(a.count);
      Outcome(s.(arrivalConfirmationCount := a.count, destinationReached := a.reached), Some(shown))
  }

  /** `lastSpeed * timeDiff`: the metres covered at `speed` m/s in `elapsedMs` milliseconds. */
  function Travelled(speed: real, elapsedMs: int): real {
    speed * ((elapsedMs as real) / 1000.0)
  }

  /** Dead reckoning: the last position moved by the distance travelled at `lastSpeed` along `lastHeading`. */
  function Reckoned(g: Geo, s: NavState, now: int, filteredLat: real): Point
    requires s.lastPosition.Some?
  {
    var offset := g.reckonOffset(Travelled(s.lastSpeed, now - s.lastTimestamp), s.lastHeading, filteredLat);
    Point(s.lastPosition.value.lat + offset.lat, s.lastPosition.value.lng + offset.lng)
  }

  /** Dead reckoning replaces the filtered position: a last position, a truthy speed and heading, and accuracy over 10 m. */
  predicate Reckons(s: NavState, fix: Fix) {
    s.lastPosition.Some? && Truthy(fix.speed) && Truthy(fix.heading) && fix.accuracy > 10.0
  }

  /** The position updateUserPosition settles on: the filtered one, or the dead-reckoned one. */
  function SettledPosition(g: Geo, s: NavState, fix: Fix, now: int): Point
    requires Stable(s.lat) && Stable(s.lng)
  {
    var filtered := Point(Step(s.lat, fix.lat).x.value, Step(s.lng, fix.lng).x.value);
    if Reckons(s, fix) then Reckoned(g, s, now, filtered.lat) else filtered
  }

  /** The bookkeeping of updateUserPosition, before it calls updateNavigationInfo. */
  function Bookkeeping(g: Geo, s: NavState, fix: Fix, now: int): NavState
    requires Stable(s.lat) && Stable(s.lng)
  {
    var pos := SettledPosition(g, s, fix, now);
    s.(lat := Step(s.lat, fix.lat), lng := Step(s.lng, fix.lng),
       lastPosition := Some(pos), lastTimestamp := now,
       lastSpeed := OrZero(fix.speed), lastHeading := OrZero(fix.heading),
       userPosition := if fix.accuracy < 20.0 then Some(pos) else s.userPosition)
  }

  /**
    What updateUserPosition needs of its caller: the invariant, and a path
    to measure against whenever a position will be known afterwards.
  */
  predicate PositionReady(s: NavState, fix: Fix) {
    && s.destinationId in Locations
    && Stable(s.lat) && Stable(s.lng)
    && (s.userPosition.Some? || fix.accuracy < 20.0 ==> |s.currentPath| >= 2)
  }

  /** updateUserPosition. */
  function PositionStep(g: Geo, s: NavState, fix: Fix, now: int): Outcome
    requires PositionReady(s, fix)
  {
    StepStable(s.lat, fix.lat);
    StepStable(s.lng, fix.lng);
    InfoStep(g, Bookkeeping(g, s, fix, now), fix.accuracy)
  }

  /** setupPath: choose the path from the raw reading, then handle the reading. */
  function SetupStep(g: Geo, s: NavState, fix: Fix, now: int): Outcome
    requires Inv(s)
  {
    TablesWellFormed();
    ChoosePathSpec(g, Routes, Point(fix.lat, fix.lng), s.destinationId);
    PositionStep(g, s.(currentPath := ChoosePath(g, Routes, Point(fix.lat, fix.lng), s.destinationId)), fix, now)
  }

  // ---------------------------------------------------------------------------
  // Properties of the transitions

  /** updateNavigationInfo does nothing, and writes nothing, while there is no position. */
  lemma InfoWithoutPosition(g: Geo, s: NavState, accuracy: real)
    requires Inv(s) && s.userPosition.None?
    ensures InfoStep(g, s, accuracy) == Outcome(s, None)
  {
  }

  /** updateNavigationInfo changes nothing but the counter and `destinationReached`. */
  lemma InfoFrame(g: Geo, s: NavState, accuracy: real)
    requires Inv(s)
    ensures InfoStep(g, s, accuracy).state
         == s.(arrivalConfirmationCount := InfoStep(g, s, accuracy).state.arrivalConfirmationCount,
               destinationReached := InfoStep(g, s, accuracy).state.destinationReached)
  {
  }

  /**
    With a position: a distance under `radius + accuracy` adds a
    confirmation, and from the third on sets `destinationReached` and shows
    "You have arrived!", before that "Approaching ... (n/3 ...)"; a distance
    at or beyond it resets the counter, leaves `destinationReached` as it
    was and shows the instruction for the remaining path distance.
  */
  lemma InfoArrival(g: Geo, s: NavState, accuracy: real)
    requires Inv(s) && s.userPosition.Some?
    ensures var dest := Locations[s.destinationId];
      var user := s.userPosition.value;
      var o := InfoStep(g, s, accuracy);
      if g.distance(user, Position(dest)) < dest.radius + accuracy then
        && o.state.arrivalConfirmationCount == s.arrivalConfirmationCount + 1
        && (s.arrivalConfirmationCount + 1 >= 3 ==> o.state.destinationReached && o.shown == Some(Arrived))
        && (s.arrivalConfirmationCount + 1 < 3 ==>
              o.state.destinationReached == s.destinationReached
              && o.shown == Some(Approaching(s.arrivalConfirmationCount + 1)))
      else
        && o.state.arrivalConfirmationCount == 0
        && o.state.destinationReached == s.destinationReached
        && o.shown == Some(NavigationInstruction(g, user, s.currentPath, RemainingDistance(g, user, s.currentPath)))
  {
  }

  /** `destinationReached` is never cleared by a reading; only the reset clears it. */
  lemma ReachedIsSticky(g: Geo, s: NavState, fix: Fix, now: int)
    requires PositionReady(s, fix) && s.destinationReached
    ensures PositionStep(g, s, fix, now).state.destinationReached
  {
  }

  /**
    `userPosition` changes only on a reading more accurate than 20 m, and
    then becomes the new last position; `lastPosition`, `lastTimestamp`,
    `lastSpeed` and `lastHeading` are updated on every reading.
  */
  lemma PositionGate(g: Geo, s: NavState, fix: Fix, now: int)
    requires PositionReady(s, fix)
    ensures var s' := PositionStep(g, s, fix, now).state;
      && s'.lastPosition == Some(SettledPosition(g, s, fix, now))
      && s'.lastTimestamp == now
      && s'.lastSpeed == OrZero(fix.speed) && s'.lastHeading == OrZero(fix.heading)
      && s'.userPosition == (if fix.accuracy < 20.0 then s'.lastPosition else s.userPosition)
      && s'.currentPath == s.currentPath && s'.destinationId == s.destinationId
  {
    StepStable(s.lat, fix.lat);
    StepStable(s.lng, fix.lng);
    InfoFrame(g, Bookkeeping(g, s, fix, now), fix.accuracy);
  }

  /**
    A reading of 10 m accuracy or better is never dead-reckoned: the position
    is the pair of Kalman estimates, and each filter took exactly one step.
  */
  lemma AccurateFixIsFiltered(g: Geo, s: NavState, fix: Fix, now: int)
    requires PositionReady(s, fix) && fix.accuracy <= 10.0
    ensures var s' := PositionStep(g, s, fix, now).state;
      && s'.lat == Step(s.lat, fix.lat) && s'.lng == Step(s.lng, fix.lng)
      && s'.lastPosition == Some(Point(s'.lat.x.value, s'.lng.x.value))
      && s'.userPosition == s'.lastPosition
  {
    PositionGate(g, s, fix, now);
    StepStable(s.lat, fix.lat);
    StepStable(s.lng, fix.lng);
    InfoFrame(g, Bookkeeping(g, s, fix, now), fix.accuracy);
  }

  /**
    initNavigation's reset clears the counter, `destinationReached`, the
    position and the dead-reckoning fields, but keeps the path, the
    destination and the Kalman filters as they were.
  */
  lemma ResetSpec(s: NavState)
    ensures var r := Reset(s);
      && r.arrivalConfirmationCount == 0 && !r.destinationReached
      && r.userPosition.None? && r.lastPosition.None?
      && r.lastTimestamp == 0 && r.lastSpeed == 0.0 && r.lastHeading == 0.0
      && r.lat == s.lat && r.lng == s.lng
      && r.currentPath == s.currentPath && r.destinationId == s.destinationId
    ensures Inv(s) ==> Inv(Reset(s))
    ensures Reset(Reset(s)) == Reset(s)
  {
  }

  /** parseURL keeps the invariant: it only ever assigns a campus location. */
  lemma ParseStepInv(s: NavState, url: Url)
    requires Inv(s)
    ensures Inv(ParseStep(s, url))
    ensures ParseStep(s, url).destinationId == if Resolve(url).Some? then Resolve(url).value else s.destinationId
  {
    ResolveIsLocation(url);
  }

  /** A reading keeps the invariant. */
  lemma PositionStepInv(g: Geo, s: NavState, fix: Fix, now: int)
    requires PositionReady(s, fix)
    ensures Inv(PositionStep(g, s, fix, now).state)
  {
    PositionGate(g, s, fix, now);
    StepStable(s.lat, fix.lat);
    StepStable(s.lng, fix.lng);
    InfoFrame(g, Bookkeeping(g, s, fix, now), fix.accuracy);
  }

  /** setupPath keeps the invariant, and the path it installs has at least two waypoints. */
  lemma SetupStepInv(g: Geo, s: NavState, fix: Fix, now: int)
    requires Inv(s)
    ensures Inv(SetupStep(g, s, fix, now).state)
    ensures |SetupStep(g, s, fix, now).state.currentPath| >= 2
  {
    TablesWellFormed();
    ChoosePathSpec(g, Routes, Point(fix.lat, fix.lng), s.destinationId);
    var s1 := s.(currentPath := ChoosePath(g, Routes, Point(fix.lat, fix.lng), s.destinationId));
    PositionGate(g, s1, fix, now);
    PositionStepInv(g, s1, fix, now);
  }
}
