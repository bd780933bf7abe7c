/**
  The navigation engine of nav.js as an object: its module-level variables
  (nav.js:97-111) are the fields, and the entry points update them in place.
  Every method leaves the fields exactly as the matching transition of
  module Navigation says.
*/
module NavigatorObject {
  import opened Wrappers
  import opened Geodesy
  import opened Kalman
  import opened Campus
  import opened Destination
  import opened Routing
  import opened Progress
  import opened Instructions
  import opened Navigation

  class Navigator {
    /** calculateDistance, calculateBearing, Math.sqrt and the dead-reckoning offsets. */
    const geo: Geo
    const latFilter: KalmanFilter
    const lngFilter: KalmanFilter

    var userPosition: Option<Point>
    var destinationReached: bool
    var currentPath: seq<Point>
    var destinationId: string
    var arrivalConfirmationCount: nat
    var lastPosition: Option<Point>
    var lastTimestamp: int
    var lastSpeed: real
    var lastHeading: real

    /** The fields as a NavState value. */
    function State(): NavState
      reads this, latFilter, lngFilter
    {
      NavState(userPosition, destinationReached, currentPath, destinationId, arrivalConfirmationCount,
               lastPosition, lastTimestamp, lastSpeed, lastHeading, latFilter.Model(), lngFilter.Model())
    }

    predicate Valid()
      reads this, latFilter, lngFilter
    {
      latFilter != lngFilter && Inv(State())
    }

    /** Loading the script: the variables' initial values and two fresh filters. */
    constructor (g: Geo)
      ensures Valid() && State() == Initial && geo == g
      ensures fresh(latFilter) && fresh(lngFilter)
    {
      geo := g;
      latFilter := new KalmanFilter(0.01, 0.01);
      lngFilter := new KalmanFilter(0.01, 0.01);
      userPosition := None;
      destinationReached := false;
      currentPath := [];
      destinationId := DefaultDestination;
      arrivalConfirmationCount := 0;
      lastPosition := None;
      lastTimestamp := 0;
      lastSpeed := 0.0;
      lastHeading := 0.0;
      new;
      InitialInv();
    }

    /** parseURL, with `locations[value]` read as "value is a campus location". */
    method ParseURL(url: Url)
      requires Valid()
      modifies this
      ensures Valid()
      ensures State() == ParseStep(old(State()), url)
    {
      ParseStepInv(State(), url);
      var found := LookupDestination(url, IsLocation);
      if found.Some? {
        destinationId := found.value;
      }
    }

    /** The state reset at the start of initNavigation. */
    method InitNavigation()
      requires Valid()
      modifies this
      ensures Valid()
      ensures State() == Reset(old(State()))
    {
      ResetSpec(State());
      arrivalConfirmationCount := 0;
      userPosition := None;
      destinationReached := false;
      lastPosition := None;
      lastTimestamp := 0;
      lastSpeed := 0.0;
      lastHeading := 0.0;
    }

    /** updateNavigationInfo: returns the instruction text it writes, if any. */
    method UpdateNavigationInfo(accuracy: real) returns (shown: Option<Instruction>)
      requires Valid()
      modifies this
      ensures Valid()
      ensures Outcome(State(), shown) == InfoStep(geo, old(State()), accuracy)
    {
      ghost var s := State();
      if userPosition.None? {
        return None;
      }
      InfoArrival(geo, s, accuracy);
      var destination := Locations[destinationId];
      var user := userPosition.value;
      var distance := geo.distance(user, Position(destination));
      var preciseDistance := CalculatePathDistance(geo, user, currentPath);
      var arrivalThreshold := destination.radius + accuracy;
      if distance < arrivalThreshold {
        arrivalConfirmationCount := arrivalConfirmationCount + 1;
        if arrivalConfirmationCount >= 3 {
          destinationReached := true;
          shown := Some(Arrived);
        } else {
          shown := Some(Approaching(arrivalConfirmationCount));
        }
      } else {
        arrivalConfirmationCount := 0;
        var bearing := CalculateBearing(geo, user, Position(destination));
        var progress := CalculatePathProgress(geo, userPosition, currentPath);
        var instruction := GetNavigationInstruction(geo, user, currentPath, progress, preciseDistance, bearing);
        shown := Some(instruction);
      }
    }

    /** updateUserPosition: filter, maybe dead-reckon, keep the bookkeeping, then updateNavigationInfo. */
    method UpdateUserPosition(fix: Fix, now: int) returns (shown: Option<Instruction>)
      requires latFilter != lngFilter && PositionReady(State(), fix)
      modifies this, latFilter, lngFilter
      ensures Valid()
      ensures Outcome(State(), shown) == PositionStep(geo, old(State()), fix, now)
    {
      ghost var s := State();
      StepStable(s.lat, fix.lat);
      StepStable(s.lng, fix.lng);
      var filteredLat := latFilter.Filter(fix.lat);
      var filteredLng := lngFilter.Filter(fix.lng);
      assert filteredLat == Step(s.lat, fix.lat).x.value && filteredLng == Step(s.lng, fix.lng).x.value;
      if lastPosition.Some? && Truthy(fix.speed) && Truthy(fix.heading) {
        var timeDiff := ((now - lastTimestamp) as real) / 1000.0;
        var distance := lastSpeed * timeDiff;
        if fix.accuracy > 10.0 {
          var offset := geo.reckonOffset(distance, lastHeading, filteredLat);
          assert distance == Travelled(s.lastSpeed, now - s.lastTimestamp);
          filteredLat := lastPosition.value.lat + offset.lat;
          filteredLng := lastPosition.value.lng + offset.lng;
        }
      }
      assert Point(filteredLat, filteredLng) == SettledPosition(geo, s, fix, now);
      lastPosition := Some(Point(filteredLat, filteredLng));
      lastTimestamp := now;
      lastSpeed := OrZero(fix.speed);
      lastHeading := OrZero(fix.heading);
      if fix.accuracy < 20.0 {
        userPosition := lastPosition;
      }
      assert State() == Bookkeeping(geo, s, fix, now);
      shown := UpdateNavigationInfo(fix.accuracy);
    }

    /** setupPath: pick the route for the raw reading, then hand the reading to updateUserPosition. */
    method SetupPath(fix: Fix, now: int) returns (shown: Option<Instruction>)
      requires Valid()
      modifies this, latFilter, lngFilter
      ensures Valid()
      ensures Outcome(State(), shown) == SetupStep(geo, old(State()), fix, now)
      ensures |currentPath| >= 2
    {
      ghost var s := State();
      var user := Point(fix.lat, fix.lng);
      TablesWellFormed();
      ChoosePathSpec(geo, Routes, user, destinationId);
      SetupStepInv(geo, s, fix, now);
      var pathKey := FindClosestPath(geo, Routes, user, destinationId);
      if pathKey.Some? {
        ClosestPathInRoutes(geo, Routes, user, destinationId);
        currentPath := Lookup(Routes, pathKey.value);
      } else {
        currentPath := CreateStraightPath(user, Locations[destinationId]);
      }
      assert State() == s.(currentPath := ChoosePath(geo, Routes, user, destinationId));
      shown := UpdateUserPosition(fix, now);
    }
  }
}
