# Campus walking navigation: a verified model

This project models the navigation engine of a campus wayfinding web page.

- `nav.js` follows a phone's GPS fixes and guides the user to a campus location. Its parts are:
  - a scalar Kalman filter for each coordinate;
  - dead reckoning for poor fixes;
  - the choice of route when navigation starts (a stored route, or a straight line);
  - the distance still to walk along the route and the fraction of segments behind;
  - the next waypoint and the compass instruction towards it;
  - the three-confirmation arrival check;
  - the destination taken from the page URL.
- `paths.js` looks up a stored route between two points.

The model uses the source's own forms:

- The Kalman filter is a class whose `filter` updates its fields in place.
- The module-level variables of `nav.js` are the fields of the class `NavigatorObject.Navigator`. Each entry point is a method of that class, proved to leave the fields exactly as a transition function of module `Navigation` says. The transition functions carry the lemmas.
- Every `for` loop of the source is a method with loop invariants. Each is proved equal to a specification function. The array methods `filter` and `find` are not written as loops in the source, and are modelled as the recursive functions `Routing.Candidates` and `PathTable.FindEntry`. Three nearest-so-far scans (`findClosestPath`, `calculatePathDistance`/`calculatePathProgress`, `getNextWaypoint`) share one definition, `Argmin.FirstMin`.
- The remaining code is pure, and is modelled as functions and lemmas.

Modules, one file each:

- `Geodesy` in `geodesy.dfy`: points, JavaScript `%` and `Math.round`, the bearing, and the segment projection.
- `Argmin` in `argmin.dfy`: the first index of the least value.
- `Kalman` in `kalman.dfy`: the filter as a value and as a class.
- `Campus` in `campus.dfy`: the location and route tables of `nav.js`.
- `Destination` in `destination.dfy`: `parseURL`.
- `Routing` in `routing.dfy`: `findClosestPath`, `createStraightPath` and the path choice of `setupPath`.
- `Progress` in `progress.dfy`: path distance, progress and the next waypoint.
- `Instructions` in `instructions.dfy`: the compass buckets, the instruction tiers and their texts.
- `Arrival` in `arrival.dfy`: the confirmation counter.
- `Navigation` in `navigation.dfy`: the state value and its transitions.
- `NavigatorObject` in `navigator.dfy`: the stateful object.
- `PathTable` in `pathtable.dfy`: `getPathCoordinates`.

The source's transcendental and floating-point maths are fields of the value `Geodesy.Geo`, which is passed to every member that needs them. These are:

- `calculateDistance` (haversine);
- the raw `atan2` bearing;
- `Math.sqrt`;
- the dead-reckoning offset.

The lemmas assume only what they state about these functions, for example `Geodesy.MonotoneSqrt` or `Geodesy.NonnegativeDistance`. The planar arithmetic of `getClosestPointOnSegment` is modelled exactly, over the reals.

## Model

| member | source | states |
|---|---|---|
| Geodesy.CalculateBearing | nav.js:577-586 | The bearing lies in [0, 360). It is the raw atan2 bearing when that is non-negative, and the raw bearing plus 360 when it is negative. |
| Geodesy.ClosestPointOnSegment | nav.js:530-549 | The point returned lies in the segment's bounding box (`ProjectionOnSegment` places it on the segment itself). A degenerate segment, or a parameter below 0, gives the start. A parameter above 1 gives the end. A point at either end is its own projection. |
| Geodesy.ProjectionOnSegment | nav.js:536-547 | The projection is a point `a + t(b - a)` of the segment, with `t` in [0, 1]: the start when the parameter is below 0, the end when it is above 1, and the parameter's own point otherwise. |
| Geodesy.ParamAtEnds | nav.js:536-540 | On a proper segment the start has projection parameter 0 and the end has parameter 1. |
| Geodesy.ProjectionIsClosest | nav.js:530-549 | The clamped projection is no farther, in squared planar distance, from the point than any point `a + t(b - a)` with `t` in [0, 1]. |
| Geodesy.PointToSegmentDistance | nav.js:572-575 | pointToSegmentDistance: `Math.sqrt` of the squared planar distance to the projection. `PointToSegmentDistanceIsMinimal` characterises it as the distance to the segment. |
| Geodesy.PointToSegmentDistanceIsMinimal | nav.js:572-575 | pointToSegmentDistance is the distance to some point of the segment, and, given only that `Math.sqrt` is monotone, at most the distance to any point of the segment: it is the distance to the segment. |
| Argmin.FirstMin | nav.js:636-650 | The kept index holds the least value, and every earlier index holds a strictly larger one. |
| Argmin.FirstMinUnique | nav.js:319-329 | Only one index has the first-minimum property, so any scan that establishes it returns FirstMin. |
| Argmin.FirstMinExtend | nav.js:496-499 | One more scan step moves the kept index to the new position exactly when its value is strictly below the kept minimum. |
| Kalman.Step | nav.js:71-87 | R and Q never change and an estimate always exists afterwards. The first measurement becomes the estimate and leaves P unchanged. |
| Kalman.GainPositive | nav.js:82 | The gain `P_p / (P_p + R)` is positive for positive noise. |
| Kalman.GainBelowOne | nav.js:82 | The gain is below 1 for positive noise. |
| Kalman.StepBetween | nav.js:78-83 | A later measurement moves the estimate onto the closed interval between the old estimate and the measurement. |
| Kalman.StepErrorBounds | nav.js:79-84 | After a later measurement the error P is strictly between 0 and R. |
| Kalman.StepStable | nav.js:71-87 | Positive noise and a non-negative error are preserved by every call of `filter`. |
| Kalman.FixedPoint | nav.js:71-87 | Once the estimate equals a measurement, any number of further calls with that measurement leave it there. |
| Kalman.FreshFilterConstantInput | nav.js:72-75 | A fresh filter fed the same measurement n > 0 times reports exactly that measurement. |
| Kalman.ConstantInputApproaches | nav.js:82-83 | Under a constant measurement the estimate never moves farther from it. |
| Kalman.PosteriorMonotone | nav.js:82-84 | The error an update leaves, `(1 - K)(P + Q)`, grows with the predicted error `P + Q`. |
| Kalman.ErrorAboveNoiseSettles | nav.js:82-84 | A stable filter whose error P is at least R is settling: its next update leaves an error no larger than P. |
| Kalman.PageFilterSettles | nav.js:110-111 | The filters the page builds, with R = Q = 0.01 and P = 1, start settling. |
| Kalman.StepSettles | nav.js:71-87 | One call of `filter` on a settling filter leaves it settling and does not raise P. |
| Kalman.FeedSettles | nav.js:71-87 | After any sequence of measurements, a settling filter is still settling, and P is no larger than at the start. |
| Kalman.ErrorNeverIncreases | nav.js:71-87 | From a settling start, such as the page's filters, each further measurement leaves P no larger than before: the error estimate never increases. |
| Kalman.KalmanFilter.constructor | nav.js:64-69 | A new filter has the given R and Q, error 1 and no estimate. |
| Kalman.KalmanFilter.Filter | nav.js:71-87 | The fields change exactly as `Step` says, and the value returned is the new estimate. |
| Campus.TablesWellFormed | nav.js:11-60 | Every stored route has at least two waypoints, and the default destination is a location. The main gate-to-library route starts at the main gate and ends at the library. |
| Destination.Get | nav.js:133-134 | `has(key)` fails exactly when no parameter carries that name. |
| Destination.GetFirst | nav.js:134 | `get(key)` returns the value of the first parameter with that name. |
| Destination.FirstKnownSpec | nav.js:131-140 | The search yields nothing exactly when no key is present with a known value. Otherwise it yields the value of the first key that is, and every earlier key is absent or unknown. |
| Destination.KeyPrecedence | nav.js:131-140 | When key i is the first accepted of `to`, `destination`, `loc`, `place` and `target`, its value wins, whatever the hash says. |
| Destination.HashFallback | nav.js:142-149 | With no accepted query key, the hash fragment without its `#` decides, and only if it is accepted. |
| Destination.Resolve | nav.js:127-150 | parseURL's choice under the own-property test: `ResolveWith(url, IsLocation)`. `FirstKnownSpec`, `KeyPrecedence`, `HashFallback` and `ResolveIsLocation` characterise it, and `LookupDestination` computes it. |
| Destination.ResolveAccepted | nav.js:135-146 | Whatever parseURL assigns passed the lookup test. |
| Destination.ResolveIsLocation | nav.js:135-146 | With lookup read as "is a campus location", the destination assigned is always a key of the location table. This is the corrected half of finding 1. |
| Destination.UnknownValueSkipped | nav.js:132-140 | A present but unknown value does not stop the search: `?to=gym&destination=B_56` selects B_56. |
| Destination.LookupDestination | nav.js:127-150 | For whatever test `known` stands for `locations[value]`, the loop over the parameter names and the hash returns exactly `ResolveWith(url, known)`. With `TruthyAsWritten` this is parseURL as written (`ResolveAsWritten`); with `IsLocation` it is the corrected reading `Resolve`. |
| Destination.PrototypeNameAccepted | nav.js:135-137 | As written, `?to=constructor` is accepted although `constructor` is not a location. This is the as-written half of finding 1. |
| Routing.Candidates | nav.js:316 | A route is a candidate exactly when it is in the table and its key ends in `-<destination>`. |
| Routing.CandidatesConcat | nav.js:316 | `filter` keeps table order: the candidates of one table followed by another are the first table's candidates followed by the second's. With the membership clause of `Candidates`, this makes the candidates exactly the matching routes in table order. |
| Routing.ClosestPath | nav.js:315-332 | findClosestPath as a function: the first nearest candidate start, kept only under 50 m. `ClosestPathSpec` characterises it, and `FindClosestPath` computes it. |
| Routing.ClosestPathSpec | nav.js:315-332 | The result is null exactly when every candidate start is 50 m or farther away, including when there are no candidates. Otherwise it is the key of the first candidate with the least start distance, and that distance is under 50 m. |
| Routing.FindClosestPath | nav.js:315-332 | The loop returns exactly `ClosestPath`. |
| Routing.ClosestPathInRoutes | nav.js:307-308 | The key returned names a route of the table, so `paths[pathKey]` is defined. |
| Routing.Lookup | nav.js:308 | The waypoints returned are those of a table entry with that key. |
| Routing.CreateStraightPath | nav.js:334-340 | The straight path is the user's point followed by the destination's coordinates. `ChoosePathSpec` states it as the fallback path `[user, destination]`. |
| Routing.ChoosePath | nav.js:302-313 | The path setupPath installs: the stored route for the key findClosestPath returns, else the straight line. `ChoosePathSpec` characterises it. |
| Routing.ChoosePathSpec | nav.js:302-340 | Without a route, the path is exactly `[user, destination]`. Otherwise it is the waypoints of a route leading to the destination whose key findClosestPath chose. Either way the path has at least two points. |
| Routing.NoRouteToMainGate | nav.js:316 | Route keys are one-way: navigating to the main gate always gets the straight line, even from a route's end. |
| Routing.MainGateToLibrary | nav.js:315-331 | From the main gate, heading to the library, the stored route is chosen. |
| Progress.ClosestSegment | nav.js:482-500 | The segment index kept is a valid segment of the path. |
| Progress.ClosestSegmentSpec | nav.js:482-500 | An index is the kept segment exactly when it is the first segment at the least distance from the user. |
| Progress.LengthSplit | nav.js:520-525 | The summed segment lengths split at any intermediate waypoint. |
| Progress.LengthNonnegative | nav.js:520-525 | With non-negative distances every stretch of path has non-negative length. |
| Progress.RemainingAtLastWaypoint | nav.js:503-527 | A user standing on the final waypoint, when the last segment is the first nearest one, has left only the distance from that point to itself (0 for a true distance). |
| Progress.ReturningPathAtEnd | nav.js:496-525 | On a path that returns to its start, `[A, B, A]`, a user standing at the final A is matched to segment 0, and the remaining distance still counts the whole leg from B back to A. |
| Progress.RemainingDistance | nav.js:481-528 | The distance left along the path, measured from the first nearest segment (`RemainingFrom` at `ClosestSegment`). `SameSegment`, `RemainingNonnegative`, `RemainingAtMostWholePath` and `RemainingAtLastWaypoint` characterise it, and `CalculatePathDistance` computes it. |
| Progress.RemainingOnLastSegment | nav.js:506-525 | When the last segment is nearest, the remaining distance is just the distance to the projection on it. |
| Progress.RemainingNonnegative | nav.js:503-527 | The remaining distance is never negative. |
| Progress.TailShrinks | nav.js:520-525 | The path still ahead after a later segment is no longer than after an earlier one. |
| Progress.RemainingAtMostWholePath | nav.js:503-527 | The remaining distance is at most the distance to the projection on the nearest segment plus the length of the whole path. |
| Progress.CalculatePathDistance | nav.js:481-528 | The two loops return exactly `RemainingDistance`: the distance to the projection on the first nearest segment plus the lengths of all later segments. |
| Progress.Progress | nav.js:551-570 | Progress lies in [0, 1). It is 0 without a position or without a segment. |
| Progress.SameSegment | nav.js:481-570 | Whichever segment k is the first nearest to the user, it is a valid segment, progress is `k / (len - 1)`, and the remaining distance is measured from the projection on segment k. |
| Progress.CalculatePathProgress | nav.js:551-570 | The loop returns exactly `Progress`. |
| Progress.NextWaypointIndex | nav.js:653 | The next waypoint index is a valid index of the path. |
| Progress.NextWaypoint | nav.js:635-655 | The waypoint after the first nearest one, or the last waypoint at the end. `NextWaypointSpec` and `NextWaypointAtEnd` characterise it, and `GetNextWaypoint` computes it. |
| Progress.NextWaypointSpec | nav.js:635-655 | If waypoint k is the first nearest one, the index is `min(k + 1, len - 1)`, and before the end the waypoint is `path[k + 1]`. |
| Progress.NextWaypointAtEnd | nav.js:653-654 | At the last or second-to-last waypoint the next waypoint is the final one. |
| Progress.GetNextWaypoint | nav.js:635-655 | The loop returns exactly `NextWaypoint`. |
| Instructions.NormalisedBearing | nav.js:617 | `(b + 360) % 360` gives back any bearing in [0, 360). |
| Instructions.CompassIndex | nav.js:616-618 | `Math.round(((b + 360) % 360) / 45) % 8` with JavaScript's remainder and rounding. `CompassSector` and `CompassBoundaries` characterise it. |
| Instructions.CompassSector | nav.js:616-618 | The compass index is in 0..7. North covers [337.5, 360) and [0, 22.5). Point k covers `[45k - 22.5, 45k + 22.5)`. |
| Instructions.CompassBoundaries | nav.js:617-618 | 22.5 degrees rounds up to northeast, and 337.5 up to 360 is north. |
| Instructions.NatToString | nav.js:629 | The printed number is a non-empty string of decimal digits with no leading zero. |
| Instructions.NatToStringRoundTrip | nav.js:468 | Reading the printed digits back gives the number. |
| Instructions.TextFirstLetter | nav.js:620-632 | The six instruction texts begin with six different letters, so each text identifies its tier. |
| Instructions.Text | nav.js:460-632 | The text written for each instruction. `TextFirstLetter` shows that the six texts are distinct by their first letter, and `NatToStringRoundTrip` that the counts printed in them read back. |
| Instructions.Choose | nav.js:620-632 | The tier chosen from the remaining distance and the next waypoint's distance and bearing. `ChooseTiers` and `ChooseDirection` characterise it. |
| Instructions.ChooseTiers | nav.js:620-632 | Each tier is shown exactly under its condition, tested in order. "In N meters" shows N in 5..20, and "Head" shows N of 20 or more. N is within half a metre of the distance. |
| Instructions.ChooseDirection | nav.js:616-618 | For a bearing from calculateBearing the direction word is one of the eight compass points, never `undefined`. |
| Instructions.NavigationInstruction | nav.js:603-633 | getNavigationInstruction: `Choose` applied to the next waypoint's distance and bearing. `GetNavigationInstruction` computes it. |
| Instructions.GetNavigationInstruction | nav.js:603-633 | The instruction is the tier chosen for the remaining path distance and for the next waypoint's distance and bearing. `progress` and `bearing` are ignored. |
| Arrival.ArrivalStep | nav.js:455-471 | A reading inside the radius adds a confirmation, and one outside resets the count to 0. `destinationReached` becomes set exactly when it was set or this is the third confirmation or later. |
| Arrival.CountIsTrailingInside | nav.js:455-471 | After a reset the counter equals the number of latest readings in a row inside the radius. |
| Arrival.ReachedIffThreeInARow | nav.js:455-471 | From the initial state the destination is reached exactly when three consecutive readings were inside. |
| Arrival.ReachedStays | nav.js:459-461 | Once set, `destinationReached` stays set whatever readings follow. |
| Navigation.InitialInv | nav.js:97-111 | The script's initial state meets the invariant: the destination is a location and both filters are stable. |
| Navigation.InfoStep | nav.js:435-479 | updateNavigationInfo as a transition with the text it writes. `InfoWithoutPosition`, `InfoFrame` and `InfoArrival` characterise it. |
| Navigation.InfoWithoutPosition | nav.js:436 | Without a position updateNavigationInfo changes nothing and writes nothing. |
| Navigation.InfoFrame | nav.js:435-479 | updateNavigationInfo changes only the counter and `destinationReached`. |
| Navigation.InfoArrival | nav.js:452-478 | Inside `radius + accuracy`, the count goes up; at 3 or more the flag is set and "arrived" is shown, below that "Approaching n/3". Outside, the count resets, the flag is kept, and the path instruction for the remaining distance is shown. |
| Navigation.ReachedIsSticky | nav.js:368-433 | A reading never clears `destinationReached`. |
| Navigation.SettledPosition | nav.js:373-391 | The position after filtering, dead-reckoned from the last position only when a previous position, a speed and a heading exist and the accuracy is over 10 m. `AccurateFixIsFiltered` states the filtered case. |
| Navigation.Bookkeeping | nav.js:393-416 | The fields updateUserPosition writes before calling updateNavigationInfo. `PositionGate` characterises it. |
| Navigation.PositionStep | nav.js:368-433 | updateUserPosition: `Bookkeeping`, then `InfoStep`. `PositionGate`, `ReachedIsSticky` and `PositionStepInv` characterise it. |
| Navigation.PositionGate | nav.js:393-416 | Every reading updates the four dead-reckoning fields. `userPosition` changes only on a reading better than 20 m, to the new last position. The path and destination are kept. |
| Navigation.AccurateFixIsFiltered | nav.js:373-391 | A reading of 10 m accuracy or better is never dead-reckoned: the position is the pair of Kalman estimates after one step each. |
| Navigation.Reset | nav.js:152-168 | The reset at the start of initNavigation. `ResetSpec` characterises it. |
| Navigation.ResetSpec | nav.js:152-168 | The reset clears the counter, the flag, the position and the dead-reckoning fields. It keeps the path, the destination and the filters. It preserves the invariant and is idempotent. |
| Navigation.ParseStep | nav.js:127-150 | parseURL as a transition: the destination becomes `Resolve(url)` when there is one. `ParseStepInv` characterises it. |
| Navigation.ParseStepInv | nav.js:127-150 | parseURL, with the own-property test, changes the destination only to what the URL resolves to, and keeps the invariant that the destination is a campus location. |
| Navigation.PositionStepInv | nav.js:368-433 | A reading keeps the invariant. |
| Navigation.SetupStep | nav.js:302-313 | setupPath: install `ChoosePath` for the reading, then `PositionStep`. `SetupStepInv` characterises it. |
| Navigation.SetupStepInv | nav.js:302-313 | setupPath keeps the invariant and installs a path of at least two waypoints. |
| NavigatorObject.Navigator.constructor | nav.js:97-111 | The fields start at the script's initial values, with two fresh, distinct filters. |
| NavigatorObject.Navigator.ParseURL | nav.js:127-150 | The fields change exactly as `ParseStep` says: only the destination, to `Resolve(url)` when that is a location. |
| NavigatorObject.Navigator.InitNavigation | nav.js:152-168 | The fields change exactly as `Reset` says. |
| NavigatorObject.Navigator.UpdateNavigationInfo | nav.js:435-479 | The new fields and the text written are exactly `InfoStep`. |
| NavigatorObject.Navigator.UpdateUserPosition | nav.js:368-433 | The new fields, both filters and the text written are exactly `PositionStep`. |
| NavigatorObject.Navigator.SetupPath | nav.js:302-313 | The new fields and the text written are exactly `SetupStep`, and the path has at least two waypoints. |
| PathTable.BeforeDash | paths.js:43 | `key.split('-')[0]` is the prefix of the key up to its first dash: it contains no dash and is followed by one unless it is the whole key. |
| PathTable.SplitKey | paths.js:43 | `'<from>-<to>'` splits into `from` and `to` when neither contains a dash. |
| PathTable.KeyIds | paths.js:2-38 | Each of the five keys splits into the two location ids its name spells. |
| PathTable.FindEntry | paths.js:42-48 | `Object.keys(paths).find(...)`, including the throw at the first key that does not resolve. `FindEntrySpec` characterises it. |
| PathTable.FindEntrySpec | paths.js:42-48 | When every key resolves, `find` does not throw. It finds nothing exactly when no entry matches, and otherwise returns the first matching entry. |
| PathTable.GetPathCoordinates | paths.js:40-59 | getPathCoordinates. `GetPathCoordinatesSpec`, `ReverseMatchAsAuthored` and `MapPageAlwaysThrows` characterise it. |
| PathTable.GetPathCoordinatesSpec | paths.js:40-59 | The result has at least two points. Without a match it is exactly `[start, end]`. With one it is the waypoints of a matching entry. |
| PathTable.CampusLocationsResolve | paths.js:42-48 | With the campus location table every key resolves, so getPathCoordinates never throws. This is the corrected half of finding 2. |
| PathTable.ReverseMatchAsAuthored | paths.js:46-47 | A request from the library to the main gate returns the main gate-to-library waypoints unreversed, still starting at the main gate. |
| PathTable.MapPageAlwaysThrows | map.js:6-14 | With the location table of the page that calls getPathCoordinates, the first key already fails to resolve, so every call throws. This is the as-written half of finding 2. |

## Left out

- Browser and map side effects are not modelled: the DOM, Leaflet drawing (markers, polyline, accuracy circle, `setView`), the loading and status messages, `navigator.vibrate` and the distance text written with `toFixed`. The model records which instruction text is written.
- The geolocation watch, its timeouts, error handlers and retries, `clearWatch`, and the map set-up in the rest of initNavigation (nav.js:170-221) are not modelled. The clock is a parameter (`now`).
- `debugLocation`, and the files `qr.js` and `script.js`, are not part of this model.
- Haversine distance, `atan2`, `sin`/`cos` and `Math.sqrt` are opaque fields of `Geodesy.Geo`, because they are transcendental. Lemmas state the one property they use, such as a monotone square root or non-negative distances.
- Numbers are reals, not IEEE doubles. NaN, infinities and rounding error are not modelled. `minDistance = Infinity` is an empty `Option`.
- Percent-decoding of URL parameters is not modelled. `URLSearchParams` is an already decoded list of name/value pairs.
- Kalman.KalmanFilter.constructor: requires positive R and Q. The JavaScript constructor accepts any values, with defaults of 1; every filter the page builds uses 0.01.
- NavigatorObject.Navigator.UpdateUserPosition: requires a path of at least two waypoints whenever a position is known afterwards. Without one, `calculatePathDistance` reads past the end of the path and throws.
- Progress.CalculatePathDistance: requires at least two waypoints, because the source throws on a shorter path.
- Progress.GetNextWaypoint: requires at least one waypoint. On an empty path the source computes index -1 and returns `currentPath[-1]`, which is undefined, and getNavigationInstruction then throws reading `nextWaypoint[0]` (nav.js:605-607, nav.js:653-654).
- Progress.RemainingAtLastWaypoint: holds only when the last segment is the first nearest one. On a path that comes back to an earlier point, the tie goes to the earlier segment and the distance left at the end is not 0 (`Progress.ReturningPathAtEnd`).
- Destination.LookupDestination: is proved for any test `known`. The navigator passes the own-property test `IsLocation`, not the as-written `TruthyAsWritten` (finding 1).
- Navigation.ParseStepInv: states the corrected parseURL, which keeps the destination a campus location. As written, nav.js:135 also accepts inherited names such as `constructor`, and the invariant would fail (`Destination.PrototypeNameAccepted`).
- NavigatorObject.Navigator.ParseURL: runs `LookupDestination` with `IsLocation`, so the object never takes an inherited property name as its destination, unlike nav.js:135 as written.
- Instructions.GetNavigationInstruction: requires a path with a waypoint, which every caller in the model provides.
- Routing.MainGateToLibrary: assumes only that the distance from a point to itself is under 50 m. It says nothing more about `calculateDistance`.
- The model follows the code on these points:
  - route keys are one-way (`endsWith('-' + destination)`), not an unordered pair;
  - arrival is not a terminal state, and a later reading outside the radius shows instructions again;
  - the Kalman filters are not reset by initNavigation;
  - an unknown destination in the URL is ignored silently, not reported as an error.

## Findings

| source | as written | input that shows it | evidently intended | confidence | as-written member | corrected member |
|---|---|---|---|---|---|---|
| nav.js:135 | `if (locations[value])` also accepts property names every object inherits | `?to=constructor` sets `destinationId` to `constructor`, and `locations[destinationId].lat` is then undefined | accept only the campus location ids (an own-property test) | high; not executed | Destination.PrototypeNameAccepted | Destination.ResolveIsLocation |
| paths.js:44 | the `find` callback reads `locations[from].lat`, but the page that calls getPathCoordinates (map.js:6-14) defines no location named in any route key | any call: `locations["main_gate"]` is undefined on the map page, so the first key throws a TypeError | route endpoints resolve, and unknown pairs fall back to the straight line | medium; not executed | PathTable.MapPageAlwaysThrows | PathTable.CampusLocationsResolve |
