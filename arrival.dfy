/**
  The arrival counter of updateNavigationInfo (nav.js:452-470): each reading
  inside the destination radius (plus the GPS accuracy) adds a confirmation,
  a reading outside resets the count to 0, and from the third confirmation
  on `destinationReached` is set. Nothing here clears `destinationReached`;
  only initNavigation does.
*/
module Arrival {

  /** `arrivalConfirmationCount` and `destinationReached`. */
  datatype Arrival = Arrival(count: nat, reached: bool)

  /** The number of confirmations updateNavigationInfo asks for. */
  const Confirmations: nat := 3

  /** One call of updateNavigationInfo with a position, `inside` being `distance < arrivalThreshold`. */
  function ArrivalStep(a: Arrival, inside: bool): (a': Arrival)
    ensures inside ==> a'.count == a.count + 1
    ensures !inside ==> a'.count == 0
    ensures a'.reached <==> a.reached || (inside && a.count + 1 >= Confirmations)
  {
    if inside then
      if a.count + 1 >= Confirmations then Arrival(a.count + 1, true) else Arrival(a.count + 1, a.reached)
    else Arrival(0, a.reached)
  }

  /** The state after a sequence of readings, oldest first. */
  function Run(a: Arrival, readings: seq<bool>): Arrival {
    if |readings| == 0 then a
    else ArrivalStep(Run(a, readings[..|readings| - 1]), readings[|readings| - 1])
  }

  /** How many of the latest readings in a row were inside. */
  function TrailingInside(readings: seq<bool>): (n: nat)
    ensures n <= |readings|
  {
    if |readings| == 0 || !readings[|readings| - 1] then 0
    else TrailingInside(readings[..|readings| - 1]) + 1
  }

  /** After a reset the counter is the number of latest readings in a row that were inside. */
  lemma {:induction false} CountIsTrailingInside(reached: bool, readings: seq<bool>)
    ensures Run(Arrival(0, reached), readings).count == TrailingInside(readings)
  {
    if |readings| > 0 {
      CountIsTrailingInside(reached, readings[..|readings| - 1]);
    }
  }

  /** The trailing run is at least `k` long exactly when the last `k` readings are all inside. */
  lemma {:induction false} TrailingInsideAtLeast(readings: seq<bool>, k: nat)
    requires k <= |readings|
    ensures TrailingInside(readings) >= k <==>
      forall j :: |readings| - k <= j < |readings| ==> readings[j]
  {
    if k > 0 {
      var init := readings[..|readings| - 1];
      TrailingInsideAtLeast(init, k - 1);
      assert forall j :: |readings| - k <= j < |readings| - 1 ==> init[j] == readings[j];
    }
  }

  /** Three readings in a row inside the radius, ending at index `e`. */
  predicate ThreeInsideEndingAt(readings: seq<bool>, e: int) {
    2 <= e < |readings| && readings[e - 2] && readings[e - 1] && readings[e]
  }

  /**
    From the state initNavigation leaves, the destination counts as reached
    exactly when some three readings in a row were inside the radius; a
    single reading outside between them starts the count again.
  */
  lemma {:induction false} ReachedIffThreeInARow(readings: seq<bool>)
    ensures Run(Arrival(0, false), readings).reached
        <==> exists e :: ThreeInsideEndingAt(readings, e)
  {
    if |readings| > 0 {
      var init := readings[..|readings| - 1];
      var last := |readings| - 1;
      ReachedIffThreeInARow(init);
      CountIsTrailingInside(false, init);
      if exists e :: ThreeInsideEndingAt(init, e) {
        var e :| ThreeInsideEndingAt(init, e);
        assert ThreeInsideEndingAt(readings, e);
      }
      if exists e :: ThreeInsideEndingAt(readings, e) {
        var e :| ThreeInsideEndingAt(readings, e);
        if e < last {
          assert ThreeInsideEndingAt(init, e);
        } else {
          TrailingInsideAtLeast(init, 2);
        }
      }
      if readings[last] && TrailingInside(init) >= 2 {
        TrailingInsideAtLeast(init, 2);
        assert ThreeInsideEndingAt(readings, last);
      }
    }
  }

  /** Once set, `destinationReached` stays set whatever readings follow. */
  lemma {:induction false} ReachedStays(a: Arrival, readings: seq<bool>)
    requires a.reached
    ensures Run(a, readings).reached
  {
    if |readings| > 0 {
      ReachedStays(a, readings[..|readings| - 1]);
    }
  }
}
