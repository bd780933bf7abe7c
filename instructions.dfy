/**
  getNavigationInstruction (nav.js:603-633) and the texts updateNavigationInfo
  writes (nav.js:455-474): the bearing to the next waypoint is bucketed into
  eight compass points, and the instruction is picked from four tiers tested
  in a fixed order. The `progress` and `bearing` arguments play no part.
*/
module Instructions {
  import opened Geodesy
  import opened Progress

  /** The eight compass points, clockwise from north, 45 degrees apart. */
  const Directions: seq<string> :=
    ["north", "northeast", "east", "southeast", "south", "southwest", "west", "northwest"]

  /** JavaScript's `a % n` on integers: the remainder takes the sign of `a`. */
  function JsIntRem(a: int, n: int): int
    requires n > 0
  {
    if a >= 0 then a % n else -((-a) % n)
  }

  /** `Math.round(((bearing + 360) % 360) / 45) % 8`. */
  function CompassIndex(bearing: real): int {
    JsIntRem(JsRound(JsRem(bearing + 360.0, 360.0) / 45.0), 8)
  }

  /** `directions[index]`; an index outside the array reads `undefined`. */
  function Direction(index: int): string {
    if 0 <= index < |Directions| then Directions[index] else "undefined"
  }

  /** For a bearing in [0, 360) the normalisation `(b + 360) % 360` gives the bearing back. */
  lemma NormalisedBearing(b: real)
    requires 0.0 <= b < 360.0
    ensures JsRem(b + 360.0, 360.0) == b
  {
    assert 1.0 <= (b + 360.0) / 360.0 < 2.0;
    assert Trunc((b + 360.0) / 360.0) == 1;
  }

  /**
    For a bearing in [0, 360) the compass index is in 0..7: north covers
    [337.5, 360) and [0, 22.5), and point `k` covers `[45k - 22.5, 45k + 22.5)`;
    halves round up, so a bearing on a boundary goes to the next point clockwise.
  */
  lemma CompassSector(b: real, k: int)
    requires 0.0 <= b < 360.0
    ensures 0 <= CompassIndex(b) < 8
    ensures 0 <= k < 8 ==>
      (CompassIndex(b) == k <==>
        if k == 0 then b < 22.5 || b >= 337.5
        else 45.0 * (k as real) - 22.5 <= b < 45.0 * (k as real) + 22.5)
  {
    NormalisedBearing(b);
    var n := JsRound(b / 45.0);
    assert (n as real) <= b / 45.0 + 0.5 < (n as real) + 1.0;
    assert 0 <= n <= 8;
  }

  /** 22.5 degrees is a boundary, and rounds up to northeast; 337.5 and above is north. */
  lemma CompassBoundaries(b: real)
    requires 337.5 <= b < 360.0
    ensures Direction(CompassIndex(22.5)) == "northeast"
    ensures Direction(CompassIndex(b)) == "north"
  {
    CompassSector(22.5, 1);
    CompassSector(b, 0);
  }

  /** The decimal digits of `n`, as a template literal prints a whole number. */
  function NatToString(n: nat): (s: string)
    ensures |s| >= 1 && (n > 0 ==> s[0] != '0')
    ensures forall i :: 0 <= i < |s| ==> '0' <= s[i] <= '9'
    decreases n
  {
    if n < 10 then ["0123456789"[n]]
    else NatToString(n / 10) + ["0123456789"[n % 10]]
  }

  /** A whole number as a template literal prints it, with a leading '-' when negative. */
  function IntToString(i: int): string {
    if i < 0 then "-" + NatToString(-i) else NatToString(i)
  }

  /** The value a string of decimal digits denotes. */
  function DigitsValue(s: string): nat
    requires forall i :: 0 <= i < |s| ==> '0' <= s[i] <= '9'
  {
    if |s| == 0 then 0
    else DigitsValue(s[..|s| - 1]) * 10 + ((s[|s| - 1] as int) - ('0' as int))
  }

  /** Reading the printed digits back gives the number. */
  lemma {:induction false} NatToStringRoundTrip(n: nat)
    ensures DigitsValue(NatToString(n)) == n
    decreases n
  {
    if n < 10 {
      DigitValue(n);
    } else {
      NatToStringRoundTrip(n / 10);
      var s := NatToString(n);
      assert s[..|s| - 1] == NatToString(n / 10);
      DigitValue(n % 10);
    }
  }

  /** The digit printed for `d` reads back as `d`. */
  lemma DigitValue(d: nat)
    requires d < 10
    ensures ("0123456789"[d] as int) - ('0' as int) == d
  {
  }

  /** One instruction line, with the numbers it shows. */
  datatype Instruction =
    | Arrived
    | Approaching(confirmations: nat)
    | VeryClose
    | ContinueStraight
    | InMeters(meters: int, direction: string)
    | Head(direction: string, meters: int)

  /** The text shown for each instruction. */
  function Text(i: Instruction): string {
    match i
    case Arrived => "You have arrived!"
    case Approaching(c) => "Approaching destination (" + NatToString(c) + "/3 confirmations)..."
    case VeryClose => "Destination is very close!"
    case ContinueStraight => "Continue straight to the next waypoint"
    case InMeters(m, d) => "In " + IntToString(m) + " meters, continue " + d
    case Head(d, m) => "Head " + d + " for about " + IntToString(m) + " meters"
  }

  /** The six texts start with six different letters, so the first letter tells which one is shown. */
  lemma TextFirstLetter(i: Instruction)
    ensures |Text(i)| > 0
    ensures i.Arrived? <==> Text(i)[0] == 'Y'
    ensures i.Approaching? <==> Text(i)[0] == 'A'
    ensures i.VeryClose? <==> Text(i)[0] == 'D'
    ensures i.ContinueStraight? <==> Text(i)[0] == 'C'
    ensures i.InMeters? <==> Text(i)[0] == 'I'
    ensures i.Head? <==> Text(i)[0] == 'H'
  {
  }

  /** The tiers of getNavigationInstruction, for the path distance and the next waypoint's distance and bearing. */
  function Choose(distance: real, nextDistance: real, nextBearing: real): Instruction {
    var direction := Direction(CompassIndex(nextBearing));
    if distance < 10.0 then VeryClose
    else if nextDistance < 5.0 then ContinueStraight
    else if nextDistance < 20.0 then InMeters(JsRound(nextDistance), direction)
    else Head(direction, JsRound(nextDistance))
  }

  /**
    The tiers in order: a path distance under 10 m wins whatever the next
    waypoint; then a next waypoint under 5 m; then under 20 m, with the
    rounded distance between 5 and 20; otherwise "Head", with at least 20.
    Each shown number is within half a metre of the distance.
  */
  lemma ChooseTiers(distance: real, nextDistance: real, nextBearing: real)
    ensures Choose(distance, nextDistance, nextBearing) == VeryClose <==> distance < 10.0
    ensures Choose(distance, nextDistance, nextBearing) == ContinueStraight
        <==> distance >= 10.0 && nextDistance < 5.0
    ensures Choose(distance, nextDistance, nextBearing).InMeters?
        <==> distance >= 10.0 && 5.0 <= nextDistance < 20.0
    ensures Choose(distance, nextDistance, nextBearing).Head?
        <==> distance >= 10.0 && nextDistance >= 20.0
    ensures Choose(distance, nextDistance, nextBearing).InMeters? ==>
      && 5 <= Choose(distance, nextDistance, nextBearing).meters <= 20
      && nextDistance - 0.5 < Choose(distance, nextDistance, nextBearing).meters as real <= nextDistance + 0.5
    ensures Choose(distance, nextDistance, nextBearing).Head? ==>
      && Choose(distance, nextDistance, nextBearing).meters >= 20
      && nextDistance - 0.5 < Choose(distance, nextDistance, nextBearing).meters as real <= nextDistance + 0.5
  {
  }

  /** For a bearing from calculateBearing the direction word is one of the eight compass points. */
  lemma ChooseDirection(distance: real, nextDistance: real, nextBearing: real)
    requires 0.0 <= nextBearing < 360.0
    requires Choose(distance, nextDistance, nextBearing).InMeters? || Choose(distance, nextDistance, nextBearing).Head?
    ensures Choose(distance, nextDistance, nextBearing).direction in Directions
  {
    CompassSector(nextBearing, 0);
  }

  /** getNavigationInstruction for a user at `user` on `path`, `distance` being the remaining path distance. */
  function NavigationInstruction(g: Geo, user: Point, path: seq<Point>, distance: real): Instruction
    requires |path| >= 1
  {
    var next := NextWaypoint(g, user, path);
    Choose(distance, g.distance(user, next), CalculateBearing(g, user, next))
  }

  /** getNavigationInstruction: look up the next waypoint, then pick the tier. */
  method GetNavigationInstruction(g: Geo, user: Point, path: seq<Point>, progress: real, distance: real, bearing: real)
    returns (instruction: Instruction)
    requires |path| >= 1
    ensures instruction == NavigationInstruction(g, user, path, distance)
  {
    var nextWaypoint := GetNextWaypoint(g, user, path);
    var nextDistance := g.distance(user, nextWaypoint);
    var nextBearing := CalculateBearing(g, user, nextWaypoint);
    var index := CompassIndex(nextBearing);
    var direction := Direction(index);
    if distance < 10.0 {
      return VeryClose;
    }
    if nextDistance < 5.0 {
      return ContinueStraight;
    }
    if nextDistance < 20.0 {
      return InMeters(JsRound(nextDistance), direction);
    }
    return Head(direction, JsRound(nextDistance));
  }
}
