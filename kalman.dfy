/**
  The scalar Kalman filter that nav.js runs on latitude and on longitude
  (nav.js:62-88): `R` is the measurement noise, `Q` the process noise, `P`
  the estimation error and `X` the current estimate, `null` before the first
  measurement.
*/
module Kalman {
  import opened Wrappers
  import opened Geodesy

  /** The filter's four fields as a value. */
  datatype Estimate = Estimate(r: real, q: real, p: real, x: Option<real>)

  /** Noise values are positive and the error is not negative, as every filter nav.js builds has it. */
  predicate Stable(e: Estimate) {
    e.r > 0.0 && e.q > 0.0 && e.p >= 0.0
  }

  /** The gain `K = P_p / (P_p + R)` for the predicted error `P_p = P + Q`. */
  function Gain(e: Estimate): real
    requires e.p + e.q + e.r != 0.0
  {
    (e.p + e.q) / (e.p + e.q + e.r)
  }

  /**
    `filter(measurement)`: the first measurement is taken as it is and the
    error is left alone; later ones move `X` by the gain times the innovation
    and scale the predicted error by `1 - K`.
  */
  function Step(e: Estimate, m: real): (e': Estimate)
    requires e.x.None? || e.p + e.q + e.r != 0.0
    ensures e'.r == e.r && e'.q == e.q && e'.x.Some?
    ensures e.x.None? ==> e'.x == Some(m) && e'.p == e.p
  {
    if e.x.None? then e.(x := Some(m))
    else e.(x := Some(e.x.value + Gain(e) * (m - e.x.value)), p := (1.0 - Gain(e)) * (e.p + e.q))
  }

  /** For positive `pp` and `r`, the gain `pp / (pp + r)` is positive. */
  lemma GainPositive(pp: real, r: real)
    requires pp > 0.0 && r > 0.0
    ensures 0.0 < pp / (pp + r)
  {
    DivMul(pp, pp + r);
    if pp / (pp + r) <= 0.0 {
      MulNonpos(pp / (pp + r), pp + r);
      assert false;
    }
  }

  /** For positive `pp` and `r`, the gain `pp / (pp + r)` is below 1. */
  lemma GainBelowOne(pp: real, r: real)
    requires pp > 0.0 && r > 0.0
    ensures pp / (pp + r) < 1.0
  {
    DivMul(pp, pp + r);
    if pp / (pp + r) >= 1.0 {
      MulAtLeast(pp / (pp + r), pp + r);
      assert false;
    }
  }

  /** `(1 - K) pp = r K` for the gain `K = pp / (pp + r)`. */
  lemma GainIdentity(pp: real, r: real)
    requires pp > 0.0 && r > 0.0
    ensures (1.0 - pp / (pp + r)) * pp == r * (pp / (pp + r))
  {
    DivMul(pp, pp + r);
    calc {
      (1.0 - pp / (pp + r)) * pp;
    ==
      pp - (pp / (pp + r)) * pp;
    ==
      (pp / (pp + r)) * (pp + r) - (pp / (pp + r)) * pp;
    ==
      r * (pp / (pp + r));
    }
  }

  lemma MulNonpos(x: real, y: real)
    requires x <= 0.0 && y > 0.0
    ensures x * y <= 0.0
  {
    MulNonneg(-x, y);
  }

  lemma MulAtLeast(x: real, y: real)
    requires x >= 1.0 && y > 0.0
    ensures x * y >= y
  {
    MulNonneg(x - 1.0, y);
  }

  /** A later measurement moves the estimate toward it: the new `X` lies between the old `X` and the measurement. */
  lemma StepBetween(e: Estimate, m: real)
    requires Stable(e) && e.x.Some?
    ensures Between(e.x.value, Step(e, m).x.value, m)
  {
    GainPositive(e.p + e.q, e.r);
    GainBelowOne(e.p + e.q, e.r);
    ScaledBetween(e.x.value, m - e.x.value, Gain(e));
  }

  /** After a later measurement the error lies strictly between 0 and `R`. */
  lemma StepErrorBounds(e: Estimate, m: real)
    requires Stable(e) && e.x.Some?
    ensures 0.0 < Step(e, m).p < e.r
  {
    PosteriorPositive(e.p + e.q, e.r, Step(e, m).p);
    PosteriorBelowNoise(e.p + e.q, e.r, Step(e, m).p);
  }

  /** The new error `(1 - K) pp` is positive. */
  lemma PosteriorPositive(pp: real, r: real, p': real)
    requires pp > 0.0 && r > 0.0
    requires p' == (1.0 - pp / (pp + r)) * pp
    ensures 0.0 < p'
  {
    GainIdentity(pp, r);
    GainPositive(pp, r);
    MulPos(r, pp / (pp + r));
  }

  /** The new error `(1 - K) pp` is below `r`. */
  lemma PosteriorBelowNoise(pp: real, r: real, p': real)
    requires pp > 0.0 && r > 0.0
    requires p' == (1.0 - pp / (pp + r)) * pp
    ensures p' < r
  {
    GainIdentity(pp, r);
    GainBelowOne(pp, r);
    MulBelow(r, pp / (pp + r));
  }

  lemma MulBelow(r: real, k: real)
    requires r > 0.0 && k < 1.0
    ensures r * k < r
  {
    MulPos(r, 1.0 - k);
  }

  lemma MulCongruence(a: real, a': real, b: real, b': real)
    requires a == a' && b == b'
    ensures a * b == a' * b'
  {
  }

  /** The filter keeps its noise values positive and its error non-negative. */
  lemma StepStable(e: Estimate, m: real)
    requires Stable(e)
    ensures Stable(Step(e, m))
  {
    if e.x.Some? {
      StepErrorBounds(e, m);
    }
  }

  /** The error `(1 - K) pp` an update leaves for the predicted error `pp = P + Q`. */
  function Posterior(pp: real, r: real): real
    requires pp + r != 0.0
  {
    (1.0 - pp / (pp + r)) * pp
  }

  /** `(1 - K) pp = r - r (r / (pp + r))`. */
  lemma PosteriorForm(pp: real, r: real)
    requires pp > 0.0 && r > 0.0
    ensures Posterior(pp, r) == r - r * (r / (pp + r))
  {
    GainIdentity(pp, r);
    DivMul(pp, pp + r);
    DivMul(r, pp + r);
    ShareSum(pp, r, pp + r);
    calc {
      r * (pp / (pp + r));
    ==
      r * (1.0 - r / (pp + r));
    ==
      r - r * (r / (pp + r));
    }
  }

  lemma ShareSum(a: real, b: real, s: real)
    requires s == a + b && s != 0.0
    ensures a / s == 1.0 - b / s
  {
    calc {
      (a / s + b / s) * s;
    ==
      (a / s) * s + (b / s) * s;
    == { DivMul(a, s); DivMul(b, s); }
      a + b;
    ==
      s;
    }
    UnitFactor(a / s + b / s, s);
  }

  lemma UnitFactor(x: real, s: real)
    requires s != 0.0 && x * s == s
    ensures x == 1.0
  {
    assert (x - 1.0) * s == 0.0;
  }

  /** For a larger denominator the share `r / s` is no larger. */
  lemma ShareShrinks(r: real, s1: real, s2: real)
    requires r > 0.0 && 0.0 < s1 <= s2
    ensures r / s2 <= r / s1
  {
    DivMul(r, s1);
    DivMul(r, s2);
    if r / s2 > r / s1 {
      MulPos(r / s2 - r / s1, s1);
      MulNonneg(r / s2, s2 - s1);
      assert false;
    }
  }

  /** The error an update leaves grows with the predicted error. */
  lemma PosteriorMonotone(pp1: real, pp2: real, r: real)
    requires 0.0 < pp1 <= pp2 && r > 0.0
    ensures Posterior(pp1, r) <= Posterior(pp2, r)
  {
    PosteriorForm(pp1, r);
    PosteriorForm(pp2, r);
    ShareShrinks(r, pp1 + r, pp2 + r);
    MulNonneg(r, r / (pp1 + r) - r / (pp2 + r));
  }

  /** A stable filter whose next update would not raise its error. */
  predicate Settling(e: Estimate) {
    Stable(e) && Posterior(e.p + e.q, e.r) <= e.p
  }

  /** An error at least `R` is settling: an update leaves less than `R`. */
  lemma ErrorAboveNoiseSettles(e: Estimate)
    requires Stable(e) && e.p >= e.r
    ensures Settling(e)
  {
    PosteriorBelowNoise(e.p + e.q, e.r, Posterior(e.p + e.q, e.r));
  }

  /** The filters nav.js builds, with `R = Q = 0.01` and `P = 1`, start settling. */
  lemma PageFilterSettles()
    ensures Settling(Estimate(0.01, 0.01, 1.0, None))
  {
    ErrorAboveNoiseSettles(Estimate(0.01, 0.01, 1.0, None));
  }

  /** A settling filter does not raise its error, and stays settling. */
  lemma StepSettles(e: Estimate, m: real)
    requires Settling(e)
    ensures Settling(Step(e, m)) && Step(e, m).p <= e.p
  {
    StepStable(e, m);
    var e' := Step(e, m);
    if e.x.Some? {
      assert e'.p == Posterior(e.p + e.q, e.r);
      PosteriorMonotone(e'.p + e.q, e.p + e.q, e.r);
    }
  }

  /** The filter after the measurements `ms`, oldest first. */
  function Feed(e: Estimate, ms: seq<real>): (e': Estimate)
    requires Stable(e)
    ensures Stable(e') && e'.r == e.r && e'.q == e.q
  {
    if |ms| == 0 then e
    else
      var before := Feed(e, ms[..|ms| - 1]);
      StepStable(before, ms[|ms| - 1]);
      Step(before, ms[|ms| - 1])
  }

  /** From a settling start the filter stays settling, with an error no larger than at the start. */
  lemma {:induction false} FeedSettles(e: Estimate, ms: seq<real>)
    requires Settling(e)
    ensures Settling(Feed(e, ms)) && Feed(e, ms).p <= e.p
  {
    if |ms| > 0 {
      FeedSettles(e, ms[..|ms| - 1]);
      StepSettles(Feed(e, ms[..|ms| - 1]), ms[|ms| - 1]);
    }
  }

  /**
    From a settling start, such as the page's filters, no measurement ever
    raises the error estimate: it never increases under repeated filtering.
  */
  lemma ErrorNeverIncreases(e: Estimate, ms: seq<real>, m: real)
    requires Settling(e)
    ensures Feed(e, ms + [m]).p <= Feed(e, ms).p
  {
    assert (ms + [m])[..|ms|] == ms;
    FeedSettles(e, ms);
    StepSettles(Feed(e, ms), m);
  }

  /** `n` calls of `filter` with the same measurement. */
  function Iterate(e: Estimate, m: real, n: nat): (e': Estimate)
    requires Stable(e)
    ensures Stable(e') && e'.r == e.r && e'.q == e.q
    ensures n > 0 ==> e'.x.Some?
    decreases n
  {
    if n == 0 then e
    else
      StepStable(e, m);
      Iterate(Step(e, m), m, n - 1)
  }

  /** Once the estimate equals a measurement, filtering that measurement again leaves it there. */
  lemma {:induction false} FixedPoint(e: Estimate, m: real, n: nat)
    requires Stable(e) && e.x == Some(m)
    ensures Iterate(e, m, n).x == Some(m)
    decreases n
  {
    if n > 0 {
      calc {
        Step(e, m).x.value;
      ==
        m + Gain(e) * (m - m);
      == { assert m - m == 0.0; }
        m + Gain(e) * 0.0;
      ==
        m;
      }
      StepStable(e, m);
      FixedPoint(Step(e, m), m, n - 1);
    }
  }

  /** A fresh filter fed one constant measurement reports exactly that measurement. */
  lemma FreshFilterConstantInput(e: Estimate, m: real, n: nat)
    requires Stable(e) && e.x.None? && n > 0
    ensures Iterate(e, m, n).x == Some(m)
  {
    StepStable(e, m);
    FixedPoint(Step(e, m), m, n - 1);
  }

  /** Under a constant measurement the estimate never moves away from it. */
  lemma {:induction false} ConstantInputApproaches(e: Estimate, m: real, n: nat)
    requires Stable(e) && e.x.Some?
    ensures Dist(m, Iterate(e, m, n).x.value) <= Dist(m, e.x.value)
    decreases n
  {
    if n > 0 {
      StepBetween(e, m);
      StepStable(e, m);
      ConstantInputApproaches(Step(e, m), m, n - 1);
    }
  }

  function Dist(a: real, b: real): real {
    if a <= b then b - a else a - b
  }

  /** The filter object of nav.js; `R` and `Q` are never reassigned after construction. */
  class KalmanFilter {
    const R: real
    const Q: real
    var P: real
    var X: Option<real>

    function Model(): Estimate
      reads this
    {
      Estimate(R, Q, P, X)
    }

    predicate Valid()
      reads this
    {
      Stable(Model())
    }

    /** `new KalmanFilter(R, Q)`: the error starts at 1 and there is no estimate yet. */
    constructor (r: real, q: real)
      requires r > 0.0 && q > 0.0
      ensures Valid() && Model() == Estimate(r, q, 1.0, None)
    {
      R := r;
      Q := q;
      P := 1.0;
      X := None;
    }

    /** `filter(measurement)`: update the fields in place and return the new estimate. */
    method Filter(measurement: real) returns (estimate: real)
      requires Valid()
      modifies this
      ensures Valid()
      ensures Model() == Step(old(Model()), measurement)
      ensures X == Some(estimate)
    {
      ghost var before := Model();
      StepStable(before, measurement);
      if X.None? {
        X := Some(measurement);
        assert Model() == Step(before, measurement);
        return measurement;
      }
      var xp := X.value;
      var pp := P + Q;
      var k := pp / (pp + R);
      assert k == Gain(before);
      X := Some(xp + k * (measurement - xp));
      P := (1.0 - k) * pp;
      estimate := X.value;
      MulCongruence(k, Gain(before), measurement - xp, measurement - before.x.value);
      MulCongruence(1.0 - k, 1.0 - Gain(before), pp, before.p + before.q);
      assert xp == before.x.value;
      calc {
        X.value;
      ==
        xp + k * (measurement - xp);
      ==
        before.x.value + Gain(before) * (measurement - before.x.value);
      ==
        Step(before, measurement).x.value;
      }
      assert Model() == Step(before, measurement);
    }
  }
}
