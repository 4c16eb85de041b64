/** The target-split predictor of train_model.py.

A target split (seconds per 500 m) for an interval workout is computed from
the athlete's erg test splits in four steps:
- a base pace that blends the 2k split into the 5k split as the interval
  distance grows from 750 m to 3000 m;
- three relative-speed factors, for the interval distance, the number of
  repetitions and the rest between them;
- their product applied to the base pace;
- a clamp of the result to within 20% of the base pace.

Floating point is modelled by `real`. The one transcendental step, `np.exp`,
is a parameter `exp` of the model: the lemmas assume only the facts about the
exponential function collected in `IsExp`.
 */
module TrainModel {

  /** The erg test splits, each in seconds per 500 m. The 30@20 split is
      accepted but takes no part in the prediction. */
  datatype ErgSplits = ErgSplits(latest2000m: real, latest5000m: real, latest30at20: real)

  /** The three relative speeds returned by `calculate_factors`. */
  datatype Factors = Factors(distance: real, reps: real, rest: real)

  /** Facts about the real exponential function that the model relies on:
      exp(0) = 1, exp is positive and strictly increasing, and
      exp(x) <= 1 / (1 - x) for x < 1 (the bound 1 + y <= exp(y) at y = -x). */
  ghost predicate IsExp(exp: real -> real)
  {
    && exp(0.0) == 1.0
    && ExpPositive(exp)
    && ExpIncreasing(exp)
    && ExpBelowReciprocal(exp)
  }

  ghost predicate ExpPositive(exp: real -> real)
  {
    forall x :: 0.0 < exp(x)
  }

  ghost predicate ExpIncreasing(exp: real -> real)
  {
    forall x, y :: x < y ==> exp(x) < exp(y)
  }

  /** exp(x) <= 1 / (1 - x) for x < 1, without the division. */
  ghost predicate ExpBelowReciprocal(exp: real -> real)
  {
    forall x :: x < 1.0 ==> exp(x) * (1.0 - x) <= 1.0
  }

  /** A function with all four `IsExp` facts: 1 / (1 - x) below 0 and
      1 + x from 0 on. The facts are therefore consistent, and the lemmas
      that assume them are not vacuous. */
  function ExpEnvelope(x: real): real
  {
    if x < 0.0 then 1.0 / (1.0 - x) else 1.0 + x
  }

  lemma ExpEnvelopeIsExp()
    ensures IsExp(ExpEnvelope)
  {
    var f: real -> real := ExpEnvelope;
    EnvelopePositive(f);
    EnvelopeIncreasingEverywhere(f);
    EnvelopeBoundEverywhere(f);
    assert f(0.0) == 1.0;
  }

  lemma EnvelopePositive(f: real -> real)
    requires f == ExpEnvelope
    ensures ExpPositive(f)
  {
    forall x
      ensures 0.0 < f(x)
    {
      EnvelopeBelowZero(x);
    }
  }

  lemma EnvelopeIncreasingEverywhere(f: real -> real)
    requires f == ExpEnvelope
    ensures ExpIncreasing(f)
  {
    forall x, y | x < y
      ensures f(x) < f(y)
    {
      EnvelopeIncreasing(x, y);
    }
  }

  lemma EnvelopeBoundEverywhere(f: real -> real)
    requires f == ExpEnvelope
    ensures ExpBelowReciprocal(f)
  {
    forall x | x < 1.0
      ensures f(x) * (1.0 - x) <= 1.0
    {
      EnvelopeBound(x);
    }
  }

  /** Below 0 the envelope lies in (0, 1) and undoes the factor 1 - x. */
  lemma EnvelopeBelowZero(x: real)
    ensures x < 0.0 ==> 0.0 < ExpEnvelope(x) < 1.0 && ExpEnvelope(x) * (1.0 - x) == 1.0
    ensures 0.0 < ExpEnvelope(x)
  {
    if x < 0.0 {
      var e := 1.0 / (1.0 - x);
      assert e * (1.0 - x) == 1.0;
      if e <= 0.0 {
        MulMonotone(1.0 - x, e, 0.0);
        assert false;
      }
      if 1.0 <= e {
        MulMonotone(1.0 - x, 1.0, e);
        assert false;
      }
    }
  }

  lemma EnvelopeIncreasing(x: real, y: real)
    requires x < y
    ensures ExpEnvelope(x) < ExpEnvelope(y)
  {
    EnvelopeBelowZero(x);
    EnvelopeBelowZero(y);
    if y < 0.0 {
      var ex, ey := ExpEnvelope(x), ExpEnvelope(y);
      assert ex * (1.0 - x) == ey * (1.0 - y);
      if ey <= ex {
        MulStrict(ey, 1.0 - y, 1.0 - x);
        MulMonotone(1.0 - x, ey, ex);
        assert false;
      }
    }
  }

  lemma EnvelopeBound(x: real)
    requires x < 1.0
    ensures ExpEnvelope(x) * (1.0 - x) <= 1.0
  {
    EnvelopeBelowZero(x);
    if 0.0 <= x {
      assert (1.0 + x) * (1.0 - x) == 1.0 - x * x;
      MulMonotone(x, 0.0, x);
    }
  }

  // ---------------------------------------------------------------------
  // Base pace: the 2k split blended into the 5k split
  // ---------------------------------------------------------------------

  /** How far `d` lies along the way from 750 m to 3000 m. */
  function BlendWeight(d: real): real
  {
    (d - 750.0) / (3000.0 - 750.0)
  }

  /** The point a fraction `w` of the way from `a` to `b`. */
  function Lerp(a: real, b: real, w: real): real
  {
    a * (1.0 - w) + b * w
  }

  function Min(a: real, b: real): real { if a <= b then a else b }
  function Max(a: real, b: real): real { if a <= b then b else a }

  /** The base pace for an interval of `d` metres: the 2k split up to 750 m,
      the 5k split from 3000 m, and in between a point strictly between the
      two splits (whenever they differ). */
  function BasePace(d: real, splits: ErgSplits): (base: real)
    ensures d <= 750.0 ==> base == splits.latest2000m
    ensures d >= 3000.0 ==> base == splits.latest5000m
    ensures Min(splits.latest2000m, splits.latest5000m) <= base <= Max(splits.latest2000m, splits.latest5000m)
    ensures 750.0 < d < 3000.0 && splits.latest2000m != splits.latest5000m ==>
              Min(splits.latest2000m, splits.latest5000m) < base < Max(splits.latest2000m, splits.latest5000m)
  {
    if d <= 750.0 then
      splits.latest2000m
    else if d >= 3000.0 then
      splits.latest5000m
    else
      var w := BlendWeight(d);
      LerpBetween(splits.latest2000m, splits.latest5000m, w);
      Lerp(splits.latest2000m, splits.latest5000m, w)
  }

  /** For a weight strictly between 0 and 1 the blend lies strictly between
      the two end points (when they differ). */
  lemma LerpBetween(a: real, b: real, w: real)
    requires 0.0 < w < 1.0
    ensures Min(a, b) <= Lerp(a, b, w) <= Max(a, b)
    ensures a != b ==> Min(a, b) < Lerp(a, b, w) < Max(a, b)
  {
    if a < b {
      LerpRising(a, b, w);
    } else if b < a {
      LerpRising(b, a, 1.0 - w);
      assert Lerp(b, a, 1.0 - w) == Lerp(a, b, w);
    } else {
      assert Lerp(a, b, w) == a * ((1.0 - w) + w);
    }
  }

  lemma LerpRising(a: real, b: real, w: real)
    requires 0.0 < w < 1.0
    requires a < b
    ensures a < Lerp(a, b, w) < b
  {
    assert Lerp(a, b, w) == a + (b - a) * w;
    MulStrict(b - a, 0.0, w);
    MulStrict(b - a, w, 1.0);
    assert (b - a) * 1.0 == b - a;
    assert (b - a) * 0.0 == 0.0;
  }

  /** Between 750 m and 3000 m the blend weight lies strictly between 0 and 1. */
  lemma BlendWeightBetween(d: real)
    requires 750.0 < d < 3000.0
    ensures 0.0 < BlendWeight(d) < 1.0
  {
  }

  /** The weight actually used: `BlendWeight` cut off at 0 and 1. */
  function ClippedWeight(d: real): real
  {
    if d <= 750.0 then 0.0 else if d >= 3000.0 then 1.0 else BlendWeight(d)
  }

  /** The clipped weight never decreases, and grows by at most 1/2250 per metre. */
  lemma ClippedWeightMonotone(d1: real, d2: real)
    requires d1 <= d2
    ensures 0.0 <= ClippedWeight(d2) - ClippedWeight(d1)
    ensures (ClippedWeight(d2) - ClippedWeight(d1)) * 2250.0 <= d2 - d1
  {
  }

  /** Every branch of the base pace is the same interpolation, with the
      weight cut off at 0 and 1; so the two threshold branches join the
      blend without a jump. */
  lemma BasePaceIsClippedBlend(d: real, splits: ErgSplits)
    ensures BasePace(d, splits) == Lerp(splits.latest2000m, splits.latest5000m, ClippedWeight(d))
  {
  }

  function Abs(x: real): real { if x < 0.0 then -x else x }

  lemma LerpDifference(a: real, b: real, w1: real, w2: real)
    ensures Lerp(a, b, w2) - Lerp(a, b, w1) == (b - a) * (w2 - w1)
  {
  }

  /** The base pace is continuous in the distance: it moves by at most
      |5k - 2k| / 2250 seconds per metre. */
  lemma BasePaceLipschitz(d1: real, d2: real, splits: ErgSplits)
    requires d1 <= d2
    ensures Abs(BasePace(d2, splits) - BasePace(d1, splits)) * 2250.0
            <= Abs(splits.latest5000m - splits.latest2000m) * (d2 - d1)
  {
    var a, b := splits.latest2000m, splits.latest5000m;
    var w1, w2 := ClippedWeight(d1), ClippedWeight(d2);
    BasePaceIsClippedBlend(d1, splits);
    BasePaceIsClippedBlend(d2, splits);
    ClippedWeightMonotone(d1, d2);
    LerpDifference(a, b, w1, w2);
    ScaledStep(b - a, w2 - w1, d2 - d1, BasePace(d2, splits) - BasePace(d1, splits));
  }

  /** If a step `dw` is at most `dd` / 2250, then `x == c * dw` is at most
      |c| * dd / 2250 in size. */
  lemma ScaledStep(c: real, dw: real, dd: real, x: real)
    requires x == c * dw
    requires 0.0 <= dw
    requires dw * 2250.0 <= dd
    ensures Abs(x) * 2250.0 <= Abs(c) * dd
  {
    var g := Abs(c);
    assert Abs(x) == g * dw by {
      if c < 0.0 {
        assert x == -(g * dw);
        MulMonotone(g, 0.0, dw);
      } else {
        assert x == g * dw;
      }
    }
    MulMonotone(g, dw * 2250.0, dd);
    assert g * (dw * 2250.0) == (g * dw) * 2250.0;
  }

  /** When the 5k split is the slower one, the base pace never decreases as
      the distance grows. */
  lemma BasePaceMonotone(d1: real, d2: real, splits: ErgSplits)
    requires d1 <= d2
    requires splits.latest2000m <= splits.latest5000m
    ensures BasePace(d1, splits) <= BasePace(d2, splits)
  {
    var a, b := splits.latest2000m, splits.latest5000m;
    var w1, w2 := ClippedWeight(d1), ClippedWeight(d2);
    BasePaceIsClippedBlend(d1, splits);
    BasePaceIsClippedBlend(d2, splits);
    ClippedWeightMonotone(d1, d2);
    LerpMonotone(a, b, w1, w2);
  }

  /** With the end points in order, the blend grows with the weight. */
  lemma LerpMonotone(a: real, b: real, w1: real, w2: real)
    requires a <= b
    requires w1 <= w2
    ensures Lerp(a, b, w1) <= Lerp(a, b, w2)
  {
    LerpDifference(a, b, w1, w2);
    MulMonotone(b - a, 0.0, w2 - w1);
    assert (b - a) * 0.0 == 0.0;
  }

  lemma MulMonotone(c: real, x: real, y: real)
    requires 0.0 <= c
    requires x <= y
    ensures c * x <= c * y
  {
  }

  lemma MulStrict(c: real, x: real, y: real)
    requires 0.0 < c
    requires x < y
    ensures c * x < c * y
  {
  }

  lemma CancelPositive(x: real, y: real, k: real)
    requires 0.0 < k
    requires x * k < y * k
    ensures x < y
  {
    if y <= x {
      MulMonotone(k, y, x);
    }
  }

  /** A product of two positive numbers grows when each of them does. */
  lemma PairProductMonotone(a1: real, b1: real, a2: real, b2: real)
    requires 0.0 < a1 <= a2 && 0.0 < b1 <= b2
    ensures 0.0 < a1 * b1 <= a2 * b2
  {
    MulMonotone(b1, a1, a2);
    MulMonotone(a2, b1, b2);
    MulStrict(a1, 0.0, b1);
  }

  /** A product of three positive numbers grows when each of them does. */
  lemma TripleProductMonotone(a1: real, b1: real, c1: real, a2: real, b2: real, c2: real)
    requires 0.0 < a1 <= a2 && 0.0 < b1 <= b2 && 0.0 < c1 <= c2
    ensures 0.0 < a1 * b1 * c1 <= a2 * b2 * c2
  {
    MulMonotone(b1, a1, a2);
    MulMonotone(a2, b1, b2);
    MulStrict(a1, 0.0, b1);
    var p1, p2 := a1 * b1, a2 * b2;
    assert 0.0 < p1 <= p2;
    MulMonotone(c1, p1, p2);
    MulMonotone(p2, c1, c2);
    MulStrict(p1, 0.0, c1);
  }

  /** Clamping the product of a growing positive base pace and a growing
      positive relative speed to within 20% of the base never decreases. */
  lemma ScaledClampMonotone(b1: real, s1: real, b2: real, s2: real)
    requires 0.0 < b1 <= b2 && 0.0 < s1 <= s2
    ensures Clamp(b1 * s1, b1 * 0.8, b1 * 1.2) <= Clamp(b2 * s2, b2 * 0.8, b2 * 1.2)
  {
    PairProductMonotone(b1, s1, b2, s2);
    ClampMonotone(b1 * s1, b1 * 0.8, b1 * 1.2, b2 * s2, b2 * 0.8, b2 * 1.2);
  }

  // ---------------------------------------------------------------------
  // The three relative-speed factors (calculate_factors)
  // ---------------------------------------------------------------------

  /** Distance factor: exponential saturation from 0.95 towards 1.18, on a
      scale of 2500 m. */
  function DistanceFactor(exp: real -> real, d: real): real
  {
    0.95 + 0.23 * (1.0 - exp(-d / 2500.0))
  }

  /** Repetitions factor: linear, through 0.95 at 1 rep and 1.05 at 50 reps. */
  function RepsFactor(n: real): real
  {
    0.95 + (n - 1.0) * (0.10 / (50.0 - 1.0))
  }

  /** Rest factor: linear, through 1.01 at 1 minute and 0.94 at 9 minutes. */
  function RestFactor(t: real): real
  {
    1.01 - (t - 1.0) * (0.07 / (9.0 - 1.0))
  }

  function CalculateFactors(exp: real -> real, d: real, n: real, t: real): Factors
  {
    Factors(DistanceFactor(exp, d), RepsFactor(n), RestFactor(t))
  }

  /** The distance factor is 0.95 at distance 0, lies strictly between 0.95
      and 1.18 for every positive distance, and never reaches 1.18. */
  lemma DistanceFactorBounds(exp: real -> real, d: real)
    requires IsExp(exp)
    ensures d == 0.0 ==> DistanceFactor(exp, d) == 0.95
    ensures 0.0 < d ==> 0.95 < DistanceFactor(exp, d) < 1.18
    ensures 0.0 <= d ==> 0.95 <= DistanceFactor(exp, d)
    ensures DistanceFactor(exp, d) < 1.18
  {
    assert 0.0 < exp(-d / 2500.0);
    if 0.0 < d {
      assert -d / 2500.0 < 0.0;
      assert exp(-d / 2500.0) < exp(0.0);
    }
  }

  /** The distance factor strictly increases with the distance. */
  lemma DistanceFactorIncreasing(exp: real -> real, d1: real, d2: real)
    requires IsExp(exp)
    requires d1 < d2
    ensures DistanceFactor(exp, d1) < DistanceFactor(exp, d2)
  {
    assert -d2 / 2500.0 < -d1 / 2500.0;
    assert exp(-d2 / 2500.0) < exp(-d1 / 2500.0);
  }

  lemma DistanceFactorNonDecreasing(exp: real -> real, d1: real, d2: real)
    requires IsExp(exp)
    requires d1 <= d2
    ensures DistanceFactor(exp, d1) <= DistanceFactor(exp, d2)
  {
    if d1 < d2 {
      DistanceFactorIncreasing(exp, d1, d2);
    }
  }

  /** The distance factor tends to its ceiling 1.18: for any tolerance `eps`,
      every distance of at least 575 / eps metres has a factor within `eps`
      of 1.18. */
  lemma DistanceFactorApproachesCeiling(exp: real -> real, eps: real, d: real)
    requires IsExp(exp)
    requires 0.0 < eps
    requires 575.0 / eps <= d
    ensures 1.18 - eps < DistanceFactor(exp, d)
  {
    var x := -d / 2500.0;
    ThresholdBound(eps, d);
    assert exp(x) * (1.0 - x) <= 1.0;
    ReciprocalBound(exp(x), d);
    CeilingStep(exp(x), d, eps);
  }

  /** A distance of at least 575 / eps metres is positive and at least
      575 / eps in the multiplied-out form. */
  lemma ThresholdBound(eps: real, d: real)
    requires 0.0 < eps
    requires 575.0 / eps <= d
    ensures 0.0 < d
    ensures 575.0 <= eps * d
  {
    assert eps * (575.0 / eps) == 575.0;
    MulMonotone(eps, 575.0 / eps, d);
  }

  lemma ReciprocalBound(e: real, d: real)
    requires 0.0 < d
    requires e * (1.0 - -d / 2500.0) <= 1.0
    ensures e * (2500.0 + d) <= 2500.0
  {
    assert 1.0 - -d / 2500.0 == (2500.0 + d) / 2500.0;
    assert e * (2500.0 + d) == (e * ((2500.0 + d) / 2500.0)) * 2500.0;
  }

  lemma CeilingStep(e: real, d: real, eps: real)
    requires 0.0 < eps && 0.0 < d
    requires e * (2500.0 + d) <= 2500.0
    requires 575.0 <= eps * d
    ensures 0.23 * e < eps
  {
    var k := 2500.0 + d;
    var p := e * k;
    MulStrict(eps, d, k);
    assert (0.23 * e) * k == 0.23 * p;
    CancelPositive(0.23 * e, eps, k);
  }

  /** The repetitions factor is 0.95 at 1 rep, 1.05 at 50 reps, and strictly
      increasing in between and beyond. */
  lemma RepsFactorCurve(n1: real, n2: real)
    ensures RepsFactor(1.0) == 0.95
    ensures RepsFactor(50.0) == 1.05
    ensures n1 < n2 ==> RepsFactor(n1) < RepsFactor(n2)
  {
  }

  /** The rest factor is 1.01 at 1 minute, 0.94 at 9 minutes, and strictly
      decreasing in the rest time. */
  lemma RestFactorCurve(t1: real, t2: real)
    ensures RestFactor(1.0) == 1.01
    ensures RestFactor(9.0) == 0.94
    ensures t1 < t2 ==> RestFactor(t2) < RestFactor(t1)
  {
  }

  /** The factors of the 8*500m (2) calibration workout, exactly as the
      formulas give them. */
  lemma CalibrationWorkoutFactors()
    ensures RepsFactor(8.0) == 0.95 + 1.0 / 70.0
    ensures RestFactor(2.0) == 1.00125
  {
  }

  // ---------------------------------------------------------------------
  // Combination and clamp (predict_target_split)
  // ---------------------------------------------------------------------

  /** The product of the three factors. */
  function RelativeSpeed(f: Factors): real
  {
    f.distance * f.reps * f.rest
  }

  /** `max(min(x, hi), lo)`: `x` limited to [lo, hi]; when the bounds are
      crossed (lo > hi) the lower bound wins. */
  function Clamp(x: real, lo: real, hi: real): (r: real)
    ensures lo <= r
    ensures lo <= hi ==> r <= hi
    ensures lo <= x <= hi ==> r == x
    ensures x < lo ==> r == lo
    ensures lo <= hi && hi < x ==> r == hi
    ensures hi < lo ==> r == lo
    ensures r == x || r == lo || r == hi
  {
    var capped := if x <= hi then x else hi;
    if capped >= lo then capped else lo
  }

  /** The clamp never decreases when either the value or the (ordered)
      bounds move up. */
  lemma ClampMonotone(x1: real, lo1: real, hi1: real, x2: real, lo2: real, hi2: real)
    requires x1 <= x2 && lo1 <= lo2 && hi1 <= hi2
    ensures Clamp(x1, lo1, hi1) <= Clamp(x2, lo2, hi2)
  {
  }

  /** The unclamped target: the base pace scaled by the relative speed. */
  function RawTarget(exp: real -> real, d: real, n: real, t: real, splits: ErgSplits): real
  {
    BasePace(d, splits) * RelativeSpeed(CalculateFactors(exp, d, n, t))
  }

  /** The predicted split for `n` intervals of `d` metres with `t` minutes
      of rest. For a positive base pace it lies within 20% of the base pace,
      and it is the unclamped target whenever that already lies there. */
  function PredictTargetSplit(exp: real -> real, d: real, n: real, t: real, splits: ErgSplits): (r: real)
    ensures var base := BasePace(d, splits);
            0.0 < base ==> 0.8 * base <= r <= 1.2 * base
    ensures var base := BasePace(d, splits);
            0.8 * base <= r
    ensures var base, raw := BasePace(d, splits), RawTarget(exp, d, n, t, splits);
            0.8 * base <= raw <= 1.2 * base ==> r == raw
    ensures var base, raw := BasePace(d, splits), RawTarget(exp, d, n, t, splits);
            0.0 < base && 1.2 * base < raw ==> r == 1.2 * base
    ensures var base, raw := BasePace(d, splits), RawTarget(exp, d, n, t, splits);
            raw < 0.8 * base ==> r == 0.8 * base
  {
    var base := BasePace(d, splits);
    var relativeSpeed := RelativeSpeed(CalculateFactors(exp, d, n, t));
    var target := base * relativeSpeed;
    Clamp(target, base * 0.8, base * 1.2)
  }

  /** Workout parameters inside the ranges the app accepts, with positive
      2k and 5k splits. */
  predicate ValidInputs(d: real, n: real, t: real, splits: ErgSplits)
  {
    && 50.0 <= d <= 5000.0
    && 1.0 <= n <= 50.0
    && 1.0 <= t <= 9.0
    && 0.0 < splits.latest2000m
    && 0.0 < splits.latest5000m
  }

  /** Over the valid inputs every factor is positive. */
  lemma FactorsPositive(exp: real -> real, d: real, n: real, t: real, splits: ErgSplits)
    requires IsExp(exp)
    requires ValidInputs(d, n, t, splits)
    ensures 0.0 < DistanceFactor(exp, d)
    ensures 0.0 < RepsFactor(n)
    ensures 0.0 < RestFactor(t)
    ensures 0.0 < BasePace(d, splits)
  {
    DistanceFactorBounds(exp, d);
    assert 0.0 < DistanceFactor(exp, d);
    assert 0.0 < RepsFactor(n);
    assert 0.0 < RestFactor(t);
    assert 0.0 < Min(splits.latest2000m, splits.latest5000m);
  }

  /** The predicted split is the clamp of the base pace scaled by the
      relative speed. */
  lemma PredictUnfold(exp: real -> real, d: real, n: real, t: real, splits: ErgSplits)
    ensures var base, f := BasePace(d, splits), CalculateFactors(exp, d, n, t);
            PredictTargetSplit(exp, d, n, t, splits) == Clamp(base * RelativeSpeed(f), base * 0.8, base * 1.2)
  {
  }

  /** The clamped target never decreases when the base pace and the three
      factors, all positive, do not decrease. */
  lemma ClampedProductMonotone(b1: real, f1: Factors, b2: real, f2: Factors)
    requires 0.0 < b1 <= b2
    requires 0.0 < f1.distance <= f2.distance
    requires 0.0 < f1.reps <= f2.reps
    requires 0.0 < f1.rest <= f2.rest
    ensures Clamp(b1 * RelativeSpeed(f1), b1 * 0.8, b1 * 1.2) <= Clamp(b2 * RelativeSpeed(f2), b2 * 0.8, b2 * 1.2)
  {
    TripleProductMonotone(f1.distance, f1.reps, f1.rest, f2.distance, f2.reps, f2.rest);
    ScaledClampMonotone(b1, RelativeSpeed(f1), b2, RelativeSpeed(f2));
  }

  /** More repetitions never give a faster target split. */
  lemma PredictMonotoneInReps(exp: real -> real, d: real, n1: real, n2: real, t: real, splits: ErgSplits)
    requires IsExp(exp)
    requires ValidInputs(d, n1, t, splits) && ValidInputs(d, n2, t, splits)
    requires n1 <= n2
    ensures PredictTargetSplit(exp, d, n1, t, splits) <= PredictTargetSplit(exp, d, n2, t, splits)
  {
    FactorsPositive(exp, d, n1, t, splits);
    FactorsPositive(exp, d, n2, t, splits);
    RepsFactorCurve(n1, n2);
    var base := BasePace(d, splits);
    ClampedProductMonotone(base, CalculateFactors(exp, d, n1, t), base, CalculateFactors(exp, d, n2, t));
  }

  /** More rest never gives a slower target split. */
  lemma PredictMonotoneInRest(exp: real -> real, d: real, n: real, t1: real, t2: real, splits: ErgSplits)
    requires IsExp(exp)
    requires ValidInputs(d, n, t1, splits) && ValidInputs(d, n, t2, splits)
    requires t1 <= t2
    ensures PredictTargetSplit(exp, d, n, t2, splits) <= PredictTargetSplit(exp, d, n, t1, splits)
  {
    FactorsPositive(exp, d, n, t1, splits);
    FactorsPositive(exp, d, n, t2, splits);
    RestFactorCurve(t1, t2);
    var base := BasePace(d, splits);
    ClampedProductMonotone(base, CalculateFactors(exp, d, n, t2), base, CalculateFactors(exp, d, n, t1));
  }

  /** When the 5k split is the slower one, a longer interval never gives a
      faster target split: the base pace and the distance factor both grow. */
  lemma PredictMonotoneInDistance(exp: real -> real, d1: real, d2: real, n: real, t: real, splits: ErgSplits)
    requires IsExp(exp)
    requires ValidInputs(d1, n, t, splits) && ValidInputs(d2, n, t, splits)
    requires d1 <= d2
    requires splits.latest2000m <= splits.latest5000m
    ensures PredictTargetSplit(exp, d1, n, t, splits) <= PredictTargetSplit(exp, d2, n, t, splits)
  {
    FactorsPositive(exp, d1, n, t, splits);
    DistanceFactorNonDecreasing(exp, d1, d2);
    BasePaceMonotone(d1, d2, splits);
    PredictMonotoneInParts(exp, d1, d2, n, t, splits);
  }

  /** The distance enters the prediction through the base pace and the
      distance factor only: when both grow (and are positive) so does the
      predicted split. */
  lemma PredictMonotoneInParts(exp: real -> real, d1: real, d2: real, n: real, t: real, splits: ErgSplits)
    requires 0.0 < BasePace(d1, splits) <= BasePace(d2, splits)
    requires 0.0 < DistanceFactor(exp, d1) <= DistanceFactor(exp, d2)
    requires 0.0 < RepsFactor(n) && 0.0 < RestFactor(t)
    ensures PredictTargetSplit(exp, d1, n, t, splits) <= PredictTargetSplit(exp, d2, n, t, splits)
  {
    ClampedProductMonotone(BasePace(d1, splits), CalculateFactors(exp, d1, n, t),
                           BasePace(d2, splits), CalculateFactors(exp, d2, n, t));
    PredictUnfold(exp, d1, n, t, splits);
    PredictUnfold(exp, d2, n, t, splits);
  }
}
