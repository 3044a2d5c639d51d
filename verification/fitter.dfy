/** The single-segment fitter (src/fitting/fitter.rs): fixes the endpoints of
    a quadratic Bézier to the first and last point of a range, gives every
    point a chord-length parameter, and solves a one-unknown least-squares
    problem per axis for the control point. */
module Fitter {
  import opened Numeric
  import opened Point
  import opened Bezier

  /** `FitError`: a fitted curve together with its fitting error. */
  datatype FitError = FitError(bezier: QuadraticBezier, error: real)

  /** Threshold used by the source for "numerically zero" (`1e-10`). */
  const Epsilon: real := 0.0000000001

  // ---------------------------------------------------------------------
  // Chord-length parametrisation (`compute_t_values`)
  // ---------------------------------------------------------------------

  /** The cumulative polyline length up to each point: `distances[i]` of the
      source, with `distances[0] = 0`. */
  function ChordLengths(points: seq<Point2D>, sqrt: real -> real): (d: seq<real>)
    requires IsSqrt(sqrt)
    ensures |d| == |points|
    ensures |points| > 0 ==> d[0] == 0.0
    ensures forall i :: 1 <= i < |d| ==>
              d[i] == d[i - 1] + DistanceTo(points[i], points[i - 1], sqrt)
    ensures forall i, j :: 0 <= i <= j < |d| ==> 0.0 <= d[i] <= d[j]
    decreases |points|
  {
    if |points| <= 1 then seq(|points|, _ => 0.0)
    else
      var prefix := points[..|points| - 1];
      var d := ChordLengths(prefix, sqrt);
      assert forall i :: 0 <= i < |prefix| ==> prefix[i] == points[i];
      d + [d[|d| - 1] + DistanceTo(points[|points| - 1], points[|points| - 2], sqrt)]
  }

  /** Evenly spaced parameters `i / max(n-1, 1)`. */
  function UniformParams(n: nat): (t: seq<real>)
    ensures |t| == n
    ensures forall i :: 0 <= i < n ==> t[i] == SampleParam(i, n)
    ensures forall i :: 0 <= i < n ==> 0.0 <= t[i] <= 1.0
    ensures forall i, j :: 0 <= i <= j < n ==> t[i] <= t[j]
  {
    var t := seq(n, i requires 0 <= i < n => SampleParam(i, n));
    forall i, j | 0 <= i <= j < n
      ensures t[i] <= t[j]
    {
      SampleParamMonotone(i, j, n);
    }
    t
  }

  /** Cumulative lengths divided by the total length. */
  function NormalisedLengths(d: seq<real>, total: real): (t: seq<real>)
    requires total > 0.0
    requires forall i, j :: 0 <= i <= j < |d| ==> 0.0 <= d[i] <= d[j]
    requires forall i :: 0 <= i < |d| ==> d[i] <= total
    ensures |t| == |d|
    ensures forall i :: 0 <= i < |d| ==> t[i] == Ratio(d[i], total)
    ensures forall i :: 0 <= i < |d| ==> 0.0 <= t[i] <= 1.0
    ensures forall i, j :: 0 <= i <= j < |d| ==> t[i] <= t[j]
  {
    var t := seq(|d|, i requires 0 <= i < |d| => Ratio(d[i], total));
    assert forall i, j :: 0 <= i <= j < |d| ==> t[i] <= t[j] by {
      forall i, j | 0 <= i <= j < |d| {
        RatioMonotone(d[i], d[j], total);
      }
    }
    t
  }

  /** `compute_t_values`: the chord-length parameters, or evenly spaced
      parameters when the polyline has (numerically) no length. The source
      indexes `distances[n - 1]`, so it needs at least one point. */
  function TValues(points: seq<Point2D>, sqrt: real -> real): (t: seq<real>)
    requires IsSqrt(sqrt)
    requires |points| >= 1
    ensures |t| == |points|
    ensures forall i :: 0 <= i < |t| ==> 0.0 <= t[i] <= 1.0
    ensures forall i, j :: 0 <= i <= j < |t| ==> t[i] <= t[j]
    ensures t[0] == 0.0
    ensures |points| >= 2 ==> t[|t| - 1] == 1.0
    ensures var d := ChordLengths(points, sqrt);
            d[|d| - 1] >= Epsilon ==> forall i :: 0 <= i < |t| ==> t[i] == Ratio(d[i], d[|d| - 1])
    ensures var d := ChordLengths(points, sqrt);
            d[|d| - 1] < Epsilon ==> t == UniformParams(|points|)
  {
    var n := |points|;
    var d := ChordLengths(points, sqrt);
    var total := d[n - 1];
    if total < Epsilon then UniformParams(n)
    else NormalisedLengths(d, total)
  }

  // ---------------------------------------------------------------------
  // The least-squares problem for the control point
  // ---------------------------------------------------------------------

  /** The Bernstein weight of the control point, B1(t) = 2(1-t)t. */
  function Weight(t: real): real
  {
    2.0 * (1.0 - t) * t
  }

  /** Points whose weight is numerically zero are left out of the sums. */
  predicate Included(t: real)
  {
    var w := Weight(t);
    !((if w >= 0.0 then w else -w) < Epsilon)
  }

  /** The observation minus the known start and end point contributions,
      on one axis. */
  function Target(a: real, t: real, a0: real, a2: real): real
  {
    a - (1.0 - t) * (1.0 - t) * a0 - t * t * a2
  }

  /** The accumulators `sum_x`, `sum_y`, `sum_weight` of the normal equation. */
  datatype NormalSums = NormalSums(sx: real, sy: real, sw: real)

  /** One loop iteration: a point with weight `w` and targets `gx`, `gy`. */
  function Accumulate(s: NormalSums, w: real, gx: real, gy: real): NormalSums
  {
    NormalSums(s.sx + w * gx, s.sy + w * gy, s.sw + Square(w))
  }

  /** The normal-equation sums over the included points, accumulated in index
      order as the source's loop does. */
  function Normal(points: seq<Point2D>, ts: seq<real>, p0: Point2D, p2: Point2D): (s: NormalSums)
    requires |ts| == |points|
    ensures 0.0 <= s.sw
    decreases |points|
  {
    if |points| == 0 then NormalSums(0.0, 0.0, 0.0)
    else
      var k := |points| - 1;
      var s := Normal(points[..k], ts[..k], p0, p2);
      var t := ts[k];
      if Included(t) then
        Accumulate(s, Weight(t), Target(points[k].x, t, p0.x, p2.x), Target(points[k].y, t, p0.y, p2.y))
      else s
  }

  /** The summed squared targets per axis: the constant part of the objective. */
  datatype Energy = Energy(ex: real, ey: real)

  function AddEnergy(e: Energy, gx: real, gy: real): Energy
  {
    Energy(e.ex + Square(gx), e.ey + Square(gy))
  }

  /** The energy over the included points, accumulated like `Normal`. */
  function TargetEnergy(points: seq<Point2D>, ts: seq<real>, p0: Point2D, p2: Point2D): (e: Energy)
    requires |ts| == |points|
    decreases |points|
  {
    if |points| == 0 then Energy(0.0, 0.0)
    else
      var k := |points| - 1;
      var e := TargetEnergy(points[..k], ts[..k], p0, p2);
      var t := ts[k];
      if Included(t) then
        AddEnergy(e, Target(points[k].x, t, p0.x, p2.x), Target(points[k].y, t, p0.y, p2.y))
      else e
  }

  /** The solution of the 1x1 normal equation per axis, or the midpoint of the
      endpoints when the system is (numerically) singular. */
  function SolveControl(s: NormalSums, p0: Point2D, p2: Point2D): (p1: Point2D)
    ensures s.sw > Epsilon ==> p1.x * s.sw == s.sx && p1.y * s.sw == s.sy
    ensures s.sw <= Epsilon ==> p1 == Point2D((p0.x + p2.x) / 2.0, (p0.y + p2.y) / 2.0)
  {
    if s.sw > Epsilon then Point2D(Ratio(s.sx, s.sw), Ratio(s.sy, s.sw)) else Lerp(p0, p2, 0.5)
  }

  /** The least-squares objective: the summed squared distance between each
      included point and the curve at that point's parameter. */
  function Residual(c: QuadraticBezier, points: seq<Point2D>, ts: seq<real>): (r: real)
    requires |ts| == |points|
    ensures 0.0 <= r
    decreases |points|
  {
    if |points| == 0 then 0.0
    else
      var k := |points| - 1;
      var r := Residual(c, points[..k], ts[..k]);
      if Included(ts[k]) then r + DistanceSquared(Evaluate(c, ts[k]), points[k]) else r
  }

  /** The least-squares objective on one axis as a quadratic in the control
      coordinate `c`: `c^2 W - 2 c X + E`. */
  function Quad(c: real, wsum: real, xsum: real, e: real): real
  {
    Square(c) * wsum - 2.0 * c * xsum + e
  }

  /** The objective at control point `c` written through the sums. */
  function Objective(c: Point2D, s: NormalSums, e: Energy): real
  {
    Quad(c.x, s.sw, s.sx, e.ex) + Quad(c.y, s.sw, s.sy, e.ey)
  }

  /** With fixed endpoints, a curve coordinate's offset from a point is
      affine in the control coordinate: B(t) - P = w(t) p1 - target. */
  lemma AxisOffset(a0: real, a1: real, a2: real, pa: real, t: real)
    ensures Blend(a0, a1, a2, t) - pa == Weight(t) * a1 - Target(pa, t, a0, a2)
  {
  }

  /** Adding one squared residual `d^2` with `d = w c - g` adds `w^2` to `W`,
      `w g` to `X` and `g^2` to `E`. */
  lemma QuadStep(c: real, wsum: real, xsum: real, e: real, w: real, g: real)
    ensures Quad(c, wsum, xsum, e) + Square(w * c - g)
            == Quad(c, wsum + Square(w), xsum + w * g, e + Square(g))
  {
  }

  /** Accumulating an included point adds exactly that point's squared
      distance from the curve to the objective. */
  lemma AccumulateStep(p0: Point2D, p1: Point2D, p2: Point2D, p: Point2D, t: real, s: NormalSums, e: Energy)
    ensures var gx := Target(p.x, t, p0.x, p2.x);
            var gy := Target(p.y, t, p0.y, p2.y);
            Objective(p1, Accumulate(s, Weight(t), gx, gy), AddEnergy(e, gx, gy))
            == Objective(p1, s, e) + DistanceSquared(Evaluate(QuadraticBezier(p0, p1, p2), t), p)
  {
    AxisOffset(p0.x, p1.x, p2.x, p.x, t);
    AxisOffset(p0.y, p1.y, p2.y, p.y, t);
    QuadStep(p1.x, s.sw, s.sx, e.ex, Weight(t), Target(p.x, t, p0.x, p2.x));
    QuadStep(p1.y, s.sw, s.sy, e.ey, Weight(t), Target(p.y, t, p0.y, p2.y));
  }

  /** `AccumulateStep` for every point at once, so that it applies to the
      terms of a proof without restating them. */
  lemma AccumulateSteps()
    ensures forall p0: Point2D, p1: Point2D, p2: Point2D, p: Point2D, t: real, s: NormalSums, e: Energy
              {:trigger DistanceSquared(Evaluate(QuadraticBezier(p0, p1, p2), t), p), Objective(p1, s, e)} ::
              var gx := Target(p.x, t, p0.x, p2.x);
              var gy := Target(p.y, t, p0.y, p2.y);
              Objective(p1, Accumulate(s, Weight(t), gx, gy), AddEnergy(e, gx, gy))
              == Objective(p1, s, e) + DistanceSquared(Evaluate(QuadraticBezier(p0, p1, p2), t), p)
  {
    forall p0: Point2D, p1: Point2D, p2: Point2D, p: Point2D, t: real, s: NormalSums, e: Energy {
      AccumulateStep(p0, p1, p2, p, t, s, e);
    }
  }

  /** The objective is a quadratic in the control point whose coefficients are
      the normal-equation sums. */
  lemma {:induction false} ResidualQuadratic(points: seq<Point2D>, ts: seq<real>, p0: Point2D, p1: Point2D, p2: Point2D)
    requires |ts| == |points|
    ensures Residual(QuadraticBezier(p0, p1, p2), points, ts)
            == Objective(p1, Normal(points, ts, p0, p2), TargetEnergy(points, ts, p0, p2))
    decreases |points|
  {
    if |points| > 0 {
      ResidualQuadratic(points[..|points| - 1], ts[..|points| - 1], p0, p1, p2);
      AccumulateSteps();
    }
  }

  /** A one-variable quadratic `c^2 W - 2 c X + E` with `W > 0` is least at
      `c = X / W`. */
  lemma QuadraticMinimum(wsum: real, xsum: real, e: real, a: real, c: real)
    requires wsum > 0.0
    requires a * wsum == xsum
    ensures Quad(a, wsum, xsum, e) <= Quad(c, wsum, xsum, e)
  {
    var d := c - a;
    assert Quad(c, wsum, xsum, e) - Quad(a, wsum, xsum, e) == wsum * Square(d);
    assert wsum * Square(d) >= 0.0;
  }

  /** Written through the sums, the objective is least at the control point
      `SolveControl` picks, whenever the system is regular. */
  lemma SolveControlMinimises(s: NormalSums, e: Energy, p0: Point2D, p2: Point2D, q: Point2D)
    requires s.sw > Epsilon
    ensures Objective(SolveControl(s, p0, p2), s, e) <= Objective(q, s, e)
  {
    var p1 := SolveControl(s, p0, p2);
    QuadraticMinimum(s.sw, s.sx, e.ex, p1.x, q.x);
    QuadraticMinimum(s.sw, s.sy, e.ey, p1.y, q.y);
  }

  /** The control point the fitter chooses minimises the least-squares
      objective over the included points among all curves with the same
      endpoints, whenever the normal equation is not singular. */
  lemma ControlMinimisesResidual(points: seq<Point2D>, ts: seq<real>, p0: Point2D, p2: Point2D, q: Point2D)
    requires |ts| == |points|
    requires Normal(points, ts, p0, p2).sw > Epsilon
    ensures var p1 := SolveControl(Normal(points, ts, p0, p2), p0, p2);
            Residual(QuadraticBezier(p0, p1, p2), points, ts)
            <= Residual(QuadraticBezier(p0, q, p2), points, ts)
  {
    var s := Normal(points, ts, p0, p2);
    ResidualQuadratic(points, ts, p0, SolveControl(s, p0, p2), p2);
    ResidualQuadratic(points, ts, p0, q, p2);
    SolveControlMinimises(s, TargetEnergy(points, ts, p0, p2), p0, p2, q);
  }

  // ---------------------------------------------------------------------
  // The fitting error (`compute_error`)
  // ---------------------------------------------------------------------

  /** The squared sampled distance from each point to the curve. */
  function SquaredDistances(c: QuadraticBezier, points: seq<Point2D>, sqrt: real -> real): (s: seq<real>)
    requires IsSqrt(sqrt)
    ensures |s| == |points|
    ensures forall i :: 0 <= i < |s| ==> s[i] == Square(DistanceToPoint(c, points[i], sqrt))
  {
    seq(|points|, i requires 0 <= i < |points| => Square(DistanceToPoint(c, points[i], sqrt)))
  }

  /** The arithmetic mean of a sequence of reals, zero when it is empty. */
  function Mean(s: seq<real>): real
  {
    if |s| == 0 then 0.0 else Ratio(Sum(s), |s| as real)
  }

  /** The mean of non-negative terms is non-negative. */
  lemma MeanNonNegative(s: seq<real>)
    requires forall i :: 0 <= i < |s| ==> 0.0 <= s[i]
    ensures 0.0 <= Mean(s)
  {
    SumNonNegative(s);
  }

  /** The mean of terms bounded by `b` is bounded by `b`. */
  lemma MeanBound(s: seq<real>, b: real)
    requires forall i :: 0 <= i < |s| ==> s[i] <= b
    requires 0.0 <= b
    ensures Mean(s) <= b
  {
    if |s| > 0 {
      SumBounds(s, b);
      RatioBound(Sum(s), |s| as real, b);
    }
  }

  lemma RatioBound(a: real, n: real, b: real)
    requires n > 0.0 && a <= n * b
    ensures Ratio(a, n) <= b
  {
    assert Ratio(a, n) - b == (a - n * b) / n;
  }

  /** `compute_error`: the mean squared sampled distance of the points to the
      curve, and zero for no points. */
  function ComputeError(c: QuadraticBezier, points: seq<Point2D>, sqrt: real -> real): (e: real)
    requires IsSqrt(sqrt)
    ensures 0.0 <= e
    ensures |points| == 0 ==> e == 0.0
  {
    var s := SquaredDistances(c, points, sqrt);
    MeanNonNegative(s);
    Mean(s)
  }

  /** The mean, counted once per term, adds up to the sum of the terms. */
  lemma MeanRepeated(s: seq<real>)
    ensures Times(Mean(s), |s|) == Sum(s)
  {
    if |s| > 0 {
      TimesIsProduct(Mean(s), |s|);
    }
  }

  /** The error is the mean of the squared sampled distances: counted once
      per point it adds up to their sum, so every point weighs the same (a
      maximum deviation or a constant would not satisfy this). */
  lemma ComputeErrorIsMean(c: QuadraticBezier, points: seq<Point2D>, sqrt: real -> real)
    requires IsSqrt(sqrt)
    ensures Times(ComputeError(c, points, sqrt), |points|) == Sum(SquaredDistances(c, points, sqrt))
  {
    ComputeErrorUnfold(c, points, sqrt);
    MeanRepeated(SquaredDistances(c, points, sqrt));
  }

  /** The error is the mean of the squared sampled distances. */
  lemma ComputeErrorUnfold(c: QuadraticBezier, points: seq<Point2D>, sqrt: real -> real)
    requires IsSqrt(sqrt)
    ensures ComputeError(c, points, sqrt) == Mean(SquaredDistances(c, points, sqrt))
  { }

  /** The error is bounded by any bound on the individual squared distances. */
  lemma ErrorBoundedByWorstPoint(c: QuadraticBezier, points: seq<Point2D>, sqrt: real -> real, b: real)
    requires IsSqrt(sqrt)
    requires forall i :: 0 <= i < |points| ==> Square(DistanceToPoint(c, points[i], sqrt)) <= b
    requires 0.0 <= b
    ensures ComputeError(c, points, sqrt) <= b
  {
    MeanBound(SquaredDistances(c, points, sqrt), b);
  }

  /** Points lying on the start of the curve contribute no error. */
  lemma ErrorZeroOnStartPoint(c: QuadraticBezier, points: seq<Point2D>, sqrt: real -> real)
    requires IsSqrt(sqrt)
    requires forall i :: 0 <= i < |points| ==> points[i] == c.p0
    ensures ComputeError(c, points, sqrt) == 0.0
  {
    forall i | 0 <= i < |points|
      ensures Square(DistanceToPoint(c, points[i], sqrt)) <= 0.0
    {
      var d := DistanceToPoint(c, points[i], sqrt);
      assert d <= DistanceTo(c.p0, points[i], sqrt) == 0.0;
    }
    ErrorBoundedByWorstPoint(c, points, sqrt, 0.0);
  }

  // ---------------------------------------------------------------------
  // `fit_segment`
  // ---------------------------------------------------------------------

  /** `fit_segment`: the fitted curve and its error for a point range. The
      source's `n < 3` branch after the `n == 2` case can never run and has no
      counterpart here. */
  function FitSegment(points: seq<Point2D>, sqrt: real -> real): (f: FitError)
    requires IsSqrt(sqrt)
    ensures 0.0 <= f.error
    ensures |points| == 0 ==>
              f.bezier == QuadraticBezier(Point2D(0.0, 0.0), Point2D(0.0, 0.0), Point2D(0.0, 0.0))
              && f.error == 0.0
    ensures |points| == 1 ==>
              f.bezier == QuadraticBezier(points[0], points[0], points[0]) && f.error == 0.0
    ensures |points| == 2 ==>
              f.bezier.p1 == Point2D((points[0].x + points[1].x) / 2.0, (points[0].y + points[1].y) / 2.0)
              && f.error == 0.0
    ensures |points| >= 2 ==> f.bezier.p0 == points[0] && f.bezier.p2 == points[|points| - 1]
    ensures |points| >= 3 ==> f.error == ComputeError(f.bezier, points, sqrt)
    ensures |points| >= 3 ==>
              var p0, p2 := points[0], points[|points| - 1];
              f.bezier.p1 == SolveControl(Normal(points, TValues(points, sqrt), p0, p2), p0, p2)
  {
    var n := |points|;
    if n == 0 then
      var p := Point2D(0.0, 0.0);
      FitError(QuadraticBezier(p, p, p), 0.0)
    else if n == 1 then
      var p := points[0];
      FitError(QuadraticBezier(p, p, p), 0.0)
    else if n == 2 then
      FitError(QuadraticBezier(points[0], Lerp(points[0], points[1], 0.5), points[1]), 0.0)
    else
      var p0 := points[0];
      var p2 := points[n - 1];
      var ts := TValues(points, sqrt);
      var p1 := SolveControl(Normal(points, ts, p0, p2), p0, p2);
      var bezier := QuadraticBezier(p0, p1, p2);
      FitError(bezier, ComputeError(bezier, points, sqrt))
  }

  /** For three or more points the fitted control point is the least-squares
      optimum over the included points: no curve with the same endpoints has a
      smaller objective at the chord-length parameters. */
  lemma FitSegmentIsLeastSquares(points: seq<Point2D>, sqrt: real -> real, q: Point2D)
    requires IsSqrt(sqrt)
    requires |points| >= 3
    ensures var ts := TValues(points, sqrt);
            var f := FitSegment(points, sqrt);
            Normal(points, ts, points[0], points[|points| - 1]).sw > Epsilon ==>
              Residual(f.bezier, points, ts)
              <= Residual(QuadraticBezier(points[0], q, points[|points| - 1]), points, ts)
  {
    var ts := TValues(points, sqrt);
    var p0 := points[0];
    var p2 := points[|points| - 1];
    if Normal(points, ts, p0, p2).sw > Epsilon {
      ControlMinimisesResidual(points, ts, p0, p2, q);
    }
  }

  /** A run of identical points is fitted exactly, whatever its length. */
  lemma FitSegmentExactOnConstantRun(points: seq<Point2D>, sqrt: real -> real)
    requires IsSqrt(sqrt)
    requires forall i :: 0 <= i < |points| ==> points[i] == points[0]
    ensures FitSegment(points, sqrt).error == 0.0
  {
    if |points| >= 3 {
      ErrorZeroOnStartPoint(FitSegment(points, sqrt).bezier, points, sqrt);
    }
  }
}
