/** `QuadraticBezier`: start point, control point and end point of the curve
    B(t) = (1-t)^2 p0 + 2t(1-t) p1 + t^2 p2 (src/geometry/bezier.rs). */
module Bezier {
  import opened Numeric
  import opened Point

  datatype QuadraticBezier = QuadraticBezier(p0: Point2D, p1: Point2D, p2: Point2D)

  /** One coordinate of the curve: the Bernstein blend of the three control
      coordinates, computed as the source does with `t2`, `mt` and `mt2`. */
  function Blend(a0: real, a1: real, a2: real, t: real): real
  {
    var t2 := t * t;
    var mt := 1.0 - t;
    var mt2 := mt * mt;
    mt2 * a0 + 2.0 * mt * t * a1 + t2 * a2
  }

  /** The blend interpolates the end coordinates, and since the Bernstein
      weights sum to one it is constant when the three coordinates agree. */
  lemma BlendLaws(a0: real, a1: real, a2: real, t: real)
    ensures Blend(a0, a1, a2, 0.0) == a0
    ensures Blend(a0, a1, a2, 1.0) == a2
    ensures a0 == a1 == a2 ==> Blend(a0, a1, a2, t) == a0
  {
    if a0 == a1 == a2 {
      assert (1.0 - t) * (1.0 - t) + 2.0 * (1.0 - t) * t + t * t == 1.0;
      calc {
        Blend(a0, a1, a2, t);
        ((1.0 - t) * (1.0 - t) + 2.0 * (1.0 - t) * t + t * t) * a0;
      }
    }
  }

  /** `evaluate`: the point of the curve at parameter `t`. */
  function Evaluate(c: QuadraticBezier, t: real): (p: Point2D)
    ensures t == 0.0 ==> p == c.p0
    ensures t == 1.0 ==> p == c.p2
    ensures c.p0 == c.p1 == c.p2 ==> p == c.p0
  {
    BlendLaws(c.p0.x, c.p1.x, c.p2.x, t);
    BlendLaws(c.p0.y, c.p1.y, c.p2.y, t);
    Point2D(Blend(c.p0.x, c.p1.x, c.p2.x, t), Blend(c.p0.y, c.p1.y, c.p2.y, t))
  }

  /** The parameter of the `i`-th of `k` evenly spaced samples: `i / max(k-1, 1)`. */
  function SampleParam(i: nat, k: nat): (t: real)
    requires i < k
    ensures 0.0 <= t <= 1.0
    ensures i == 0 ==> t == 0.0
    ensures k >= 2 && i == k - 1 ==> t == 1.0
    ensures t * (MaxNat(k - 1, 1) as real) == i as real
  {
    Ratio(i as real, MaxNat(k - 1, 1) as real)
  }

  /** Evenly spaced sample parameters increase with the sample index. */
  lemma SampleParamMonotone(i: nat, j: nat, k: nat)
    requires i <= j < k
    ensures SampleParam(i, k) <= SampleParam(j, k)
  {
    RatioMonotone(i as real, j as real, MaxNat(k - 1, 1) as real);
  }

  /** `sample`: `k` points of the curve at evenly spaced parameters. */
  function Sample(c: QuadraticBezier, k: nat): (s: seq<Point2D>)
    ensures |s| == k
    ensures forall i :: 0 <= i < k ==> s[i] == Evaluate(c, SampleParam(i, k))
    ensures k >= 1 ==> s[0] == c.p0
    ensures k >= 2 ==> s[k - 1] == c.p2
  {
    seq(k, i requires 0 <= i < k => Evaluate(c, SampleParam(i, k)))
  }

  /** `control_points`: the three points as coordinate pairs, in curve order. */
  function ControlPoints(c: QuadraticBezier): (r: seq<(real, real)>)
    ensures |r| == 3
    ensures FromTuple(r[0]) == c.p0 && FromTuple(r[1]) == c.p1 && FromTuple(r[2]) == c.p2
  {
    [ToTuple(c.p0), ToTuple(c.p1), ToTuple(c.p2)]
  }

  /** One command of an SVG path, with its coordinates. The decimal rendering
      of the numbers is a separate, abstract step (see `RenderCommand`). */
  datatype SvgCommand =
    | MoveTo(x: real, y: real)
    | QuadTo(cx: real, cy: real, x: real, y: real)

  /** `to_svg_command`: a `Q` command carries the control point and the end
      point; the start point is implied by the pen position. */
  function ToSvgCommand(c: QuadraticBezier): (cmd: SvgCommand)
    ensures cmd.QuadTo?
  {
    QuadTo(c.p1.x, c.p1.y, c.p2.x, c.p2.y)
  }

  /** The command determines the control and end points and nothing else:
      two curves give the same command exactly when they agree on p1 and p2,
      whatever their start points. */
  lemma SvgCommandEncodesTail(a: QuadraticBezier, b: QuadraticBezier)
    ensures ToSvgCommand(a) == ToSvgCommand(b) <==> a.p1 == b.p1 && a.p2 == b.p2
  {
  }

  /** The text of a command, with `fmt` standing for the `{:.2}` formatting. */
  function RenderCommand(cmd: SvgCommand, fmt: real -> string): (s: string)
    ensures |s| > 0
    ensures cmd.MoveTo? ==> s[0] == 'M'
    ensures cmd.QuadTo? ==> s[0] == 'Q'
  {
    match cmd
    case MoveTo(x, y) => "M " + fmt(x) + " " + fmt(y)
    case QuadTo(cx, cy, x, y) => "Q " + fmt(cx) + " " + fmt(cy) + ", " + fmt(x) + " " + fmt(y)
  }

  /** The parameters at which `distance_to_point` samples the curve: the curve
      length estimate |p0 p1| + |p1 p2| halved, clamped to [50, 200] and
      truncated to an integer as the `as usize` cast does. */
  function DistanceSampleCount(c: QuadraticBezier, sqrt: real -> real): (k: nat)
    requires IsSqrt(sqrt)
    ensures 50 <= k <= 200
  {
    var len := DistanceTo(c.p0, c.p1, sqrt) + DistanceTo(c.p1, c.p2, sqrt);
    var half := len / 2.0;
    var atLeast := if half >= 50.0 then half else 50.0;
    var clamped := if atLeast <= 200.0 then atLeast else 200.0;
    clamped.Floor
  }

  /** The distances from `p` to the curve points at the sampled parameters
      `i / (k-1)`; as `k >= 50` these are the parameters `SampleParam` gives. */
  function SampledDistances(c: QuadraticBezier, p: Point2D, sqrt: real -> real): (d: seq<real>)
    requires IsSqrt(sqrt)
    ensures |d| == DistanceSampleCount(c, sqrt)
    ensures forall i :: 0 <= i < |d| ==> 0.0 <= d[i]
    ensures d[0] == DistanceTo(c.p0, p, sqrt)
    ensures d[|d| - 1] == DistanceTo(c.p2, p, sqrt)
    ensures forall i :: 0 <= i < |d| ==> d[i] == DistanceTo(Evaluate(c, SampleParam(i, |d|)), p, sqrt)
  {
    var k := DistanceSampleCount(c, sqrt);
    seq(k, i requires 0 <= i < k => DistanceTo(Evaluate(c, SampleParam(i, k)), p, sqrt))
  }

  /** `distance_to_point`: the least of the sampled distances, so an upper
      bound on the true distance that never exceeds the distance to either
      endpoint. */
  function DistanceToPoint(c: QuadraticBezier, p: Point2D, sqrt: real -> real): (d: real)
    requires IsSqrt(sqrt)
    ensures 0.0 <= d
    ensures d <= DistanceTo(c.p0, p, sqrt) && d <= DistanceTo(c.p2, p, sqrt)
    ensures d in SampledDistances(c, p, sqrt)
    ensures forall i :: 0 <= i < DistanceSampleCount(c, sqrt) ==>
              d <= SampledDistances(c, p, sqrt)[i]
  {
    MinOf(SampledDistances(c, p, sqrt))
  }
}
