/** `Point2D`: an immutable pair of coordinates with value equality
    (src/geometry/point.rs). */
module Point {
  import opened Numeric

  datatype Point2D = Point2D(x: real, y: real)

  /** `distance_squared`: the squared Euclidean distance. */
  function DistanceSquared(a: Point2D, b: Point2D): (d: real)
    ensures 0.0 <= d
    ensures a == b ==> d == 0.0
  {
    Square(a.x - b.x) + Square(a.y - b.y)
  }

  /** `distance_to`: the square root of the same sum. */
  function DistanceTo(a: Point2D, b: Point2D, sqrt: real -> real): (d: real)
    requires IsSqrt(sqrt)
    ensures 0.0 <= d
    ensures Square(d) == DistanceSquared(a, b)
    ensures a == b ==> d == 0.0
  {
    sqrt(DistanceSquared(a, b))
  }

  /** Both distances are symmetric, and a point is at distance zero from itself. */
  lemma DistanceLaws(a: Point2D, b: Point2D, sqrt: real -> real)
    requires IsSqrt(sqrt)
    ensures DistanceSquared(a, b) == DistanceSquared(b, a)
    ensures DistanceTo(a, b, sqrt) == DistanceTo(b, a, sqrt)
    ensures DistanceTo(a, a, sqrt) == 0.0
  {
  }

  /** `lerp`: the point a fraction `t` of the way from `a` to `b`. */
  function Lerp(a: Point2D, b: Point2D, t: real): (p: Point2D)
    ensures t == 0.0 ==> p == a
    ensures t == 1.0 ==> p == b
    ensures a == b ==> p == a
    ensures t == 0.5 ==> p == Point2D((a.x + b.x) / 2.0, (a.y + b.y) / 2.0)
  {
    Point2D(a.x + (b.x - a.x) * t, a.y + (b.y - a.y) * t)
  }

  /** `From<(f64, f64)> for Point2D`. */
  function FromTuple(t: (real, real)): Point2D
  {
    Point2D(t.0, t.1)
  }

  /** `From<Point2D> for (f64, f64)`. */
  function ToTuple(p: Point2D): (real, real)
  {
    (p.x, p.y)
  }

  /** The two conversions are mutually inverse. */
  lemma TupleRoundTrip(p: Point2D, t: (real, real))
    ensures FromTuple(ToTuple(p)) == p
    ensures ToTuple(FromTuple(t)) == t
  {
  }
}
