/** `FitResult` and its views: the control points of every curve, a dense
    sampling of the whole path, and the SVG path text (src/optimizer/dp.rs). */
module FitResults {
  import opened Numeric
  import opened Point
  import opened Bezier
  import opened Config

  /** The optimizer's output: the curves in path order, the summed error of
      the chosen segments, their number, and the configuration that
      produced them (the fallback configuration when the fallback ran). */
  datatype FitResult = FitResult(curves: seq<QuadraticBezier>, totalError: real, numSegments: nat, config: FitConfig)

  // ---------------------------------------------------------------------
  // `control_points`
  // ---------------------------------------------------------------------

  /** A curve rebuilt from its three control points given as pairs. */
  function CurveFromPairs(cp: seq<(real, real)>): QuadraticBezier
    requires |cp| == 3
  {
    QuadraticBezier(FromTuple(cp[0]), FromTuple(cp[1]), FromTuple(cp[2]))
  }

  /** `FitResult::control_points`: one triple per curve, from which each curve
      is recovered exactly. */
  function ControlPointsOf(r: FitResult): (cps: seq<seq<(real, real)>>)
    ensures |cps| == |r.curves|
    ensures forall k :: 0 <= k < |cps| ==> |cps[k]| == 3 && CurveFromPairs(cps[k]) == r.curves[k]
  {
    seq(|r.curves|, k requires 0 <= k < |r.curves| => ControlPoints(r.curves[k]))
  }

  // ---------------------------------------------------------------------
  // `sample_points`
  // ---------------------------------------------------------------------

  /** The `k` samples of one curve as coordinate pairs. */
  function TupleSamples(c: QuadraticBezier, k: nat): (s: seq<(real, real)>)
    ensures |s| == k
  {
    var pts := Sample(c, k);
    seq(k, m requires 0 <= m < k => ToTuple(pts[m]))
  }

  /** Each pair converts back to the sample of the curve at that index. */
  lemma TupleSamplesAgree(c: QuadraticBezier, k: nat)
    ensures forall m :: 0 <= m < k ==> FromTuple(TupleSamples(c, k)[m]) == Sample(c, k)[m]
  {
  }

  /** The `flat_map` of `sample_points`: the samples of every curve, curve
      after curve. */
  function SampleAll(curves: seq<QuadraticBezier>, k: nat): (s: seq<(real, real)>)
    ensures |s| == k * |curves|
    decreases |curves|
  {
    if |curves| == 0 then []
    else
      LastBlock(|curves|, k);
      SampleAll(curves[..|curves| - 1], k) + TupleSamples(curves[|curves| - 1], k)
  }

  /** `n` blocks of `k` are `n - 1` blocks and one more. */
  lemma LastBlock(n: nat, k: nat)
    requires n >= 1
    ensures k * (n - 1) + k == k * n
  {
  }

  /** Block `c` of `n` blocks of `k` ends within the whole, and within the
      first `n - 1` blocks unless it is the last one. */
  lemma BlockArith(c: nat, n: nat, k: nat)
    requires c < n
    ensures k * (n - 1) + k == k * n
    ensures k * c + k <= k * n
    ensures c < n - 1 ==> k * c + k <= k * (n - 1)
  {
    assert k * n - (k * c + k) == k * (n - 1 - c);
    if c < n - 1 {
      assert k * (n - 1) - (k * c + k) == k * (n - 2 - c);
    }
  }

  /** A slice within the first part of a concatenation is a slice of it. */
  lemma SliceLeft<T>(a: seq<T>, b: seq<T>, lo: nat, hi: nat)
    requires lo <= hi <= |a|
    ensures (a + b)[lo .. hi] == a[lo .. hi]
  {
  }

  /** A block within the first part of a concatenation is the same block
      of the whole. */
  lemma ConcatBlock<T>(whole: seq<T>, a: seq<T>, b: seq<T>, lo: nat, hi: nat, block: seq<T>)
    requires whole == a + b && lo <= hi <= |a| && a[lo .. hi] == block
    ensures hi <= |whole| && whole[lo .. hi] == block
  {
    SliceLeft(a, b, lo, hi);
  }

  /** The second part of a concatenation, sliced back out. */
  lemma SliceRight<T>(a: seq<T>, b: seq<T>)
    ensures (a + b)[|a| .. |a| + |b|] == b
  {
  }

  /** The samples of all curves are those of all but the last, then the
      last curve's. */
  lemma SampleAllLast(curves: seq<QuadraticBezier>, k: nat)
    requires |curves| >= 1
    ensures SampleAll(curves, k)
            == SampleAll(curves[..|curves| - 1], k) + TupleSamples(curves[|curves| - 1], k)
    ensures |SampleAll(curves[..|curves| - 1], k)| == k * (|curves| - 1)
  {
  }

  /** Block `c` of the samples, `s[k*c .. k*c + k]`, is exactly the sampling
      of curve `c`. */
  lemma {:induction false} SampleBlocks(curves: seq<QuadraticBezier>, k: nat, c: nat)
    requires c < |curves|
    ensures k * c + k <= |SampleAll(curves, k)|
    ensures SampleAll(curves, k)[k * c .. k * c + k] == TupleSamples(curves[c], k)
    decreases |curves|, 1
  {
    BlockArith(c, |curves|, k);
    if c < |curves| - 1 {
      EarlierBlock(curves, k, c);
    } else {
      LastBlockSamples(curves, k);
    }
  }

  /** A block before the last one lies within the samples of the other
      curves. */
  lemma {:induction false} EarlierBlock(curves: seq<QuadraticBezier>, k: nat, c: nat)
    requires c < |curves| - 1
    ensures k * c + k <= |SampleAll(curves, k)|
    ensures SampleAll(curves, k)[k * c .. k * c + k] == TupleSamples(curves[c], k)
    decreases |curves|, 0
  {
    var n := |curves|;
    var prefix := curves[..n - 1];
    assert prefix[c] == curves[c];
    SampleAllLast(curves, k);
    SampleBlocks(prefix, k, c);
    ConcatBlock(SampleAll(curves, k), SampleAll(prefix, k), TupleSamples(curves[n - 1], k),
                k * c, k * c + k, TupleSamples(curves[c], k));
  }

  /** The last block is the last curve's samples. */
  lemma LastBlockSamples(curves: seq<QuadraticBezier>, k: nat)
    requires |curves| >= 1
    ensures var c := |curves| - 1;
            && k * c + k <= |SampleAll(curves, k)|
            && SampleAll(curves, k)[k * c .. k * c + k] == TupleSamples(curves[c], k)
  {
    var n := |curves|;
    var sp := SampleAll(curves[..n - 1], k);
    var last := TupleSamples(curves[n - 1], k);
    SampleAllLast(curves, k);
    LastBlock(n, k);
    SliceRight(sp, last);
  }

  // ---------------------------------------------------------------------
  // `to_svg_path`
  // ---------------------------------------------------------------------

  /** The commands of the path: a move to the first curve's start point,
      then one `Q` command per curve in order; nothing for no curves. */
  function SvgCommands(curves: seq<QuadraticBezier>): (cmds: seq<SvgCommand>)
    ensures |curves| == 0 ==> cmds == []
    ensures |curves| > 0 ==> |cmds| == |curves| + 1 && cmds[0] == MoveTo(curves[0].p0.x, curves[0].p0.y)
    ensures |curves| > 0 ==> forall k :: 0 <= k < |curves| ==> cmds[k + 1] == ToSvgCommand(curves[k])
  {
    if |curves| == 0 then []
    else [MoveTo(curves[0].p0.x, curves[0].p0.y)] + QuadCommands(curves)
  }

  /** The `Q` commands of the curves, in order. */
  function QuadCommands(curves: seq<QuadraticBezier>): (cmds: seq<SvgCommand>)
    ensures |cmds| == |curves|
    ensures forall k :: 0 <= k < |curves| ==> cmds[k] == ToSvgCommand(curves[k])
  {
    seq(|curves|, k requires 0 <= k < |curves| => ToSvgCommand(curves[k]))
  }

  /** Reading a path back: each `Q` command draws a curve from the pen
      position, and a move sets the pen. */
  function DecodeFrom(pen: Point2D, cmds: seq<SvgCommand>): seq<QuadraticBezier>
    decreases |cmds|
  {
    if |cmds| == 0 then []
    else match cmds[0]
      case MoveTo(x, y) => DecodeFrom(Point2D(x, y), cmds[1..])
      case QuadTo(cx, cy, x, y) =>
        [QuadraticBezier(pen, Point2D(cx, cy), Point2D(x, y))] + DecodeFrom(Point2D(x, y), cmds[1..])
  }

  /** Curves that form a continuous path: each starts where the previous one
      ends, which the optimizer's output does. */
  predicate Continuous(curves: seq<QuadraticBezier>)
  {
    forall k :: 0 <= k < |curves| - 1 ==> curves[k].p2 == curves[k + 1].p0
  }

  /** The curves form one continuous path from the first point to the last. */
  predicate Covers(points: seq<Point2D>, curves: seq<QuadraticBezier>)
  {
    && |points| >= 1 && |curves| >= 1 && Continuous(curves)
    && curves[0].p0 == points[0] && curves[|curves| - 1].p2 == points[|points| - 1]
  }

  /** The `Q` commands of a continuous path read back from its start point
      give the curves again. */
  lemma {:induction false} QuadCommandsRoundTrip(curves: seq<QuadraticBezier>)
    requires |curves| > 0 && Continuous(curves)
    ensures DecodeFrom(curves[0].p0, QuadCommands(curves)) == curves
    decreases |curves|
  {
    var cmds := QuadCommands(curves);
    var c := curves[0];
    assert cmds[0] == QuadTo(c.p1.x, c.p1.y, c.p2.x, c.p2.y);
    var rest := curves[1..];
    assert cmds[1..] == QuadCommands(rest);
    if |rest| > 0 {
      assert Continuous(rest) by {
        forall k | 0 <= k < |rest| - 1
          ensures rest[k].p2 == rest[k + 1].p0
        {
          assert rest[k] == curves[k + 1] && rest[k + 1] == curves[k + 2];
        }
      }
      assert rest[0].p0 == c.p2;
      QuadCommandsRoundTrip(rest);
    }
    assert Point2D(c.p2.x, c.p2.y) == c.p2;
    assert QuadraticBezier(c.p0, Point2D(c.p1.x, c.p1.y), c.p2) == c;
  }

  /** The path text determines a continuous sequence of curves: decoding the
      commands of `to_svg_path` gives the curves back. */
  lemma SvgRoundTrip(curves: seq<QuadraticBezier>)
    requires Continuous(curves)
    ensures DecodeFrom(Point2D(0.0, 0.0), SvgCommands(curves)) == curves
  {
    if |curves| > 0 {
      var cmds := SvgCommands(curves);
      assert cmds[1..] == QuadCommands(curves);
      assert Point2D(curves[0].p0.x, curves[0].p0.y) == curves[0].p0;
      QuadCommandsRoundTrip(curves);
    }
  }

  /** The text of each command after the first, each preceded by a space. */
  function RenderRest(cmds: seq<SvgCommand>, fmt: real -> string): (s: string)
    ensures |s| == 0 <==> |cmds| == 0
    ensures |cmds| > 0 ==> s[0] == ' '
    decreases |cmds|
  {
    if |cmds| == 0 then ""
    else " " + RenderCommand(cmds[0], fmt) + RenderRest(cmds[1..], fmt)
  }

  /** The text of a list of commands is the text of its parts in order, so
      each command contributes its own piece: a space, then its rendering. */
  lemma {:induction false} RenderRestAppend(a: seq<SvgCommand>, b: seq<SvgCommand>, fmt: real -> string)
    ensures RenderRest(a + b, fmt) == RenderRest(a, fmt) + RenderRest(b, fmt)
    decreases |a|
  {
    if |a| == 0 {
      assert a + b == b;
    } else {
      assert (a + b)[0] == a[0];
      assert (a + b)[1..] == a[1..] + b;
      RenderRestAppend(a[1..], b, fmt);
    }
  }

  /** One command renders as a space followed by its text. */
  lemma RenderRestSingle(c: SvgCommand, fmt: real -> string)
    ensures RenderRest([c], fmt) == " " + RenderCommand(c, fmt)
  {
    assert [c][1..] == [];
  }

  /** `FitResult::to_svg_path`, with `fmt` standing for the `{:.2}`
      formatting of one number: empty when there are no curves, otherwise
      the move to the first start point followed by the `Q` commands. */
  function ToSvgPath(r: FitResult, fmt: real -> string): (s: string)
    ensures |s| == 0 <==> |r.curves| == 0
    ensures |r.curves| > 0 ==> s[0] == 'M'
    ensures |r.curves| > 0 ==>
              var head := RenderCommand(MoveTo(r.curves[0].p0.x, r.curves[0].p0.y), fmt);
              |head| < |s| && s[..|head|] == head && s[|head|] == ' '
  {
    var cmds := SvgCommands(r.curves);
    if |cmds| == 0 then ""
    else RenderCommand(cmds[0], fmt) + RenderRest(cmds[1..], fmt)
  }
}
