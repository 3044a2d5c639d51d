# bezier_dp_fit in Dafny

A model of the curve-fitting engine of `bezier_dp_fit`. The engine cuts a sequence of 2-D points into
consecutive segments and fits one quadratic Bézier curve to each segment. A dynamic programme chooses
the cut. It minimises the number of segments first and the summed fitting error second. Only segments
whose length lies in `[min_segment_len, max(max_segment_len, 1)]` and whose error is within `max_error`
may be used. Segment `(j, i)` covers the points `j..=i`, so neighbouring segments share their boundary
point.

Modules, one per concern of the program:

| file | module | models |
|---|---|---|
| `numeric.dfy` | `Numeric` | `f64` as `real`, with `f64::INFINITY` as `ExtReal.PosInf`; saturating subtraction, `max`, sums, minima |
| `point.dfy` | `Point` | `Point2D` (src/geometry/point.rs) |
| `bezier.dfy` | `Bezier` | `QuadraticBezier` (src/geometry/bezier.rs) |
| `fitter.dfy` | `Fitter` | `BezierFitter` (src/fitting/fitter.rs) |
| `config.dfy` | `Config` | `FitConfig` (src/optimizer/config.rs) |
| `partition.dfy` | `Partition` | the DP of `DPOptimizer::optimize` as pure functions, and its optimality theory |
| `fitresults.dfy` | `FitResults` | `FitResult` and its views (src/optimizer/dp.rs:8-54) |
| `optimizer.dfy` | `Optimizer` | the imperative DP, the cache, backtracking and `optimize`, proved equal to `Partition`; the corrected optimizer |
| `findings.dfy` | `Findings` | the two defects below, on concrete inputs |

How the model is arranged:

- `Partition.EntryAt(p, i)` is the final `(seg_dp[i], err_dp[i], parent[i])` cell. It is defined by recursion over the
  inner loop (`Scan`, `Step`), so it follows the source's comparisons exactly, including the strict `<`
  that keeps the smallest start index on a full tie.
- The methods `Optimizer.FillTable`, `Optimizer.ComputeErrorCache` and `Optimizer.ReconstructCurves` run the source's
  loops over arrays, maps and lists. They are proved to compute exactly those cells and curves.
- The loop start over end indices is a parameter `lo` of the problem. The source's start
  `min_segment_len` is `Optimizer.AsWritten`. The start `min_segment_len - 1` is `Optimizer.Corrected`.
  Both share one theory.
- The per-window fit `fit_segment_with_limit` is not among the modelled files. It is a parameter
  `fitter: RangeFitter`. Where a property needs it, `Partition.FitterContract` assumes the contract that
  `fit_segment` is proved to keep (`Partition.FitSegmentKeepsContract`): the curve starts at the first
  point of the range and ends at the last, and its error is not negative.
- Square roots are a parameter `sqrt` constrained by `Numeric.IsSqrt`. The `{:.2}` number formatting of
  the SVG text is a parameter `fmt`.
- A failed `assert!` in `FitConfig::new` is the `Err` value of a `Result`.
- `fit_curve` (src/optimizer/dp.rs:224-226) only calls `optimize`, so `Optimizer.Optimize` covers it.

Facts of the code that the model follows and that are easy to misread:

- `FitConfig::new` asserts `min_segment_len >= 3` (src/optimizer/config.rs:23), then
  `max_segment_len >= min_segment_len` (src/optimizer/config.rs:24), then `max_error > 0.0`
  (src/optimizer/config.rs:26). The test at tests/basic.rs:46 calls `new(2, 10, 5.0)`, which fails the
  first assertion (`Config.New` gives `Err(MinSegmentLenTooSmall)`).
- `max_error` prunes inside the DP: a window whose error exceeds it is skipped (src/optimizer/dp.rs:120-122).
- The comparison at src/optimizer/dp.rs:129 prefers fewer segments and compares summed errors only
  between equal counts.
- When the last point is unreached, `optimize` calls itself with the error bound `f64::INFINITY`
  (src/optimizer/dp.rs:142-151). On some inputs it calls itself until the stack overflows (Findings).
- `compute_error` divides the sum of squared distances by the number of points
  (src/fitting/fitter.rs:133-137), although its doc comment at src/fitting/fitter.rs:127 calls the result
  a sum of squares.

## Model

| member | source | states |
|---|---|---|
| Numeric.MaxWith | src/optimizer/config.rs:39 | `f64::max` with a lower bound: the result meets the bound, keeps an argument already at or above it, and is the bound otherwise |
| Numeric.SaturatingSub | src/optimizer/dp.rs:111 | `saturating_sub`: the exact difference when it is not negative, 0 otherwise |
| Numeric.MinOf | src/geometry/bezier.rs:57-64 | the least element of a non-empty sequence: a member of it and no larger than any element |
| Point.DistanceSquared | src/geometry/point.rs:20-24 | not negative, and zero for equal points |
| Point.DistanceTo | src/geometry/point.rs:14-18 | not negative, its square is the squared distance, zero for equal points |
| Point.DistanceLaws | src/geometry/point.rs:14-24 | both distances are symmetric and a point is at distance 0 from itself |
| Point.Lerp | src/geometry/point.rs:26-31 | `t = 0` gives `a`, `t = 1` gives `b`, `lerp(a, a, t) = a`, `t = 0.5` gives the midpoint |
| Point.TupleRoundTrip | src/geometry/point.rs:34-44 | the two `From` conversions are inverse to each other in both directions |
| Bezier.BlendLaws | src/geometry/bezier.rs:17-26 | each coordinate of the curve interpolates the end coordinates and is constant when all three control coordinates agree |
| Bezier.Evaluate | src/geometry/bezier.rs:17-26 | `evaluate(0) = p0`, `evaluate(1) = p2`, and a curve with `p0 = p1 = p2` is that point for every `t` |
| Bezier.SampleParam | src/geometry/bezier.rs:32 | the sample parameter is `i / max(k-1, 1)`: times `max(k-1, 1)` it gives `i`; it lies in [0, 1], is 0 for the first sample and 1 for the last of two or more |
| Bezier.SampleParamMonotone | src/geometry/bezier.rs:32 | sample parameters do not decrease with the index |
| Bezier.Sample | src/geometry/bezier.rs:29-36 | exactly `k` points, the `i`-th the curve at the `i`-th parameter; the first is `p0`, and for `k >= 2` the last is `p2` |
| Bezier.ControlPoints | src/geometry/bezier.rs:47-49 | three pairs that convert back to `p0`, `p1`, `p2` in that order |
| Bezier.SvgCommandEncodesTail | src/geometry/bezier.rs:39-44 | two curves give the same `Q` command exactly when they agree on `p1` and `p2`; `p0` is not encoded |
| Bezier.RenderCommand | src/geometry/bezier.rs:38-44 | the text of a command is non-empty and starts with `M` or `Q` according to the command |
| Bezier.DistanceSampleCount | src/geometry/bezier.rs:54-55 | the number of samples lies between 50 and 200 |
| Bezier.SampledDistances | src/geometry/bezier.rs:57-62 | one non-negative distance per sample, the `i`-th the distance from the point to the curve at the `i`-th sample parameter; the first is the distance to `p0` and the last the distance to `p2` |
| Bezier.DistanceToPoint | src/geometry/bezier.rs:52-65 | the minimum of the sampled distances: one of them, no larger than any, hence not negative and at most the distance to either endpoint |
| Fitter.ChordLengths | src/fitting/fitter.rs:104-111 | one cumulative length per point, 0 first, each the previous plus the distance to the previous point, never decreasing |
| Fitter.UniformParams | src/fitting/fitter.rs:116 | `n` parameters, the `i`-th being `SampleParam(i, n)`, that is `i / max(n-1, 1)`; all in [0, 1] and non-decreasing |
| Fitter.NormalisedLengths | src/fitting/fitter.rs:119-122 | each length divided by the total, in [0, 1], non-decreasing |
| Fitter.TValues | src/fitting/fitter.rs:103-125 | `n` non-decreasing parameters in [0, 1] from 0 to 1; the normalised chord lengths when the total length is at least `1e-10`, the uniform ones otherwise |
| Fitter.Normal | src/fitting/fitter.rs:66-86 | the sums of the least-squares loop over the included points; the weight sum, a sum of squares, is never negative |
| Fitter.SolveControl | src/fitting/fitter.rs:88-94 | when `sum_weight > 1e-10`, `p1` solves the normal equation `p1 * sum_weight = sum` on each axis; otherwise it is the midpoint of `p0` and `p2` |
| Fitter.ResidualQuadratic | src/fitting/fitter.rs:65-86 | the sums the loop accumulates are the coefficients of the least-squares objective: the objective equals `p1^2 W - 2 p1 X + E` per axis |
| Fitter.ControlMinimisesResidual | src/fitting/fitter.rs:65-94 | the control point the fitter solves for minimises the squared residuals over the included points among all curves with the same endpoints |
| Fitter.ComputeError | src/fitting/fitter.rs:128-138 | the error is not negative and is 0 for no points |
| Fitter.ComputeErrorIsMean | src/fitting/fitter.rs:133-137 | the error is the mean squared distance: added once per point it gives the sum of the points' squared distances to the curve |
| Fitter.MeanRepeated | src/fitting/fitter.rs:133-137 | a mean added once per term gives the sum of the terms |
| Fitter.ErrorBoundedByWorstPoint | src/fitting/fitter.rs:128-138 | the error, a mean, never exceeds a bound on every point's squared distance |
| Fitter.ErrorZeroOnStartPoint | src/fitting/fitter.rs:128-138 | points lying on the curve's start contribute no error |
| Fitter.FitSegment | src/fitting/fitter.rs:13-100 | the origin curve with error 0 for no points; the point itself with error 0 for one; the midpoint control point with error 0 for two; fixed endpoints for two or more; for three or more the control point `SolveControl` computes from the normal equations at the parameters `TValues` gives; otherwise the error is `compute_error` of the fitted curve, never negative |
| Fitter.FitSegmentIsLeastSquares | src/fitting/fitter.rs:58-100 | for three or more points with a regular normal equation, no curve with the same endpoints has a smaller least-squares objective at the chord-length parameters |
| Fitter.FitSegmentExactOnConstantRun | src/fitting/fitter.rs:13-100 | a run of identical points is fitted with error 0 |
| Config.Default | src/optimizer/config.rs:10-18 | the default is (30, 200, 2.0) and passes every check of `new` |
| Config.New | src/optimizer/config.rs:21-33 | succeeds exactly on valid arguments and stores them unchanged; otherwise it reports the first failing check, in the source's order |
| Config.NewRoundTrip | src/optimizer/config.rs:21-33 | `new` of a configuration's own fields gives it back exactly when it is valid |
| Config.DefaultAccepted | src/optimizer/config.rs:10-33 | `new(30, 200, 2.0)` is the default configuration |
| Config.NewClamped | src/optimizer/config.rs:36-46 | the result has min >= 3, max >= min and max_error `max(max_error, 0.1)`, so at least 0.1; no field decreases; an infinite error stays infinite; arguments already within the bounds are kept unchanged |
| Config.NewClampedIsLeast | src/optimizer/config.rs:37-38 | the clamped lengths are the least ones meeting the bounds at or above the arguments |
| Config.NewClampedIdempotent | src/optimizer/config.rs:36-46 | clamping a clamped configuration returns it unchanged |
| Config.ClampedIsValid | src/optimizer/config.rs:21-46 | every clamped configuration is accepted by `new` |
| Partition.FitSegmentKeepsContract | src/fitting/fitter.rs:13-100 | `fit_segment` fixes the endpoints of every non-empty range and has a non-negative error |
| Partition.MaxLen | src/optimizer/dp.rs:109 | `max_len` is at least 1 and equals `max_segment_len` when that is positive |
| Partition.WindowStart | src/optimizer/dp.rs:111 | the first start index of end index `i` is at most `i` and gives a segment of at most `max_len` points |
| Partition.WindowEnd | src/optimizer/dp.rs:112-116 | the last start index of `i` is at most `i` and gives a segment of exactly `min_segment_len` points when `i` is large enough |
| Partition.WindowCharacterisation | src/optimizer/dp.rs:109-118 | when the loop starts at or after `min_segment_len - 1` (the source's start `min_segment_len` and the corrected start both qualify), the windows are exactly the admissible segments ending at or after the loop start |
| Partition.OrderLaws | src/optimizer/dp.rs:129 | the comparison (fewer segments, then smaller error) is a strict total order, and any reached score beats an unreached one |
| Partition.ExtendMonotone | src/optimizer/dp.rs:127-129 | extending two scores by the same window keeps their order, in both directions |
| Partition.Step | src/optimizer/dp.rs:119-133 | an inner iteration replaces the cell by the extended score of a usable window from a reached start exactly when that score is strictly better, and otherwise leaves it alone |
| Partition.ScanFacts | src/optimizer/dp.rs:118-135 | the inner loop ends no worse than its initial cell and every candidate it passes; if it changed the cell, the parent lies in the window below `i`, the cell is that parent's candidate, strictly better than every earlier candidate |
| Partition.EntryZero | src/optimizer/dp.rs:106-107 | index 0 keeps the score (0, 0.0) |
| Partition.ParentBelow | src/optimizer/dp.rs:111-132 | every parent lies below its index, and unreached cells keep parent 0 |
| Partition.ParentStep | src/optimizer/dp.rs:124-132 | a reached cell is its parent's score extended by a usable window from the parent; on a full tie the smallest start index is kept |
| Partition.UnreachedWithoutReachedStarts | src/optimizer/dp.rs:124-126 | an index whose window contains no reached start index stays unreached |
| Partition.EntryBeatsCandidates | src/optimizer/dp.rs:118-135 | each computed cell is no worse than any candidate of its window |
| Partition.SegmentErrorsAppend | src/optimizer/dp.rs:128 | appending a boundary appends the new window's error |
| Partition.ChainAppendIsChain | src/optimizer/dp.rs:118-128 | a chain followed by a usable window is a chain |
| Partition.ChainAppend | src/optimizer/dp.rs:127-128 | that longer chain's score is the shorter chain's score extended by the window |
| Partition.ChainPrefix | src/optimizer/dp.rs:118-128 | dropping the last boundary of a chain leaves a chain to the previous boundary |
| Partition.EntryOptimal | src/optimizer/dp.rs:109-136 | every index some chain reaches is reached, and its cell is no worse than any chain to it: the lexicographic minimum over all chains |
| Partition.Backtrack | src/optimizer/dp.rs:207-216 | following parents from `i` terminates and visits strictly increasing boundaries from 0 to `i` |
| Partition.ParentsDescend | src/optimizer/dp.rs:111-132 | the table's parents always lie below their index |
| Partition.BacktrackIsWitness | src/optimizer/dp.rs:139-153 | backtracking from a reached index yields a chain whose score is exactly the cell: the optimum is attained by the rebuilt path |
| Partition.ChainSegmentsAdmissible | src/optimizer/dp.rs:109-122 | with a loop start at or after `min_segment_len - 1` (the source's start `min_segment_len` and the corrected start both qualify), each segment of a chain has an admissible length and an error within `max_error` |
| Partition.FitEnds | src/optimizer/dp.rs:190-191 | under the fitter contract a window's fit runs from point `j` to point `i` with a non-negative error |
| Partition.ChainContinuous | src/optimizer/dp.rs:200-219 | under the fitter contract a chain's curves run from the first point to point `i`, each starting where the previous ends, with a non-negative summed error |
| FitResults.ControlPointsOf | src/optimizer/dp.rs:34-36 | one triple per curve, from which each curve is rebuilt exactly |
| FitResults.TupleSamplesAgree | src/optimizer/dp.rs:42-46 | the `k` pairs of one curve convert back, index by index, to the curve's samples |
| FitResults.SampleAll | src/optimizer/dp.rs:39-48 | `sample_points(k)` has exactly `k` points per curve |
| FitResults.SampleBlocks | src/optimizer/dp.rs:39-48 | block `c` of the samples, positions `k*c` to `k*c + k`, is exactly the sampling of curve `c` |
| FitResults.QuadCommandsRoundTrip | src/optimizer/dp.rs:25-28 | reading the `Q` commands back from the first start point gives a continuous path's curves again |
| FitResults.SvgRoundTrip | src/optimizer/dp.rs:18-31 | the path's commands determine a continuous sequence of curves: decoding them gives the curves back |
| FitResults.RenderRest | src/optimizer/dp.rs:25-28 | the text of the commands after the first is empty exactly when there are none, and otherwise starts with a space |
| FitResults.RenderRestAppend | src/optimizer/dp.rs:25-28 | the text of a command list is the text of its parts in order, so each command adds its own piece |
| FitResults.RenderRestSingle | src/optimizer/dp.rs:26-27 | the piece of one command is a space followed by that command's text |
| FitResults.ToSvgPath | src/optimizer/dp.rs:18-31 | the text is empty exactly when there are no curves; otherwise it starts with the rendered move to the first start point, followed by a space |
| Optimizer.EnumerateWindows | src/optimizer/dp.rs:172-184 | the interval list holds exactly the windows of the end indices from the loop start below `n` |
| Optimizer.ComputeErrorCache | src/optimizer/dp.rs:165-197 | the cache's keys are exactly the windows, and each value is the fit of that window's points |
| Optimizer.CacheEdge | src/optimizer/dp.rs:109-121 | the DP visits only windows in the cache, so every lookup succeeds and the pruning test decides usability |
| Optimizer.ScanWindow | src/optimizer/dp.rs:111-135 | the inner loop over the arrays computes exactly the functional cell of `i` |
| Optimizer.FillTable | src/optimizer/dp.rs:103-136 | after the outer loop every score and parent equals the functional table |
| Optimizer.ReverseInvolutive | src/optimizer/dp.rs:218 | reversing twice gives the list back |
| Optimizer.ReverseAppend | src/optimizer/dp.rs:207-218 | reversing a list with one more element puts that element first |
| Optimizer.BacktrackStep | src/optimizer/dp.rs:207-216 | one step of the backtracking loop adds the cached curve of the segment from the parent |
| Optimizer.ReconstructCurves | src/optimizer/dp.rs:200-220 | the rebuilt list is the cached curves along the backtracked boundaries, in path order |
| Optimizer.ChainCurvesAppend | src/optimizer/dp.rs:209-210 | a chain's curves are those of its prefix followed by the fit of the last segment |
| Optimizer.CachedCurvesOfChain | src/optimizer/dp.rs:209-214 | along a chain every lookup succeeds, so backtracking yields exactly the chain's fitted curves |
| Optimizer.TableParents | src/optimizer/dp.rs:105-132 | the parent array of the table, which descends |
| Optimizer.SolutionIsWitness | src/optimizer/dp.rs:139-153 | when the last point is reached, the backtracked boundaries form a chain to it whose score is the last cell |
| Optimizer.SolutionIsBacktrack | src/optimizer/dp.rs:200-216 | any descending parent array that agrees with the table's parents backtracks to the same boundaries |
| Optimizer.BacktrackSolves | src/optimizer/dp.rs:139-160 | the cached curves along the backtracked boundaries, with the last cell's error and their own count, form the DP's result |
| Optimizer.SolveOnce | src/optimizer/dp.rs:99-161 | one DP run returns a result exactly when the last point is reached, and that result is the backtracked curves with the last cell's count and error |
| Optimizer.Relaxed | src/optimizer/dp.rs:145-149 | the fallback configuration is clamped, has an unbounded error, and is its own fallback |
| Optimizer.SingleFit | src/optimizer/dp.rs:88-97 | one curve, counted once, from the first point to the last, with a non-negative error |
| Optimizer.Optimize | src/optimizer/dp.rs:75-162 | no curves for no points; one fitted curve for at most `min_segment_len` points; otherwise the DP result, or the fallback's; the segment count equals the number of curves; under the fitter contract, on two or more points the curves form one continuous path from the first point to the last |
| Optimizer.SolvedIsOptimal | src/optimizer/dp.rs:100-161 | a DP result has no more segments than any chain to the last point, and no more error than any chain with as many segments |
| Optimizer.SolvedChain | src/optimizer/dp.rs:128-154 | a DP result's boundaries form a chain to the last point, with one curve per segment and the total error equal to the sum of the segment errors |
| Optimizer.ChainIsTiling | src/optimizer/dp.rs:109-122 | every chain the DP can form, with a loop start at or after `min_segment_len - 1` (the source's start `min_segment_len` and the corrected start both qualify), is an admissible tiling whose segments are within `max_error` |
| Optimizer.SolvedTiles | src/optimizer/dp.rs:109-160 | with a loop start at or after `min_segment_len - 1` (the source's start `min_segment_len` and the corrected start both qualify), a DP result tiles the points with admissible segments within `max_error`, one curve per segment |
| Optimizer.SolvedContinuous | src/optimizer/dp.rs:153-160 | under the fitter contract a DP result has a non-negative total error and, on two or more points, is one continuous path from the first point to the last |
| Optimizer.CorrectedEdges | src/optimizer/dp.rs:109-123 | with the corrected start the DP may use a window exactly when it is an admissible segment within the error bound |
| Optimizer.CorrectedChains | src/optimizer/dp.rs:109-136 | with the corrected start the chains of the DP are exactly the admissible tilings |
| Optimizer.CorrectedIsOptimal | src/optimizer/dp.rs:100-136 | with the corrected start every admissible tiling reaches the last point and the DP is no worse than it |
| Optimizer.OptimizeCorrected | src/optimizer/dp.rs:75-162 | `optimize` with both defects repaired: no precondition, the DP result or the relaxed DP result when one exists, otherwise one fitted curve; under the fitter contract, always one continuous path on two or more points |
| Findings.AsWrittenMissesFive | src/optimizer/dp.rs:110 | with five points and segments of three or four points the as-written DP never reaches the last point |
| Findings.LoopStartSkipsTiling | src/optimizer/dp.rs:110-151 | on that input an admissible tiling exists, yet neither the DP nor its fallback reaches the last point, and the fallback is its own fallback, so `optimize` calls itself until the stack overflows |
| Findings.CorrectedReachesFive | src/optimizer/dp.rs:110 | with the corrected start the same input is reached, no worse than the tiling 0..=2, 2..=4 |
| Findings.OddSpanUnreached | src/optimizer/dp.rs:109-136 | with six points and segments of exactly three points the last point is unreached under either loop start |
| Findings.FallbackNeverEnds | src/optimizer/dp.rs:142-151 | on that input the fallback cannot reach the last point, even with the corrected start, and is its own fallback, so `optimize` calls itself until the stack overflows |

## Definitions

These members define the model's vocabulary. Each one's meaning is stated
by the lemmas named with it, not by its own contract.

- Point.FromTuple, Point.ToTuple (src/geometry/point.rs:34-44): the two conversions, inverse to each other by Point.TupleRoundTrip.
- Bezier.Blend (src/geometry/bezier.rs:18-24): one coordinate of `evaluate`, `mt² a0 + 2 mt t a1 + t² a2`; Bezier.BlendLaws gives its laws and Bezier.Evaluate applies it per axis.
- Bezier.ToSvgCommand (src/geometry/bezier.rs:39-44): the `Q` command of a curve; what it keeps of the curve is stated by Bezier.SvgCommandEncodesTail.
- Fitter.Weight, Fitter.Included, Fitter.Target, Fitter.Accumulate (src/fitting/fitter.rs:70-85): the weight `2 mt t`, the `1e-10` skip test, the target with the endpoint contributions removed, and one iteration adding a point to the sums of the normal equation; Fitter.ResidualQuadratic states what the accumulated sums mean and Fitter.ControlMinimisesResidual what solving them gives.
- Fitter.SquaredDistances, Fitter.Mean (src/fitting/fitter.rs:133-137): the squared distance of each point to the curve and their mean; Fitter.ComputeErrorIsMean and Fitter.MeanRepeated state that the error is that mean.
- Partition.Fit (src/optimizer/dp.rs:190-191): the fit of window `(j, i)`, the fitter applied to points `j..=i`; Partition.FitEnds states what it gives under the fitter contract.
- Partition.Better (src/optimizer/dp.rs:129): the comparison of a candidate with a cell; Partition.OrderLaws shows it is a strict total order with the unreached score last.
- Partition.Edge (src/optimizer/dp.rs:118-123): the error of a window the DP may use; Partition.WindowCharacterisation, Optimizer.CacheEdge and Optimizer.CorrectedEdges relate it to the windows and the cache.
- Partition.Extend (src/optimizer/dp.rs:127-128): one more segment; Partition.ExtendMonotone shows it keeps the order.
- Partition.Candidate (src/optimizer/dp.rs:119-128): what window `(j, i)` offers, the final score of `j` extended by the window's error, or nothing; Partition.ScanFacts and Partition.EntryBeatsCandidates state how the cells relate to it.
- Partition.Init (src/optimizer/dp.rs:103-107): the cells before the loop; Partition.EntryZero shows index 0 keeps its cell.
- Partition.EntryAt, Partition.Scan (src/optimizer/dp.rs:109-135): the final cell of an index and the inner loop over its window; Partition.ScanFacts, Partition.EntryBeatsCandidates, Partition.ParentStep and Partition.EntryOptimal state what they compute, and Optimizer.ScanWindow and Optimizer.FillTable match the loops to them.
- Partition.SegmentErrors, Partition.ChainScore (src/optimizer/dp.rs:127-128): a chain's segment errors and score; Partition.SegmentErrorsAppend and Partition.ChainAppend give their laws, and Partition.EntryOptimal and Partition.BacktrackIsWitness compare them with the table.
- Partition.ChainCurves (src/optimizer/dp.rs:209-210): a chain's fitted curves; Partition.ChainContinuous and Optimizer.ChainCurvesAppend give their laws.
- Optimizer.CachedCurves (src/optimizer/dp.rs:207-216): the curves backtracking collects from the cache; Optimizer.BacktrackStep and Optimizer.CachedCurvesOfChain state them.
- FitResults.TupleSamples (src/optimizer/dp.rs:42-46): the samples of one curve as `(x, y)` pairs; FitResults.TupleSamplesAgree shows each pair converts back to the sample at its index.
- FitResults.SvgCommands, FitResults.QuadCommands (src/optimizer/dp.rs:18-31): the commands of the path; FitResults.QuadCommandsRoundTrip and FitResults.SvgRoundTrip show they determine the curves.
- Optimizer.AsWritten (src/optimizer/dp.rs:110): the DP problem with the loop over end indices starting at `min_segment_len`, as the source has it; Findings.AsWrittenMissesFive, Findings.LoopStartSkipsTiling and Findings.OddSpanUnreached show what it misses.
- Optimizer.Corrected (src/optimizer/dp.rs:110): the same problem with the loop starting at `min_segment_len - 1`; Optimizer.CorrectedEdges, Optimizer.CorrectedChains and Optimizer.CorrectedIsOptimal state that its DP ranges over exactly the admissible tilings.
- Optimizer.Solution (src/optimizer/dp.rs:207-216): the boundaries backtracked from the last point; Optimizer.SolutionIsWitness shows they form a chain whose score is the last cell.
- Optimizer.Reverse (src/optimizer/dp.rs:218): `segments.reverse()`; Optimizer.ReverseInvolutive and Optimizer.ReverseAppend give its laws.

## Left out

- GPU offload (src/optimizer/cuda.rs), the Python bindings and the image demo: foreign calls and I/O outside the engine.
- The rayon parallelism of `compute_error_cache`: it does not affect the result. The cache is built by a sequential loop over the same interval list.
- IEEE-754 behaviour: values are exact reals. Rounding, NaN (which would make the `partial_cmp().unwrap()` of `distance_to_point` panic) and overflow of summed errors to infinity are not modelled. With `f64`, an overflowing sum would also trigger the fallback. Here only an unreached last point does.
- The body of `fit_segment_with_limit`: it is not among the modelled files, so the DP takes the per-window fit as a parameter.
- `{:.2}` formatting, `to_json`, serde, `eprintln!` warnings, the benchmarks and the re-export modules.
- The `usize::MAX` / `f64::INFINITY` sentinels of `seg_dp` / `err_dp`: the two arrays are always updated together, so they are one array of `Score`, with `Unreached` for the sentinel pair.
- The `n < 3` branch of `fit_segment` (src/fitting/fitter.rs:46-56) cannot run after the cases for 0, 1 and 2 points, so it has no counterpart.
- The `as usize` cast of the sample count in `distance_to_point` is a floor of a value between 50 and 200. The `unwrap_or(f64::INFINITY)` for zero samples cannot apply.
- Optimizer.Optimize: requires `FallbackEnds`, that the input is short or that the DP or its fallback reaches the last point. Without it the source calls itself until the stack overflows (Findings). `Optimizer.OptimizeCorrected` needs no such precondition.
- Fitter.Normal: its own contract states only that `sum_weight` is not negative. What the sums mean is stated by `Fitter.ResidualQuadratic`.
- Bezier.ToSvgCommand: its own contract states only that it yields a `Q` command. What the command holds is stated by `Bezier.SvgCommandEncodesTail` and `FitResults.SvgRoundTrip`.
- FitResults.ToSvgPath: the digits come from the abstract `fmt`, so only the shape of the text is stated. The content of the path is stated on the command level by `FitResults.SvgRoundTrip`.

## Findings

| source | as written | input that shows it | evidently intended | confidence | as-written member | corrected member |
|---|---|---|---|---|---|---|
| src/optimizer/dp.rs:110, src/optimizer/dp.rs:174 | the loop over end indices starts at `min_segment_len`, so index `min_segment_len - 1`, the end of the first admissible segment, is never filled | 5 points, `min_segment_len = 3`, `max_segment_len = 4`, any `max_error`: the tiling 0..=2, 2..=4 exists, index 4 is never reached, and the fallback fails the same way and recurses until the stack overflows | the loop starts at `min_segment_len - 1`, so that every admissible tiling is a DP chain | high (proved in the model; not executed) | Findings.LoopStartSkipsTiling | Findings.CorrectedReachesFive, Optimizer.CorrectedChains |
| src/optimizer/dp.rs:142-151 | the fallback calls `optimize` again with the relaxed configuration, which is its own fallback; when the relaxed DP cannot reach the last point either, it recurses until the stack overflows | 6 points, `min_segment_len = max_segment_len = 3`, any `max_error`: segments of three points reach only even indices, so index 5 is unreached under either loop start | the fallback ends: a whole-range single segment when even the relaxed DP finds no path | high (proved in the model; not executed) | Findings.FallbackNeverEnds | Optimizer.OptimizeCorrected |
