/** `DPOptimizer` (src/optimizer/dp.rs): the error cache over all index
    windows, the forward DP over arrays, backtracking, and `optimize` with
    its short-input cases and its fallback. The methods are tied to the
    functional description of the DP in module `Partition`. */
module Optimizer {
  import opened Numeric
  import opened Point
  import opened Bezier
  import opened Fitter
  import opened Config
  import opened Partition
  import opened FitResults

  // ---------------------------------------------------------------------
  // `compute_error_cache`
  // ---------------------------------------------------------------------

  /** The cache holds a fit for exactly the windows of the problem, and that
      fit is the fitter's result on the window's points. */
  ghost predicate CacheMatches(p: Problem, cache: map<(nat, nat), FitError>)
  {
    && (forall j: nat, i: nat :: (j, i) in cache <==> InWindow(p.lo, p.cfg, j, i) && i < |p.points|)
    && (forall j: nat, i: nat :: (j, i) in cache ==> j <= i < |p.points| && cache[(j, i)] == Fit(p, j, i))
  }

  /** The interval list of `compute_error_cache`: for each end index `i` from
      `lo` below `n`, the start indices from `WindowStart` to `WindowEnd`. */
  method EnumerateWindows(n: nat, cfg: FitConfig, lo: nat) returns (intervals: seq<(nat, nat)>)
    ensures forall j: nat, i: nat :: (j, i) in intervals <==> InWindow(lo, cfg, j, i) && i < n
  {
    intervals := [];
    var maxLen := MaxNat(cfg.maxSegmentLen, 1);
    var i := lo;
    while i < n
      invariant lo <= i && (i <= n || i == lo)
      invariant forall j: nat, i': nat :: (j, i') in intervals <==> InWindow(lo, cfg, j, i') && i' < i
    {
      var start := SaturatingSub(i, maxLen - 1);
      var end := if cfg.minSegmentLen > 0 then SaturatingSub(i, cfg.minSegmentLen - 1) else i;
      assert start == WindowStart(cfg, i) && end == WindowEnd(cfg, i);
      var j := start;
      while j <= end
        invariant start <= j
        invariant forall j': nat, i': nat :: (j', i') in intervals <==>
                    (InWindow(lo, cfg, j', i') && i' < i) || (i' == i && start <= j' < j && j' <= end)
        decreases end + 1 - j
      {
        intervals := intervals + [(j, i)];
        j := j + 1;
      }
      i := i + 1;
    }
  }

  /** `compute_error_cache`: the fit of every window, collected into a map.
      The parallel evaluation of the source has no effect on the result and
      is a sequential loop here. */
  method ComputeErrorCache(p: Problem) returns (cache: map<(nat, nat), FitError>)
    ensures CacheMatches(p, cache)
  {
    var n := |p.points|;
    var intervals := EnumerateWindows(n, p.cfg, p.lo);
    cache := map[];
    var k := 0;
    while k < |intervals|
      invariant k <= |intervals|
      invariant forall j: nat, i: nat :: (j, i) in cache <==> (j, i) in intervals[..k]
      invariant forall j: nat, i: nat :: (j, i) in cache ==> j <= i < n && cache[(j, i)] == Fit(p, j, i)
    {
      var (start, end) := intervals[k];
      assert (start, end) in intervals;
      assert intervals[..k + 1] == intervals[..k] + [(start, end)];
      cache := cache[(start, end) := p.fitter(p.points[start..end + 1], p.cfg.maxError)];
      k := k + 1;
    }
    assert intervals[..k] == intervals;
  }

  // ---------------------------------------------------------------------
  // The DP loop
  // ---------------------------------------------------------------------

  /** A cache lookup inside the DP finds the window's fit, and the pruning
      test on it decides the edge of the functional table. */
  lemma CacheEdge(p: Problem, cache: map<(nat, nat), FitError>, j: nat, i: nat)
    requires CacheMatches(p, cache) && InWindow(p.lo, p.cfg, j, i) && i < |p.points|
    ensures (j, i) in cache
    ensures Edge(p, j, i) == if Exceeds(cache[(j, i)].error, p.cfg.maxError) then None else Some(cache[(j, i)].error)
  {
  }

  /** The inner loop of the DP for end index `i`: tries every start index of
      the window in increasing order and keeps the strictly best candidate.
      `scores` holds the final cells of the earlier indices; the cell being
      filled is `cur`, which is what `seg_dp[j]` reads when `j == i`. The
      cell it returns is the table's cell for `i`. */
  method ScanWindow(p: Problem, cache: map<(nat, nat), FitError>, i: nat, scores: seq<Score>) returns (cur: Entry)
    requires CacheMatches(p, cache) && p.lo <= i < |p.points| && |scores| == |p.points|
    requires forall k :: 0 <= k < i ==> scores[k] == EntryAt(p, k).score
    ensures cur == EntryAt(p, i)
  {
    var start := WindowStart(p.cfg, i);
    var end := WindowEnd(p.cfg, i);
    cur := Init(i);
    var j := start;
    while j <= end
      invariant start <= j
      invariant Scan(p, i, j, cur) == EntryAt(p, i)
      decreases end + 1 - j
    {
      var prev := if j < i then scores[j] else cur.score;
      CacheEdge(p, cache, j, i);
      var fit := cache[(j, i)];
      if Exceeds(fit.error, p.cfg.maxError) {
        // pruned
      } else if prev.Unreached? {
        // start index not reached
      } else {
        var cand := Extend(prev, fit.error);
        if Better(cand, cur.score) {
          cur := Entry(cand, j);
        }
      }
      j := j + 1;
    }
  }

  /** The forward DP of `optimize` over the arrays `seg_dp`/`err_dp` (merged
      into one array of scores) and `parent`: every cell ends equal to the
      functional table of `Partition`. */
  method FillTable(p: Problem, cache: map<(nat, nat), FitError>) returns (scores: seq<Score>, parents: seq<nat>)
    requires CacheMatches(p, cache)
    ensures |scores| == |p.points| && |parents| == |p.points|
    ensures forall i :: 0 <= i < |p.points| ==> scores[i] == EntryAt(p, i).score
    ensures ParentsOf(p, parents)
  {
    var n := |p.points|;
    var segDp := new Score[n](k => if k == 0 then Reached(0, 0.0) else Unreached);
    var parent := new nat[n](k => 0);
    var i := p.lo;
    while i < n
      invariant p.lo <= i
      invariant forall k :: 0 <= k < n ==>
                  Entry(segDp[k], parent[k]) == (if k < i then EntryAt(p, k) else Init(k))
    {
      var cell := ScanWindow(p, cache, i, segDp[..]);
      segDp[i] := cell.score;
      parent[i] := cell.parent;
      i := i + 1;
    }
    scores := segDp[..];
    parents := parent[..];
  }

  // ---------------------------------------------------------------------
  // `reconstruct_curves`
  // ---------------------------------------------------------------------

  /** The curves backtracking collects along boundaries `b`: the cached fit
      of each consecutive pair, skipping a pair missing from the cache as
      the source does. */
  function CachedCurves(cache: map<(nat, nat), FitError>, b: seq<nat>): seq<QuadraticBezier>
    decreases |b|
  {
    if |b| < 2 then []
    else
      var last := (b[|b| - 2], b[|b| - 1]);
      CachedCurves(cache, b[..|b| - 1]) + (if last in cache then [cache[last].bezier] else [])
  }

  /** `s` in the opposite order. */
  function Reverse<T>(s: seq<T>): (r: seq<T>)
    ensures |r| == |s|
    ensures forall k :: 0 <= k < |s| ==> r[k] == s[|s| - 1 - k]
  {
    seq(|s|, k requires 0 <= k < |s| => s[|s| - 1 - k])
  }

  /** Reversing twice gives the list back. */
  lemma ReverseInvolutive<T>(s: seq<T>)
    ensures Reverse(Reverse(s)) == s
  {
    var r := Reverse(Reverse(s));
    assert forall k :: 0 <= k < |s| ==> r[k] == s[k];
  }

  /** Reversing a list with one more element puts that element first. */
  lemma ReverseAppend<T>(s: seq<T>, x: T)
    ensures Reverse(s + [x]) == [x] + Reverse(s)
  {
    var l := Reverse(s + [x]);
    var r := [x] + Reverse(s);
    assert forall k :: 0 <= k < |l| ==> l[k] == r[k];
  }

  /** One backtracking step: the boundaries up to `e` are those up to its
      parent followed by `e`, and the curves collected along them gain the
      cached curve of the segment from the parent to `e`, if present. */
  lemma BacktrackStep(cache: map<(nat, nat), FitError>, parents: seq<nat>, e: nat)
    requires Descending(parents) && 0 < e < |parents|
    ensures var start := parents[e];
            CachedCurves(cache, Backtrack(parents, e))
            == CachedCurves(cache, Backtrack(parents, start))
               + (if (start, e) in cache then [cache[(start, e)].bezier] else [])
  {
    var start := parents[e];
    var b := Backtrack(parents, e);
    var a := Backtrack(parents, start);
    assert b == a + [e];
    assert b[..|b| - 1] == a;
    assert b[|b| - 2] == start;
  }

  /** `reconstruct_curves`: follows the parents from `end` down to 0, pushing
      the cached curve of each segment, then reverses the list; the result
      is the cached curves along the backtracked boundaries, in path order. */
  method ReconstructCurves(end: nat, parents: seq<nat>, cache: map<(nat, nat), FitError>)
      returns (curves: seq<QuadraticBezier>)
    requires end < |parents| && Descending(parents)
    ensures curves == CachedCurves(cache, Backtrack(parents, end))
  {
    var segments: seq<QuadraticBezier> := [];
    var e: nat := end;
    while e > 0
      invariant e <= end
      invariant CachedCurves(cache, Backtrack(parents, e)) + Reverse(segments)
                == CachedCurves(cache, Backtrack(parents, end))
      decreases e
    {
      var start := parents[e];
      BacktrackStep(cache, parents, e);
      if (start, e) in cache {
        ReverseAppend(segments, cache[(start, e)].bezier);
        segments := segments + [cache[(start, e)].bezier];
      }
      e := start;
    }
    curves := Reverse(segments);
  }

  /** The curves of a chain are those of the chain without its last
      boundary, followed by the curve of the last segment. */
  lemma ChainCurvesAppend(p: Problem, b: seq<nat>)
    requires Usable(p, b) && |b| >= 2
    ensures Usable(p, b[..|b| - 1])
    ensures ChainCurves(p, b) == ChainCurves(p, b[..|b| - 1]) + [Fit(p, b[|b| - 2], b[|b| - 1]).bezier]
  {
    var a := b[..|b| - 1];
    assert forall k :: 0 <= k < |a| ==> a[k] == b[k];
    var l := ChainCurves(p, b);
    var r := ChainCurves(p, a) + [Fit(p, b[|b| - 2], b[|b| - 1]).bezier];
    assert forall k :: 0 <= k < |l| ==> l[k] == r[k];
  }

  /** Along a chain every window is in a matching cache, so backtracking
      yields exactly the fitted curves of the chain. */
  lemma {:induction false} CachedCurvesOfChain(p: Problem, cache: map<(nat, nat), FitError>, b: seq<nat>, i: nat)
    requires CacheMatches(p, cache) && IsChain(p, b, i)
    ensures CachedCurves(cache, b) == ChainCurves(p, b)
    decreases |b|
  {
    if |b| >= 2 {
      var q := b[|b| - 2];
      ChainPrefix(p, b, i);
      CachedCurvesOfChain(p, cache, b[..|b| - 1], q);
      assert Edge(p, q, i).Some?;
      assert (q, i) in cache && cache[(q, i)] == Fit(p, q, i);
      ChainCurvesAppend(p, b);
    }
  }

  // ---------------------------------------------------------------------
  // One DP run
  // ---------------------------------------------------------------------

  /** The parents of the functional table for the first `n` indices. */
  function TableParents(p: Problem, n: nat): (parents: seq<nat>)
    ensures |parents| == n && ParentsOf(p, parents) && Descending(parents)
  {
    var parents := seq(n, k requires 0 <= k < n => EntryAt(p, k).parent);
    ParentsDescend(p, parents);
    parents
  }

  /** The boundaries backtracking visits from the last index. */
  function Solution(p: Problem): seq<nat>
    requires |p.points| >= 1
  {
    Backtrack(TableParents(p, |p.points|), |p.points| - 1)
  }

  /** When the last point is reached, the backtracked boundaries form a
      chain to it whose score is the last cell. */
  lemma SolutionIsWitness(p: Problem)
    requires |p.points| >= 1 && EntryAt(p, |p.points| - 1).score.Reached?
    ensures IsChain(p, Solution(p), |p.points| - 1)
    ensures ChainScore(p, Solution(p)) == EntryAt(p, |p.points| - 1).score
  {
    BacktrackIsWitness(p, TableParents(p, |p.points|), |p.points| - 1);
  }

  /** Whether the last point is reached in the problem's table. */
  predicate Reaches(p: Problem)
  {
    |p.points| >= 1 && EntryAt(p, |p.points| - 1).score.Reached?
  }

  /** `Reaches` asks exactly for a reached last cell. */
  lemma ReachesAt(p: Problem, n: nat)
    requires n + 1 == |p.points|
    ensures Reaches(p) <==> EntryAt(p, n).score.Reached?
  {
  }

  /** `r` is what the DP branch of `optimize` returns for `p`: the curves
      along the backtracked boundaries, the last cell's segment count and
      summed error, and the configuration. */
  predicate SolvedBy(p: Problem, r: FitResult)
  {
    && Reaches(p)
    && r.config == p.cfg
    && (SolutionIsWitness(p); r.curves == ChainCurves(p, Solution(p)))
    && Reached(r.numSegments, r.totalError) == EntryAt(p, |p.points| - 1).score
  }

  /** The parents `FillTable` computes are the table's, so backtracking over
      them visits the boundaries of `Solution`. */
  lemma SolutionIsBacktrack(p: Problem, parents: seq<nat>)
    requires |p.points| >= 1 && |parents| == |p.points| && ParentsOf(p, parents) && Descending(parents)
    ensures Solution(p) == Backtrack(parents, |p.points| - 1)
  {
    var t := TableParents(p, |p.points|);
    assert forall k :: 0 <= k < |parents| ==> parents[k] == t[k];
    assert parents == t;
  }

  /** Collecting the cached curves along `Solution` yields the result the DP
      branch of `optimize` promises. */
  lemma BacktrackSolves(p: Problem, cache: map<(nat, nat), FitError>, curves: seq<QuadraticBezier>)
    requires |p.points| >= 1 && CacheMatches(p, cache) && Reaches(p)
    requires curves == CachedCurves(cache, Solution(p))
    ensures SolvedBy(p, FitResult(curves, EntryAt(p, |p.points| - 1).score.error, |curves|, p.cfg))
  {
    var last := |p.points| - 1;
    ReachesAt(p, last);
    SolutionIsWitness(p);
    CachedCurvesOfChain(p, cache, Solution(p), last);
  }

  /** The DP branch of `optimize` for one problem: fill the cache and the
      table and, if the last point is reached, backtrack. `None` stands for
      the infinite `err_dp[n - 1]` that triggers the fallback. */
  method SolveOnce(p: Problem) returns (r: Option<FitResult>)
    requires |p.points| >= 1
    ensures r.Some? <==> Reaches(p)
    ensures r.Some? ==> SolvedBy(p, r.value) && r.value.numSegments == |r.value.curves|
  {
    var last := |p.points| - 1;
    var cache := ComputeErrorCache(p);
    var scores, parents := FillTable(p, cache);
    var total := scores[last];
    assert total == EntryAt(p, last).score;
    ReachesAt(p, last);
    if total.Unreached? {
      return None;
    }
    ParentsDescend(p, parents);
    var curves := ReconstructCurves(last, parents, cache);
    SolutionIsBacktrack(p, parents);
    BacktrackSolves(p, cache, curves);
    r := Some(FitResult(curves, total.error, |curves|, p.cfg));
  }

  // ---------------------------------------------------------------------
  // `optimize`
  // ---------------------------------------------------------------------

  /** The configuration of the fallback: `new_clamped` of the same lengths
      with an unbounded error. */
  function Relaxed(cfg: FitConfig): (c: FitConfig)
    ensures Clamped(c) && c.maxError.PosInf?
    ensures c == NewClamped(cfg.minSegmentLen, cfg.maxSegmentLen, PosInf)
    ensures NewClamped(c.minSegmentLen, c.maxSegmentLen, PosInf) == c
  {
    NewClamped(cfg.minSegmentLen, cfg.maxSegmentLen, PosInf)
  }

  /** The result of fitting all points as one segment, as `optimize` returns
      for short inputs. */
  function SingleFit(points: seq<Point2D>, cfg: FitConfig, sqrt: real -> real): (r: FitResult)
    requires IsSqrt(sqrt)
    ensures |r.curves| == 1 && r.numSegments == 1 && r.config == cfg
    ensures |points| >= 1 ==> r.curves[0].p0 == points[0] && r.curves[0].p2 == points[|points| - 1]
    ensures 0.0 <= r.totalError
  {
    var f := FitSegment(points, sqrt);
    FitResult([f.bezier], f.error, 1, cfg)
  }

  /** The DP problem `optimize` solves for a configuration, with the loop
      starting at `min_segment_len` as written. */
  function AsWritten(points: seq<Point2D>, cfg: FitConfig, fitter: RangeFitter): Problem
  {
    Problem(points, cfg, cfg.minSegmentLen, fitter)
  }

  /** When the recursion of `optimize` ends: the input is short or the DP
      reaches the last point, for the given configuration or else for the
      fallback configuration. Nothing else stops the source's recursion. */
  predicate FallbackEnds(points: seq<Point2D>, cfg: FitConfig, fitter: RangeFitter)
  {
    || |points| <= cfg.minSegmentLen
    || Reaches(AsWritten(points, cfg, fitter))
    || |points| <= Relaxed(cfg).minSegmentLen
    || Reaches(AsWritten(points, Relaxed(cfg), fitter))
  }

  /** `DPOptimizer::optimize` as written. An empty input gives no curves; an
      input of at most `min_segment_len` points gives one curve fitted to all
      of them; otherwise the DP result for the configuration, or, when the
      last point is unreachable, the result of `optimize` again under the
      fallback configuration. That recursion ends only when `FallbackEnds`
      holds, which is therefore required. */
  method Optimize(points: seq<Point2D>, cfg: FitConfig, fitter: RangeFitter, sqrt: real -> real)
      returns (r: FitResult)
    requires IsSqrt(sqrt)
    requires FallbackEnds(points, cfg, fitter)
    ensures r.numSegments == |r.curves|
    ensures |points| == 0 ==> r == FitResult([], 0.0, 0, cfg)
    ensures 1 <= |points| <= cfg.minSegmentLen ==> r == SingleFit(points, cfg, sqrt)
    ensures |points| > cfg.minSegmentLen && Reaches(AsWritten(points, cfg, fitter)) ==>
              SolvedBy(AsWritten(points, cfg, fitter), r)
    ensures |points| > cfg.minSegmentLen && !Reaches(AsWritten(points, cfg, fitter)) ==>
              var c := Relaxed(cfg);
              && (|points| <= c.minSegmentLen ==> r == SingleFit(points, c, sqrt))
              && (|points| > c.minSegmentLen ==> SolvedBy(AsWritten(points, c, fitter), r))
    ensures FitterContract(fitter) && |points| >= 2 ==> Covers(points, r.curves)
    decreases if cfg == Relaxed(cfg) then 0 else 1
  {
    var n := |points|;
    if n == 0 {
      return FitResult([], 0.0, 0, cfg);
    }
    if n <= cfg.minSegmentLen {
      return SingleFit(points, cfg, sqrt);
    }
    var outcome := SolveOnce(AsWritten(points, cfg, fitter));
    if outcome.None? {
      r := Optimize(points, Relaxed(cfg), fitter, sqrt);
      return;
    }
    r := outcome.value;
    if FitterContract(fitter) && n >= 2 {
      SolvedContinuous(AsWritten(points, cfg, fitter), r);
    }
  }

  // ---------------------------------------------------------------------
  // What a DP result means
  // ---------------------------------------------------------------------

  /** A segment `j..=i` of two or more points that the configuration admits
      and whose fit stays within the error bound, stated without reference to
      the loop bounds of the DP. */
  predicate TilingSegment(points: seq<Point2D>, cfg: FitConfig, fitter: RangeFitter, j: nat, i: nat)
  {
    && j < i < |points|
    && Admissible(cfg, j, i)
    && !Exceeds(fitter(points[j..i + 1], cfg.maxError).error, cfg.maxError)
  }

  /** Boundaries `0 = b[0] < ... < b[k] = i` cutting the points into tiling
      segments. */
  predicate AdmissibleTiling(points: seq<Point2D>, cfg: FitConfig, fitter: RangeFitter, b: seq<nat>, i: nat)
  {
    && |b| >= 1 && b[0] == 0 && b[|b| - 1] == i
    && forall k :: 0 <= k < |b| - 1 ==> TilingSegment(points, cfg, fitter, b[k], b[k + 1])
  }


  /** A DP result is optimal: no chain of usable windows to the last point
      has fewer segments, or as many segments and a smaller summed error. */
  lemma SolvedIsOptimal(p: Problem, r: FitResult, b: seq<nat>)
    requires SolvedBy(p, r) && IsChain(p, b, |p.points| - 1)
    ensures NoWorse(Reached(r.numSegments, r.totalError), ChainScore(p, b))
  {
    EntryOptimal(p, b, |p.points| - 1);
  }

  /** With the loop starting at or after `min_segment_len - 1` (the source's
      start `min_segment_len` and the corrected start both qualify), every
      chain of the DP is an admissible tiling. */
  lemma ChainIsTiling(p: Problem, b: seq<nat>, i: nat)
    requires IsChain(p, b, i) && p.lo + 1 >= p.cfg.minSegmentLen
    ensures AdmissibleTiling(p.points, p.cfg, p.fitter, b, i)
  {
    forall k | 0 <= k < |b| - 1
      ensures TilingSegment(p.points, p.cfg, p.fitter, b[k], b[k + 1])
    {
      ChainSegmentsAdmissible(p, b, i, k);
    }
  }

  /** A DP result follows the backtracked boundaries: they form a chain to
      the last point, with one curve per segment, and the total error is the
      sum of the segment errors. */
  lemma SolvedChain(p: Problem, r: FitResult)
    requires SolvedBy(p, r)
    ensures IsChain(p, Solution(p), |p.points| - 1)
    ensures |r.curves| == |Solution(p)| - 1 == r.numSegments
    ensures r.totalError == Sum(SegmentErrors(p, Solution(p)))
  {
    SolutionIsWitness(p);
  }

  /** With the loop starting at or after `min_segment_len - 1` (the source's
      start `min_segment_len` and the corrected start both qualify), a DP result
      tiles the points: the backtracked boundaries cut them into admissible
      segments within the error bound, one curve per segment. */
  lemma SolvedTiles(p: Problem, r: FitResult)
    requires SolvedBy(p, r) && p.lo + 1 >= p.cfg.minSegmentLen
    ensures AdmissibleTiling(p.points, p.cfg, p.fitter, Solution(p), |p.points| - 1)
    ensures |r.curves| == |Solution(p)| - 1
  {
    SolvedChain(p, r);
    ChainIsTiling(p, Solution(p), |p.points| - 1);
  }

  /** With a fitter that fixes endpoints, a DP result on two or more points
      is one continuous path from the first point to the last, with a
      non-negative total error. */
  lemma SolvedContinuous(p: Problem, r: FitResult)
    requires SolvedBy(p, r) && FitterContract(p.fitter)
    ensures 0.0 <= r.totalError
    ensures |p.points| >= 2 ==> Covers(p.points, r.curves)
  {
    var n := |p.points| - 1;
    var b := Solution(p);
    SolutionIsWitness(p);
    assert IsChain(p, b, n) && ChainScore(p, b).error == r.totalError;
    if n == 0 {
      assert |b| == 1;
      assert SegmentErrors(p, b) == [];
    } else {
      assert |b| >= 2 by {
        assert b[0] == 0 && b[|b| - 1] == n;
      }
      ChainContinuous(p, b, n);
      assert r.curves == ChainCurves(p, b);
    }
  }

  // ---------------------------------------------------------------------
  // The corrected optimizer
  // ---------------------------------------------------------------------

  /** The DP problem with the loop starting at `min_segment_len - 1`, the
      first end index an admissible segment from index 0 can have. */
  function Corrected(points: seq<Point2D>, cfg: FitConfig, fitter: RangeFitter): (p: Problem)
    ensures p.lo + 1 >= cfg.minSegmentLen
  {
    Problem(points, cfg, SaturatingSub(cfg.minSegmentLen, 1), fitter)
  }

  /** With the corrected loop start the DP may use a window exactly when it
      is a tiling segment. */
  lemma CorrectedEdges(points: seq<Point2D>, cfg: FitConfig, fitter: RangeFitter, j: nat, i: nat)
    ensures (j < i && Edge(Corrected(points, cfg, fitter), j, i).Some?) <==>
            TilingSegment(points, cfg, fitter, j, i)
  {
    WindowCharacterisation(Corrected(points, cfg, fitter).lo, cfg, j, i);
  }

  /** With the corrected loop start the chains of the DP are exactly the
      admissible tilings. */
  lemma CorrectedChains(points: seq<Point2D>, cfg: FitConfig, fitter: RangeFitter, b: seq<nat>, i: nat)
    ensures IsChain(Corrected(points, cfg, fitter), b, i) <==> AdmissibleTiling(points, cfg, fitter, b, i)
  {
    forall k | 0 <= k < |b| - 1 {
      CorrectedEdges(points, cfg, fitter, b[k], b[k + 1]);
    }
  }

  /** With the corrected loop start every admissible tiling of the points
      reaches the last point, and the DP is no worse than any of them. */
  lemma CorrectedIsOptimal(points: seq<Point2D>, cfg: FitConfig, fitter: RangeFitter, b: seq<nat>)
    requires |points| >= 1 && AdmissibleTiling(points, cfg, fitter, b, |points| - 1)
    ensures Reaches(Corrected(points, cfg, fitter))
    ensures IsChain(Corrected(points, cfg, fitter), b, |points| - 1)
    ensures NoWorse(EntryAt(Corrected(points, cfg, fitter), |points| - 1).score,
                    ChainScore(Corrected(points, cfg, fitter), b))
  {
    var p := Corrected(points, cfg, fitter);
    var n := |points| - 1;
    assert IsChain(p, b, n) by {
      CorrectedChains(points, cfg, fitter, b, n);
    }
    EntryOptimal(p, b, n);
    assert n == |p.points| - 1;
    ReachesAt(p, n);
  }

  /** `optimize` with both defects repaired: the DP loop starts at
      `min_segment_len - 1`, and the fallback runs the relaxed DP once and,
      if that cannot reach the last point either, fits all points as one
      segment as for short inputs. It needs no precondition and on two or
      more points always returns one continuous path over all of them. */
  method OptimizeCorrected(points: seq<Point2D>, cfg: FitConfig, fitter: RangeFitter, sqrt: real -> real)
      returns (r: FitResult)
    requires IsSqrt(sqrt)
    ensures r.numSegments == |r.curves|
    ensures |points| == 0 ==> r == FitResult([], 0.0, 0, cfg)
    ensures 1 <= |points| <= cfg.minSegmentLen ==> r == SingleFit(points, cfg, sqrt)
    ensures |points| > cfg.minSegmentLen && Reaches(Corrected(points, cfg, fitter)) ==>
              SolvedBy(Corrected(points, cfg, fitter), r)
    ensures |points| > cfg.minSegmentLen && !Reaches(Corrected(points, cfg, fitter)) ==>
              var c := Relaxed(cfg);
              && (|points| > c.minSegmentLen && Reaches(Corrected(points, c, fitter)) ==>
                    SolvedBy(Corrected(points, c, fitter), r))
              && (|points| <= c.minSegmentLen || !Reaches(Corrected(points, c, fitter)) ==>
                    r == SingleFit(points, c, sqrt))
    ensures FitterContract(fitter) && |points| >= 2 ==> Covers(points, r.curves)
  {
    var n := |points|;
    if n == 0 {
      return FitResult([], 0.0, 0, cfg);
    }
    if n <= cfg.minSegmentLen {
      return SingleFit(points, cfg, sqrt);
    }
    var outcome := SolveOnce(Corrected(points, cfg, fitter));
    if outcome.Some? {
      r := outcome.value;
      if FitterContract(fitter) && n >= 2 {
        SolvedContinuous(Corrected(points, cfg, fitter), r);
      }
      return;
    }
    var relaxed := Relaxed(cfg);
    if n <= relaxed.minSegmentLen {
      return SingleFit(points, relaxed, sqrt);
    }
    var second := SolveOnce(Corrected(points, relaxed, fitter));
    if second.Some? {
      r := second.value;
      if FitterContract(fitter) && n >= 2 {
        SolvedContinuous(Corrected(points, relaxed, fitter), r);
      }
      return;
    }
    r := SingleFit(points, relaxed, sqrt);
  }
}
