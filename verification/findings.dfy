/** Two inputs on which `DPOptimizer::optimize` (src/optimizer/dp.rs) misses an
    admissible tiling or does not terminate, each paired with the repaired
    behaviour. */
module Findings {
  import opened Numeric
  import opened Point
  import opened Config
  import opened Partition
  import opened Optimizer

  // ---------------------------------------------------------------------
  // The loop start `min_segment_len` skips the first segment
  // ---------------------------------------------------------------------

  /** With the loop starting at `min_segment_len = 3`, five points and at
      most four points per segment: indices 1 and 2 are never filled, so the
      window of index 4, start indices 1 and 2, offers no reached start. */
  lemma AsWrittenMissesFive(points: seq<Point2D>, cfg: FitConfig, fitter: RangeFitter)
    requires |points| == 5 && cfg.minSegmentLen == 3 && cfg.maxSegmentLen == 4
    ensures !Reaches(AsWritten(points, cfg, fitter))
  {
    var p := AsWritten(points, cfg, fitter);
    assert WindowStart(cfg, 4) == 1 && WindowEnd(cfg, 4) == 2;
    assert EntryAt(p, 1) == Init(1) && EntryAt(p, 2) == Init(2);
    UnreachedWithoutReachedStarts(p, 4);
  }

  /** Five points with segments of three or four points: the tiling
      `0..=2, 2..=4` exists, yet neither the DP nor its fallback reaches the
      last point, so `optimize` calls itself until the stack overflows (the
      fallback configuration is its own fallback). */
  lemma LoopStartSkipsTiling(points: seq<Point2D>, maxError: ExtReal, fitter: RangeFitter)
    requires |points| == 5
    ensures var cfg := FitConfig(3, 4, maxError);
            && AdmissibleTiling(points, Relaxed(cfg), fitter, [0, 2, 4], 4)
            && !Reaches(AsWritten(points, cfg, fitter))
            && Relaxed(cfg) == FitConfig(3, 4, PosInf) && Relaxed(Relaxed(cfg)) == Relaxed(cfg)
            && !FallbackEnds(points, cfg, fitter)
  {
    var cfg := FitConfig(3, 4, maxError);
    AsWrittenMissesFive(points, cfg, fitter);
    AsWrittenMissesFive(points, Relaxed(cfg), fitter);
  }

  /** With the loop starting at `min_segment_len - 1` the same five points
      are reached through boundaries `[0, 2, 4]`, and the DP is no worse
      than that tiling. */
  lemma CorrectedReachesFive(points: seq<Point2D>, fitter: RangeFitter)
    requires |points| == 5
    ensures var cfg := FitConfig(3, 4, PosInf);
            && Reaches(Corrected(points, cfg, fitter))
            && NoWorse(EntryAt(Corrected(points, cfg, fitter), 4).score,
                       ChainScore(Corrected(points, cfg, fitter), [0, 2, 4]))
  {
    var cfg := FitConfig(3, 4, PosInf);
    var b: seq<nat> := [0, 2, 4];
    assert TilingSegment(points, cfg, fitter, b[0], b[1]);
    assert TilingSegment(points, cfg, fitter, b[1], b[2]);
    CorrectedIsOptimal(points, cfg, fitter, b);
  }

  // ---------------------------------------------------------------------
  // The fallback recursion has no base case when relaxing does not help
  // ---------------------------------------------------------------------

  /** Six points and segments of exactly three points: every reachable
      index is even, so index 5 is unreached with either loop start. */
  lemma OddSpanUnreached(points: seq<Point2D>, cfg: FitConfig, fitter: RangeFitter, lo: nat)
    requires |points| == 6 && cfg.minSegmentLen == 3 && cfg.maxSegmentLen == 3
    requires lo == 2 || lo == 3
    ensures !Reaches(Problem(points, cfg, lo, fitter))
  {
    var p := Problem(points, cfg, lo, fitter);
    assert EntryAt(p, 1) == Init(1);
    assert WindowStart(cfg, 3) == 1 && WindowEnd(cfg, 3) == 1;
    UnreachedWithoutReachedStarts(p, 3);
    assert WindowStart(cfg, 5) == 3 && WindowEnd(cfg, 5) == 3;
    UnreachedWithoutReachedStarts(p, 5);
  }

  /** Six points with segments of exactly three points admit no tiling. The
      relaxed DP cannot help, since relaxing keeps the lengths, so `optimize`
      calls itself until the stack overflows, and would do so with the
      corrected loop start too. */
  lemma FallbackNeverEnds(points: seq<Point2D>, maxError: ExtReal, fitter: RangeFitter)
    requires |points| == 6
    ensures var cfg := FitConfig(3, 3, maxError);
            && Relaxed(cfg) == FitConfig(3, 3, PosInf) && Relaxed(Relaxed(cfg)) == Relaxed(cfg)
            && !FallbackEnds(points, cfg, fitter)
            && !Reaches(Corrected(points, Relaxed(cfg), fitter))
  {
    var cfg := FitConfig(3, 3, maxError);
    OddSpanUnreached(points, cfg, fitter, 3);
    OddSpanUnreached(points, Relaxed(cfg), fitter, 3);
    OddSpanUnreached(points, Relaxed(cfg), fitter, 2);
  }
}
