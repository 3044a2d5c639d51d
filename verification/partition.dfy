/** The dynamic programme of `DPOptimizer::optimize` (src/optimizer/dp.rs)
    as a function of its inputs: which index windows it considers, the table
    entry it computes for every end index, and what that entry means in
    terms of chains of windows that tile a prefix of the points.

    A window `(j, i)` covers the points `j..=i`; consecutive windows of a
    chain share their boundary point. The loop over end indices starts at
    `lo`: the program uses `lo = min_segment_len`, and the model keeps `lo`
    a parameter so the same theory covers the corrected start
    `min_segment_len - 1` as well. */
module Partition {
  import opened Numeric
  import opened Point
  import opened Bezier
  import opened Fitter
  import opened Config

  datatype Option<T> = None | Some(value: T)

  /** The per-range fit the optimizer calls, `fit_segment_with_limit`, whose
      body is not part of this model: any function of the point range and
      the error bound. */
  type RangeFitter = (seq<Point2D>, ExtReal) -> FitError

  /** The contract `fit_segment` keeps and the optimizer relies on: the curve
      starts at the first point of the range and ends at the last, and the
      error is never negative. */
  ghost predicate FitterContract(fitter: RangeFitter)
  {
    forall pts: seq<Point2D>, m: ExtReal {:trigger fitter(pts, m)} :: |pts| >= 1 ==>
      && fitter(pts, m).bezier.p0 == pts[0]
      && fitter(pts, m).bezier.p2 == pts[|pts| - 1]
      && 0.0 <= fitter(pts, m).error
  }

  /** `fit_segment` itself keeps that contract. */
  lemma FitSegmentKeepsContract(sqrt: real -> real)
    requires IsSqrt(sqrt)
    ensures FitterContract((pts: seq<Point2D>, m: ExtReal) => FitSegment(pts, sqrt))
  {
  }

  // ---------------------------------------------------------------------
  // Windows
  // ---------------------------------------------------------------------

  /** `max_len = max_segment_len.max(1)`. */
  function MaxLen(cfg: FitConfig): (m: nat)
    ensures m >= 1
    ensures cfg.maxSegmentLen >= 1 ==> m == cfg.maxSegmentLen
  {
    MaxNat(cfg.maxSegmentLen, 1)
  }

  /** The first start index tried for end index `i`. */
  function WindowStart(cfg: FitConfig, i: nat): (j: nat)
    ensures j <= i
    ensures i - j + 1 <= MaxLen(cfg)
  {
    SaturatingSub(i, MaxLen(cfg) - 1)
  }

  /** The last start index tried for end index `i`. */
  function WindowEnd(cfg: FitConfig, i: nat): (j: nat)
    ensures j <= i
    ensures cfg.minSegmentLen >= 1 && i + 1 >= cfg.minSegmentLen ==> i - j + 1 == cfg.minSegmentLen
  {
    if cfg.minSegmentLen > 0 then SaturatingSub(i, cfg.minSegmentLen - 1) else i
  }

  /** The pairs the cache is filled for and the DP visits: end indices from
      `lo` on, start indices from `WindowStart` to `WindowEnd`. */
  predicate InWindow(lo: nat, cfg: FitConfig, j: nat, i: nat)
  {
    lo <= i && WindowStart(cfg, i) <= j <= WindowEnd(cfg, i)
  }

  /** A segment the configuration allows: `j <= i`, with between
      `min_segment_len` and `max(max_segment_len, 1)` points. */
  predicate Admissible(cfg: FitConfig, j: nat, i: nat)
  {
    j <= i && cfg.minSegmentLen <= i - j + 1 <= MaxLen(cfg)
  }

  /** When the loop starts at or after `min_segment_len - 1` (the source's
      start `min_segment_len` and the corrected start both qualify), the
      windows are exactly the admissible segments ending at `lo` or later. */
  lemma WindowCharacterisation(lo: nat, cfg: FitConfig, j: nat, i: nat)
    requires lo + 1 >= cfg.minSegmentLen
    ensures InWindow(lo, cfg, j, i) <==> lo <= i && Admissible(cfg, j, i)
  {
  }

  // ---------------------------------------------------------------------
  // The problem and its edges
  // ---------------------------------------------------------------------

  /** One run of the DP: the points, the configuration, the first end index
      of the loop and the per-range fitter. */
  datatype Problem = Problem(points: seq<Point2D>, cfg: FitConfig, lo: nat, fitter: RangeFitter)

  /** The fit of the window `(j, i)`: the fitter applied to `points[j..=i]`
      with the configured error bound. */
  function Fit(p: Problem, j: nat, i: nat): FitError
    requires j <= i < |p.points|
  {
    p.fitter(p.points[j..i + 1], p.cfg.maxError)
  }

  /** The error of window `(j, i)` if the DP may use it: it is a window of an
      existing end index and its fit is not pruned by `max_error`. */
  function Edge(p: Problem, j: nat, i: nat): (e: Option<real>)
    ensures e.Some? ==> InWindow(p.lo, p.cfg, j, i) && i < |p.points|
    ensures e.Some? ==> e.value == Fit(p, j, i).error && !Exceeds(e.value, p.cfg.maxError)
    ensures InWindow(p.lo, p.cfg, j, i) && i < |p.points| && !Exceeds(Fit(p, j, i).error, p.cfg.maxError)
            ==> e.Some?
  {
    if InWindow(p.lo, p.cfg, j, i) && i < |p.points| then
      var f := Fit(p, j, i);
      if Exceeds(f.error, p.cfg.maxError) then None else Some(f.error)
    else None
  }

  // ---------------------------------------------------------------------
  // Scores: `(seg_dp[i], err_dp[i])`
  // ---------------------------------------------------------------------

  /** `seg_dp[i]` and `err_dp[i]` together; `Unreached` is the initial
      `(usize::MAX, f64::INFINITY)`. */
  datatype Score = Unreached | Reached(segments: nat, error: real)

  /** The comparison of the DP: fewer segments first, then smaller summed
      error; strict, and every reached score beats `Unreached`. */
  predicate Better(a: Score, b: Score)
  {
    a.Reached? && (b.Unreached? || a.segments < b.segments || (a.segments == b.segments && a.error < b.error))
  }

  /** `a` is at least as good as `b`. */
  predicate NoWorse(a: Score, b: Score)
  {
    !Better(b, a)
  }

  /** The order the DP compares with is a strict total order. */
  lemma OrderLaws(a: Score, b: Score, c: Score)
    ensures !Better(a, a)
    ensures a == b || Better(a, b) || Better(b, a)
    ensures NoWorse(a, b) && NoWorse(b, a) ==> a == b
    ensures Better(a, b) ==> NoWorse(a, b)
    ensures NoWorse(a, b) && NoWorse(b, c) ==> NoWorse(a, c)
    ensures Better(a, b) && NoWorse(b, c) ==> Better(a, c)
    ensures NoWorse(a, b) && Better(b, c) ==> Better(a, c)
    ensures NoWorse(a, b) && b.Reached? ==> a.Reached?
  {
  }

  /** One more segment with error `e` after a chain with score `s`:
      `(seg_dp[j] + 1, err_dp[j] + fit.error)`. */
  function Extend(s: Score, e: real): (r: Score)
    requires s.Reached?
    ensures r.Reached? && r.segments == s.segments + 1 && r.segments >= 1
    ensures r.error - s.error == e
  {
    Reached(s.segments + 1, s.error + e)
  }

  /** Appending the same segment keeps the order of two scores. */
  lemma ExtendMonotone(a: Score, b: Score, e: real)
    requires a.Reached? && b.Reached?
    ensures NoWorse(a, b) <==> NoWorse(Extend(a, e), Extend(b, e))
  {
  }

  // ---------------------------------------------------------------------
  // The table
  // ---------------------------------------------------------------------

  /** One DP cell: the score and `parent[i]`. */
  datatype Entry = Entry(score: Score, parent: nat)

  /** The cells before the loop: index 0 is reached with no segments and
      error 0, every other index unreached; all parents are 0. */
  function Init(i: nat): (e: Entry)
    ensures e.parent == 0
    ensures e.score.Reached? <==> i == 0
    ensures i == 0 ==> e.score == Reached(0, 0.0)
  {
    if i == 0 then Entry(Reached(0, 0.0), 0) else Entry(Unreached, 0)
  }

  /** One iteration of the inner loop for start `j` of end index `i`: the
      window is skipped when it is pruned or `seg_dp[j]` is unreached, and
      otherwise replaces the cell only when strictly better. `prev` is the
      current score of cell `j`. */
  function Step(p: Problem, i: nat, j: nat, acc: Entry, prev: Score): (r: Entry)
    ensures r == acc || (&& Edge(p, j, i).Some? && prev.Reached?
                         && r == Entry(Extend(prev, Edge(p, j, i).value), j)
                         && Better(r.score, acc.score))
    ensures prev == acc.score ==> r == acc
    ensures Edge(p, j, i).Some? && prev.Reached? && Better(Extend(prev, Edge(p, j, i).value), acc.score)
            ==> r == Entry(Extend(prev, Edge(p, j, i).value), j)
  {
    match Edge(p, j, i)
    case None => acc
    case Some(e) =>
      if prev.Unreached? then acc
      else
        var cand := Extend(prev, e);
        if Better(cand, acc.score) then Entry(cand, j) else acc
  }

  /** The final cell of end index `i`: untouched before `lo`, otherwise the
      result of scanning its whole window. */
  function EntryAt(p: Problem, i: nat): Entry
    decreases i, 1, 0
  {
    if i < p.lo then Init(i) else Scan(p, i, WindowStart(p.cfg, i), Init(i))
  }

  /** The inner loop from start index `j` to `WindowEnd` with the cell value
      `acc`. Cells of earlier indices are final; when `j == i` (possible
      only if `min_segment_len <= 1`) the cell being filled is read. */
  function Scan(p: Problem, i: nat, j: nat, acc: Entry): Entry
    decreases i, 0, WindowEnd(p.cfg, i) + 1 - j
  {
    if j > WindowEnd(p.cfg, i) then acc
    else
      var prev := if j < i then EntryAt(p, j).score else acc.score;
      Scan(p, i, j + 1, Step(p, i, j, acc, prev))
  }

  /** The candidate score the window `(j, i)` offers: the final score of `j`
      extended by the window's error, or `Unreached` when the window is
      pruned, `j` is unreached, or `j` is `i` itself. */
  function Candidate(p: Problem, i: nat, j: nat): (c: Score)
    ensures c.Reached? ==> j < i && Edge(p, j, i).Some? && EntryAt(p, j).score.Reached?
    ensures c.Reached? ==> c == Extend(EntryAt(p, j).score, Edge(p, j, i).value)
  {
    if j < i && Edge(p, j, i).Some? && EntryAt(p, j).score.Reached? then
      Extend(EntryAt(p, j).score, Edge(p, j, i).value)
    else Unreached
  }

  /** What a scan computes: a cell no worse than where it started and than
      every candidate it passes; and if it changed the cell, the new parent
      is a start index below `i` whose candidate is the new score, strictly
      better than every candidate before it. */
  lemma {:induction false} ScanFacts(p: Problem, i: nat, j: nat, acc: Entry)
    ensures var r := Scan(p, i, j, acc);
            && NoWorse(r.score, acc.score)
            && (forall k :: j <= k <= WindowEnd(p.cfg, i) ==> NoWorse(r.score, Candidate(p, i, k)))
            && (r != acc ==>
                  && j <= r.parent <= WindowEnd(p.cfg, i) && r.parent < i
                  && r.score == Candidate(p, i, r.parent)
                  && Better(r.score, acc.score)
                  && forall k :: j <= k < r.parent ==> Better(r.score, Candidate(p, i, k)))
    decreases WindowEnd(p.cfg, i) + 1 - j
  {
    var r := Scan(p, i, j, acc);
    if j <= WindowEnd(p.cfg, i) {
      var prev := if j < i then EntryAt(p, j).score else acc.score;
      var next := Step(p, i, j, acc, prev);
      ScanFacts(p, i, j + 1, next);
      assert r == Scan(p, i, j + 1, next);
      var c := Candidate(p, i, j);
      assert next == acc || next == Entry(c, j) by {
        if j < i && next != acc {
          assert next == Entry(Extend(prev, Edge(p, j, i).value), j);
        }
      }
      assert NoWorse(next.score, c) by {
        if next == acc && c.Reached? {
          assert !Better(c, acc.score);
        }
      }
      OrderLaws(r.score, next.score, acc.score);
      OrderLaws(r.score, next.score, c);
      OrderLaws(next.score, acc.score, c);
    }
  }

  /** Index 0 is reached with no segments, whatever the windows. */
  lemma EntryZero(p: Problem)
    ensures EntryAt(p, 0) == Init(0)
  {
    if 0 >= p.lo {
      ScanFacts(p, 0, WindowStart(p.cfg, 0), Init(0));
    }
  }

  /** Every parent lies below its index, so backtracking terminates; the
      cells of unreached indices keep their initial parent 0. */
  lemma ParentBelow(p: Problem, i: nat)
    requires i > 0
    ensures EntryAt(p, i).parent < i
    ensures EntryAt(p, i).score.Unreached? ==> EntryAt(p, i).parent == 0
  {
    if i >= p.lo {
      ScanFacts(p, i, WindowStart(p.cfg, i), Init(i));
    }
  }

  /** The cell of a reached index `i > 0` is its parent's score extended by
      the window from the parent, and that window is admissible and not
      pruned. On ties the smallest start index wins: every earlier start in
      the window offers a strictly worse candidate. */
  lemma ParentStep(p: Problem, i: nat)
    requires i > 0 && EntryAt(p, i).score.Reached?
    ensures var e := EntryAt(p, i);
            && e.parent < i
            && Edge(p, e.parent, i).Some?
            && EntryAt(p, e.parent).score.Reached?
            && e.score == Extend(EntryAt(p, e.parent).score, Edge(p, e.parent, i).value)
            && forall k :: WindowStart(p.cfg, i) <= k < e.parent ==> Better(e.score, Candidate(p, i, k))
  {
    ScanFacts(p, i, WindowStart(p.cfg, i), Init(i));
  }

  /** An index whose window offers no reached start index stays unreached. */
  lemma UnreachedWithoutReachedStarts(p: Problem, i: nat)
    requires i > 0
    requires forall k :: WindowStart(p.cfg, i) <= k <= WindowEnd(p.cfg, i) && k < i ==>
               EntryAt(p, k).score.Unreached?
    ensures EntryAt(p, i).score.Unreached?
  {
    if i >= p.lo {
      ScanFacts(p, i, WindowStart(p.cfg, i), Init(i));
    }
  }

  /** The cell of `i` is no worse than any candidate of its window
      (the Bellman inequality). */
  lemma EntryBeatsCandidates(p: Problem, i: nat, k: nat)
    requires p.lo <= i && WindowStart(p.cfg, i) <= k <= WindowEnd(p.cfg, i)
    ensures NoWorse(EntryAt(p, i).score, Candidate(p, i, k))
  {
    ScanFacts(p, i, WindowStart(p.cfg, i), Init(i));
  }

  // ---------------------------------------------------------------------
  // Chains
  // ---------------------------------------------------------------------

  /** Boundaries `0 = b[0] < b[1] < ... < b[k] = i` whose consecutive pairs
      are windows the DP may use. */
  predicate IsChain(p: Problem, b: seq<nat>, i: nat)
  {
    && |b| >= 1 && b[0] == 0 && b[|b| - 1] == i
    && forall k :: 0 <= k < |b| - 1 ==> b[k] < b[k + 1] && Edge(p, b[k], b[k + 1]).Some?
  }

  /** At least one boundary, and every consecutive pair a window the DP may
      use (its fit then exists: `b[k] <= b[k + 1] < |points|`). */
  predicate Usable(p: Problem, b: seq<nat>)
  {
    |b| >= 1 && forall k :: 0 <= k < |b| - 1 ==> Edge(p, b[k], b[k + 1]).Some?
  }

  /** The fit errors of the segments of a chain, in order. */
  function SegmentErrors(p: Problem, b: seq<nat>): (s: seq<real>)
    requires Usable(p, b)
    ensures |s| == |b| - 1
    ensures forall k :: 0 <= k < |s| ==> s[k] == Fit(p, b[k], b[k + 1]).error
  {
    seq(|b| - 1, k requires 0 <= k < |b| - 1 => Edge(p, b[k], b[k + 1]).value)
  }

  /** The score of a chain: its number of segments and the sum of their
      errors. */
  function ChainScore(p: Problem, b: seq<nat>): (s: Score)
    requires Usable(p, b)
    ensures s.Reached? && s.segments == |b| - 1
    ensures s.error == Sum(SegmentErrors(p, b))
  {
    Reached(|b| - 1, Sum(SegmentErrors(p, b)))
  }

  /** Appending a boundary appends the error of the new window. */
  lemma SegmentErrorsAppend(p: Problem, b: seq<nat>, q: nat, i: nat)
    requires Usable(p, b) && Usable(p, b + [i]) && b[|b| - 1] == q && Edge(p, q, i).Some?
    ensures SegmentErrors(p, b + [i]) == SegmentErrors(p, b) + [Edge(p, q, i).value]
  {
    var c := b + [i];
    var s := SegmentErrors(p, c);
    var t := SegmentErrors(p, b) + [Edge(p, q, i).value];
    forall k | 0 <= k < |s|
      ensures s[k] == t[k]
    {
      assert c[k] == (if k < |b| then b[k] else i);
      assert c[k + 1] == (if k + 1 < |b| then b[k + 1] else i);
    }
  }

  /** A chain followed by one more usable window is a chain. */
  lemma ChainAppendIsChain(p: Problem, b: seq<nat>, q: nat, i: nat)
    requires IsChain(p, b, q) && q < i && Edge(p, q, i).Some?
    ensures IsChain(p, b + [i], i) && Usable(p, b + [i])
  {
    var c := b + [i];
    forall k | 0 <= k < |c| - 1
      ensures c[k] < c[k + 1] && Edge(p, c[k], c[k + 1]).Some?
    {
      if k < |b| - 1 {
        assert c[k] == b[k] && c[k + 1] == b[k + 1];
      } else {
        assert c[k] == q && c[k + 1] == i;
      }
    }
  }

  /** A chain followed by one more usable window is a chain, whose score is
      the shorter chain's score extended by that window. */
  lemma ChainAppend(p: Problem, b: seq<nat>, q: nat, i: nat)
    requires IsChain(p, b, q) && q < i && Edge(p, q, i).Some?
    ensures IsChain(p, b + [i], i)
    ensures ChainScore(p, b + [i]) == Extend(ChainScore(p, b), Edge(p, q, i).value)
  {
    ChainAppendIsChain(p, b, q, i);
    assert Usable(p, b);
    assert Sum(SegmentErrors(p, b + [i])) == Sum(SegmentErrors(p, b)) + Edge(p, q, i).value by {
      SegmentErrorsAppend(p, b, q, i);
      var s := SegmentErrors(p, b + [i]);
      assert s[..|s| - 1] == SegmentErrors(p, b);
    }
  }

  /** Dropping the last boundary of a chain of two or more boundaries leaves
      a chain to the previous boundary. */
  lemma ChainPrefix(p: Problem, b: seq<nat>, i: nat)
    requires IsChain(p, b, i) && |b| >= 2
    ensures IsChain(p, b[..|b| - 1], b[|b| - 2])
    ensures b == b[..|b| - 1] + [i]
  {
  }

  /** Optimality: every index some chain reaches is reached, and its cell is
      no worse than that chain, so `(seg_dp[i], err_dp[i])` is the
      lexicographic minimum over all chains to `i`. */
  lemma {:induction false} EntryOptimal(p: Problem, b: seq<nat>, i: nat)
    requires IsChain(p, b, i)
    ensures EntryAt(p, i).score.Reached?
    ensures NoWorse(EntryAt(p, i).score, ChainScore(p, b))
    decreases |b|
  {
    if |b| == 1 {
      EntryZero(p);
    } else {
      var q := b[|b| - 2];
      var prefix := b[..|b| - 1];
      ChainPrefix(p, b, i);
      EntryOptimal(p, prefix, q);
      ChainAppend(p, prefix, q, i);
      var e := Edge(p, q, i).value;
      var a := EntryAt(p, q).score;
      ExtendMonotone(a, ChainScore(p, prefix), e);
      EntryBeatsCandidates(p, i, q);
      assert Candidate(p, i, q) == Extend(a, e);
      OrderLaws(EntryAt(p, i).score, Extend(a, e), ChainScore(p, b));
    }
  }

  // ---------------------------------------------------------------------
  // Backtracking
  // ---------------------------------------------------------------------

  /** Every recorded parent lies below its index. */
  predicate Descending(parents: seq<nat>)
  {
    forall k :: 0 < k < |parents| ==> parents[k] < k
  }

  /** The boundaries the `while end > 0` loop of `reconstruct_curves`
      visits, in increasing order: from 0 up to `i`. */
  function Backtrack(parents: seq<nat>, i: nat): (b: seq<nat>)
    requires Descending(parents) && i < |parents|
    ensures |b| >= 1 && b[0] == 0 && b[|b| - 1] == i
    ensures forall k :: 0 <= k < |b| - 1 ==> b[k] < b[k + 1]
    decreases i
  {
    if i == 0 then [0] else Backtrack(parents, parents[i]) + [i]
  }

  /** The parents of the table. */
  predicate ParentsOf(p: Problem, parents: seq<nat>)
  {
    forall k :: 0 <= k < |parents| ==> parents[k] == EntryAt(p, k).parent
  }

  /** The table's parents always descend. */
  lemma ParentsDescend(p: Problem, parents: seq<nat>)
    requires ParentsOf(p, parents)
    ensures Descending(parents)
  {
    forall k | 0 < k < |parents|
      ensures parents[k] < k
    {
      ParentBelow(p, k);
    }
  }

  /** Backtracking from a reached index yields a chain whose score is the
      index's cell: the optimum is attained, by the path the program
      rebuilds. */
  lemma {:induction false} BacktrackIsWitness(p: Problem, parents: seq<nat>, i: nat)
    requires ParentsOf(p, parents) && Descending(parents)
    requires i < |parents| && EntryAt(p, i).score.Reached?
    ensures IsChain(p, Backtrack(parents, i), i)
    ensures ChainScore(p, Backtrack(parents, i)) == EntryAt(p, i).score
    decreases i
  {
    if i == 0 {
      EntryZero(p);
    } else {
      var q := parents[i];
      ParentStep(p, i);
      BacktrackIsWitness(p, parents, q);
      ChainAppend(p, Backtrack(parents, q), q, i);
    }
  }

  /** The segments of a chain are admissible and within the error bound
      whenever the loop starts at or after `min_segment_len - 1` (the
      source's start `min_segment_len` and the corrected start both qualify). */
  lemma ChainSegmentsAdmissible(p: Problem, b: seq<nat>, i: nat, k: nat)
    requires IsChain(p, b, i) && p.lo + 1 >= p.cfg.minSegmentLen
    requires k < |b| - 1
    ensures Admissible(p.cfg, b[k], b[k + 1]) && b[k + 1] < |p.points|
    ensures !Exceeds(Fit(p, b[k], b[k + 1]).error, p.cfg.maxError)
  {
    WindowCharacterisation(p.lo, p.cfg, b[k], b[k + 1]);
  }

  /** The curves fitted to the segments of a chain, in order. */
  function ChainCurves(p: Problem, b: seq<nat>): (cs: seq<QuadraticBezier>)
    requires Usable(p, b)
    ensures |cs| == |b| - 1
    ensures forall k :: 0 <= k < |cs| ==> cs[k] == Fit(p, b[k], b[k + 1]).bezier
  {
    seq(|b| - 1, k requires 0 <= k < |b| - 1 => Fit(p, b[k], b[k + 1]).bezier)
  }

  /** Under the fitter contract the fit of window `(j, i)` runs from point
      `j` to point `i` and has a non-negative error. */
  lemma FitEnds(p: Problem, j: nat, i: nat)
    requires FitterContract(p.fitter) && j <= i < |p.points|
    ensures Fit(p, j, i).bezier.p0 == p.points[j] && Fit(p, j, i).bezier.p2 == p.points[i]
    ensures 0.0 <= Fit(p, j, i).error
  {
    var pts := p.points[j..i + 1];
    assert Fit(p, j, i) == p.fitter(pts, p.cfg.maxError);
    assert pts[0] == p.points[j] && pts[|pts| - 1] == p.points[i];
  }

  /** With a fitter that fixes endpoints, the curves of a chain to `i` form a
      continuous path from the first point to point `i`: each curve ends
      where the next begins. The chain's summed error is non-negative. */
  lemma ChainContinuous(p: Problem, b: seq<nat>, i: nat)
    requires FitterContract(p.fitter) && IsChain(p, b, i) && |b| >= 2
    ensures var cs := ChainCurves(p, b);
            && cs[0].p0 == p.points[0]
            && cs[|cs| - 1].p2 == p.points[i]
            && forall k :: 0 <= k < |cs| - 1 ==> cs[k].p2 == cs[k + 1].p0
    ensures 0.0 <= ChainScore(p, b).error
  {
    var cs := ChainCurves(p, b);
    var es := SegmentErrors(p, b);
    forall k | 0 <= k < |cs|
      ensures cs[k].p0 == p.points[b[k]] && cs[k].p2 == p.points[b[k + 1]]
      ensures 0.0 <= es[k]
    {
      FitEnds(p, b[k], b[k + 1]);
    }
    SumNonNegative(es);
  }
}
