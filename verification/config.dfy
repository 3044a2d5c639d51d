/** `FitConfig`: the segment-length bounds and the error bound of the
    optimizer (src/optimizer/config.rs). */
module Config {
  import opened Numeric

  /** `max_error` may be `f64::INFINITY`; the optimizer's fallback uses it. */
  datatype FitConfig = FitConfig(minSegmentLen: nat, maxSegmentLen: nat, maxError: ExtReal)

  /** The three argument checks of `FitConfig::new`, in the order they run. */
  datatype ConfigError = MinSegmentLenTooSmall | MaxBelowMin | MaxErrorNotPositive

  /** The panic of a failed `assert!` becomes an `Err` value. */
  datatype Result<T, E> = Ok(value: T) | Err(error: E)

  /** Everything `FitConfig::new` checks. */
  predicate Valid(c: FitConfig)
  {
    c.minSegmentLen >= 3 && c.maxSegmentLen >= c.minSegmentLen && IsPositive(c.maxError)
  }

  /** What `FitConfig::new_clamped` guarantees of its output. */
  predicate Clamped(c: FitConfig)
  {
    c.minSegmentLen >= 3 && c.maxSegmentLen >= c.minSegmentLen && AtLeast(c.maxError, 0.1)
  }

  /** `FitConfig::default`: segments of 30 to 200 points, mean squared error
      at most 2. */
  function Default(): (c: FitConfig)
    ensures c.minSegmentLen == 30 && c.maxSegmentLen == 200 && c.maxError == Finite(2.0)
    ensures Valid(c)
  {
    FitConfig(30, 200, Finite(2.0))
  }

  /** `FitConfig::new`: accepts exactly the valid argument triples, stores
      them unchanged, and otherwise reports the first check that fails. */
  function New(minSegmentLen: nat, maxSegmentLen: nat, maxError: ExtReal): (r: Result<FitConfig, ConfigError>)
    ensures r.Ok? <==> Valid(FitConfig(minSegmentLen, maxSegmentLen, maxError))
    ensures r.Ok? ==> r.value == FitConfig(minSegmentLen, maxSegmentLen, maxError)
    ensures minSegmentLen < 3 ==> r == Err(MinSegmentLenTooSmall)
    ensures minSegmentLen >= 3 && maxSegmentLen < minSegmentLen ==> r == Err(MaxBelowMin)
    ensures r == Err(MaxErrorNotPositive) <==>
              minSegmentLen >= 3 && maxSegmentLen >= minSegmentLen && !IsPositive(maxError)
  {
    if minSegmentLen < 3 then Err(MinSegmentLenTooSmall)
    else if maxSegmentLen < minSegmentLen then Err(MaxBelowMin)
    else if !IsPositive(maxError) then Err(MaxErrorNotPositive)
    else Ok(FitConfig(minSegmentLen, maxSegmentLen, maxError))
  }

  /** `new` and the field accessors are inverse on valid configurations: a
      valid configuration is rebuilt from its own fields. */
  lemma NewRoundTrip(c: FitConfig)
    ensures New(c.minSegmentLen, c.maxSegmentLen, c.maxError) == Ok(c) <==> Valid(c)
  {
  }

  /** The default configuration passes every check of `new`. */
  lemma DefaultAccepted()
    ensures New(30, 200, Finite(2.0)) == Ok(Default())
  {
  }

  /** `FitConfig::new_clamped`: raises each field to the least value that
      satisfies its bound and leaves it alone when it already does. */
  function NewClamped(minSegmentLen: nat, maxSegmentLen: nat, maxError: ExtReal): (c: FitConfig)
    ensures Clamped(c)
    ensures c.minSegmentLen >= minSegmentLen && c.maxSegmentLen >= maxSegmentLen
    ensures AtLeast(c.maxError, 0.1) && (maxError.PosInf? ==> c.maxError.PosInf?)
    ensures maxError.Finite? && c.maxError.Finite? ==> c.maxError.v >= maxError.v
    ensures c.maxError == MaxWith(maxError, 0.1)
    ensures Clamped(FitConfig(minSegmentLen, maxSegmentLen, maxError)) ==>
              c == FitConfig(minSegmentLen, maxSegmentLen, maxError)
  {
    var minLen := MaxNat(minSegmentLen, 3);
    var maxLen := MaxNat(maxSegmentLen, minLen);
    FitConfig(minLen, maxLen, MaxWith(maxError, 0.1))
  }

  /** Each clamped field is the least value at or above the argument that
      meets its bound: no smaller repair exists. */
  lemma NewClampedIsLeast(minSegmentLen: nat, maxSegmentLen: nat, maxError: ExtReal, d: FitConfig)
    requires Clamped(d)
    requires d.minSegmentLen >= minSegmentLen && d.maxSegmentLen >= maxSegmentLen
    ensures var c := NewClamped(minSegmentLen, maxSegmentLen, maxError);
            c.minSegmentLen <= d.minSegmentLen && c.maxSegmentLen <= d.maxSegmentLen
  {
  }

  /** Clamping twice is clamping once. */
  lemma NewClampedIdempotent(minSegmentLen: nat, maxSegmentLen: nat, maxError: ExtReal)
    ensures var c := NewClamped(minSegmentLen, maxSegmentLen, maxError);
            NewClamped(c.minSegmentLen, c.maxSegmentLen, c.maxError) == c
  {
  }

  /** A clamped configuration is one `new` accepts. */
  lemma ClampedIsValid(c: FitConfig)
    requires Clamped(c)
    ensures New(c.minSegmentLen, c.maxSegmentLen, c.maxError) == Ok(c)
  {
  }
}
