/** Numeric helpers shared by the geometry, the fitter and the optimizer.

    Floating-point values are modelled as mathematical reals. The two places
    where the program relies on IEEE special values are made explicit:
    `f64::INFINITY` as a configuration bound becomes `ExtReal.PosInf`, and the
    square root, which Dafny cannot compute over reals, is a parameter that
    callers must supply together with the law it obeys (`IsSqrt`). */
module Numeric {

  /** A real number or +infinity: the values `max_error` takes in the program. */
  datatype ExtReal = Finite(v: real) | PosInf

  /** `a > m`, where `m` may be +infinity (nothing exceeds +infinity). */
  predicate Exceeds(a: real, m: ExtReal)
  {
    m.Finite? && a > m.v
  }

  /** `m > 0.0`, with +infinity positive. */
  predicate IsPositive(m: ExtReal)
  {
    m.PosInf? || m.v > 0.0
  }

  /** `m >= b` for a finite `b`. */
  predicate AtLeast(m: ExtReal, b: real)
  {
    m.PosInf? || m.v >= b
  }

  /** `f64::max(m, b)` for a finite lower bound `b`. */
  function MaxWith(m: ExtReal, b: real): (r: ExtReal)
    ensures AtLeast(r, b)
    ensures AtLeast(m, b) ==> r == m
    ensures !AtLeast(m, b) ==> r == Finite(b)
  {
    match m
    case PosInf => PosInf
    case Finite(v) => if v >= b then m else Finite(b)
  }

  /** `x * x`, the square of a real, which is never negative. */
  function Square(x: real): (r: real)
    ensures 0.0 <= r
  {
    x * x
  }

  /** `a / b` for a positive `b`, characterised by `r * b == a`. */
  function Ratio(a: real, b: real): (r: real)
    requires b > 0.0
    ensures r * b == a
    ensures 0.0 <= a ==> 0.0 <= r
    ensures a <= b ==> r <= 1.0
    ensures a == 0.0 ==> r == 0.0
    ensures a == b ==> r == 1.0
  {
    a / b
  }

  /** Dividing by the same positive number preserves order. */
  lemma RatioMonotone(a: real, a2: real, b: real)
    requires b > 0.0 && a <= a2
    ensures Ratio(a, b) <= Ratio(a2, b)
  {
    assert a2 / b - a / b == (a2 - a) / b;
    assert 0.0 <= (a2 - a) / b;
  }

  /** The laws of the square root the program takes from `f64::sqrt`: the
      root of a non-negative number is non-negative and squares back to it,
      and the root of zero is zero. */
  ghost predicate IsSqrt(sqrt: real -> real)
  {
    && sqrt(0.0) == 0.0
    && forall x: real :: 0.0 <= x ==> 0.0 <= sqrt(x) && Square(sqrt(x)) == x
  }

  /** `a.saturating_sub(b)` on `usize`. */
  function SaturatingSub(a: nat, b: nat): (r: nat)
    ensures a >= b ==> r + b == a
    ensures a < b ==> r == 0
  {
    if a >= b then a - b else 0
  }

  function MaxNat(a: nat, b: nat): (r: nat)
    ensures r >= a && r >= b && (r == a || r == b)
  {
    if a >= b then a else b
  }

  /** The minimum of a non-empty sequence of reals. */
  function MinOf(s: seq<real>): (r: real)
    requires |s| > 0
    ensures r in s
    ensures forall i :: 0 <= i < |s| ==> r <= s[i]
    decreases |s|
  {
    if |s| == 1 then s[0]
    else
      var m := MinOf(s[1..]);
      assert forall i :: 1 <= i < |s| ==> s[i] == s[1..][i - 1];
      if s[0] <= m then s[0] else m
  }

  /** The sum of a sequence of reals, accumulated from the front. */
  function Sum(s: seq<real>): real
    decreases |s|
  {
    if |s| == 0 then 0.0 else Sum(s[..|s| - 1]) + s[|s| - 1]
  }

  /** `n` copies of `a` added up: the sum of a constant sequence of length `n`. */
  function Times(a: real, n: nat): real
  {
    if n == 0 then 0.0 else Times(a, n - 1) + a
  }

  /** Repeated addition is multiplication. */
  lemma {:induction false} TimesIsProduct(a: real, n: nat)
    ensures Times(a, n) == a * (n as real)
  {
    if n > 0 {
      TimesIsProduct(a, n - 1);
    }
  }

  /** A sum of non-negative terms is non-negative. */
  lemma {:induction false} SumNonNegative(s: seq<real>)
    requires forall i :: 0 <= i < |s| ==> 0.0 <= s[i]
    ensures 0.0 <= Sum(s)
    decreases |s|
  {
    if |s| > 0 {
      SumNonNegative(s[..|s| - 1]);
    }
  }

  /** A sum of non-negative terms each bounded by `b` is bounded by `|s| * b`. */
  lemma {:induction false} SumBounds(s: seq<real>, b: real)
    requires forall i :: 0 <= i < |s| ==> s[i] <= b
    ensures Sum(s) <= |s| as real * b
    decreases |s|
  {
    if |s| > 0 {
      SumBounds(s[..|s| - 1], b);
    }
  }
}
