/** Exact-real arithmetic used by the curve matcher: the extended reals that
    stand for float('inf'), absolute values, sums of squared errors, the
    largest pointwise deviation of two curves, and round(v, 4).
    Floating point is not modelled: every value is an exact real. */
module Numeric {

  /** A real number or +infinity, the value float('inf') takes in the scans. */
  datatype ExtReal = Finite(v: real) | Inf

  /** a <= b on the extended reals; +infinity lies above every real. */
  predicate Le(a: ExtReal, b: ExtReal)
  {
    match (a, b)
    case (_, Inf) => true
    case (Inf, Finite(_)) => false
    case (Finite(x), Finite(y)) => x <= y
  }

  /** a < b on the extended reals. */
  predicate Lt(a: ExtReal, b: ExtReal)
  {
    !Le(b, a)
  }

  /** Le is transitive. */
  lemma LeTransitive(a: ExtReal, b: ExtReal, c: ExtReal)
    requires Le(a, b) && Le(b, c)
    ensures Le(a, c)
  {
  }

  /** Lt is Le without equality. */
  lemma LtIsLe(a: ExtReal, b: ExtReal)
    requires Lt(a, b)
    ensures Le(a, b) && a != b
  {
  }

  function Abs(x: real): (r: real)
    ensures r >= 0.0 && (r == x || r == -x)
  {
    if x < 0.0 then -x else x
  }

  /** Sum of squared errors of two aligned curves (np.sum((a - b) ** 2)). */
  function Sse(a: seq<real>, b: seq<real>): (r: real)
    requires |a| == |b|
    ensures r >= 0.0
  {
    if |a| == 0 then 0.0 else (a[0] - b[0]) * (a[0] - b[0]) + Sse(a[1..], b[1..])
  }

  /** A curve compared with itself has no squared error. */
  lemma {:induction false} SseSelf(a: seq<real>)
    ensures Sse(a, a) == 0.0
  {
    if |a| > 0 {
      SseSelf(a[1..]);
    }
  }

  /** Largest absolute pointwise difference of two aligned, non-empty curves
      (np.max(np.abs(a - b))). */
  function MaxAbsDiff(a: seq<real>, b: seq<real>): (r: real)
    requires |a| == |b| > 0
    ensures forall i :: 0 <= i < |a| ==> Abs(a[i] - b[i]) <= r
    ensures exists i :: 0 <= i < |a| && r == Abs(a[i] - b[i])
  {
    var d := Abs(a[0] - b[0]);
    if |a| == 1 then d
    else
      var rest := MaxAbsDiff(a[1..], b[1..]);
      assert forall i :: 1 <= i < |a| ==> a[i] == a[1..][i - 1] && b[i] == b[1..][i - 1];
      if d >= rest then d else rest
  }

  /** The integer number of 0.0001 steps round(v, 4) lands on: the multiple
      of 0.0001 nearest to v, ties going to the even multiple. */
  function RoundSteps(v: real): (k: int)
  {
    var s := v * 10000.0;
    var n := s.Floor;
    var f := s - n as real;
    if f < 0.5 then n else if f > 0.5 then n + 1 else if n % 2 == 0 then n else n + 1
  }

  /** round(v, 4) on an exact value. */
  function Round4(v: real): (r: real)
  {
    RoundSteps(v) as real / 10000.0
  }

  /** Rounding moves a value by at most half a step of 0.0001 and lands on a
      multiple of the step. */
  lemma RoundCloseToValue(v: real)
    ensures -0.00005 <= Round4(v) - v <= 0.00005
    ensures Round4(v) * 10000.0 == RoundSteps(v) as real
  {
    var s := v * 10000.0;
    var k := RoundSteps(v);
    assert -0.5 <= k as real - s <= 0.5;
  }

  /** Rounding never reverses the order of two values, so ranking by rounded
      error agrees with ranking by error up to ties. */
  lemma RoundMonotone(a: real, b: real)
    requires a <= b
    ensures Round4(a) <= Round4(b)
  {
    var na := (a * 10000.0).Floor;
    var nb := (b * 10000.0).Floor;
    assert na <= nb;
    assert RoundSteps(a) <= RoundSteps(b);
  }

  /** A value already on the 0.0001 grid is left unchanged. */
  lemma RoundOfGridValue(k: int)
    ensures Round4(k as real / 10000.0) == k as real / 10000.0
  {
    assert (k as real / 10000.0) * 10000.0 == k as real;
  }

  /** The test map_test_data applies, d <= sqrt(2) * m, stated without a
      square root: m is not negative and d squared is at most 2 m squared. */
  predicate WithinTolerance(d: real, m: real)
  {
    0.0 <= m && d * d <= 2.0 * m * m
  }

  lemma SquareMonotone(a: real, b: real)
    requires 0.0 <= a <= b
    ensures a * a <= b * b
  {
  }

  lemma PositiveProduct(x: real, y: real)
    requires x > 0.0 && y > 0.0
    ensures x * y > 0.0
  {
  }

  lemma SquareStrictlyMonotone(a: real, b: real)
    requires 0.0 <= a < b
    ensures a * a < b * b
  {
    PositiveProduct(b - a, b + a);
    assert (b - a) * (b + a) == b * b - a * a;
  }

  /** For any s that is the square root of 2, a deviation d >= 0 passes
      d <= s * m exactly when WithinTolerance(d, m) holds. */
  lemma ToleranceIsSqrtTwo(d: real, m: real, s: real)
    requires s > 0.0 && s * s == 2.0 && d >= 0.0
    ensures d <= s * m <==> WithinTolerance(d, m)
  {
    if m < 0.0 {
      assert s * m < 0.0;
    } else {
      var t := s * m;
      assert t >= 0.0;
      assert t * t == 2.0 * m * m;
      if d <= t {
        SquareMonotone(d, t);
      } else {
        SquareStrictlyMonotone(t, d);
      }
    }
  }

  /** A deviation of zero passes the test for every non-negative m. */
  lemma ZeroWithinTolerance(m: real)
    requires m >= 0.0
    ensures WithinTolerance(0.0, m)
  {
  }
}
