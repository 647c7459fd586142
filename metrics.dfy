/** Goodness-of-fit metrics of a modelled series `m` against an observed
    series `o`, over exact reals. Where the source's array arithmetic would
    fail or produce an infinite or undefined value the model returns a
    failure instead. */
module Metrics {
  import opened Wrappers

  datatype MetricError = LengthMismatch | EmptySeries | DegenerateSeries | InvalidWeight

  function Sum(s: seq<real>): real {
    if s == [] then 0.0 else s[0] + Sum(s[1..])
  }

  function Mean(s: seq<real>): real
    requires |s| > 0
  {
    Sum(s) / |s| as real
  }

  /** Every element of `s` equals every other. */
  predicate Constant(s: seq<real>) {
    forall i, j :: 0 <= i < |s| && 0 <= j < |s| ==> s[i] == s[j]
  }

  function Product(a: real, b: real): real {
    a * b
  }

  /** A product of two reals of the same strict sign is positive. */
  lemma ProductPositive(a: real, b: real)
    requires (a > 0.0 && b > 0.0) || (a < 0.0 && b < 0.0)
    ensures Product(a, b) > 0.0
  {
    if a < 0.0 {
      assert a * b == (-a) * (-b);
    }
  }

  function Square(x: real): real {
    Product(x, x)
  }

  /** A square is never negative, and positive away from 0. */
  lemma SquarePositive(x: real)
    ensures Square(x) >= 0.0
    ensures x != 0.0 ==> Square(x) > 0.0
  {
    if x != 0.0 {
      ProductPositive(x, x);
    }
  }

  /** The sum of squared deviations of `s` from `c`; never negative. */
  function SquaredDeviation(s: seq<real>, c: real): (r: real)
    ensures r >= 0.0
  {
    if s == [] then 0.0
    else
      SquarePositive(s[0] - c);
      Square(s[0] - c) + SquaredDeviation(s[1..], c)
  }

  /** The sum of squared errors of `m` against `o`; never negative. */
  function SquaredError(m: seq<real>, o: seq<real>): (r: real)
    requires |m| == |o|
    ensures r >= 0.0
  {
    if m == [] then 0.0
    else
      SquarePositive(m[0] - o[0]);
      Square(m[0] - o[0]) + SquaredError(m[1..], o[1..])
  }

  /** The sum of element-wise differences `m - o`. */
  function DiffSum(m: seq<real>, o: seq<real>): real
    requires |m| == |o|
  {
    if m == [] then 0.0 else (m[0] - o[0]) + DiffSum(m[1..], o[1..])
  }

  /** The squared error vanishes exactly on a perfect fit. */
  lemma {:induction false} SquaredErrorZero(m: seq<real>, o: seq<real>)
    requires |m| == |o|
    ensures SquaredError(m, o) == 0.0 <==> m == o
  {
    if m != [] {
      SquaredErrorZero(m[1..], o[1..]);
      SquarePositive(m[0] - o[0]);
      if m == o {
        assert m[1..] == o[1..];
      } else if m[0] == o[0] {
        assert m == [m[0]] + m[1..] && o == [o[0]] + o[1..];
        assert m[1..] != o[1..];
      } else {
        assert SquaredError(m, o) > 0.0;
      }
    }
  }

  /** The squared deviation from `c` vanishes exactly when every element is `c`. */
  lemma {:induction false} SquaredDeviationZero(s: seq<real>, c: real)
    ensures SquaredDeviation(s, c) == 0.0 <==> forall i :: 0 <= i < |s| ==> s[i] == c
  {
    if s != [] {
      SquaredDeviationZero(s[1..], c);
      SquarePositive(s[0] - c);
      if forall i :: 0 <= i < |s| ==> s[i] == c {
        assert forall i :: 0 <= i < |s| - 1 ==> s[1..][i] == s[i + 1];
      } else if s[0] == c {
        var i :| 0 <= i < |s| && s[i] != c;
        assert s[1..][i - 1] == s[i];
      } else {
        assert SquaredDeviation(s, c) > 0.0;
      }
    }
  }

  /** A series whose elements are all `c` sums to `|s|` times `c`. */
  lemma {:induction false} SumOfConstant(s: seq<real>, c: real)
    requires forall i :: 0 <= i < |s| ==> s[i] == c
    ensures Sum(s) == |s| as real * c
  {
    if s != [] {
      assert forall i :: 0 <= i < |s| - 1 ==> s[1..][i] == s[i + 1];
      SumOfConstant(s[1..], c);
    }
  }

  /** The denominator of the Nash-Sutcliffe efficiency is zero exactly when the
      observed series is constant. */
  lemma DegenerateIffConstant(o: seq<real>)
    requires |o| > 0
    ensures SquaredDeviation(o, Mean(o)) == 0.0 <==> Constant(o)
  {
    SquaredDeviationZero(o, Mean(o));
    if Constant(o) {
      SumOfConstant(o, o[0]);
      assert Mean(o) == o[0];
    }
  }

  /** The sum of differences is the difference of the sums. */
  lemma {:induction false} DiffSumIsDifference(m: seq<real>, o: seq<real>)
    requires |m| == |o|
    ensures DiffSum(m, o) == Sum(m) - Sum(o)
  {
    if m != [] {
      DiffSumIsDifference(m[1..], o[1..]);
    }
  }

  /** Nash-Sutcliffe efficiency: one minus the squared error over the squared
      deviation of the observations from their mean. It is defined exactly when
      the series have one non-zero length and the observations are not
      constant; it is at most 1, and it is 1 exactly on a perfect fit. */
  function Nse(m: seq<real>, o: seq<real>): (r: Result<real, MetricError>)
    ensures r.Success? <==> |m| == |o| && |o| > 0 && !Constant(o)
    ensures r.Success? ==> r.value <= 1.0 && (r.value == 1.0 <==> m == o)
  {
    if |m| != |o| then Failure(LengthMismatch)
    else if |o| == 0 then Failure(EmptySeries)
    else
      var err1 := SquaredError(m, o);
      var err2 := SquaredDeviation(o, Mean(o));
      DegenerateIffConstant(o);
      SquaredErrorZero(m, o);
      if err2 == 0.0 then Failure(DegenerateSeries)
      else Success(1.0 - err1 / err2)
  }

  /** A non-constant series fits itself perfectly. */
  lemma NseOfItself(o: seq<real>)
    requires |o| > 0 && !Constant(o)
    ensures Nse(o, o) == Success(1.0)
  {
  }

  /** Percent bias: the total error as a percentage of the total observed flow.
      Defined exactly when the lengths agree and the observed total is not 0;
      it is 0 exactly when the totals agree, and, for a positive observed total,
      positive exactly when the model over-predicts the total. */
  function Pbias(m: seq<real>, o: seq<real>): (r: Result<real, MetricError>)
    ensures r.Success? <==> |m| == |o| && Sum(o) != 0.0
    ensures r.Success? ==> (r.value == 0.0 <==> Sum(m) == Sum(o))
    ensures r.Success? && Sum(o) > 0.0 ==> (r.value > 0.0 <==> Sum(m) > Sum(o))
  {
    if |m| != |o| then Failure(LengthMismatch)
    else if Sum(o) == 0.0 then Failure(DegenerateSeries)
    else
      DiffSumIsDifference(m, o);
      Success((DiffSum(m, o) / Sum(o)) * 100.0)
  }

  /** A series with a non-zero total has no bias against itself. */
  lemma PbiasOfItself(o: seq<real>)
    requires Sum(o) != 0.0
    ensures Pbias(o, o) == Success(0.0)
  {
  }

  /** The mean squared error, the quantity under the square root of the RMSE,
      with `n` the observed length as at its call site. Never negative, and 0
      exactly on a perfect fit. */
  function MeanSquaredError(m: seq<real>, o: seq<real>): (r: Result<real, MetricError>)
    ensures r.Success? <==> |m| == |o| && |o| > 0
    ensures r.Success? ==> r.value >= 0.0 && (r.value == 0.0 <==> m == o)
  {
    if |m| != |o| then Failure(LengthMismatch)
    else if |o| == 0 then Failure(EmptySeries)
    else
      SquaredErrorZero(m, o);
      Success(SquaredError(m, o) / |o| as real)
  }

  /** The weighted combination of the NSE and the log-NSE as intended: a convex
      combination, so it lies between the two scores, equals the NSE at weight
      1 and the log-NSE at weight 0. A weight outside [0, 1] is refused. */
  function NseWeighted(nse: real, nselog: real, w: real): (r: Result<real, MetricError>)
    ensures r.Success? <==> 0.0 <= w <= 1.0
    ensures r.Success? ==> (nse <= r.value <= nselog || nselog <= r.value <= nse)
    ensures r.Success? && w == 1.0 ==> r.value == nse
    ensures r.Success? && w == 0.0 ==> r.value == nselog
  {
    if w < 0.0 || w > 1.0 then Failure(InvalidWeight)
    else
      ConvexBetween(nse, nselog, w);
      Success(Blend(nse, nselog, w))
  }

  /** `a` weighted by `w` plus `b` weighted by `1 - w`. */
  function Blend(a: real, b: real, w: real): real {
    w * a + (1.0 - w) * b
  }

  /** A convex combination of two reals lies between them. */
  lemma ConvexBetween(a: real, b: real, w: real)
    requires 0.0 <= w <= 1.0
    ensures a <= Blend(a, b, w) <= b || b <= Blend(a, b, w) <= a
    ensures w == 1.0 ==> Blend(a, b, w) == a
    ensures w == 0.0 ==> Blend(a, b, w) == b
  {
    var d := a - b;
    assert Blend(a, b, w) == b + Product(w, d);
    if d <= 0.0 {
      ProductNonnegative(w, -d);
      assert Product(w, d) == -Product(w, -d);
      ProductNonnegative(1.0 - w, -d);
      assert Product(1.0 - w, -d) == Product(w, d) - d;
    } else {
      ProductNonnegative(w, d);
      ProductNonnegative(1.0 - w, d);
      assert Product(1.0 - w, d) == d - Product(w, d);
    }
  }

  lemma ProductNonnegative(a: real, b: real)
    requires a >= 0.0 && b >= 0.0
    ensures Product(a, b) >= 0.0
  {
    if a > 0.0 && b > 0.0 {
      ProductPositive(a, b);
    }
  }

  /** The weighted NSE as the source writes it: the convex combination halved.
      A weight outside [0, 1] produces no value. */
  function NseWeightedHalved(nse: real, nselog: real, w: real): (r: Result<real, MetricError>)
    ensures r.Success? <==> 0.0 <= w <= 1.0
    ensures r.Success? ==> r.value * 2.0 == NseWeighted(nse, nselog, w).value
  {
    if w < 0.0 || w > 1.0 then Failure(InvalidWeight)
    else Success(Blend(nse, nselog, w) / 2.0)
  }

  /** The halving caps the score of a perfect fit at 0.5 instead of 1. */
  lemma PerfectFitHalved(w: real)
    requires 0.0 <= w <= 1.0
    ensures NseWeightedHalved(1.0, 1.0, w) == Success(0.5)
    ensures NseWeighted(1.0, 1.0, w) == Success(1.0)
  {
  }
}
