/** The numpy reductions the metrics use: sum, mean and population variance. */
module Statistics {

  /** `np.sum`, accumulated from the front. */
  function Sum(xs: seq<real>): real {
    if xs == [] then 0.0 else Sum(xs[..|xs| - 1]) + xs[|xs| - 1]
  }

  /** `np.mean` of a non-empty sequence. */
  function Mean(xs: seq<real>): (m: real)
    requires xs != []
    ensures m * (|xs| as real) == Sum(xs)
  {
    DivThenMul(Sum(xs), |xs| as real);
    Sum(xs) / (|xs| as real)
  }

  /** Dividing and then multiplying by the same non-zero number is the identity. */
  lemma DivThenMul(x: real, y: real)
    requires y != 0.0
    ensures (x / y) * y == x
  {
  }

  /** A non-zero number divided by itself is one. */
  lemma DivSelf(x: real)
    requires x != 0.0
    ensures x / x == 1.0
  {
  }

  /** Two successive ratios compose: (b / a) * (c / b) == c / a. */
  lemma RatiosCompose(a: real, b: real, c: real)
    requires a != 0.0 && b != 0.0
    ensures (b / a) * (c / b) == c / a
  {
  }

  /** Sum of squared deviations from `m`. */
  function SquaredDeviations(xs: seq<real>, m: real): real {
    if xs == [] then 0.0
    else SquaredDeviations(xs[..|xs| - 1], m) + (xs[|xs| - 1] - m) * (xs[|xs| - 1] - m)
  }

  /** Population variance (`np.std` squared, divisor = count); it is never negative. */
  function Variance(xs: seq<real>): (v: real)
    requires xs != []
    ensures v >= 0.0
  {
    SquaredDeviationsNonNegative(xs, Mean(xs));
    SquaredDeviations(xs, Mean(xs)) / (|xs| as real)
  }

  lemma {:induction false} SquaredDeviationsNonNegative(xs: seq<real>, m: real)
    ensures SquaredDeviations(xs, m) >= 0.0
  {
    if xs != [] {
      SquaredDeviationsNonNegative(xs[..|xs| - 1], m);
      var d := xs[|xs| - 1] - m;
      assert d * d >= 0.0;
    }
  }

  /** A sum of terms all within [lo, hi] lies within [n*lo, n*hi]. */
  lemma {:induction false} SumBounds(xs: seq<real>, lo: real, hi: real)
    requires forall i :: 0 <= i < |xs| ==> lo <= xs[i] <= hi
    ensures (|xs| as real) * lo <= Sum(xs) <= (|xs| as real) * hi
  {
    if xs != [] {
      var init := xs[..|xs| - 1];
      SumBounds(init, lo, hi);
      assert (|xs| as real) * lo == (|init| as real) * lo + lo;
      assert (|xs| as real) * hi == (|init| as real) * hi + hi;
    }
  }

  /** The mean lies between any lower and upper bound of the terms. */
  lemma MeanBounds(xs: seq<real>, lo: real, hi: real)
    requires xs != []
    requires forall i :: 0 <= i < |xs| ==> lo <= xs[i] <= hi
    ensures lo <= Mean(xs) <= hi
  {
    SumBounds(xs, lo, hi);
    var n, m := |xs| as real, Mean(xs);
    assert (m - lo) * n >= 0.0 && (hi - m) * n >= 0.0;
  }

  lemma {:induction false} SquaredDeviationsOfConstant(xs: seq<real>, m: real)
    requires forall i :: 0 <= i < |xs| ==> xs[i] == m
    ensures SquaredDeviations(xs, m) == 0.0
  {
    if xs != [] {
      SquaredDeviationsOfConstant(xs[..|xs| - 1], m);
    }
  }

  /** Constant terms have that constant as mean and zero variance. */
  lemma ConstantHasZeroVariance(xs: seq<real>, m: real)
    requires xs != []
    requires forall i :: 0 <= i < |xs| ==> xs[i] == m
    ensures Mean(xs) == m && Variance(xs) == 0.0
  {
    SumBounds(xs, m, m);
    SquaredDeviationsOfConstant(xs, m);
  }
}
