/** `calculate_metrics`: average return, volatility and cumulative return of a price frame. */
module Metrics {
  import opened Options
  import opened PriceFrames
  import opened Statistics

  /**
   * The three figures of the metrics dictionary. `variance` stands for the
   * "Volatility" entry squared: the model keeps the population variance of the
   * returns and leaves out the square root.
   */
  datatype MetricsResult = MetricsResult(
    averageReturn: Option<real>,
    variance: Option<real>,
    cumulativeReturn: Option<real>)

  predicate AllPositive(p: seq<real>) {
    forall i :: 0 <= i < |p| ==> p[i] > 0.0
  }

  /** `pct_change().dropna()` over a gap-free positive price column. */
  function Returns(p: seq<real>): (r: seq<real>)
    requires AllPositive(p)
    ensures |r| == if |p| < 2 then 0 else |p| - 1
  {
    if |p| < 2 then []
    else Returns(p[..|p| - 1]) + [p[|p| - 1] / p[|p| - 2] - 1.0]
  }

  /** Entry i of the returns is the change from price i to price i + 1. */
  lemma {:induction false} ReturnsAt(p: seq<real>, i: nat)
    requires AllPositive(p) && i + 1 < |p|
    ensures Returns(p)[i] == p[i + 1] / p[i] - 1.0
  {
    var q := p[..|p| - 1];
    assert Returns(p) == Returns(q) + [p[|p| - 1] / p[|p| - 2] - 1.0];
    if i + 1 < |q| {
      ReturnsAt(q, i);
    }
  }

  /** The factor by which compounding every period's return multiplies a holding. */
  function GrowthFactor(r: seq<real>): real {
    if r == [] then 1.0 else GrowthFactor(r[..|r| - 1]) * (1.0 + r[|r| - 1])
  }

  /** Endpoint cumulative return, `p[-1] / p[0] - 1`. */
  function CumulativeReturn(p: seq<real>): (c: real)
    requires p != [] && AllPositive(p)
    ensures (1.0 + c) * p[0] == p[|p| - 1]
    ensures |p| == 1 ==> c == 0.0
  {
    DivThenMul(p[|p| - 1], p[0]);
    DivSelf(p[0]);
    p[|p| - 1] / p[0] - 1.0
  }

  /**
   * The metrics of a usable frame's closing prices. The cumulative return is
   * always present, while mean and variance need at least one return, hence
   * two prices.
   */
  function PriceMetrics(p: seq<real>): (m: MetricsResult)
    requires p != [] && AllPositive(p)
    ensures m.cumulativeReturn.Some? && (1.0 + m.cumulativeReturn.value) * p[0] == p[|p| - 1]
    ensures |p| == 1 ==> m.cumulativeReturn == Some(0.0)
    ensures m.averageReturn.Some? <==> |p| >= 2
    ensures m.variance.Some? <==> |p| >= 2
    ensures |p| >= 2 ==>
      m.averageReturn.value * (|Returns(p)| as real) == Sum(Returns(p)) &&
      m.variance.value == Variance(Returns(p)) &&
      m.variance.value >= 0.0
  {
    var rs := Returns(p);
    var avg := if rs != [] then Some(Mean(rs)) else None;
    var vol := if rs != [] then Some(Variance(rs)) else None;
    MetricsResult(avg, vol, Some(CumulativeReturn(p)))
  }

  /**
   * `calculate_metrics`. An unusable frame gives three `None`s. With a single
   * price the cumulative return is 0 and not `None`: the second emptiness test
   * of the source cannot fail at that point.
   */
  function CalculateMetrics(df: Frame): (m: MetricsResult)
    requires Wf(df)
    ensures !ValidateData(df) <==> m == MetricsResult(None, None, None)
    ensures ValidateData(df) ==> m == PriceMetrics(df.close)
  {
    if IsEmpty(df) || CloseColumn !in df.columns then
      MetricsResult(None, None, None)
    else
      PriceMetrics(df.close)
  }

  /**
   * With every price present, compounding the per-period returns gives the
   * endpoint cumulative return: the two readings of "cumulative" agree.
   */
  lemma {:induction false} CompoundedReturnsTelescope(p: seq<real>)
    requires |p| >= 1 && AllPositive(p)
    ensures GrowthFactor(Returns(p)) == p[|p| - 1] / p[0]
  {
    if |p| >= 2 {
      var q := p[..|p| - 1];
      var x := p[|p| - 1] / p[|p| - 2] - 1.0;
      assert Returns(p) == Returns(q) + [x];
      var f := GrowthFactor(Returns(q));
      assert f == p[|p| - 2] / p[0] by {
        CompoundedReturnsTelescope(q);
      }
      GrowthFactorSnoc(Returns(q), x);
      TelescopeStep(GrowthFactor(Returns(p)), f, x, p[0], p[|p| - 2], p[|p| - 1]);
    } else {
      DivSelf(p[0]);
    }
  }

  lemma GrowthFactorSnoc(r: seq<real>, x: real)
    ensures GrowthFactor(r + [x]) == GrowthFactor(r) * (1.0 + x)
  {
    assert (r + [x])[..|r|] == r;
  }

  /** One more period: from a factor b / a and a return c / b - 1 to the factor c / a. */
  lemma TelescopeStep(g: real, f: real, x: real, a: real, b: real, c: real)
    requires a != 0.0 && b != 0.0
    requires g == f * (1.0 + x) && f == b / a && x == c / b - 1.0
    ensures g == c / a
  {
    RatiosCompose(a, b, c);
  }

  /** The cumulative return reported for a usable frame is the compounded return series. */
  lemma CumulativeMatchesCompounding(df: Frame)
    requires Wf(df) && ValidateData(df)
    ensures CalculateMetrics(df).cumulativeReturn == Some(GrowthFactor(Returns(df.close)) - 1.0)
  {
    var p := df.close;
    assert CalculateMetrics(df).cumulativeReturn == Some(CumulativeReturn(p));
    assert CumulativeReturn(p) == p[|p| - 1] / p[0] - 1.0;
    CompoundedReturnsTelescope(p);
  }

  /** Prices whose ratio is g every period have the return g - 1 every period. */
  lemma SteadyReturns(p: seq<real>, g: real)
    requires AllPositive(p)
    requires forall i :: 0 <= i < |p| - 1 ==> p[i + 1] / p[i] == g
    ensures forall i :: 0 <= i < |Returns(p)| ==> Returns(p)[i] == g - 1.0
  {
    forall i | 0 <= i < |Returns(p)| ensures Returns(p)[i] == g - 1.0 {
      ReturnsAt(p, i);
    }
  }

  /** When prices grow by the same factor every period, volatility is zero. */
  lemma SteadyGrowthHasZeroVolatility(df: Frame, g: real)
    requires Wf(df) && ValidateData(df) && |df.close| >= 2
    requires forall i :: 0 <= i < |df.close| - 1 ==> df.close[i + 1] / df.close[i] == g
    ensures CalculateMetrics(df).averageReturn == Some(g - 1.0)
    ensures CalculateMetrics(df).variance == Some(0.0)
  {
    SteadyReturns(df.close, g);
    ConstantHasZeroVariance(Returns(df.close), g - 1.0);
  }
}
