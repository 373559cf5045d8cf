/** `plot_monetary_returns_pie`: percentages of the total investment, keeping positive slices. */
module Pie {
  import opened Options
  import opened Statistics

  /** The labels and percentages handed to the pie chart, kept in step. */
  datatype PieSlices = PieSlices(labels: seq<string>, percents: seq<real>)

  /** Each value as a percentage of the total investment. */
  function Normalize(values: seq<real>, total: real): (r: seq<real>)
    ensures |r| == |values|
    ensures total > 0.0 ==> forall i :: 0 <= i < |r| ==> (r[i] > 0.0 <==> values[i] > 0.0)
    ensures total <= 0.0 ==> forall i :: 0 <= i < |r| ==> r[i] == 0.0
  {
    seq(|values|, i requires 0 <= i < |values| => if total > 0.0 then values[i] / total * 100.0 else 0.0)
  }

  /** Indices below n whose normalised value is positive, in increasing order. */
  function KeptIndices(norm: seq<real>, n: nat): (idx: seq<nat>)
    requires n <= |norm|
    ensures forall k :: 0 <= k < |idx| ==> idx[k] < n && norm[idx[k]] > 0.0
    ensures forall k, l :: 0 <= k < l < |idx| ==> idx[k] < idx[l]
  {
    if n == 0 then []
    else
      var prev := KeptIndices(norm, n - 1);
      if norm[n - 1] > 0.0 then prev + [n - 1] else prev
  }

  /** Every positive position below n is kept. */
  lemma {:induction false} KeptIndicesComplete(norm: seq<real>, n: nat, j: nat)
    requires n <= |norm| && j < n && norm[j] > 0.0
    ensures j in KeptIndices(norm, n)
  {
    if j < n - 1 {
      KeptIndicesComplete(norm, n - 1, j);
    }
    assert norm[n - 1] > 0.0 ==> KeptIndices(norm, n) == KeptIndices(norm, n - 1) + [n - 1];
  }

  /** The elements of `xs` at the positions `idx`. */
  function Pick<T>(xs: seq<T>, idx: seq<nat>): (r: seq<T>)
    requires forall k :: 0 <= k < |idx| ==> idx[k] < |xs|
    ensures |r| == |idx|
    ensures forall k :: 0 <= k < |idx| ==> r[k] == xs[idx[k]]
  {
    seq(|idx|, k requires 0 <= k < |idx| => xs[idx[k]])
  }

  lemma PickSnoc<T>(xs: seq<T>, idx: seq<nat>, j: nat)
    requires forall k :: 0 <= k < |idx| ==> idx[k] < |xs|
    requires j < |xs|
    ensures Pick(xs, idx + [j]) == Pick(xs, idx) + [xs[j]]
  {
  }

  function Min(a: nat, b: nat): nat {
    if a <= b then a else b
  }

  /**
   * The input check, normalisation and filtering of `plot_monetary_returns_pie`.
   * Labels and percentages are paired as `zip` pairs them, so only the first
   * min(|labels|, |values|) of each take part. `None` is the warning case.
   */
  method MonetaryReturnsPie(labels: seq<string>, values: seq<real>, totalInvestment: real)
    returns (slices: Option<PieSlices>)
    ensures slices.None? <==>
      labels == [] || values == [] || totalInvestment <= 0.0 ||
      forall j :: 0 <= j < Min(|labels|, |values|) ==> values[j] <= 0.0
    ensures slices.Some? ==>
      var kept := KeptIndices(Normalize(values, totalInvestment), Min(|labels|, |values|));
      slices.value.labels == Pick(labels, kept) &&
      slices.value.percents == Pick(Normalize(values, totalInvestment), kept)
    ensures slices.Some? ==>
      |slices.value.labels| == |slices.value.percents| > 0 &&
      forall k :: 0 <= k < |slices.value.percents| ==> slices.value.percents[k] > 0.0
  {
    if labels == [] || values == [] || totalInvestment <= 0.0 {
      return None;
    }
    var normalized := Normalize(values, totalInvestment);
    var n := Min(|labels|, |values|);
    var filteredLabels: seq<string> := [];
    var filteredValues: seq<real> := [];
    for i := 0 to n
      invariant filteredLabels == Pick(labels, KeptIndices(normalized, i))
      invariant filteredValues == Pick(normalized, KeptIndices(normalized, i))
    {
      var name, share := labels[i], normalized[i];
      ghost var before := KeptIndices(normalized, i);
      if !(share <= 0.0) {
        PickSnoc(labels, before, i);
        PickSnoc(normalized, before, i);
        filteredLabels := filteredLabels + [name];
        filteredValues := filteredValues + [share];
      }
    }
    if filteredLabels == [] || filteredValues == [] {
      NothingKeptMeansNoGain(values, totalInvestment, n);
      return None;
    }
    PositiveShareMeansGain(values, totalInvestment, n);
    slices := Some(PieSlices(filteredLabels, filteredValues));
  }

  /** A percentage is positive exactly when the value is (the total being positive). */
  lemma PercentSign(v: real, total: real)
    requires total > 0.0
    ensures v / total * 100.0 > 0.0 <==> v > 0.0
  {
    if v > 0.0 {
      assert v / total > 0.0;
    } else {
      assert v / total <= 0.0;
    }
  }

  lemma NothingKeptMeansNoGain(values: seq<real>, total: real, n: nat)
    requires total > 0.0 && n <= |values|
    requires KeptIndices(Normalize(values, total), n) == []
    ensures forall j :: 0 <= j < n ==> values[j] <= 0.0
  {
    forall j | 0 <= j < n ensures values[j] <= 0.0 {
      PercentSign(values[j], total);
      if values[j] > 0.0 {
        KeptIndicesComplete(Normalize(values, total), n, j);
      }
    }
  }

  lemma PositiveShareMeansGain(values: seq<real>, total: real, n: nat)
    requires total > 0.0 && n <= |values|
    requires KeptIndices(Normalize(values, total), n) != []
    ensures exists j :: 0 <= j < n && values[j] > 0.0
  {
    var j := KeptIndices(Normalize(values, total), n)[0];
    PercentSign(values[j], total);
  }

  /** Kept positions are exactly the positive values among the paired ones. */
  lemma KeptAreThePositiveValues(values: seq<real>, total: real, n: nat, j: nat)
    requires total > 0.0 && n <= |values|
    ensures j in KeptIndices(Normalize(values, total), n) <==> j < n && values[j] > 0.0
  {
    if j < n {
      PercentSign(values[j], total);
      if values[j] > 0.0 {
        KeptIndicesComplete(Normalize(values, total), n, j);
      }
    }
  }

  /** Normalising scales the sum: the percentages add up to sum * 100 / total. */
  lemma {:induction false} NormalizedSum(values: seq<real>, total: real)
    requires total > 0.0
    ensures Sum(Normalize(values, total)) == Sum(values) / total * 100.0
  {
    if values != [] {
      var init := values[..|values| - 1];
      NormalizedSum(init, total);
      var norm := Normalize(values, total);
      assert norm[..|norm| - 1] == Normalize(init, total);
      var x := values[|values| - 1];
      assert Sum(norm) == Sum(init) / total * 100.0 + x / total * 100.0;
      DistributeScale(Sum(init), x, total);
    }
  }

  lemma DistributeScale(a: real, b: real, total: real)
    requires total > 0.0
    ensures a / total * 100.0 + b / total * 100.0 == (a + b) / total * 100.0
  {
  }

  /**
   * When every value is a gain and the total is their sum, nothing is filtered
   * out and the slices make up exactly 100 percent.
   */
  lemma {:induction false} FullPieIsHundredPercent(labels: seq<string>, values: seq<real>)
    requires |values| <= |labels| && values != []
    requires forall j :: 0 <= j < |values| ==> values[j] > 0.0
    ensures Sum(values) > 0.0
    ensures Sum(Pick(Normalize(values, Sum(values)), KeptIndices(Normalize(values, Sum(values)), |values|))) == 100.0
  {
    PositiveSum(values);
    var total := Sum(values);
    var norm := Normalize(values, total);
    KeepAll(norm, |values|);
    assert Pick(norm, KeptIndices(norm, |values|)) == norm;
    NormalizedSum(values, total);
    DivSelf(total);
  }

  lemma {:induction false} PositiveSum(values: seq<real>)
    requires values != []
    requires forall j :: 0 <= j < |values| ==> values[j] > 0.0
    ensures Sum(values) > 0.0
  {
    if |values| > 1 {
      PositiveSum(values[..|values| - 1]);
    }
  }

  /** When every value below n is positive, all of 0..n-1 are kept. */
  lemma {:induction false} KeepAll(norm: seq<real>, n: nat)
    requires n <= |norm|
    requires forall j :: 0 <= j < n ==> norm[j] > 0.0
    ensures KeptIndices(norm, n) == seq(n, j => j)
  {
    if n > 0 {
      KeepAll(norm, n - 1);
      assert norm[n - 1] > 0.0;
      assert KeptIndices(norm, n) == KeptIndices(norm, n - 1) + [n - 1];
      assert seq(n - 1, j => j) + [n - 1] == seq(n, j => j);
    }
  }
}
