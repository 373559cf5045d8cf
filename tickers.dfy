/** Selecting the tickers that have data, for the comparison chart and the correlation matrix. */
module Tickers {
  import opened Options
  import opened PriceFrames

  /**
   * A ticker has data when its download produced a frame that is not empty,
   * that is, one that `validate_data` does not refuse for missing data.
   */
  predicate HasData(data: map<string, Frame>, t: string)
    ensures HasData(data, t) <==> t in data && Validate(data[t]) != NoData
  {
    t in data && !IsEmpty(data[t])
  }

  /**
   * A ticker whose non-empty frame has no closing column: reading
   * `data[ticker]['Close']` for it raises `KeyError`.
   */
  predicate MissingClose(data: map<string, Frame>, t: string)
    ensures MissingClose(data, t) <==> t in data && Validate(data[t]) == NoClosePrices
  {
    HasData(data, t) && CloseColumn !in data[t].columns
  }

  /** The first ticker, in the order given, whose closing column would be read but is missing. */
  function FirstMissingClose(data: map<string, Frame>, tickers: seq<string>): (r: Option<string>)
    ensures r.Some? ==> r.value in tickers && MissingClose(data, r.value)
  {
    if tickers == [] then None
    else if MissingClose(data, tickers[0]) then Some(tickers[0])
    else FirstMissingClose(data, tickers[1..])
  }

  /** Nothing fails exactly when no ticker lacks its closing column. */
  lemma {:induction false} NoMissingClose(data: map<string, Frame>, tickers: seq<string>)
    ensures FirstMissingClose(data, tickers).None? <==>
      forall i :: 0 <= i < |tickers| ==> !MissingClose(data, tickers[i])
  {
    if tickers != [] {
      NoMissingClose(data, tickers[1..]);
      assert forall i :: 1 <= i < |tickers| ==> tickers[i] == tickers[1..][i - 1];
    }
  }

  /** When the tickers before position i are all readable and ticker i is not, ticker i is the failure. */
  lemma StopsAt(data: map<string, Frame>, tickers: seq<string>, i: nat)
    requires i < |tickers| && FirstMissingClose(data, tickers[..i]).None?
    requires MissingClose(data, tickers[i])
    ensures FirstMissingClose(data, tickers) == Some(tickers[i])
  {
    assert FirstMissingClose(data, [tickers[i]]) == Some(tickers[i]);
    assert tickers[..i + 1] == tickers[..i] + [tickers[i]];
    FirstMissingCloseAppend(data, tickers[..i], [tickers[i]]);
    assert tickers == tickers[..i + 1] + tickers[i + 1..];
    FirstMissingCloseAppend(data, tickers[..i + 1], tickers[i + 1..]);
  }

  /** The first failure of a concatenation is the first one of its front part, if any. */
  lemma {:induction false} FirstMissingCloseAppend(data: map<string, Frame>, front: seq<string>, back: seq<string>)
    ensures FirstMissingClose(data, front + back) ==
      if FirstMissingClose(data, front).Some? then FirstMissingClose(data, front)
      else FirstMissingClose(data, back)
  {
    if front != [] {
      assert (front + back)[1..] == front[1..] + back;
      FirstMissingCloseAppend(data, front[1..], back);
    } else {
      assert front + back == back;
    }
  }

  /** The tickers with data, in the order they were asked for. */
  function WithData(data: map<string, Frame>, tickers: seq<string>): (r: seq<string>)
    ensures |r| <= |tickers|
    ensures forall t :: t in r <==> t in tickers && HasData(data, t)
  {
    if tickers == [] then []
    else
      var rest := WithData(data, tickers[..|tickers| - 1]);
      var t := tickers[|tickers| - 1];
      assert tickers == tickers[..|tickers| - 1] + [t];
      if HasData(data, t) then rest + [t] else rest
  }

  /** The tickers without data, in the order they were asked for. */
  function WithoutData(data: map<string, Frame>, tickers: seq<string>): (r: seq<string>)
    ensures |r| <= |tickers|
    ensures forall t :: t in r <==> t in tickers && !HasData(data, t)
  {
    if tickers == [] then []
    else
      var rest := WithoutData(data, tickers[..|tickers| - 1]);
      var t := tickers[|tickers| - 1];
      assert tickers == tickers[..|tickers| - 1] + [t];
      if HasData(data, t) then rest else rest + [t]
  }

  /** `xs` can be obtained from `ys` by deleting elements. */
  predicate IsSubsequence(xs: seq<string>, ys: seq<string>)
    decreases |ys|
  {
    if xs == [] then true
    else if ys == [] then false
    else if xs[|xs| - 1] == ys[|ys| - 1] then IsSubsequence(xs[..|xs| - 1], ys[..|ys| - 1])
    else IsSubsequence(xs, ys[..|ys| - 1])
  }

  /** The filtered list keeps the requested order. */
  lemma {:induction false} WithDataKeepsOrder(data: map<string, Frame>, tickers: seq<string>)
    ensures IsSubsequence(WithData(data, tickers), tickers)
    ensures IsSubsequence(WithoutData(data, tickers), tickers)
  {
    if tickers != [] {
      WithDataKeepsOrder(data, tickers[..|tickers| - 1]);
    }
  }

  /** Every requested ticker is either plotted or warned about, never both, never lost. */
  lemma {:induction false} SplitIsPartition(data: map<string, Frame>, tickers: seq<string>)
    ensures |WithData(data, tickers)| + |WithoutData(data, tickers)| == |tickers|
  {
    if tickers != [] {
      SplitIsPartition(data, tickers[..|tickers| - 1]);
    }
  }

  /**
   * The loop of `plot_comparative_performance`: each ticker is either plotted
   * (it has a non-empty frame) or reported in a warning, in the order given.
   * `plotted` and `warned` stand for the sequence of plot calls and of warnings.
   * Plotting a frame without a closing column raises `KeyError`, which ends
   * the loop: `failed` names that ticker, and the outputs hold what was
   * plotted and warned about before it.
   */
  method ComparativePerformance(data: map<string, Frame>, tickers: seq<string>)
    returns (plotted: seq<string>, warned: seq<string>, failed: Option<string>)
    ensures failed == FirstMissingClose(data, tickers)
    ensures failed.None? ==>
      plotted == WithData(data, tickers) && warned == WithoutData(data, tickers) &&
      |plotted| + |warned| == |tickers|
    ensures failed.Some? ==>
      (exists j :: 0 <= j < |tickers| && tickers[j] == failed.value &&
        FirstMissingClose(data, tickers[..j]).None? &&
        plotted == WithData(data, tickers[..j]) && warned == WithoutData(data, tickers[..j]))
  {
    plotted, warned, failed := [], [], None;
    for i := 0 to |tickers|
      invariant FirstMissingClose(data, tickers[..i]).None?
      invariant plotted == WithData(data, tickers[..i])
      invariant warned == WithoutData(data, tickers[..i])
    {
      assert tickers[..i + 1][..i] == tickers[..i];
      var ticker := tickers[i];
      if ticker in data && !IsEmpty(data[ticker]) {
        if CloseColumn !in data[ticker].columns {
          failed := Some(ticker);
          StopsAt(data, tickers, i);
          assert tickers[i] == failed.value;
          return;
        }
        plotted := plotted + [ticker];
      } else {
        warned := warned + [ticker];
      }
      assert tickers[..i + 1] == tickers[..i] + [ticker];
      assert FirstMissingClose(data, [ticker]).None?;
      FirstMissingCloseAppend(data, tickers[..i], [ticker]);
    }
    assert tickers[..|tickers|] == tickers;
    assert failed == FirstMissingClose(data, tickers);
    SplitIsPartition(data, tickers);
  }

  /**
   * The filter of `plot_correlation_heatmap`: the tickers whose frame is not
   * empty, in order, or `None` when no ticker is left (the warning case).
   * Every ticker must be a key of `data`, as the download step guarantees.
   */
  function CorrelationTickers(data: map<string, Frame>, tickers: seq<string>): (r: Option<seq<string>>)
    requires forall i :: 0 <= i < |tickers| ==> tickers[i] in data
    ensures r.None? <==> forall i :: 0 <= i < |tickers| ==> IsEmpty(data[tickers[i]])
    ensures r.Some? ==> forall t :: t in r.value <==> t in tickers && !IsEmpty(data[t])
    ensures r.Some? ==> IsSubsequence(r.value, tickers)
  {
    WithDataKeepsOrder(data, tickers);
    var valid := WithData(data, tickers);
    if valid == [] then
      assert forall i :: 0 <= i < |tickers| ==> tickers[i] !in valid;
      None
    else
      var t := valid[0];
      assert t in tickers && !IsEmpty(data[t]);
      Some(valid)
  }

  /** The correlation matrix is built from exactly the tickers the comparison chart plots. */
  lemma CorrelationMatchesComparison(data: map<string, Frame>, tickers: seq<string>)
    requires forall i :: 0 <= i < |tickers| ==> tickers[i] in data
    requires exists i :: 0 <= i < |tickers| && !IsEmpty(data[tickers[i]])
    ensures CorrelationTickers(data, tickers) == Some(WithData(data, tickers))
  {
  }

  /**
   * The list comprehension passed to `pd.concat` reads the closing column of every kept
   * ticker, so it raises `KeyError` for the same ticker as the comparison
   * chart does: only tickers with data can lack a closing column.
   */
  lemma {:induction false} CorrelationFailsLikeComparison(data: map<string, Frame>, tickers: seq<string>)
    ensures FirstMissingClose(data, WithData(data, tickers)) == FirstMissingClose(data, tickers)
  {
    if tickers != [] {
      var init := tickers[..|tickers| - 1];
      var t := tickers[|tickers| - 1];
      assert tickers == init + [t];
      CorrelationFailsLikeComparison(data, init);
      FirstMissingCloseAppend(data, init, [t]);
      if HasData(data, t) {
        FirstMissingCloseAppend(data, WithData(data, init), [t]);
      }
    }
  }
}
