# ETF dashboard core: metrics, growth simulation and selection helpers

A Dafny model of the financial logic of the ETF analysis dashboard
(`functionsappa.py`). The dashboard downloads price histories, then:

- checks that a price frame is usable (`validate_data`);
- translates the period label chosen in the interface into a provider code;
- derives the average return, the volatility and the cumulative return of a
  closing-price column (`calculate_metrics`);
- projects an investment year by year with compounding and a yearly
  contribution (`simulate_long_term_growth`);
- selects the tickers that have data before the comparison chart and the
  correlation matrix are drawn;
- turns monetary returns into pie-chart percentages and keeps only the
  positive slices (`plot_monetary_returns_pie`).

Prices and amounts are Dafny `real`, an idealisation of Python floats. A
price frame is the record `PriceFrames.Frame`. It holds the set of column
names, the number of rows and the `Close` column as a `seq<real>`. A
well-formed frame has one positive price per row. Python's `None` results
are `Options.Option`.

Modules, one per component of `functionsappa.py`:

| file | module | source |
|---|---|---|
| options.dfy | Options | `None` results |
| price_frames.dfy | PriceFrames | `validate_data` |
| periods.dfy | Periods | `period_mapping` in `get_etf_data` |
| statistics.dfy | Statistics | `np.mean`, `np.std` (as a variance) |
| metrics.dfy | Metrics | `calculate_metrics` |
| growth.dfy | Growth | `simulate_long_term_growth` |
| tickers.dfy | Tickers | ticker filters of `plot_comparative_performance` and `plot_correlation_heatmap` |
| pie.dfy | Pie | checks, normalisation and filter of `plot_monetary_returns_pie` |

The two loops of the source that build lists by appending stay loops here.
They are `Growth.SimulateLongTermGrowth` and `Pie.MonetaryReturnsPie`, and
each is proved against a specification function. The loop over tickers in
`plot_comparative_performance` is `Tickers.ComparativePerformance`. It has
three outputs: `plotted` and `warned` stand for the plot calls and the
warnings it issues, and `failed` names the ticker at which it raises
`KeyError`, if any. Everything else is functions and lemmas.

With exactly one closing price, `calculate_metrics` gives `None` for the
average return and the volatility but a cumulative return of 0. The returns
series is empty then, while the guard at `functionsappa.py:64` repeats
`not df.empty`, which always holds at that point. `Metrics.PriceMetrics`
states this behaviour.

A non-empty frame without a `Close` column never comes out of `get_etf_data`,
but the plotting helpers would meet it with a `KeyError` when they read
`data[ticker]['Close']`. `Tickers.ComparativePerformance` models that
exception as a `failed` result naming the ticker.

## Model

| member | source | states |
|---|---|---|
| PriceFrames.Validate | functionsappa.py:8-16 | The frame is accepted exactly when it is non-empty and has a `Close` column. An empty frame is refused for emptiness, whatever its columns. A non-empty frame without `Close` is refused for the missing column. |
| PriceFrames.ValidateData | functionsappa.py:8-16 | The boolean gate holds exactly when the frame has at least one row and a `Close` column. |
| PriceFrames.UsableHasPrices | functionsappa.py:58-64 | A usable frame has a first and a last closing price, both positive, so the endpoint ratio is defined. |
| Periods.MapPeriod | functionsappa.py:21-29 | The five interface labels map to `1y`, `3y`, `5y`, `10y`, `ytd`. Any other string is returned unchanged. The result is always a provider code or the input. |
| Periods.MapPeriodIdempotent | functionsappa.py:21-29 | Translating an already translated period changes nothing. |
| Periods.MapPeriodOntoCodes | functionsappa.py:21-29 | Every interface label lands on a provider code, and provider codes pass through unchanged. |
| Statistics.Mean | functionsappa.py:62 | The mean times the number of terms equals their sum. |
| Statistics.Sum | functionsappa.py:62 | The sum of the terms, accumulated front to back. It has no contract of its own. `Statistics.SumBounds` and `Statistics.Mean` state its properties. |
| Statistics.SumBounds | functionsappa.py:62 | n terms each within [lo, hi] sum to a value within [n * lo, n * hi]. |
| Statistics.Variance | functionsappa.py:63 | The population variance (divisor = count), the square of `np.std`, is never negative. |
| Statistics.MeanBounds | functionsappa.py:62 | The mean lies between any lower and upper bound of the terms. |
| Statistics.ConstantHasZeroVariance | functionsappa.py:62-63 | Equal terms have that value as mean and zero variance. |
| Metrics.Returns | functionsappa.py:61 | `pct_change().dropna()` on n positive prices has n - 1 entries (none for n < 2). |
| Metrics.ReturnsAt | functionsappa.py:61 | Entry i of the returns is `p[i+1]/p[i] - 1`. |
| Metrics.CumulativeReturn | functionsappa.py:64 | (1 + cumulative return) times the first price is the last price. With one price the cumulative return is 0. |
| Metrics.PriceMetrics | functionsappa.py:61-65 | For a usable price column: the cumulative return is always present and ties the first price to the last. Average return and volatility are present exactly when there are at least two prices. The average times the count of returns is their sum. The volatility entry is the population variance of the returns and is at least 0. With one price the cumulative return is `Some(0)`. |
| Metrics.CalculateMetrics | functionsappa.py:56-65 | All three results are `None` exactly when the frame is empty or lacks `Close`. Otherwise the result is `PriceMetrics` of the closing column. |
| Metrics.CompoundedReturnsTelescope | functionsappa.py:61-64 | Compounding every period's return, the product of (1 + r[i]), gives the endpoint ratio `p[last]/p[0]`. |
| Metrics.CumulativeMatchesCompounding | functionsappa.py:61-64 | With no missing price, the reported cumulative return equals the compounded return series minus one. |
| Metrics.SteadyReturns | functionsappa.py:61 | Prices whose period ratio is always g have the return g - 1 in every period. |
| Metrics.SteadyGrowthHasZeroVolatility | functionsappa.py:61-63 | For a usable frame with at least two prices that grow by the same ratio g every period, the average return is g - 1 and the volatility is 0. |
| Growth.Balance | functionsappa.py:179 | The balance after year k: the previous balance times (1 + return), plus the contribution. It has no contract of its own. `Growth.SimulateLongTermGrowth` states the recurrence, and the lemmas below state its properties. |
| Growth.Horizon | functionsappa.py:178 | The count of years the loop runs through: the length of `range(1, years + 1)`, whose entries are 1, 2, ..., in order. |
| Growth.Trajectory | functionsappa.py:177-180 | The list for horizon n has n + 1 balances and starts at the initial amount. |
| Growth.SimulateLongTermGrowth | functionsappa.py:175-181 | The result has max(years, 0) + 1 entries. Entry 0 is the initial amount. Each later entry is the previous one times (1 + return), plus the contribution added after the growth. The result equals the specification trajectory. |
| Growth.NoHorizonIsInitialOnly | functionsappa.py:177-178 | A horizon of zero or less yields exactly the list holding the initial amount. |
| Growth.TrajectoryPrefix | functionsappa.py:178-180 | The list for a shorter horizon is a prefix of the list for a longer horizon. |
| Growth.ZeroReturnIsLinear | functionsappa.py:179 | With a zero return, year k holds the initial amount plus k contributions. |
| Growth.NoContributionCompounds | functionsappa.py:179 | With no contribution, year k holds the initial amount times (1 + return)^k. |
| Growth.ClosedForm | functionsappa.py:177-180 | Year k holds initial * g^k + contribution * (1 + g + ... + g^(k-1)), where g = 1 + return. |
| Growth.ClosedFormStep | functionsappa.py:179 | If the closed form holds for year k - 1, one more step of the recurrence makes it hold for year k. |
| Growth.GeometricSumClosedForm | functionsappa.py:179 | The contribution factor times (g - 1) is g^k - 1. |
| Growth.BalanceRestart | functionsappa.py:177-180 | Running m + n years equals running m years, then n more years from the balance reached. |
| Growth.TrajectoryRestart | functionsappa.py:177-181 | The list for m + n years is the list for m years followed by the list restarted from its last balance, without that list's first entry. The restarted list begins with the balance reached after m years. Fed back with horizon 0, that balance comes back as the one-entry list holding it. |
| Growth.GrowthIsMonotone | functionsappa.py:179 | A non-negative amount, contribution and return give balances that are non-negative and never decrease. |
| Growth.ZeroReturnExample | functionsappa.py:175-181 | 1000 with 100 a year at 0% gives 1000, 1100, 1200, 1300. |
| Growth.CompoundingExample | functionsappa.py:175-181 | 1000 at 10% with no contribution gives 1000, 1100. |
| Tickers.HasData | functionsappa.py:86 | A ticker has data exactly when its frame exists and `validate_data` would not refuse it as empty. |
| Tickers.MissingClose | functionsappa.py:86-87 | A ticker fails at the `Close` read exactly when its frame exists and `validate_data` would refuse it for the missing column. |
| Tickers.FirstMissingClose | functionsappa.py:85-87 | The first requested ticker whose `Close` read raises `KeyError`, if any. It is one of the requested tickers, and it lacks the column. |
| Tickers.NoMissingClose | functionsappa.py:85-87 | No `KeyError` is raised exactly when no requested ticker lacks its closing column. |
| Tickers.StopsAt | functionsappa.py:85-87 | If the tickers before position i read fine and ticker i lacks `Close`, ticker i is where the loop stops. |
| Tickers.WithData | functionsappa.py:86 | A ticker is kept exactly when it was requested and has a non-empty frame. The result is no longer than the request. |
| Tickers.WithoutData | functionsappa.py:85-89 | A ticker is warned about exactly when it was requested and has no frame or an empty one. |
| Tickers.WithDataKeepsOrder | functionsappa.py:85-89 | Both the kept and the warned tickers are subsequences of the request, so requested order is preserved. |
| Tickers.SplitIsPartition | functionsappa.py:85-89 | The kept and the warned tickers together are as many as the requested ones. |
| Tickers.ComparativePerformance | functionsappa.py:85-89 | The loop fails exactly at the first ticker that has data but no `Close` column (the `KeyError`). It then has plotted and warned about exactly the tickers before that one. Without a failure, it plots exactly the tickers with data and warns about exactly the others, each in requested order, and every requested ticker is counted once. |
| Tickers.CorrelationTickers | functionsappa.py:99-102 | The result is `None` exactly when every requested frame is empty. Otherwise it holds exactly the requested tickers with a non-empty frame, as a subsequence of the request. |
| Tickers.CorrelationFailsLikeComparison | functionsappa.py:99-104 | Reading the closing columns of the kept tickers raises `KeyError` for the same ticker as the comparison chart does. |
| Tickers.CorrelationMatchesComparison | functionsappa.py:86-99 | When some ticker has data, the correlation matrix is built from exactly the tickers the comparison chart plots. |
| Pie.Normalize | functionsappa.py:150 | There is one percentage per value. With a positive total, a percentage is positive exactly when its value is. With a total of at most 0, every percentage is 0. |
| Pie.KeptIndices | functionsappa.py:153-158 | Kept positions are below the paired length, point at positive percentages and strictly increase. |
| Pie.KeptIndicesComplete | functionsappa.py:155-158 | Every position with a positive percentage is kept. |
| Pie.MonetaryReturnsPie | functionsappa.py:145-162 | The result is `None` exactly when labels are empty, values are empty, the total is at most 0, or no paired value is positive. Otherwise, the labels and percentages are the kept positions of the input labels and normalised values, in input order. The two lists have the same non-zero length and every percentage is positive. |
| Pie.PercentSign | functionsappa.py:150-156 | With a positive total, a percentage is positive exactly when its value is. |
| Pie.KeptAreThePositiveValues | functionsappa.py:150-158 | A position is kept exactly when it is within the zipped length and its value is positive. |
| Pie.NormalizedSum | functionsappa.py:150 | The percentages sum to (sum of values) / total * 100. |
| Pie.FullPieIsHundredPercent | functionsappa.py:150-158 | Take values that are all positive, with at least as many labels, and total them. Then nothing is filtered out and the slices add up to exactly 100. |

## Left out

- Metrics.CalculateMetrics: the "Volatility" entry is modelled as the population variance of the returns. `np.std` takes its square root, and the model leaves real square roots out.
- Metrics.CalculateMetrics: prices are positive and present in every row (`PriceFrames.Wf`). Division by a zero price and pandas' handling of missing prices in `pct_change` are not modelled.
- Tickers.CorrelationTickers: requires every requested ticker to be a key of the data map. The source looks each one up with `data[ticker]` and would raise `KeyError` otherwise. `get_etf_data` stores an entry for every requested ticker.
- Tickers.CorrelationTickers: returns the chosen tickers only. At `functionsappa.py:104`, the list comprehension reads `data[ticker]['Close']` before `pd.concat` is called. That read raises `KeyError` for a kept frame without `Close`, and `Tickers.CorrelationFailsLikeComparison` states this.
- Pie.MonetaryReturnsPie: the NaN and infinity tests of the filter are not modelled, because reals have no such values. The chart itself and the label-text loop at `functionsappa.py:169-170` are rendering and not modelled. That loop pairs `values[i]` with the i-th kept percentage.
- Growth.SimulateLongTermGrowth: `years` is an integer. A non-integer horizon, which Python's `range` rejects, is not modelled.
- Floating-point arithmetic: prices, returns and amounts are exact reals, so rounding, overflow and underflow are not modelled. For instance, a tiny positive value over a huge total can round to a 0% share and be filtered out of the pie, which the model keeps.
- The download loop of `get_etf_data` (`functionsappa.py:31-54`): network access through yfinance, its exception handling and `@st.cache_data` memoisation.
- The Pearson correlation matrix (`pct_change().corr()`, `functionsappa.py:104-107`): floating-point library numerics with NaN handling. Only the choice of tickers is modelled.
- All `st.warning` / `st.error` messages: user interface output. Where they mark a failure, the model returns `None` or a refusal reason.
- `plot_performance`, the chart parts of `plot_comparative_performance`, `plot_correlation_heatmap` and `plot_monetary_returns_pie`, `get_sector_allocation` and `plot_sector_allocation`: plotting and a remote API call.
- `appatrimonial.py` (page layout, session flags, widgets, the 20-day rolling mean for display) and `user_management.py` (CSV storage and SHA-256 hashing): interface and file input/output, not part of this model.
