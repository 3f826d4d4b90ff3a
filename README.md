# Random-search rebalancing and moving-average crossover, in Dafny

This project models the index and sequence logic of two notebook scripts.
Both run a backtest with pandas; only `portfolio.py` uses vectorbt.

`portfolio.py` searches random portfolio weights for the best Sharpe ratio
and places them into vectorbt's order-based simulator. The model covers:

- the candidate weights (uniform draws divided by their sum);
- the one-time allocation matrix and the monthly one, with their
  first-row-of-month mask;
- the callbacks handed to the simulator: every-n-th-row rebalancing
  (`pre_sim_func_nb`), lookback-window selection with its insufficient-data
  guard and the best-of-N search (`pre_segment_func_nb`,
  `find_weights_nb`), and the per-asset target-percent order
  (`order_func_nb`).

`hello_algo_trading.py` is a moving-average crossover walkthrough. The model
covers the two rolling means, the long, short and combined position flags,
the buy and sell markers, daily and strategy returns, the cumulative product,
the running maximum floored at 1, the drawdown and the largest drawdown.

Modules:

- `Numeric` (numeric.dfy): a float64 is `NaN`, `NegInf`, `PosInf` or a
  finite real; IEEE `>` and IEEE division; sums.
- `RandomWeights` (random_weights.dfy): normalising a row of draws, and the
  loop that builds the candidate list.
- `WeightSearch` (weight_search.dfy): `find_weights_nb`. The method is
  proved against the specification function `Search`.
- `Rebalance` (rebalance.dfy): `pre_sim_func_nb` on an `array2<bool>`;
  `pre_segment_func_nb` writing into the `srb_sharpe` and `last_val_price`
  arrays; `order_func_nb`.
- `Allocation` (allocation.dfy): the `size` and `rb_size` matrices as
  `array2<Float>` filled by row assignment, and `rb_mask`.
- `Crossover` (crossover.dfy): rolling means, position flags, markers.
- `Evaluation` (evaluation.dfy): returns, cumulative product, running
  maximum, drawdown, and `Backtest`, the whole walkthrough.

pandas' NaN is `None` of `Option<real>`. Comparisons with it are false, and
the reductions used here (`cumprod`, `min`) skip it.

Three behaviours of the code are worth stating:

- A drawdown is not bounded below by -1. With short positions the
  cumulative product can turn negative. `Evaluation.ShortCanBreachTotalLoss`
  exhibits a drawdown of -2. `Evaluation.LongOnlyStaysAboveTotalLoss` proves
  the bound for runs without short positions.
- `pre_sim_func_nb` never rebalances row 0. Its first rebalancing row is
  `every_nth`, and no first-step rebalance is forced.
- A fixed lookback with `i == history_len` counts as insufficient data,
  because the guard is `i - history_len <= 0`.

## Model

| member | source | states |
|---|---|---|
| Numeric.Gt | portfolio.py:242 | IEEE `>`: false whenever either side is NaN, never true of a `-inf` left side or a `+inf` right side, and the ordinary `>` on finite values |
| Numeric.Div | portfolio.py:74 | IEEE `/` (also at line 226): a non-zero divisor gives a finite quotient that multiplies back to the dividend; a zero divisor gives NaN, `+inf` or `-inf` exactly as the dividend is zero, positive or negative |
| Numeric.NaNs | portfolio.py:231 | `np.full(n, np.nan)` (also at line 257): n entries, each NaN |
| RandomWeights.GenerateWeights | portfolio.py:71-75 | exactly `num_tests` candidates, each the normalised row of draws with `len(symbols)` entries, each either long-only and summing to 1 or all NaN |
| RandomWeights.Normalize | portfolio.py:74 | one weight per draw; when the total is non-zero every weight is finite and multiplying it back by the total recovers its draw |
| RandomWeights.NormalizeOutcome | portfolio.py:73-74 | a row of draws in [0, 1) sums to a positive total iff its normalisation is long-only and sums to 1, and sums to 0 iff it normalises to all NaN |
| RandomWeights.PositiveSumNormalizes | portfolio.py:73-74 | dividing draws with a positive sum by that sum gives finite weights in [0, 1] summing to 1 |
| RandomWeights.ZeroSumNormalizesToNaN | portfolio.py:73-74 | draws summing to 0 are all 0, and 0/0 makes every weight NaN |
| Allocation.Concat | portfolio.py:87 | every weight of every candidate appears in the concatenation, and every entry of it comes from some candidate |
| Allocation.ConcatLayout | portfolio.py:80-81 | with n weights per candidate, column `g * n + k` of the concatenation is weight k of candidate g, the column the tiled price panel gives that asset |
| Allocation.FullNaN | portfolio.py:86 | a fresh rows-by-columns matrix holding NaN everywhere |
| Allocation.AssignRow | portfolio.py:87 | `a[row, :] = flat` sets that row to `flat` and changes nothing else |
| Allocation.OneTimeSize | portfolio.py:86-87 | row 0 holds the concatenated weights and every later row is NaN (no order) |
| Allocation.FirstOccurrence | portfolio.py:137 | one flag per key, and a flagged key was not seen before the scan |
| Allocation.FirstOccurrenceMeans | portfolio.py:137 | `~duplicated()` keeps a row iff its key was neither seen before the scan nor at any earlier row |
| Allocation.ToPeriod | portfolio.py:137 | `to_period('m')` of a date keeps its year and month |
| Allocation.Periods | portfolio.py:137 | one period per date, each that date's month |
| Allocation.Count | portfolio.py:138 | `rb_mask.sum()` is at most the number of rows, 0 iff no row is selected, and the number of rows iff every row is |
| Allocation.RebalanceMask | portfolio.py:137 | the mask is true at row 0 and true at row i iff no earlier row has the same calendar month |
| Allocation.MaskCountsMonths | portfolio.py:137-138 | the mask selects as many rows as the index has distinct months |
| Allocation.MaskMarksMonthStarts | portfolio.py:137 | on a chronological index the mask is true exactly at row 0 and where the month differs from the previous row's |
| Allocation.AssignMaskedRows | portfolio.py:142 | `a[mask, :] = flat` sets exactly the masked rows to `flat` |
| Allocation.MonthlySize | portfolio.py:141-142 | each row of `rb_size` holds the concatenated weights if it starts a month and NaN otherwise |
| Rebalance.PreSim | portfolio.py:216-220 | afterwards cell (i, g) of the segment mask is true iff `i >= every_nth` and `i % every_nth == 0`, in every column, whatever it held before |
| Rebalance.FillRow | portfolio.py:218-219 | `mask[row, :] = value` sets every column of that row and leaves every other row as it was |
| Rebalance.LookbackWindow | portfolio.py:251-258 | data is insufficient iff `history_len != -1` and `i <= history_len`; otherwise the window ends at i and has i rows (`-1`) or `history_len` rows |
| Rebalance.CloseWindow | portfolio.py:253-258 | the window holds `close[start + t, from_col + k]` at row t, column k, with as many rows as the slice selects |
| Rebalance.PreSegment | portfolio.py:250-273 | insufficient data returns all-NaN weights and changes nothing; otherwise it returns the search's weights, changes `srb_sharpe` only at i and `last_val_price` only on the group's columns, each set to this row's close |
| Rebalance.SetValuationPrices | portfolio.py:268-270 | the group's columns of `last_val_price` take row i's closes and every other column keeps its value |
| Rebalance.OrderFunc | portfolio.py:277-283 | a target-percent order priced at `close[i, col]` whose size is one of the weights |
| Rebalance.OrderTargetsOwnWeight | portfolio.py:277-283 | when `col == from_col + call_seq_now[call_idx]`, the size is the current column's own weight, and all-NaN weights place no order |
| WeightSearch.SimpleReturn | portfolio.py:226 | on a non-zero base price the return is finite and `base * (1 + r)` is the next price |
| WeightSearch.SimpleReturns | portfolio.py:226 | one row fewer than the window (none for an empty one), `width` entries per row, entry (t, j) the return of asset j from row t to row t + 1 |
| WeightSearch.WindowReturns | portfolio.py:226-227 | a window of n rows gives n - 2 rows of returns (none below 2), row t being the change from price row t + 1 to t + 2 |
| WeightSearch.FirstPriceRowIgnored | portfolio.py:226-227 | two windows differing only in their first row give the same returns |
| WeightSearch.BestOf | portfolio.py:231-244 | the result is the initial (-inf, all-NaN) pair or the score and weights of some candidate |
| WeightSearch.BestIsUpperBound | portfolio.py:232-244 | the best Sharpe ratio is never NaN and no candidate's score exceeds it |
| WeightSearch.NoImprovementKeepsInitial | portfolio.py:232-244 | the result stays -inf with all-NaN weights iff no candidate scores above -inf, for instance with no candidates |
| WeightSearch.BestIsEarliest | portfolio.py:242-244 | a found result is the earliest candidate with that score, because the update needs a strict `>` |
| WeightSearch.Search | portfolio.py:224-246 | the result is the initial pair or, for some row of draws, its normalised weights together with their Sharpe estimate over the window's returns |
| WeightSearch.SearchYieldsDistribution | portfolio.py:235-246 | with positive-sum draws the weights returned are long-only and sum to 1, or the search found nothing |
| WeightSearch.FindWeights | portfolio.py:224-246 | the loop returns exactly the best-of-N outcome over the normalised draws and the window's returns |
| Crossover.RollingMean | hello_algo_trading.py:99-100 | same length as the closes, and defined exactly from row `window - 1` on |
| Crossover.RollingMeanBounds | hello_algo_trading.py:99-100 | a rolling mean lies between the lowest and the highest close of its window |
| Crossover.RollingMeanCausal | hello_algo_trading.py:99-100 | closes that agree up to row t give the same rolling means up to row t |
| Crossover.LongFlag | hello_algo_trading.py:118 | the long flag is 0 or 1, and 1 exactly when both averages are defined and the short one is above the long one |
| Crossover.ShortFlag | hello_algo_trading.py:120 | the short flag is 0 or -1, and -1 exactly when both averages are defined and the short one is below the long one |
| Crossover.Position | hello_algo_trading.py:118-122 | the position is in {-1, 0, 1}: 1 iff short mean > long mean, -1 iff below, 0 iff equal or either undefined |
| Crossover.GenerateSignals | hello_algo_trading.py:99-122 | every column has one entry per close, long flags are 0 or 1, short flags -1 or 0 |
| Crossover.PositionsThreeValued | hello_algo_trading.py:117-122 | each position is the sum of the two flags, is in {-1, 0, 1}, and is 1, -1 or 0 exactly when the averages are above, below, or neither |
| Crossover.WarmUpIsFlat | hello_algo_trading.py:99-122 | before row `long_window - 1` (or `short_window - 1`) both flags and the position are 0 |
| Crossover.SignalsCausal | hello_algo_trading.py:99-122 | closes that agree up to row t give the same positions up to row t |
| Crossover.Markers | hello_algo_trading.py:132-137 | one marker per row, and row 0 (no previous flag) is never marked |
| Crossover.BuyMarksUpwardCross | hello_algo_trading.py:132-134 | a buy marker is exactly a row where the short mean is above the long one and was not on the previous row |
| Crossover.SellMarksDownwardCross | hello_algo_trading.py:135-137 | a sell marker is exactly a row where the short mean is below the long one and was not on the previous row |
| Evaluation.Change | hello_algo_trading.py:147 | the relative change between two positive closes exceeds -1 and carries the previous close to the current one |
| Evaluation.PctChange | hello_algo_trading.py:147 | undefined exactly at row 0; each later return exceeds -1 and `close[t-1] * (1 + r[t]) == close[t]` |
| Evaluation.StrategyReturns | hello_algo_trading.py:149 | defined iff t > 0 and the return is; the previous row's position earns nothing when flat, the return when long, and its negation when short |
| Evaluation.PlusOne | hello_algo_trading.py:151 | `strategy_returns + 1` is defined where the return is and exceeds it by exactly 1 |
| Evaluation.ProductSnoc | hello_algo_trading.py:151 | appending an entry multiplies the product of the defined entries by it |
| Evaluation.CumProdFrom | hello_algo_trading.py:151 | the scan keeps the length and is defined exactly where its input is |
| Evaluation.ProductFromIsProduct | hello_algo_trading.py:151 | multiplying the defined entries in one at a time, starting from `acc`, gives `acc` times their product |
| Evaluation.CumProdFromIsFold | hello_algo_trading.py:151 | each defined row of the scan holds the running product carried through that row |
| Evaluation.CumProdFromIsProduct | hello_algo_trading.py:151 | each defined row of the scan is the running factor times the product of the defined entries up to that row |
| Evaluation.CumulativeReturns | hello_algo_trading.py:151 | one cumulative return per row, defined exactly where the strategy return is |
| Evaluation.CumulativeIsProduct | hello_algo_trading.py:151 | a cumulative return is defined iff the strategy return is, and is then the product of `1 + r` over the defined rows so far |
| Evaluation.CumulativeCompounds | hello_algo_trading.py:151 | on consecutive defined rows, the cumulative return at t is the one at t - 1 times `1 + r[t]` |
| Evaluation.PrefixMax | hello_algo_trading.py:172 | the running maximum keeps the length and is defined exactly where the cumulative return is |
| Evaluation.PrefixMaxIsUpperBound | hello_algo_trading.py:172 | each defined row is at least every defined value up to it |
| Evaluation.PrefixMaxIsAttained | hello_algo_trading.py:172 | each defined row equals some defined value at or before it, so it is the maximum, not merely a bound |
| Evaluation.FloorAtOne | hello_algo_trading.py:174 | defined where its input is, at least 1 and at least the input, and equal to the input or to 1 |
| Evaluation.RunningMax | hello_algo_trading.py:172-174 | defined where the cumulative return is, at least 1, and at least the current cumulative return |
| Evaluation.RunningMaxMonotone | hello_algo_trading.py:172-174 | the floored running maximum never decreases across defined rows |
| Evaluation.PrefixMaxMonotone | hello_algo_trading.py:172 | before flooring at 1, the running maximum never decreases across defined rows |
| Evaluation.Drawdown | hello_algo_trading.py:176 | defined where the cumulative return is, and never positive |
| Evaluation.MinDefined | hello_algo_trading.py:177 | undefined iff no entry is defined; otherwise a defined entry that is at most every defined entry |
| Evaluation.MaxDrawdown | hello_algo_trading.py:177 | defined iff some drawdown is, and then 100 times a defined drawdown that is at most every defined drawdown, that is 100 times the smallest |
| Evaluation.Backtest | hello_algo_trading.py:99-177 | every column has one entry per close |
| Evaluation.DefinedFromRowOne | hello_algo_trading.py:147-176 | strategy returns, cumulative returns and drawdowns are undefined at row 0 and defined from row 1 on |
| Evaluation.DrawdownNonPositive | hello_algo_trading.py:176-177 | every drawdown and the largest drawdown are at most 0, and with two or more rows the largest drawdown is defined |
| Evaluation.LongOnlyFactorsPositive | hello_algo_trading.py:147-151 | with positions only 0 or 1 and returns above -1, every growth factor `1 + r` is positive |
| Evaluation.PositiveFactorsStayAboveTotalLoss | hello_algo_trading.py:151-176 | positive growth factors keep every cumulative return positive and every drawdown above -1 |
| Evaluation.PositiveAboveTotalLoss | hello_algo_trading.py:176 | a positive cumulative return has a drawdown above -1 |
| Evaluation.LongOnlyStaysAboveTotalLoss | hello_algo_trading.py:117-176 | without short positions every cumulative return is positive and every drawdown is above -1 |
| Evaluation.SellingAtRowOne | hello_algo_trading.py:99-122 | on closes 2, 1, 3 with windows 1 and 2 the position is flat at row 0 and short at row 1 |
| Evaluation.DrawdownAfterLosingShort | hello_algo_trading.py:151-176 | strategy returns undefined, 0, -2 give a drawdown of -2 at row 2 |
| Evaluation.ShortCanBreachTotalLoss | hello_algo_trading.py:117-176 | on closes 2, 1, 3 with windows 1 and 2 the drawdown at row 2 is -2, below a total loss |
| Evaluation.PctChangeCausal | hello_algo_trading.py:147 | closes that agree up to row t give the same daily returns up to row t |
| Evaluation.StrategyReturnsCausal | hello_algo_trading.py:149 | returns and positions that agree up to row t give the same strategy returns up to row t |
| Evaluation.CumulativeCausal | hello_algo_trading.py:151 | strategy returns that agree up to row t give the same cumulative returns up to row t |
| Evaluation.PlusOneCausal | hello_algo_trading.py:151 | strategy returns that agree up to row t give the same growth factors `1 + r` up to row t |
| Evaluation.PrefixMaxCausal | hello_algo_trading.py:172 | the running maximum up to row t depends only on the rows up to t |
| Evaluation.RunningMaxCausal | hello_algo_trading.py:172-174 | cumulative returns that agree up to row t give the same floored running maximum up to row t |
| Evaluation.DrawdownCausal | hello_algo_trading.py:172-176 | cumulative returns that agree up to row t give the same drawdowns up to row t |
| Evaluation.NoLookAhead | hello_algo_trading.py:99-176 | closes that agree up to row t give the same positions, strategy returns, cumulative returns and drawdowns up to row t |

## Left out

- The vectorbt simulator is not modelled: order execution, fills, fees, cash sharing, grouping, `Portfolio.from_orders`, `from_order_func`, `order_nb` and the statistics (`stats`, `sharpe_ratio`, `annualized_return`). `Rebalance.OrderFunc` returns the order description and stops there.
- `sort_call_seq_nb` (sell-before-buy ordering) and its `order_value_out` buffer and `Direction.LongOnly` argument are not modelled. `Rebalance.PreSegment` stops before that call, and the call sequence is an input of `Rebalance.OrderFunc`.
- The Sharpe estimate of a candidate (`nanmean_nb`, `np.cov`, the square root, the annualisation factor) is the parameter `sharpe` of `WeightSearch.FindWeights`: a total function of the window's returns and the weights.
- Random numbers (`np.random.seed`, `random_sample`) are inputs: each candidate is one given row of draws.
- Floating-point rounding is not modelled: a finite float64 is a real. NaN and the infinities come from division by zero, the initial `-inf` and all-NaN weights of the search, and the values `sharpe` returns.
- `Evaluation.PctChange`: requires positive closes. A zero close would make pandas return an infinity, and that path is not modelled.
- `Crossover.RollingMean`: requires a window of at least 1, as the walkthrough's windows of 50 and 200 are.
- `Rebalance.PreSim`: requires `every_nth > 0`. A zero step makes the Python slice raise, and a negative one walks backwards; neither path is modelled.
- `Allocation.OneTimeSize`: requires at least one row. On an empty index `size[0, :]` raises.
- `Crossover.Markers`: computes markers on the rows it is given. The walkthrough plots only the last 1500 rows, and passing that suffix gives its markers.
- `Allocation.MaskMarksMonthStarts`: assumes a chronological index, as a downloaded price history is. `Allocation.RebalanceMask` holds for any order.
- Annualised return, volatility and Sharpe ratio of the walkthrough, PyPortfolioOpt's efficient frontier, data download, plots and printing are not modelled. These are floating-point statistics, an external optimiser, and I/O.
- main.py is not part of this model. It consists of vectorbt calls only.
- The call sites of `pre_segment_func_nb` pass one argument more than its declaration takes. The model follows the declaration.
