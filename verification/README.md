# Double top / double bottom backtester: a Dafny model

This project models the core of a small pattern-trading backtester. A price
frame of OHLCV bars flows through four stages:

1. **Extrema detection** (`peaks.dfy`, module `Peaks`): local maxima and
   minima of one price column. This comes in two variants:
   - the strict `argrelextrema` test in clip mode;
   - the centred rolling-window test.
2. **Pattern matching** (`double_patterns.dfy`, module `DoublePatterns`):
   - pairs of peaks (troughs) that pass the spacing and price-similarity
     filters;
   - the neckline, which is the lowest low (highest high) between the two
     extrema;
   - the first close in the lookahead window that breaks the neckline.
3. **Signals to positions and statistics** (`portfolio.dfy`, module
   `Portfolio`):
   - forward-filling buy and sell seeds into a boolean position series;
   - per-bar strategy returns with next-open entry and the open two bars
     ahead as exit;
   - trade counts, maximum drawdown, profit factor, the equity curve and the
     trade log.
4. **Strategies** (`strategy.dfy`, module `Strategies`): the two
   double-pattern strategies.
   - `DoubleTopBottomStrategy`: buy on a double bottom in `low`, sell on a
     double top in `high`.
   - `DoubleBottomOnlyStrategy`: buy on a double bottom, sell `hold_bars`
     bars later.
   - For both: their configuration defaults, and the `backtest` wiring into
     the portfolio.

Supporting modules:
- `wrappers.dfy`: `Option` and `Result`, and the error kinds the source
  raises.
  - `ColumnNotFound` is the `ValueError` of `find_peaks`.
  - `MissingKey` is the `KeyError` of a missing column.
  - `BadOrder` is scipy's rejection of `order < 1`.
  - `IndexOutOfRange` is pandas' `IndexError` from `iloc`.
- `series.dfy`: counting, flagged offsets, min/max and sums over sequences.
- `frame.dfy`: the bar frame, with column access by name.

Prices are `real`, so there is no floating-point rounding. Bars are addressed
by offset. The frame's index is a strictly increasing timestamp column, so
the source's `index.get_loc` is the identity on offsets. The trade log's
rows come out in entry-time order because of that ordering.

## Where the model follows the code rather than its comments and docstrings

- **Both signals on one bar.** When buy and sell are both set, the buy wins.
  `np.where(buy, 1, np.where(sell, -1, nan))` tests buy first. The
  docstring of `signals_to_positions` (`backtester/src/portfolio/base.py:186-195`)
  does not say which signal wins.
- **Neckline range.** The comment at
  `backtester/src/patterns/double_patterns.py:76` speaks of the trough
  "between the two peaks". The code takes `iloc[idx1:idx2]`, the half-open
  range `[idx1, idx2)`, which includes the first peak and excludes the second.
- **Confirmation window.** The comment at
  `backtester/src/patterns/double_patterns.py:86` speaks of the bars "after
  the second peak".
  - The window starts at `idx2` itself, not after it.
  - It has `min(10, n - idx2 - 1)` bars, so it never reaches the last bar.
- **Edges of the position series.** The comment at
  `backtester/src/portfolio/base.py:153` says entries are where the position
  "goes from 0 to 1".
  - `positions.diff()` on a boolean series is an exclusive-or.
  - `== 1` therefore holds at every change of position, entries and exits
    alike.
  - So `count_trades` and the trade log count exits too.
- **Scipy's strict extrema.** The docstring at
  `backtester/src/patterns/peaks.py:12` says a peak is higher than `order`
  points on both sides.
  - Scipy's `argrelextrema` in its default `clip` mode compares with the
    neighbours clipped to the ends.
  - So a bar within `order` of an end is still tested, against fewer
    distinct points.
  - The first and last bar are never flagged, since a bar never strictly
    beats itself.
- **Stop loss.** The docstring at
  `backtester/src/strategies/double_top_bottom_strategy.py:112` says a
  position is sold after N bars "OR when price drops X%". `stop_loss_pct`
  is read but never used, so it has no effect on the signals.
- **Sell placement.**
  - Sells go to `min(o + hold_bars, n - 1)` through `iloc`.
  - A negative hold that lands in `[-n, 0)` wraps around to the end of the
    frame.
  - A position below `-n` raises `IndexError`.

## Model

| member | source | states |
|---|---|---|
| Peaks.ClipMatchesWindow | backtester/src/patterns/peaks.py:33 | scipy's clip-mode comparison against every shift up to `order` flags exactly the bars strictly above (below) every in-range neighbour within `order`, excluding the first and last bar |
| Peaks.FindPeaks | backtester/src/patterns/peaks.py:26-38 | a missing column raises ColumnNotFound before anything else; `order < 1` is rejected; otherwise one flag per bar, true exactly at strict local maxima within `order` |
| Peaks.FindTroughs | backtester/src/patterns/peaks.py:59-71 | the same as FindPeaks with strict local minima |
| Peaks.PeaksSeparated | backtester/src/patterns/peaks.py:33 | two detected peaks are more than `order` bars apart |
| Peaks.TroughsSeparated | backtester/src/patterns/peaks.py:66 | two detected troughs are more than `order` bars apart |
| Peaks.PeakIsNotTrough | backtester/src/patterns/peaks.py:33 | no bar is flagged both as a peak and as a trough of the same column |
| Peaks.IncreasingHasNoPeaks | backtester/src/patterns/peaks.py:33 | a strictly rising column has no peaks |
| Peaks.TroughsMirrorPeaks | backtester/src/patterns/peaks.py:66 | the troughs of a series are the peaks of its negation |
| Peaks.VShapeSingleTrough | backtester/src/patterns/peaks.py:66 | a strictly falling then strictly rising series has exactly one trough, at its bottom |
| Peaks.FindPeaksSimple | backtester/src/patterns/peaks.py:88-98 | a missing column raises KeyError; a negative window raises IndexError at the first out-of-range offset the loop reaches; otherwise a bar in `[window, n - window)` is flagged exactly when it equals its centred window's maximum |
| Peaks.FindTroughsSimple | backtester/src/patterns/peaks.py:115-125 | the same as FindPeaksSimple with the window minimum |
| Peaks.StrictPeakIsSimplePeak | backtester/src/patterns/peaks.py:88-98 | every strict peak at least `order` bars from both ends is also a rolling-window peak with `window = order` |
| DoublePatterns.Neckline | backtester/src/patterns/double_patterns.py:77-81 | for a top, the neckline is the lowest low attained in `[idx1, idx2)`; for a bottom, the highest high |
| DoublePatterns.FirstBreak | backtester/src/patterns/double_patterns.py:87-96 | the result is the first offset in the window whose close breaks the level; None means no close in the window breaks it |
| DoublePatterns.TestPairMeaning | backtester/src/patterns/double_patterns.py:61-96 | a pair yields a confirmation exactly when it passes the spacing and tolerance filters and some close in the lookahead window breaks its neckline; the confirmation is the first such close |
| DoublePatterns.ConfirmationMeaning | backtester/src/patterns/double_patterns.py:56-97 | for the first extremum of a pair, the scan over later extrema stops at the first partner that confirms; no confirmation means no partner confirms |
| DoublePatterns.MarkAll | backtester/src/patterns/double_patterns.py:56-97 | the outer loop keeps one flag per bar and adds at most one new flag per first extremum; the last extremum starts no pair |
| DoublePatterns.MarkAllFlags | backtester/src/patterns/double_patterns.py:56-97 | after the outer loop from a given first extremum on, a bar is flagged exactly when it was flagged before or is the confirmation recorded for one of those first extrema |
| DoublePatterns.MarkAllRecords | backtester/src/patterns/double_patterns.py:52-97 | starting from an all-False column, the final flags are exactly the bars recorded as the confirmation of some pair of extrema |
| DoublePatterns.DetectDoubleTop | backtester/src/patterns/double_patterns.py:46-99 | errors are exactly those of find_peaks; one flag per bar; a bar is flagged exactly when it is the recorded confirmation of some peak; there are fewer flags than peaks |
| DoublePatterns.DetectDoubleBottom | backtester/src/patterns/double_patterns.py:140-193 | the same as DetectDoubleTop over troughs of the trough column |
| DoublePatterns.DoubleTopFlagIsBreakdown | backtester/src/patterns/double_patterns.py:56-97 | every flagged bar closes below every low between two peaks that are `min..max` bars apart and within the tolerance; it lies in the ten bars from the second peak, and never on the last bar |
| DoublePatterns.DoubleBottomFlagIsBreakout | backtester/src/patterns/double_patterns.py:150-191 | every flagged bar closes above every high between two troughs that are `min..max` bars apart and within the tolerance; it lies in the ten bars from the second trough, and never on the last bar |
| DoublePatterns.FewExtremaNoFlags | backtester/src/patterns/double_patterns.py:52-53 | with fewer than two extrema nothing is flagged |
| DoublePatterns.DetectHeadAndShoulders | backtester/src/patterns/double_patterns.py:216-222 | the placeholder flags no bar |
| Portfolio.SignalsToPositions | backtester/src/portfolio/base.py:199-207 | a bar is in position exactly when it has a buy, or it has no sell and the previous bar was in position |
| Portfolio.PositionIsLastSeed | backtester/src/portfolio/base.py:199-207 | a bar is in position exactly when some earlier or same bar bought and no bar since then carried a buy or a sell |
| Portfolio.FlatBeforeFirstBuy | backtester/src/portfolio/base.py:205 | before the first buy the position is flat, because leading gaps fill with -1 |
| Portfolio.ChangesOnlyAtSignals | backtester/src/portfolio/base.py:199-207 | the position rises only on a buy and falls only on a sell without a buy |
| Portfolio.PositionsRoundTrip | backtester/src/portfolio/base.py:185-207 | a position series used as buys, with its negation as sells, comes back unchanged |
| Portfolio.CalculateReturns | backtester/src/portfolio/base.py:176-182 | the strategy return is the next-open to following-open change while in position and zero otherwise, including the last two bars; every return is above -100% |
| Portfolio.CountTrades | backtester/src/portfolio/base.py:63-71 | zero exactly when the position never changes; at most one per bar after the first |
| Portfolio.TradesAreEntriesPlusExits | backtester/src/portfolio/base.py:63-71 | the trade count is the number of entries plus the number of exits |
| Portfolio.CountWinningTrades | backtester/src/portfolio/base.py:73-76 | zero exactly when no return is positive; never more than the number of bars |
| Portfolio.WinnersAppend | backtester/src/portfolio/base.py:73-76 | appending a return adds one to the winning count exactly when that return is positive; with the empty series counting zero, the count is the number of positive returns |
| Portfolio.GrowthPositive | backtester/src/portfolio/base.py:80 | the cumulative product of `1 + r` stays positive when every return is above -100% |
| Portfolio.PeakAttained | backtester/src/portfolio/base.py:81 | the running maximum at a bar equals the value at some earlier or same bar |
| Portfolio.WorstAttained | backtester/src/portfolio/base.py:82-84 | the minimum drawdown is the drawdown at some bar |
| Portfolio.MaxDrawdown | backtester/src/portfolio/base.py:78-85 | no value for an empty series; otherwise a percentage in `[0, 100)` |
| Portfolio.MaxDrawdownIsWorst | backtester/src/portfolio/base.py:78-85 | the cumulative growth stays positive, and the percentage is `-100` times the worst drawdown below its running maximum |
| Portfolio.DeclineWithin | backtester/src/portfolio/base.py:81-82 | a value is no lower than any earlier value scaled by `1 + w`, for any `w` at most its drawdown from the running maximum |
| Portfolio.SeriesDeclineBound | backtester/src/portfolio/base.py:80-84 | in a positive series, no later value falls below an earlier one by more than the worst drawdown |
| Portfolio.SeriesDeclineAttained | backtester/src/portfolio/base.py:80-84 | in a non-empty positive series, some pair of an earlier and a later value falls by exactly the worst drawdown |
| Portfolio.DrawdownBoundsDecline | backtester/src/portfolio/base.py:78-85 | no later cumulative value falls below an earlier one by more than the maximum drawdown, as a fraction |
| Portfolio.DrawdownAttained | backtester/src/portfolio/base.py:78-85 | some earlier and later bar of the cumulative growth are exactly the maximum drawdown apart, as a fraction |
| Portfolio.FlatReturnsNoDrawdown | backtester/src/portfolio/base.py:78-85 | all-zero returns give a zero drawdown |
| Portfolio.EquityCurve | backtester/src/portfolio/base.py:128-141 | the equity starts from the initial balance of 1000 and each bar compounds the previous equity by that bar's return |
| Portfolio.EquityPositive | backtester/src/portfolio/base.py:128-141 | equity stays positive when every return is above -100% |
| Portfolio.FlatEquity | backtester/src/portfolio/base.py:128-141 | all-zero returns keep equity at the initial balance |
| Portfolio.CalculateProfitFactor | backtester/src/portfolio/base.py:112-126 | infinite exactly when there are gains but no losses; zero when all returns are zero; never negative; otherwise gross gain divided by gross loss |
| Portfolio.RowAt | backtester/src/portfolio/base.py:159-171 | a trade row enters at the next bar's open and exits at the open two bars ahead; its return, percentage and dollar profit on the 1000 volume are derived from those prices |
| Portfolio.LoggedOffsets | backtester/src/portfolio/base.py:151-159 | the logged offsets are in ascending order and are exactly the position changes with two bars after them; there are no more of them than trades |
| Portfolio.TradeLog | backtester/src/portfolio/base.py:143-173 | every row belongs to a loggable position change; every loggable change has its row; there are no more rows than trades; rows are in entry-time order |
| Portfolio.EntryRowMatchesReturn | backtester/src/portfolio/base.py:143-182 | an entry's logged return equals the strategy return on that bar |
| Portfolio.TradeLogRecordsExits | backtester/src/portfolio/base.py:151-171 | an exit bar also gets a row, although the strategy return there is zero |
| Portfolio.Summarise | backtester/src/portfolio/base.py:12-38 | keeps the positions, returns and trade log given; the equity curve, trade count, winning count, maximum drawdown and profit factor are those of EquityCurve, CountTrades, CountWinningTrades, MaxDrawdown and CalculateProfitFactor over them; a drawdown exists exactly for a non-empty frame; trades and winning trades never exceed the number of bars |
| Portfolio.NewPortfolio | backtester/src/portfolio/base.py:9-14 | the portfolio keeps the positions; its returns are CalculateReturns of the frame and positions, its trade log is TradeLog's, and every statistic is the one its computing member gives over those returns; a non-zero return only occurs in position with two bars left; a drawdown exists exactly for a non-empty frame |
| Portfolio.FromSignals | backtester/src/portfolio/base.py:215-219 | positions are exactly the bars held since an uninterrupted buy; a return is only earned on such bars; the state is the portfolio built over those positions, with all its statistics and its trade log |
| Portfolio.NoBuyNoActivity | backtester/src/portfolio/base.py:215-219 | without buys the portfolio is flat: no trades, no winners, zero drawdown, profit factor 0, equity at 1000 and an empty trade log |
| Strategies.DefaultConfiguration | backtester/src/strategies/double_top_bottom_strategy.py:33-40 | `ConfigureTopBottom` and `ConfigureBottomOnly` (the two `configure` methods, also lines 127-137), without overrides, give tolerance 0.02, spacing 10..100, orders 5, hold 20 and stop loss 0.03 |
| Strategies.OverridesWin | backtester/src/strategies/double_top_bottom_strategy.py:127-137 | in `ConfigureTopBottom` and `ConfigureBottomOnly` (also lines 33-40), every supplied configuration value replaces its default unchecked |
| Strategies.TopBottomSignals | backtester/src/strategies/double_top_bottom_strategy.py:47-100 | a bad peak order is reported before a bad trough order; otherwise buys are exactly the double-bottom confirmations in `low` and sells the double-top confirmations in `high` |
| Strategies.ILoc | backtester/src/strategies/double_top_bottom_strategy.py:176 | a position is addressable exactly in `[-n, n)`, and a negative one counts from the end |
| Strategies.PlaceSells | backtester/src/strategies/double_top_bottom_strategy.py:172-176 | placement fails exactly when some buy's sell position is out of range; otherwise a bar is flagged exactly when it was flagged already or is some buy's sell slot |
| Strategies.HoldSignals | backtester/src/strategies/double_top_bottom_strategy.py:165-183 | buys are passed on unchanged; placement fails exactly when some buy's sell position falls below `-n`; otherwise sells are exactly the sell slots of buys, never more sells than buys |
| Strategies.NonNegativeHoldSells | backtester/src/strategies/double_top_bottom_strategy.py:173-176 | with a non-negative hold, placement succeeds and a bar sells exactly when it is `min(o + hold, n - 1)` for some buy `o` |
| Strategies.NoBuyNoSell | backtester/src/strategies/double_top_bottom_strategy.py:169-176 | without buys no sell is placed |
| Strategies.BottomOnlySignals | backtester/src/strategies/double_top_bottom_strategy.py:144-183 | a bad trough order is rejected; otherwise the signals fail exactly when some double bottom's sell position lies below `-n`; buys are the double-bottom flags; a bar sells exactly when some buy's `min(o + hold_bars, n - 1)` lands on it through `iloc`; there are never more sells than buys |
| Strategies.StopLossUnused | backtester/src/strategies/double_top_bottom_strategy.py:137 | the stop-loss setting does not affect the signals |
| Strategies.BacktestTopBottom | backtester/src/strategies/base_strategy.py:111-140 | the backtest fails exactly on a bad order; otherwise it is the portfolio built from the top-bottom signals; any bar in position follows a confirmed double bottom at or before it |
| Strategies.BacktestBottomOnly | backtester/src/strategies/base_strategy.py:111-140 | the backtest fails exactly when the bottom-only signals fail; with a positive hold period, every bar in position lies less than `hold_bars` bars after a confirmed double bottom in `low` |
| Strategies.BottomOnlyHeldWithinHold | backtester/src/strategies/double_top_bottom_strategy.py:165-176 | when buys are confirmed double bottoms, sells sit `hold_bars` after them and positions forward-fill, every bar in position lies less than `hold_bars` bars after a confirmed double bottom |
| Strategies.HeldNearBuys | backtester/src/strategies/double_top_bottom_strategy.py:169-176 | with a positive hold period, every bar in position lies less than `hold` bars after some buy, because that buy's own sell would have closed the position |
| Strategies.PositionEndsAfterHold | backtester/src/strategies/double_top_bottom_strategy.py:169-176 | with a positive hold, a bar is in position only if a buy happened within the last `hold` bars |

## Left out

- `calculate_stats`, `get_stats`: left out.
  - These only assemble the other statistics into a DataFrame, rounding to 2
    or 4 digits.
  - The total profit, win rate and average return are plain arithmetic over
    the modelled returns.
- `calculate_sharpe_ratio`: left out. It needs a square root and a standard
  deviation over floats.
- `signals_to_positions`: the multi-column DataFrame branch is left out.
  - The same applies to the DataFrame branches of `count_trades` and
    `count_winning_trades`.
  - Each column behaves as the modelled single series.
- `detect_double_top`, `detect_double_bottom`: the intervening extremum's
  offset (`trough_idx`, `peak_idx`) is computed but never used, so it is
  left out.
- Positivity is required only where the source divides:
  - The double-pattern detectors need a positive analysed column
    (`PositiveColumn`), because the pair test divides by the first extremum.
  - Returns, the trade log and the portfolio need positive opens
    (`Positive(b.open)`).
  - The strategies take well-formed frames (`WellFormed`).
  - The peak detectors need only aligned columns (`Aligned`).
  - The position, trade-count, winning-count, equity and profit-factor
    members take plain sequences and require nothing of prices.
  - The drawdown requires every return to exceed -1, which the returns of
    positive opens do.
  - When the analysed column is `volume`, a zero volume is excluded too
    (`PositiveColumn`).
  - With a zero price or volume the source divides by zero and yields
    infinities or NaN.
  - NaN propagation and floating-point rounding are not modelled.
- Frames whose index is not strictly increasing are out of scope.
  - With duplicate timestamps, `index.get_loc` would return a slice or mask.
  - An unsorted but unique index is also out of scope, although the source
    handles it. The model treats the index as offsets, and the trade log's
    entry-time ordering relies on a sorted index.
- Logging, plotting, `summary`, `get_signals_dataframe` and
  `get_trade_count` are left out, as are the data-loading scripts, the
  database and the web backend. They are I/O or presentation around the
  modelled core.
